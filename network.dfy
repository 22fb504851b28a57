/** The fully connected feed-forward cascade network of include/fcc.hpp.
    A workspace of NumInsOuts slots holds the inputs, the bias slot (1.0) and
    one slot per neuron; neuron slot i sees every slot below it through its
    own slice of i weights, laid out one after the other in a flat array of
    NumWeights weights. Floats are modelled as reals and `cblas_sdot` as the
    exact dot product. */
module Network {

  /** The template parameters NumInput, NumNeurons and NumOutput. */
  datatype Layout = Layout(numInput: int, numNeurons: int, numOutput: int)
  {
    /** Non-negative sizes and the `static_assert` NumNeurons >= NumOutput. */
    predicate Valid()
    {
      numInput >= 0 && numOutput >= 0 && numNeurons >= numOutput
    }

    function NumIns(): int
    {
      numInput + 1
    }

    function NumInsOuts(): int
    {
      NumIns() + numNeurons
    }

    function NumWeights(): int
    {
      (numNeurons * (2 * numInput + 1 + numNeurons)) / 2
    }
  }

  /** Where the weight slice of neuron slot i starts: the sum of the lengths
      k of the slices of the slots k in [NumIns, i) before it. */
  function Offset(l: Layout, i: int): (o: int)
    requires l.Valid() && l.NumIns() <= i <= l.NumInsOuts()
    decreases i
  {
    if i == l.NumIns() then 0 else Offset(l, i - 1) + (i - 1)
  }

  /** Closed form of the offset: (i - NumIns) terms averaging (NumIns + i - 1) / 2. */
  lemma {:induction false} OffsetClosedForm(l: Layout, i: int)
    requires l.Valid() && l.NumIns() <= i <= l.NumInsOuts()
    ensures 2 * Offset(l, i) == (i - l.NumIns()) * (i + l.NumIns() - 1)
    decreases i
  {
    if i > l.NumIns() {
      OffsetClosedForm(l, i - 1);
      var n := l.NumIns();
      assert (i - n) * (i + n - 1) == (i - 1 - n) * (i - 1 + n - 1) + 2 * (i - 1);
    }
  }

  /** The division in NumWeights is exact, and NumWeights is exactly the
      number of weights the loop of `feed_forward` steps over. */
  lemma NumWeightsExact(l: Layout)
    requires l.Valid()
    ensures (l.numNeurons * (2 * l.numInput + 1 + l.numNeurons)) % 2 == 0
    ensures l.NumWeights() == Offset(l, l.NumInsOuts())
  {
    OffsetClosedForm(l, l.NumInsOuts());
    var n, m := l.numNeurons, l.numInput;
    assert l.NumInsOuts() - l.NumIns() == n && l.NumInsOuts() + l.NumIns() - 1 == 2 * m + 1 + n;
    HalfOfDouble(n * (2 * m + 1 + n), Offset(l, l.NumInsOuts()));
  }

  lemma HalfOfDouble(p: int, o: int)
    requires p == 2 * o
    ensures p % 2 == 0 && p / 2 == o
  {
  }

  /** The slice of slot i lies within the weights and ends where the slice
      of slot i + 1 starts, so the slices tile [0, NumWeights). */
  lemma SliceInBounds(l: Layout, i: int)
    requires l.Valid() && l.NumIns() <= i < l.NumInsOuts()
    ensures 0 <= Offset(l, i) && Offset(l, i) + i == Offset(l, i + 1) <= l.NumWeights()
  {
    OffsetMonotone(l, i, i);
    OffsetMonotone(l, i + 1, l.NumInsOuts());
    NumWeightsExact(l);
  }

  lemma {:induction false} OffsetMonotone(l: Layout, i: int, j: int)
    requires l.Valid() && l.NumIns() <= i <= j <= l.NumInsOuts()
    ensures 0 <= Offset(l, i) <= Offset(l, j)
    decreases j
  {
    if j > i {
      OffsetMonotone(l, i, j - 1);
    } else if i > l.NumIns() {
      OffsetMonotone(l, i - 1, i - 1);
    }
  }

  function Abs(x: real): real
  {
    if x < 0.0 then -x else x
  }

  /** `activation_elliotsig`: x * alpha / (1 + |x * alpha|), strictly between
      -1 and 1 and with the sign of x * alpha. */
  function Elliot(x: real, alpha: real): (r: real)
    ensures -1.0 < r < 1.0
    ensures r > 0.0 <==> x * alpha > 0.0
    ensures r == 0.0 <==> x * alpha == 0.0
  {
    var net := x * alpha;
    ElliotBounds(net);
    net / (1.0 + Abs(net))
  }

  lemma ElliotBounds(net: real)
    ensures var r := net / (1.0 + Abs(net));
      -1.0 < r < 1.0 && (r > 0.0 <==> net > 0.0) && (r == 0.0 <==> net == 0.0)
  {
    var d := 1.0 + Abs(net);
    var r := net / d;
    assert r * d == net;
    if net >= 0.0 {
      assert net < d;
    } else {
      assert -net < d;
    }
  }

  /** `cblas_sdot` over reals: the sum of the pairwise products. */
  function Dot(a: seq<real>, b: seq<real>): real
    requires |a| == |b|
  {
    if a == [] then 0.0 else Dot(a[..|a| - 1], b[..|b| - 1]) + a[|a| - 1] * b[|b| - 1]
  }

  /** The weights of slot i. */
  function Slice(l: Layout, w: seq<real>, i: int): (s: seq<real>)
    requires l.Valid() && |w| == l.NumWeights() && l.NumIns() <= i < l.NumInsOuts()
    ensures |s| == i
  {
    SliceInBounds(l, i);
    w[Offset(l, i)..Offset(l, i) + i]
  }

  /** The value of the neuron whose slot sits just above the given slots:
      the activation of their dot product with the slot's weight slice. */
  function Activate(l: Layout, w: seq<real>, below: seq<real>): (r: real)
    ensures -1.0 < r < 1.0
  {
    if l.Valid() && |w| == l.NumWeights() && l.NumIns() <= |below| < l.NumInsOuts() then
      Elliot(Dot(below, Slice(l, w, |below|)), 1.0)
    else 0.0
  }

  function ActivateFn(l: Layout, w: seq<real>): seq<real> -> real
  {
    below => Activate(l, w, below)
  }

  /** The workspace after the loop of `feed_forward` has filled the slots
      [NumIns, i). */
  function CascadeUpTo(l: Layout, w: seq<real>, ibo: seq<real>, i: int): (r: seq<real>)
    requires l.Valid() && |w| == l.NumWeights() && |ibo| == l.NumInsOuts()
    requires l.NumIns() <= i <= l.NumInsOuts()
    ensures |r| == |ibo|
    decreases i
  {
    if i == l.NumIns() then ibo
    else
      var prev := CascadeUpTo(l, w, ibo, i - 1);
      prev[i - 1 := Activate(l, w, prev[..i - 1])]
  }

  /** The workspace after `feed_forward`. */
  function Cascade(l: Layout, w: seq<real>, ibo: seq<real>): (r: seq<real>)
    requires l.Valid() && |w| == l.NumWeights() && |ibo| == l.NumInsOuts()
    ensures |r| == |ibo|
  {
    CascadeUpTo(l, w, ibo, l.NumInsOuts())
  }

  /** Filling slot i touches no other slot: the slots below NumIns keep
      their input values and the slots at or above i are still as given. */
  lemma {:induction false} CascadeUpToKeeps(l: Layout, w: seq<real>, ibo: seq<real>, i: int)
    requires l.Valid() && |w| == l.NumWeights() && |ibo| == l.NumInsOuts()
    requires l.NumIns() <= i <= l.NumInsOuts()
    ensures forall k :: 0 <= k < l.NumIns() ==> CascadeUpTo(l, w, ibo, i)[k] == ibo[k]
    ensures forall k :: i <= k < |ibo| ==> CascadeUpTo(l, w, ibo, i)[k] == ibo[k]
    decreases i
  {
    if i > l.NumIns() {
      CascadeUpToKeeps(l, w, ibo, i - 1);
    }
  }

  /** Every slot k in [lo, i) of r is f of the slots below it. */
  ghost predicate Determined(f: seq<real> -> real, r: seq<real>, lo: int, i: int)
  {
    forall k :: 0 <= lo <= k < i <= |r| ==> r[k] == f(r[..k])
  }

  /** Setting slot j from the slots below it keeps the slots below j
      determined and extends the determined range by j. */
  lemma DeterminedExtend(f: seq<real> -> real, prev: seq<real>, r: seq<real>, lo: int, j: int, i: int)
    requires 0 <= lo <= j < |prev| == |r| && i == j + 1 && r[..j] == prev[..j]
    requires Determined(f, prev, lo, j) && r[j] == f(prev[..j])
    ensures Determined(f, r, lo, i)
  {
    forall k | 0 <= lo <= k < i <= |r|
      ensures r[k] == f(r[..k])
    {
      assert r[..k] == prev[..k];
      if k < j {
        assert r[k] == r[..j][k];
      }
    }
  }

  /** After the fill of the slots [NumIns, i), each of them holds the
      activation of the slots below it. */
  lemma {:induction false} CascadeUpToFilled(l: Layout, w: seq<real>, ibo: seq<real>, i: int)
    requires l.Valid() && |w| == l.NumWeights() && |ibo| == l.NumInsOuts()
    requires l.NumIns() <= i <= l.NumInsOuts()
    ensures Determined(ActivateFn(l, w), CascadeUpTo(l, w, ibo, i), l.NumIns(), i)
    decreases i
  {
    if i > l.NumIns() {
      CascadeUpToFilled(l, w, ibo, i - 1);
      var prev := CascadeUpTo(l, w, ibo, i - 1);
      var r := CascadeUpTo(l, w, ibo, i);
      assert r == prev[i - 1 := ActivateFn(l, w)(prev[..i - 1])];
      assert r[..i - 1] == prev[..i - 1];
      DeterminedExtend(ActivateFn(l, w), prev, r, l.NumIns(), i - 1, i);
    }
  }

  /** `feed_forward` leaves the inputs and the bias slot unchanged, and
      neuron slot i is the activation of the dot product of the final slots
      below it with its weight slice: the cascade shape. */
  lemma CascadeShape(l: Layout, w: seq<real>, ibo: seq<real>)
    requires l.Valid() && |w| == l.NumWeights() && |ibo| == l.NumInsOuts()
    ensures var r := Cascade(l, w, ibo);
      (forall k :: 0 <= k < l.NumIns() ==> r[k] == ibo[k]) &&
      (forall k :: l.NumIns() <= k < |r| ==>
        r[k] == Elliot(Dot(r[..k], Slice(l, w, k)), 1.0) && -1.0 < r[k] < 1.0)
  {
    CascadeUpToKeeps(l, w, ibo, l.NumInsOuts());
    CascadeUpToFilled(l, w, ibo, l.NumInsOuts());
    var r := Cascade(l, w, ibo);
    forall k | l.NumIns() <= k < |r|
      ensures r[k] == Elliot(Dot(r[..k], Slice(l, w, k)), 1.0)
    {
      assert r[k] == ActivateFn(l, w)(r[..k]);
    }
  }

  /** The result depends on the weights and the input and bias slots only:
      whatever the neuron slots held before is overwritten. */
  lemma {:induction false} CascadeUpToInputsOnly(l: Layout, w: seq<real>, a: seq<real>, b: seq<real>, i: int)
    requires l.Valid() && |w| == l.NumWeights() && |a| == |b| == l.NumInsOuts()
    requires l.NumIns() <= i <= l.NumInsOuts()
    requires a[..l.NumIns()] == b[..l.NumIns()]
    ensures CascadeUpTo(l, w, a, i)[..i] == CascadeUpTo(l, w, b, i)[..i]
    decreases i
  {
    if i > l.NumIns() {
      CascadeUpToInputsOnly(l, w, a, b, i - 1);
      var pa, pb := CascadeUpTo(l, w, a, i - 1), CascadeUpTo(l, w, b, i - 1);
      assert pa[..i - 1] == pb[..i - 1];
      var ra, rb := CascadeUpTo(l, w, a, i), CascadeUpTo(l, w, b, i);
      assert ra[..i] == pa[..i - 1] + [ra[i - 1]];
      assert rb[..i] == pb[..i - 1] + [rb[i - 1]];
    } else {
      assert a[..i] == a[..l.NumIns()];
    }
  }

  lemma CascadeInputsOnly(l: Layout, w: seq<real>, a: seq<real>, b: seq<real>)
    requires l.Valid() && |w| == l.NumWeights() && |a| == |b| == l.NumInsOuts()
    requires a[..l.NumIns()] == b[..l.NumIns()]
    ensures Cascade(l, w, a) == Cascade(l, w, b)
  {
    CascadeUpToInputsOnly(l, w, a, b, l.NumInsOuts());
    assert Cascade(l, w, a)[..l.NumInsOuts()] == Cascade(l, w, a);
    assert Cascade(l, w, b)[..l.NumInsOuts()] == Cascade(l, w, b);
  }

  /** `InputBiasOutput`: the workspace `std::array` of NumInsOuts floats. */
  class InputBiasOutput {
    const layout: Layout
    const data: array<real>

    /** Sets the bias slot to 1.0; the other slots are left as they come. */
    constructor (layout: Layout)
      requires layout.Valid()
      ensures this.layout == layout && data.Length == layout.NumInsOuts()
      ensures data[layout.numInput] == 1.0
      ensures fresh(data)
    {
      this.layout := layout;
      var d := new real[layout.NumInsOuts()];
      d[layout.numInput] := 1.0;
      data := d;
    }
  }

  /** `FullyConnectedNeuralNetwork`: the flat weight array. */
  class FullyConnectedNeuralNetwork {
    const layout: Layout
    const weights: array<real>

    /** Fills the weights, in order, with draws from U(-1, 1). */
    constructor (layout: Layout, draws: seq<real>)
      requires layout.Valid() && |draws| == layout.NumWeights()
      requires forall k :: 0 <= k < |draws| ==> -1.0 <= draws[k] <= 1.0
      ensures this.layout == layout && weights[..] == draws && fresh(weights)
    {
      this.layout := layout;
      var w := new real[|draws|];
      for k := 0 to |draws|
        invariant w[..k] == draws[..k]
      {
        w[k] := draws[k];
      }
      weights := w;
    }

    /** `feed_forward`: fills the neuron slots of the workspace in order,
      advancing through the weights by i after slot i, and returns the view
      of the last NumOutput slots as (start, length). The weights are not
      written. */
    method FeedForward(ibo: array<real>) returns (start: int, len: int)
      requires layout.Valid() && weights.Length == layout.NumWeights()
      requires ibo.Length == layout.NumInsOuts() && ibo != weights
      modifies ibo
      ensures ibo[..] == Cascade(layout, weights[..], old(ibo[..]))
      ensures start == layout.NumInsOuts() - layout.numOutput && len == layout.numOutput
      ensures layout.NumIns() <= start && start + len == ibo.Length
    {
      var wgt := 0;
      var i := layout.NumIns();
      while i < layout.NumInsOuts()
        invariant layout.NumIns() <= i <= layout.NumInsOuts()
        invariant wgt == Offset(layout, i)
        invariant ibo[..] == CascadeUpTo(layout, weights[..], old(ibo[..]), i)
      {
        SliceInBounds(layout, i);
        assert ibo[..i] == ibo[..][..i];
        ibo[i] := Elliot(Dot(ibo[..i], weights[wgt..wgt + i]), 1.0);
        wgt := wgt + i;
        i := i + 1;
      }
      start, len := layout.NumInsOuts() - layout.numOutput, layout.numOutput;
    }
  }
}
