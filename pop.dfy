/** The older population of include/pop.hpp: BreedSize = PopSize / 2, fitness
    is the latest run result (no averaging), crossover swaps a range of two
    networks in place and mutation overwrites one weight. The run results
    and every random draw are parameters. */
module Pop {
  import Network
  import Sampler
  import opened Ranking

  /** The individuals after the update loop of `evaluate`, before sorting. */
  function Refreshed(ms: seq<Individual>, results: seq<real>): (r: seq<Individual>)
    requires |results| == |ms|
    ensures |r| == |ms|
    ensures forall k :: 0 <= k < |ms| ==>
      r[k].fitness == results[k] && r[k].age == ms[k].age + 1 && r[k].id == ms[k].id
  {
    seq(|ms|, k requires 0 <= k < |ms| => Individual(results[k], ms[k].age + 1, ms[k].id))
  }

  /** The rank-weighted table of `generate_sample_table`: entry i is the
      running count c_i = B + (B - 1) + ... + (B - i) over B(B + 1) / 2. */
  function TableEntry(breedSize: int, i: nat): real
    requires breedSize >= 1
  {
    Sampler.Cumulative(breedSize, i) as real / Total(breedSize)
  }

  /** The denominator B(B + 1) / 2, computed in floating point as
      B * (B + 1) * 0.5. */
  function Total(breedSize: int): (t: real)
    requires breedSize >= 1
    ensures t > 0.0 && 2.0 * t == (breedSize * (breedSize + 1)) as real
  {
    var b := breedSize as real;
    assert b * (b + 1.0) >= 1.0 * 2.0;
    assert (breedSize * (breedSize + 1)) as real == b * (b + 1.0);
    b * (breedSize + 1) as real * 0.5
  }

  /** `generate_sample_table`: the counter loop of the sampler header, each
      count divided by the triangular total. */
  method GenerateSampleTable(breedSize: int) returns (table: array<real>)
    requires breedSize >= 0
    ensures fresh(table) && table.Length == breedSize
    ensures forall i :: 0 <= i < breedSize ==> table[i] == TableEntry(breedSize, i)
  {
    table := new real[breedSize];
    var n, i, c := breedSize, 0, breedSize;
    while i < breedSize
      invariant 0 <= i <= breedSize && n == breedSize - i
      invariant c == Sampler.Cumulative(breedSize, i)
      invariant forall k :: 0 <= k < i ==> table[k] == TableEntry(breedSize, k)
    {
      table[i] := c as real / (breedSize as real * (breedSize + 1) as real * 0.5);
      assert table[i] == TableEntry(breedSize, i);
      i := i + 1;
      n := n - 1;
      c := c + n;
    }
  }

  /** The numerators strictly increase and the last equals the
      denominator, so the entries strictly increase up to exactly 1. */
  lemma SampleTableShape(breedSize: int)
    requires breedSize >= 1
    ensures 2 * Sampler.Cumulative(breedSize, breedSize - 1) == breedSize * (breedSize + 1)
    ensures forall i, j :: 0 <= i < j < breedSize ==> TableEntry(breedSize, i) < TableEntry(breedSize, j)
    ensures TableEntry(breedSize, breedSize - 1) == 1.0
  {
    Sampler.CumulativeClosedForm(breedSize, breedSize - 1);
    var d := Total(breedSize);
    forall i, j | 0 <= i < j < breedSize
      ensures TableEntry(breedSize, i) < TableEntry(breedSize, j)
    {
      Sampler.CumulativeIncreasing(breedSize, i, j);
      DivideMonotone(Sampler.Cumulative(breedSize, i) as real, Sampler.Cumulative(breedSize, j) as real, d);
    }
    var top := Sampler.Cumulative(breedSize, breedSize - 1);
    assert (2 * top) as real == 2.0 * top as real;
    assert top as real == d;
    DivideSelf(d);
    assert TableEntry(breedSize, breedSize - 1) == d / d;
  }

  lemma DivideSelf(d: real)
    requires d > 0.0
    ensures d / d == 1.0
  {
  }

  lemma DivideMonotone(x: real, y: real, d: real)
    requires x < y && d > 0.0
    ensures x / d < y / d
  {
    assert y / d - x / d == (y - x) / d;
  }

  /** The two weight vectors after `crossover` with cut c: the prefix [0, c)
      is exchanged when c < L / 2, the suffix [c, L) otherwise. */
  function Crossed(a: seq<real>, b: seq<real>, c: int): (r: (seq<real>, seq<real>))
    requires |a| == |b| && 0 <= c <= |a|
  {
    if c < |a| / 2 then (b[..c] + a[c..], a[..c] + b[c..]) else (a[..c] + b[c..], b[..c] + a[c..])
  }

  /** The positions `crossover` exchanges. */
  function Swapped(len: int, c: int): (r: (int, int))
  {
    if c < len / 2 then (0, c) else (c, len)
  }

  /** The exchange is of the shorter side of the cut: at most half the
      weights, rounded up, change places. */
  lemma SwappedAtMostHalf(len: int, c: int)
    requires 0 <= c <= len
    ensures 0 <= Swapped(len, c).0 <= Swapped(len, c).1 <= len
    ensures Swapped(len, c).1 - Swapped(len, c).0 <= (len + 1) / 2
  {
  }

  /** Inside the swapped range the two networks exchange weights and
      outside it they keep their own; either way the result is the pair of
      single-point children {a[0, c) ++ b[c, L), b[0, c) ++ a[c, L)}. */
  lemma CrossedPair(a: seq<real>, b: seq<real>, c: int)
    requires |a| == |b| && 0 <= c <= |a|
    ensures var r := Crossed(a, b, c);
      var (lo, hi) := Swapped(|a|, c);
      |r.0| == |r.1| == |a| &&
      (forall k :: 0 <= k < |a| ==>
        if lo <= k < hi then r.0[k] == b[k] && r.1[k] == a[k] else r.0[k] == a[k] && r.1[k] == b[k]) &&
      multiset{r.0, r.1} == multiset{a[..c] + b[c..], b[..c] + a[c..]}
  {
  }

  /** `std::swap_ranges(a + lo, a + hi, b + lo)` over two distinct arrays. */
  method SwapRanges(a: array<real>, b: array<real>, lo: int, hi: int)
    requires a != b && a.Length == b.Length && 0 <= lo <= hi <= a.Length
    modifies a, b
    ensures a[..] == old(a[..lo]) + old(b[lo..hi]) + old(a[hi..])
    ensures b[..] == old(b[..lo]) + old(a[lo..hi]) + old(b[hi..])
  {
    for k := lo to hi
      invariant a[..lo] == old(a[..lo]) && b[..lo] == old(b[..lo])
      invariant a[lo..k] == old(b[lo..k]) && b[lo..k] == old(a[lo..k])
      invariant a[k..] == old(a[k..]) && b[k..] == old(b[k..])
    {
      a[k], b[k] := b[k], a[k];
      assert a[k + 1..] == old(a[k + 1..]);
    }
    assert a[..] == a[..lo] + a[lo..hi] + a[hi..];
    assert b[..] == b[..lo] + b[lo..hi] + b[hi..];
  }

  /** The free `crossover`: exchanges the shorter side of the cut cop
      between the two networks, in place. */
  method Crossover(p0: Network.FullyConnectedNeuralNetwork, p1: Network.FullyConnectedNeuralNetwork, cop: int)
    requires p0.weights != p1.weights && p0.weights.Length == p1.weights.Length
    requires 0 <= cop <= p0.weights.Length - 2
    modifies p0.weights, p1.weights
    ensures (p0.weights[..], p1.weights[..]) == Crossed(old(p0.weights[..]), old(p1.weights[..]), cop)
  {
    var len := p0.weights.Length;
    ghost var a, b := p0.weights[..], p1.weights[..];
    if cop < len / 2 {
      SwapRanges(p0.weights, p1.weights, 0, cop);
      assert old(p0.weights[..0]) == [] && old(p1.weights[..0]) == [];
      assert old(p0.weights[0..cop]) == a[..cop] && old(p1.weights[0..cop]) == b[..cop];
      assert old(p0.weights[cop..]) == a[cop..] && old(p1.weights[cop..]) == b[cop..];
      assert p0.weights[..] == b[..cop] + a[cop..];
      assert p1.weights[..] == a[..cop] + b[cop..];
    } else {
      SwapRanges(p0.weights, p1.weights, cop, len);
      assert old(p0.weights[..cop]) == a[..cop] && old(p1.weights[..cop]) == b[..cop];
      assert old(p0.weights[cop..len]) == a[cop..] && old(p1.weights[cop..len]) == b[cop..];
      assert old(p0.weights[len..]) == [] && old(p1.weights[len..]) == [];
      assert p0.weights[..] == a[..cop] + b[cop..];
      assert p1.weights[..] == b[..cop] + a[cop..];
    }
  }

  /** The free `mutate`: the weight at mup is replaced by the Gaussian draw;
      no other weight changes. */
  method Mutate(p: Network.FullyConnectedNeuralNetwork, mup: int, value: real)
    requires 0 <= mup < p.weights.Length
    modifies p.weights
    ensures p.weights[..] == old(p.weights[..])[mup := value]
  {
    p.weights[mup] := value;
  }

  class Population {
    const popSize: int
    const breedSize: int
    const layout: Network.Layout
    var members: seq<Individual>

    predicate Valid()
      reads this
    {
      breedSize == popSize / 2 && 0 <= breedSize <= popSize && layout.Valid() &&
      |members| == popSize &&
      forall k :: 0 <= k < |members| ==> members[k].id.weights.Length == layout.NumWeights()
    }

    /** Fitness 0, age 0 and a new network from each row of draws. */
    constructor (popSize: nat, layout: Network.Layout, draws: seq<seq<real>>)
      requires layout.Valid() && |draws| == popSize
      requires forall k, j :: 0 <= k < popSize && 0 <= j < |draws[k]| ==> -1.0 <= draws[k][j] <= 1.0
      requires forall k :: 0 <= k < popSize ==> |draws[k]| == layout.NumWeights()
      ensures Valid() && this.popSize == popSize && this.layout == layout
      ensures forall k :: 0 <= k < popSize ==>
        members[k].fitness == 0.0 && members[k].age == 0 && members[k].id.weights[..] == draws[k]
    {
      this.popSize := popSize;
      this.breedSize := popSize / 2;
      this.layout := layout;
      var ms: seq<Individual> := [];
      for k := 0 to popSize
        invariant |ms| == k
        invariant forall j :: 0 <= j < k ==>
          ms[j].fitness == 0.0 && ms[j].age == 0 && ms[j].id.weights[..] == draws[j] &&
          ms[j].id.weights.Length == layout.NumWeights()
      {
        var brain := new Network.FullyConnectedNeuralNetwork(layout, draws[k]);
        ms := ms + [Individual(0.0, 0, brain)];
      }
      members := ms;
    }

    /** `evaluate`: each fitness becomes the individual's new run result and
        each age grows by one; then the population is sorted by
        non-increasing fitness. */
    method Evaluate(results: seq<real>)
      requires Valid() && |results| == popSize
      modifies this
      ensures Valid()
      ensures NonIncreasing(members)
      ensures multiset(members) == multiset(Refreshed(old(members), results))
    {
      var ms := members;
      for k := 0 to |ms|
        invariant |ms| == |members|
        invariant forall j :: 0 <= j < k ==> ms[j] == Individual(results[j], members[j].age + 1, members[j].id)
        invariant forall j :: k <= j < |ms| ==> ms[j] == members[j]
      {
        ms := ms[k := Individual(results[k], ms[k].age + 1, ms[k].id)];
      }
      assert ms == Refreshed(members, results);
      var sorted := SortByFitness(ms);
      forall k | 0 <= k < |sorted|
        ensures sorted[k].id.weights.Length == layout.NumWeights()
      {
        assert sorted[k] in multiset(ms);
        var p := IndexOf(ms, sorted[k]);
      }
      members := sorted;
    }
  }
}
