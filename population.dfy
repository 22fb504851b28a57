/** The steady-state breeding scheme of include/population.hpp. The population
    is kept sorted by fitness; the best BreedSize = PopSize / 8 individuals
    breed, and every other individual's network is overwritten by a
    single-point crossover of two distinct breeders, sometimes followed by a
    point mutation. Fitness is the running mean of the individual's runs.
    The run results and every random draw are parameters. */
module Population {
  import Network
  import opened Ranking

  /** The running mean of `evaluate`: fitness += (r - fitness) / ++age. */
  function Update(i: Individual, r: real): (u: Individual)
    requires i.age >= 0
    ensures u.age == i.age + 1 && u.id == i.id
  {
    Individual(i.fitness + (r - i.fitness) / (i.age + 1) as real, i.age + 1, i.id)
  }

  function SumReal(rs: seq<real>): real
  {
    if rs == [] then 0.0 else SumReal(rs[..|rs| - 1]) + rs[|rs| - 1]
  }

  function Mean(rs: seq<real>): real
    requires rs != []
  {
    SumReal(rs) / |rs| as real
  }

  /** The individual after `evaluate` has been applied once per result. */
  function Replay(i: Individual, rs: seq<real>): (u: Individual)
    requires i.age >= 0
    ensures u.age == i.age + |rs| && u.id == i.id
  {
    if rs == [] then i else Update(Replay(i, rs[..|rs| - 1]), rs[|rs| - 1])
  }

  lemma MeanStep(s: real, k: int, r: real)
    requires k >= 1
    ensures s / k as real + (r - s / k as real) / (k + 1) as real == (s + r) / (k + 1) as real
  {
    var m := s / k as real;
    assert m * k as real == s;
    assert m + (r - m) / (k + 1) as real == (m * (k + 1) as real + r - m) / (k + 1) as real;
  }

  /** One update turns the mean of k results into the mean of k + 1; from
      age 0 the old fitness does not matter. */
  lemma RunningMean(i: Individual, rs: seq<real>, r: real)
    requires i.age == |rs| && (rs != [] ==> i.fitness == Mean(rs))
    ensures Update(i, r).fitness == Mean(rs + [r])
  {
    assert (rs + [r])[..|rs|] == rs;
    assert SumReal(rs + [r]) == SumReal(rs) + r;
    if rs != [] {
      MeanStep(SumReal(rs), |rs|, r);
    }
  }

  /** After k >= 1 evaluations since a reset (fitness 0, age 0), the fitness
      is the mean of the k results. */
  lemma {:induction false} MeanAfterEvaluations(i: Individual, rs: seq<real>)
    requires i.age == 0 && rs != []
    ensures Replay(i, rs).fitness == Mean(rs) && Replay(i, rs).age == |rs|
  {
    var front := rs[..|rs| - 1];
    if front != [] {
      MeanAfterEvaluations(i, front);
    }
    RunningMean(Replay(i, front), front, rs[|rs| - 1]);
    assert front + [rs[|rs| - 1]] == rs;
  }

  /** The individuals after the update loop of `evaluate`, before sorting. */
  function Evaluated(ms: seq<Individual>, results: seq<real>): (r: seq<Individual>)
    requires |results| == |ms| && forall k :: 0 <= k < |ms| ==> ms[k].age >= 0
    ensures |r| == |ms|
  {
    seq(|ms|, k requires 0 <= k < |ms| => Update(ms[k], results[k]))
  }

  /** `sample_match`'s rejection loop keeps the first draw and redraws the
      second until it differs: the draws from index 1 on include one that
      differs from the first. */
  predicate HasOther(m: seq<int>)
  {
    |m| >= 2 && exists j :: 1 <= j < |m| && m[j] != m[0]
  }

  function FirstOtherFrom(m: seq<int>, from: int): (j: int)
    requires 1 <= from <= |m| && exists j :: from <= j < |m| && m[j] != m[0]
    ensures from <= j < |m| && m[j] != m[0]
    ensures forall k :: from <= k < j ==> m[k] == m[0]
    decreases |m| - from
  {
    if m[from] != m[0] then from else FirstOtherFrom(m, from + 1)
  }

  /** The index of the draw `sample_match` accepts as the second parent. */
  function FirstOther(m: seq<int>): (j: int)
    requires HasOther(m)
    ensures 1 <= j < |m| && m[j] != m[0]
    ensures forall k :: 1 <= k < j ==> m[k] == m[0]
  {
    FirstOtherFrom(m, 1)
  }

  /** The draws that breeding one child consumes: the breeder draws of
      `sample_match`, the crossover point, the Bernoulli(0.05) outcome, and
      the mutation point and Gaussian delta. */
  datatype ChildDraws = ChildDraws(parents: seq<int>, cut: int, mutate: bool, point: int, delta: real)

  predicate ValidChildDraws(d: ChildDraws, breedSize: int, numWeights: int)
  {
    (forall k :: 0 <= k < |d.parents| ==> 0 <= d.parents[k] < breedSize) &&
    HasOther(d.parents) &&
    0 <= d.cut <= numWeights - 2 &&
    (d.mutate ==> 0 <= d.point < numWeights)
  }

  /** With at most one breeder every parent draw is the same, so no draw
      stream lets `sample_match` return: its redraw loop never ends. */
  lemma NoMatchForOneBreeder(d: ChildDraws, breedSize: int, numWeights: int)
    requires breedSize <= 1
    ensures !ValidChildDraws(d, breedSize, numWeights)
  {
  }

  /** The weights one child receives: the first parent's prefix before the
      cut and the second parent's suffix from it, optionally mutated. */
  function Offspring(w0: seq<real>, w1: seq<real>, d: ChildDraws): (c: seq<real>)
    requires |w0| == |w1| && 0 <= d.cut <= |w0| && (d.mutate ==> 0 <= d.point < |w0|)
    ensures |c| == |w0|
    ensures forall k :: 0 <= k < |c| && !(d.mutate && k == d.point) ==>
      c[k] == if k < d.cut then w0[k] else w1[k]
  {
    var child := w0[..d.cut] + w1[d.cut..];
    if d.mutate then child[d.point := child[d.point] + d.delta] else child
  }

  /** The brains that `reproduce` may overwrite. */
  function Brains(ms: seq<Individual>, from: int): set<array<real>>
  {
    set k | 0 <= from <= k < |ms| :: ms[k].id.weights
  }

  function SumFitness(ms: seq<Individual>): real
  {
    if ms == [] then 0.0 else SumFitness(ms[..|ms| - 1]) + ms[|ms| - 1].fitness
  }

  function SumAge(ms: seq<Individual>): int
  {
    if ms == [] then 0 else SumAge(ms[..|ms| - 1]) + ms[|ms| - 1].age
  }

  lemma {:induction false} SumFitnessBounds(ms: seq<Individual>, lo: real, hi: real)
    requires forall k :: 0 <= k < |ms| ==> lo <= ms[k].fitness <= hi
    ensures |ms| as real * lo <= SumFitness(ms) <= |ms| as real * hi
  {
    if ms != [] {
      SumFitnessBounds(ms[..|ms| - 1], lo, hi);
    }
  }

  lemma {:induction false} SumAgeNonNegative(ms: seq<Individual>)
    requires forall k :: 0 <= k < |ms| ==> 0 <= ms[k].age
    ensures 0 <= SumAge(ms)
  {
    if ms != [] {
      SumAgeNonNegative(ms[..|ms| - 1]);
    }
  }

  lemma {:induction false} SumAgeBounds(ms: seq<Individual>, hi: int)
    requires forall k :: 0 <= k < |ms| ==> 0 <= ms[k].age <= hi
    ensures SumAge(ms) <= |ms| * hi
  {
    if ms != [] {
      SumAgeBounds(ms[..|ms| - 1], hi);
    }
  }

  /** Individuals over distinct networks of n weights with non-negative ages. */
  predicate WellFormed(ms: seq<Individual>, n: int)
  {
    DistinctBrains(ms) &&
    forall k :: 0 <= k < |ms| ==> ms[k].age >= 0 && ms[k].id.weights.Length == n
  }

  lemma EvaluatedKeepsBrains(ms: seq<Individual>, results: seq<real>, n: int)
    requires |results| == |ms| && WellFormed(ms, n)
    ensures WellFormed(Evaluated(ms, results), n)
  {
    var e := Evaluated(ms, results);
    forall i, j | 0 <= i < j < |e|
      ensures e[i].id.weights != e[j].id.weights
    {
      assert e[i].id == ms[i].id && e[j].id == ms[j].id;
    }
  }

  /** A permutation of well-formed individuals is well formed. */
  lemma PermutationKeepsBrains(a: seq<Individual>, b: seq<Individual>, n: int)
    requires multiset(a) == multiset(b) && WellFormed(b, n)
    ensures WellFormed(a, n)
  {
    PermutationKeepsDistinct(a, b);
    forall k | 0 <= k < |a|
      ensures a[k].age >= 0 && a[k].id.weights.Length == n
    {
      assert a[k] in multiset(b);
      var p := IndexOf(b, a[k]);
    }
  }

  /** The weights of every individual, in population order. */
  function Weights(ms: seq<Individual>): (w: seq<seq<real>>)
    reads set k | 0 <= k < |ms| :: ms[k].id.weights
    ensures |w| == |ms| && forall k :: 0 <= k < |ms| ==> w[k] == ms[k].id.weights[..]
  {
    if ms == [] then [] else Weights(ms[..|ms| - 1]) + [ms[|ms| - 1].id.weights[..]]
  }

  /** The offspring of the two breeders that draws d select, over the
      weights w of the population before breeding. */
  function Bred(w: seq<seq<real>>, d: ChildDraws, breedSize: int, n: int): (c: seq<real>)
    requires breedSize <= |w| && ValidChildDraws(d, breedSize, n)
    requires forall k :: 0 <= k < |w| ==> |w[k]| == n
    ensures |c| == n
  {
    var j := FirstOther(d.parents);
    assert 0 <= d.parents[j] < breedSize;
    Offspring(w[d.parents[0]], w[d.parents[j]], d)
  }

  /** The members once `reproduce` has reached index k: from `from` up to k
      every individual has fitness 0 and age 0 and keeps its network. */
  function ResetFrom(ms: seq<Individual>, from: int, k: int): (r: seq<Individual>)
    ensures |r| == |ms|
  {
    seq(|ms|, j requires 0 <= j < |ms| => if from <= j < k then Individual(0.0, 0, ms[j].id) else ms[j])
  }

  /** The weights once `reproduce` has reached index k: the children from
      breedSize up to k are bred from w, every other row is w's own. */
  function BredUpTo(w: seq<seq<real>>, draws: seq<ChildDraws>, breedSize: int, n: int, k: int): (r: seq<seq<real>>)
    requires 0 <= breedSize <= |w| && k <= breedSize + |draws|
    requires forall j :: 0 <= j < |w| ==> |w[j]| == n
    requires forall j {:trigger draws[j]} :: 0 <= j < |draws| ==> ValidChildDraws(draws[j], breedSize, n)
    ensures |r| == |w|
  {
    seq(|w|, j requires 0 <= j < |w| => if breedSize <= j < k then Bred(w, draws[j - breedSize], breedSize, n) else w[j])
  }

  lemma BredUpToAt(w: seq<seq<real>>, draws: seq<ChildDraws>, breedSize: int, n: int, k: int, j: int)
    requires 0 <= breedSize <= |w| && k <= breedSize + |draws| && 0 <= j < |w|
    requires forall j :: 0 <= j < |w| ==> |w[j]| == n
    requires forall j {:trigger draws[j]} :: 0 <= j < |draws| ==> ValidChildDraws(draws[j], breedSize, n)
    ensures breedSize <= j < k ==> BredUpTo(w, draws, breedSize, n, k)[j] == Bred(w, draws[j - breedSize], breedSize, n)
    ensures !(breedSize <= j < k) ==> BredUpTo(w, draws, breedSize, n, k)[j] == w[j]
  {
  }

  lemma ResetFromStep(ms: seq<Individual>, from: int, k: int, k1: int)
    requires 0 <= from <= k < |ms| && k1 == k + 1
    ensures ResetFrom(ms, from, k1) == ResetFrom(ms, from, k)[k := Individual(0.0, 0, ms[k].id)]
  {
    assert forall j :: 0 <= j < |ms| ==>
      ResetFrom(ms, from, k1)[j] == ResetFrom(ms, from, k)[k := Individual(0.0, 0, ms[k].id)][j];
  }

  class Population {
    const popSize: int
    const breedSize: int
    const layout: Network.Layout
    var members: seq<Individual>

    /** PopSize individuals over distinct networks of the layout's size, with
        ages that are never negative. */
    predicate Valid()
      reads this
    {
      breedSize == popSize / 8 && 0 <= breedSize <= popSize && layout.Valid() && layout.NumWeights() >= 2 &&
      |members| == popSize && WellFormed(members, layout.NumWeights())
    }

    /** Fitness 0, age 0 and a new network from each row of draws. */
    constructor (popSize: nat, layout: Network.Layout, draws: seq<seq<real>>)
      requires layout.Valid() && layout.NumWeights() >= 2 && |draws| == popSize
      requires forall k, j :: 0 <= k < popSize && 0 <= j < |draws[k]| ==> -1.0 <= draws[k][j] <= 1.0
      requires forall k :: 0 <= k < popSize ==> |draws[k]| == layout.NumWeights()
      ensures Valid() && this.popSize == popSize && this.layout == layout
      ensures forall k :: 0 <= k < popSize ==>
        members[k].fitness == 0.0 && members[k].age == 0 && members[k].id.weights[..] == draws[k]
    {
      this.popSize := popSize;
      this.breedSize := popSize / 8;
      this.layout := layout;
      var ms: seq<Individual> := [];
      for k := 0 to popSize
        invariant |ms| == k && DistinctBrains(ms)
        invariant forall j :: 0 <= j < k ==>
          ms[j].fitness == 0.0 && ms[j].age == 0 && ms[j].id.weights[..] == draws[j] &&
          ms[j].id.weights.Length == layout.NumWeights()
      {
        var brain := new Network.FullyConnectedNeuralNetwork(layout, draws[k]);
        ms := ms + [Individual(0.0, 0, brain)];
      }
      members := ms;
    }

    /** `evaluate`: each individual's fitness becomes the running mean with
        its new run result and its age grows by one; then the population is
        sorted by non-increasing fitness. No network is written. */
    method Evaluate(results: seq<real>)
      requires Valid() && |results| == popSize
      modifies this
      ensures Valid()
      ensures NonIncreasing(members)
      ensures multiset(members) == multiset(Evaluated(old(members), results))
    {
      var ms := members;
      for k := 0 to |ms|
        invariant |ms| == |members|
        invariant forall j :: 0 <= j < k ==> ms[j] == Update(members[j], results[j])
        invariant forall j :: k <= j < |ms| ==> ms[j] == members[j]
      {
        ms := ms[k := Update(ms[k], results[k])];
      }
      assert ms == Evaluated(members, results);
      EvaluatedKeepsBrains(members, results, layout.NumWeights());
      var sorted := SortByFitness(ms);
      PermutationKeepsBrains(sorted, ms, layout.NumWeights());
      members := sorted;
    }

    /** `mutate`: adds the Gaussian delta to the weight at mup and to no
        other. */
    method Mutate(c: Network.FullyConnectedNeuralNetwork, mup: int, delta: real)
      requires 0 <= mup < c.weights.Length
      modifies c.weights
      ensures c.weights[..] == old(c.weights[..])[mup := old(c.weights[mup]) + delta]
    {
      c.weights[mup] := c.weights[mup] + delta;
    }

    /** The body of the breeding loop for one child: `crossover`, then
        `mutate` when the Bernoulli draw says so. */
    method Breed(p0: Network.FullyConnectedNeuralNetwork, p1: Network.FullyConnectedNeuralNetwork,
                 c: Network.FullyConnectedNeuralNetwork, d: ChildDraws)
      requires c.weights != p0.weights && c.weights != p1.weights
      requires p0.weights.Length == p1.weights.Length == c.weights.Length
      requires 0 <= d.cut <= c.weights.Length - 2 && (d.mutate ==> 0 <= d.point < c.weights.Length)
      modifies c.weights
      ensures c.weights[..] == Offspring(old(p0.weights[..]), old(p1.weights[..]), d)
    {
      Crossover(p0, p1, c, d.cut);
      if d.mutate {
        Mutate(c, d.point, d.delta);
      }
    }

    /** `crossover`: two `std::copy`s write the first parent's weights before
        the cut and the second parent's from the cut into the child. The
        copies must not overlap their sources. */
    method Crossover(p0: Network.FullyConnectedNeuralNetwork, p1: Network.FullyConnectedNeuralNetwork,
                     c: Network.FullyConnectedNeuralNetwork, cop: int)
      requires c.weights != p0.weights && c.weights != p1.weights
      requires p0.weights.Length == p1.weights.Length == c.weights.Length
      requires 0 <= cop <= c.weights.Length - 2
      modifies c.weights
      ensures c.weights[..] == old(p0.weights[..cop]) + old(p1.weights[cop..])
    {
      var n := c.weights.Length;
      for k := 0 to cop
        invariant c.weights[..k] == p0.weights[..k]
      {
        c.weights[k] := p0.weights[k];
      }
      for k := cop to n
        invariant c.weights[..cop] == p0.weights[..cop]
        invariant c.weights[cop..k] == p1.weights[cop..k]
      {
        c.weights[k] := p1.weights[k];
      }
      assert c.weights[..] == c.weights[..cop] + c.weights[cop..n];
    }

    /** `sample_match`: the first draw, and the first later draw that
        differs from it; both are breeders. */
    method SampleMatch(draws: seq<int>) returns (p0: int, p1: int)
      requires HasOther(draws)
      requires forall k :: 0 <= k < |draws| ==> 0 <= draws[k] < breedSize
      ensures p0 == draws[0] && p1 == draws[FirstOther(draws)]
      ensures p0 != p1 && 0 <= p0 < breedSize && 0 <= p1 < breedSize
    {
      p0, p1 := draws[0], draws[1];
      var j := 1;
      while p0 == p1
        invariant 1 <= j <= FirstOther(draws) && p1 == draws[j]
        decreases FirstOther(draws) - j
      {
        j := j + 1;
        p1 := draws[j];
      }
    }

    /** `reproduce`: the breeders [0, BreedSize) are left as they are; every
        later individual gets the offspring of the two breeders its draws
        select, fitness 0 and age 0, and keeps its own network object. */
    method Reproduce(draws: seq<ChildDraws>)
      requires Valid() && |draws| == popSize - breedSize
      requires forall k {:trigger draws[k]} :: 0 <= k < |draws| ==> ValidChildDraws(draws[k], breedSize, layout.NumWeights())
      modifies this, Brains(members, breedSize)
      ensures Valid()
      ensures members[..breedSize] == old(members[..breedSize])
      ensures forall k :: 0 <= k < breedSize ==> members[k].id.weights[..] == old(Weights(members))[k]
      ensures forall k :: breedSize <= k < popSize ==> members[k] == Individual(0.0, 0, old(members[k].id))
      ensures forall k :: breedSize <= k < popSize ==>
        ValidChildDraws(draws[k - breedSize], breedSize, layout.NumWeights()) &&
        members[k].id.weights[..] == Bred(old(Weights(members)), draws[k - breedSize], breedSize, layout.NumWeights())
    {
      ghost var w, ms0 := Weights(members), members;
      ghost var n := layout.NumWeights();
      assert members == ResetFrom(ms0, breedSize, breedSize);
      BreedChildren(draws, ms0, w);
      assert members[..breedSize] == ms0[..breedSize];
      assert w == old(Weights(members));
      forall j | breedSize <= j < popSize
        ensures members[j].id.weights[..] == Bred(w, draws[j - breedSize], breedSize, n)
      {
        BredUpToAt(w, draws, breedSize, n, popSize, j);
      }
    }

    /** The loop of `reproduce` over the children [BreedSize, PopSize). */
    method BreedChildren(draws: seq<ChildDraws>, ghost ms0: seq<Individual>, ghost w: seq<seq<real>>)
      requires ms0 == members && ReproducedUpTo(ms0, w, draws, breedSize)
      modifies this, Brains(members, breedSize)
      ensures ReproducedUpTo(ms0, w, draws, popSize)
    {
      var k := breedSize;
      while k < popSize
        invariant ReproducedUpTo(ms0, w, draws, k)
      {
        var next := k + 1;
        ReproduceOne(k, next, draws, ms0, w);
        k := next;
      }
    }

    /** The state of `reproduce` once it has bred the children before k from
        the population ms0, whose weights were w: the breeders are unchanged,
        every child in [breedSize, k) has fitness 0, age 0 and its offspring
        weights, and every individual from k on is as it was. */
    ghost predicate ReproducedUpTo(ms0: seq<Individual>, w: seq<seq<real>>, draws: seq<ChildDraws>, k: int)
      reads this, Brains(members, 0)
    {
      Valid() && |ms0| == popSize && |w| == popSize && |draws| == popSize - breedSize &&
      breedSize <= k <= popSize &&
      (forall j :: 0 <= j < popSize ==> |w[j]| == layout.NumWeights()) &&
      (forall j {:trigger draws[j]} :: 0 <= j < |draws| ==> ValidChildDraws(draws[j], breedSize, layout.NumWeights())) &&
      members == ResetFrom(ms0, breedSize, k) &&
      forall j :: 0 <= j < popSize ==>
        members[j].id.weights[..] == BredUpTo(w, draws, breedSize, layout.NumWeights(), k)[j]
    }

    /** One step of `reproduce`: breeds the child at index k from the
        breeders, whose weights are still w; no other network changes. */
    method ReproduceOne(k: int, ghost k1: int, draws: seq<ChildDraws>, ghost ms0: seq<Individual>, ghost w: seq<seq<real>>)
      requires ReproducedUpTo(ms0, w, draws, k) && k < popSize && k1 == k + 1
      modifies this, members[k].id.weights
      ensures ReproducedUpTo(ms0, w, draws, k1)
      ensures members == old(members)[k := Individual(0.0, 0, old(members[k].id))]
      ensures forall j :: 0 <= j < popSize && j != k ==> members[j].id.weights[..] == old(members[j].id.weights[..])
    {
      ghost var n := layout.NumWeights();
      ghost var before := BredUpTo(w, draws, breedSize, n, k);
      ghost var after := BredUpTo(w, draws, breedSize, n, k1);
      var d := draws[k - breedSize];
      var p0, p1 := SampleMatch(d.parents);
      var child := members[k].id;
      Breed(members[p0].id, members[p1].id, child, d);
      members := members[k := Individual(0.0, 0, child)];
      ResetFromStep(ms0, breedSize, k, k1);
      forall j | 0 <= j < popSize
        ensures members[j].id.weights[..] == after[j]
      {
        if j == k {
          assert after[j] == Bred(w, d, breedSize, n);
        } else {
          assert members[j].id.weights != child.weights;
          assert after[j] == before[j];
        }
      }
    }

    /** `average_fitness`: the mean fitness of the breeders. */
    function AverageFitness(): real
      reads this
      requires Valid() && breedSize >= 1
    {
      SumFitness(members[..breedSize]) / breedSize as real
    }

    /** `average_age`: the mean age of the breeders, never negative. */
    function AverageAge(): (r: real)
      reads this
      requires Valid() && breedSize >= 1
      ensures 0.0 <= r
    {
      var breeders := members[..breedSize];
      SumAgeNonNegative(breeders);
      SumAge(breeders) as real / breedSize as real
    }
  }

  /** On a sorted population the breeders' mean fitness lies between the
      best fitness and the BreedSize-th best. */
  lemma AverageFitnessBounds(p: Population)
    requires p.Valid() && p.breedSize >= 1 && NonIncreasing(p.members)
    ensures p.members[p.breedSize - 1].fitness <= p.AverageFitness() <= p.members[0].fitness
  {
    var breeders := p.members[..p.breedSize];
    var lo, hi := p.members[p.breedSize - 1].fitness, p.members[0].fitness;
    forall k | 0 <= k < |breeders|
      ensures lo <= breeders[k].fitness <= hi
    {
      assert breeders[k] == p.members[k];
    }
    SumFitnessBounds(breeders, lo, hi);
    DivideBetween(SumFitness(breeders), p.breedSize as real, lo, hi);
  }

  /** The breeders' mean age is at most any bound on their ages. */
  lemma AverageAgeBound(p: Population, g: int)
    requires p.Valid() && p.breedSize >= 1
    requires forall k :: 0 <= k < p.breedSize ==> p.members[k].age <= g
    ensures p.AverageAge() <= g as real
  {
    var breeders := p.members[..p.breedSize];
    forall k | 0 <= k < |breeders|
      ensures 0 <= breeders[k].age <= g
    {
      assert breeders[k] == p.members[k];
    }
    SumAgeBounds(breeders, g);
    SumAgeNonNegative(breeders);
    MeanAtMost(SumAge(breeders), p.breedSize, g);
  }

  /** A total of at most b * g over b > 0 has a mean of at most g. */
  lemma MeanAtMost(t: int, b: int, g: int)
    requires b >= 1 && 0 <= t <= b * g
    ensures t as real / b as real <= g as real
  {
    assert (b * g) as real == b as real * g as real;
    DivideBetween(t as real, b as real, 0.0, g as real);
  }

  /** A total between b * lo and b * hi has its mean over b between lo and hi. */
  lemma DivideBetween(s: real, b: real, lo: real, hi: real)
    requires b > 0.0 && lo <= hi && b * lo <= s <= b * hi
    ensures lo <= s / b <= hi
  {
    var q := s / b;
    assert q * b == s;
    assert (q - lo) * b == s - b * lo && (hi - q) * b == b * hi - s;
  }
}
