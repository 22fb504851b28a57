/** The `Individual` record that include/population.hpp and include/pop.hpp
    both declare (a fitness, an age and a pointer to the individual's
    network), and the `std::sort` by non-increasing fitness that both
    `evaluate`s end with. */
module Ranking {
  import Network

  datatype Individual = Individual(fitness: real, age: int, id: Network.FullyConnectedNeuralNetwork)

  predicate NonIncreasing(s: seq<Individual>)
  {
    forall i, j :: 0 <= i < j < |s| ==> s[i].fitness >= s[j].fitness
  }

  /** No two individuals share a weight array. */
  predicate DistinctBrains(s: seq<Individual>)
  {
    forall i, j :: 0 <= i < j < |s| ==> s[i].id.weights != s[j].id.weights
  }

  /** Inserts x before the first individual that is strictly less fit. */
  function Insert(x: Individual, s: seq<Individual>): (r: seq<Individual>)
    requires NonIncreasing(s)
    ensures NonIncreasing(r)
    ensures multiset(r) == multiset(s) + multiset{x}
    ensures |r| == |s| + 1 && (r[0] == x || (s != [] && r[0] == s[0]))
  {
    if s == [] then [x]
    else if x.fitness >= s[0].fitness then [x] + s
    else
      assert s == [s[0]] + s[1..];
      [s[0]] + Insert(x, s[1..])
  }

  /** `std::sort` with the comparator `a.fitness > b.fitness`: a permutation
      of the input with non-increasing fitness. */
  function SortByFitness(s: seq<Individual>): (r: seq<Individual>)
    ensures NonIncreasing(r)
    ensures multiset(r) == multiset(s)
    ensures |r| == |s|
  {
    if s == [] then []
    else
      assert s == [s[0]] + s[1..];
      Insert(s[0], SortByFitness(s[1..]))
  }

  lemma CountAtLeastTwo(s: seq<Individual>, i: int, j: int)
    requires 0 <= i < j < |s| && s[i] == s[j]
    ensures multiset(s)[s[i]] >= 2
  {
    assert s == s[..j] + s[j..];
    assert s[j..][0] == s[i];
    assert s[..j][i] == s[i];
  }

  lemma {:induction false} CountAtMostOne(s: seq<Individual>, x: Individual)
    requires DistinctBrains(s)
    ensures multiset(s)[x] <= 1
  {
    if s != [] {
      assert s == [s[0]] + s[1..];
      CountAtMostOne(s[1..], x);
      if x == s[0] {
        assert x !in s[1..];
      }
    }
  }

  function IndexOf(s: seq<Individual>, x: Individual): (p: int)
    requires x in s
    ensures 0 <= p < |s| && s[p] == x
  {
    if s[0] == x then 0 else 1 + IndexOf(s[1..], x)
  }

  /** A permutation of individuals with pairwise distinct brains has
      pairwise distinct brains: each brain is still held exactly once. */
  lemma PermutationKeepsDistinct(a: seq<Individual>, b: seq<Individual>)
    requires multiset(a) == multiset(b) && DistinctBrains(b)
    ensures DistinctBrains(a)
  {
    forall i, j | 0 <= i < j < |a|
      ensures a[i].id.weights != a[j].id.weights
    {
      if a[i] == a[j] {
        CountAtLeastTwo(a, i, j);
        CountAtMostOne(b, a[i]);
        assert false;
      }
      assert a[i] in multiset(b) && a[j] in multiset(b);
      var p, q := IndexOf(b, a[i]), IndexOf(b, a[j]);
      assert p != q;
    }
  }
}
