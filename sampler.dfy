/** The rank-weighted sampler of
    include/uniformly_decreasing_discrete_distribution.hpp: rank i of Size
    ranks is meant to be drawn with probability (Size - i) / Sum. A
    cumulative table of the triangular weights is searched with
    `std::lower_bound` for a uniform integer draw, which is a parameter here. */
module Sampler {

  /** `Sum`, written with the halving on the even factor so that it stays an
      exact integer in both parity branches. */
  function Sum(size: int): (s: int)
    requires size > 1
    ensures 2 * s == size * (size + 1)
  {
    var h := size / 2;
    if size % 2 == 0 then
      assert size == 2 * h;
      assert 2 * (h * (size + 1)) == (2 * h) * (size + 1);
      h * (size + 1)
    else
      var g := (size + 1) / 2;
      assert size + 1 == 2 * g;
      assert 2 * (size * g) == size * (2 * g);
      size * g
  }

  /** The running count c of `generate_sample_table` at entry i: the weights
      Size, Size - 1, ..., Size - i added up. */
  function Cumulative(size: int, i: nat): int
  {
    if i == 0 then size else Cumulative(size, i - 1) + (size - i)
  }

  lemma {:induction false} CumulativeClosedForm(size: int, i: nat)
    ensures 2 * Cumulative(size, i) == (i + 1) * (2 * size - i)
  {
    if i > 0 {
      CumulativeClosedForm(size, i - 1);
      assert (i + 1) * (2 * size - i) == i * (2 * size - (i - 1)) + 2 * (size - i);
    }
  }

  lemma {:induction false} CumulativeIncreasing(size: int, i: nat, j: nat)
    requires i < j < size
    ensures Cumulative(size, i) < Cumulative(size, j)
    decreases j
  {
    if i < j - 1 {
      CumulativeIncreasing(size, i, j - 1);
    }
  }

  /** The table the sampler searches. */
  function SampleTable(size: int): seq<int>
    requires size > 1
  {
    seq(size, i requires 0 <= i < size => Cumulative(size, i))
  }

  predicate Increasing(t: seq<int>)
  {
    forall i, j :: 0 <= i < j < |t| ==> t[i] < t[j]
  }

  /** The table starts at Size, entry i exceeds entry i - 1 by Size - i, it
      is strictly increasing and it ends at Sum. */
  lemma SampleTableShape(size: int)
    requires size > 1
    ensures var t := SampleTable(size);
      |t| == size && t[0] == size &&
      (forall i :: 0 < i < size ==> t[i] - t[i - 1] == size - i) &&
      Increasing(t) && t[size - 1] == Sum(size)
  {
    var t := SampleTable(size);
    forall i, j | 0 <= i < j < |t|
      ensures t[i] < t[j]
    {
      CumulativeIncreasing(size, i, j);
    }
    CumulativeClosedForm(size, size - 1);
  }

  /** `generate_sample_table`: a counter loop over i, n and c. */
  method GenerateSampleTable(size: int) returns (table: array<int>)
    requires size > 1
    ensures fresh(table) && table[..] == SampleTable(size)
  {
    table := new int[size];
    var n, i, c := size, 0, size;
    while i < size
      invariant 0 <= i <= size && n == size - i
      invariant c == Cumulative(size, i)
      invariant forall k :: 0 <= k < i ==> table[k] == Cumulative(size, k)
    {
      table[i] := c;
      i := i + 1;
      n := n - 1;
      c := c + n;
    }
  }

  /** `std::lower_bound` by halving [lo, hi): every entry below lo is less
      than u and every entry from hi on is at least u. */
  function LowerBoundIn(t: seq<int>, u: int, lo: int, hi: int): (i: int)
    requires Increasing(t) && 0 <= lo <= hi <= |t|
    requires forall k :: 0 <= k < lo ==> t[k] < u
    requires forall k :: hi <= k < |t| ==> u <= t[k]
    ensures lo <= i <= hi
    ensures forall k :: 0 <= k < i ==> t[k] < u
    ensures forall k :: i <= k < |t| ==> u <= t[k]
    decreases hi - lo
  {
    if lo == hi then lo
    else
      var mid := lo + (hi - lo) / 2;
      if t[mid] < u then LowerBoundIn(t, u, mid + 1, hi) else LowerBoundIn(t, u, lo, mid)
  }

  /** `std::lower_bound` over the whole table: the least index whose entry is
      at least u, or |t| when there is none. */
  function LowerBound(t: seq<int>, u: int): (i: int)
    requires Increasing(t)
    ensures 0 <= i <= |t|
    ensures forall k :: 0 <= k < i ==> t[k] < u
    ensures forall k :: i <= k < |t| ==> u <= t[k]
  {
    LowerBoundIn(t, u, 0, |t|)
  }

  /** `min` and `max`. */
  function Min(): int
  {
    0
  }

  function Max(size: int): int
  {
    size - 1
  }

  /** `operator()` for a draw u from the inclusive range [0, Sum]: the least
      rank whose table entry is at least u. It always exists, so the rank is
      within [min(), max()]. */
  function Sample(size: int, u: int): (i: int)
    requires size > 1 && 0 <= u <= Sum(size)
    ensures Min() <= i <= Max(size)
    ensures u <= SampleTable(size)[i]
    ensures forall k :: 0 <= k < i ==> SampleTable(size)[k] < u
  {
    SampleTableShape(size);
    LowerBound(SampleTable(size), u)
  }

  /** The least draw mapped to rank i. */
  function Low(size: int, i: int): int
    requires size > 1 && 0 <= i < size
  {
    if i == 0 then 0 else SampleTable(size)[i - 1] + 1
  }

  /** The draws mapped to rank i are exactly those in [Low(i), table[i]]. */
  lemma SamplePreimage(size: int, u: int, i: int)
    requires size > 1 && 0 <= u <= Sum(size) && 0 <= i < size
    ensures Sample(size, u) == i <==> Low(size, i) <= u <= SampleTable(size)[i]
  {
    SampleTableShape(size);
  }

  /** [lo, hi] as a set. */
  function Range(lo: int, hi: int): (r: set<int>)
    ensures forall x :: x in r <==> lo <= x <= hi
    ensures |r| == if hi < lo then 0 else hi - lo + 1
    decreases hi - lo
  {
    if hi < lo then {} else Range(lo, hi - 1) + {hi}
  }

  function Preimage(size: int, i: int): set<int>
    requires size > 1
  {
    set u | 0 <= u <= Sum(size) && Sample(size, u) == i
  }

  /** How often each rank is drawn as written: of the Sum + 1 draws, rank 0
      receives Size + 1 (the draw 0 falls to it as well) and rank i > 0
      receives Size - i. */
  lemma SampleCount(size: int, i: int)
    requires size > 1 && 0 <= i < size
    ensures |Preimage(size, i)| == if i == 0 then size + 1 else size - i
  {
    SampleTableShape(size);
    var t := SampleTable(size);
    forall u
      ensures u in Preimage(size, i) <==> u in Range(Low(size, i), t[i])
    {
      if 0 <= u <= Sum(size) {
        SamplePreimage(size, u, i);
      }
    }
    assert Preimage(size, i) == Range(Low(size, i), t[i]);
  }

  /** The comment's example Size = 3: table [3, 5, 6]; draws 0..3 give rank
      0, draws 4 and 5 give rank 1 and draw 6 gives rank 2. */
  lemma SampleSizeThree()
    ensures SampleTable(3) == [3, 5, 6] && Sum(3) == 6
    ensures forall u :: 0 <= u <= 3 ==> Sample(3, u) == 0
    ensures Sample(3, 4) == 1 && Sample(3, 5) == 1 && Sample(3, 6) == 2
  {
    assert Cumulative(3, 0) == 3 && Cumulative(3, 1) == 5 && Cumulative(3, 2) == 6;
    assert SampleTable(3) == [3, 5, 6];
    forall u | 0 <= u <= 3
      ensures Sample(3, u) == 0
    {
      SamplePreimage(3, u, 0);
    }
    SamplePreimage(3, 4, 1);
    SamplePreimage(3, 5, 1);
    SamplePreimage(3, 6, 2);
  }

  /** As written, rank 0 is drawn with probability (Size + 1) / (Sum + 1),
      strictly more than the intended Size / Sum. */
  lemma SampleOverweightsRankZero(size: int)
    requires size > 1
    ensures |Preimage(size, 0)| * Sum(size) > size * (Sum(size) + 1)
  {
    SampleCount(size, 0);
    Overweight(size, Sum(size), |Preimage(size, 0)|);
  }

  /** (Size + 1) / (Sum + 1) > Size / Sum, cross-multiplied. */
  lemma Overweight(size: int, sum: int, c: int)
    requires size > 1 && 2 * sum == size * (size + 1) && c == size + 1
    ensures c * sum > size * (sum + 1)
  {
    assert size * (size + 1) >= size * 3;
    assert c * sum == size * sum + sum;
    assert size * (sum + 1) == size * sum + size;
  }

  /** The intended sampler: a draw u from the half-open range [0, Sum) is
      mapped to the least rank whose table entry exceeds u. */
  function SampleCorrected(size: int, u: int): (i: int)
    requires size > 1 && 0 <= u < Sum(size)
    ensures Min() <= i <= Max(size)
    ensures u < SampleTable(size)[i]
    ensures forall k :: 0 <= k < i ==> SampleTable(size)[k] <= u
  {
    SampleTableShape(size);
    LowerBound(SampleTable(size), u + 1)
  }

  function PreimageCorrected(size: int, i: int): set<int>
    requires size > 1
  {
    set u | 0 <= u < Sum(size) && SampleCorrected(size, u) == i
  }

  /** Every rank i receives exactly Size - i of the Sum draws: the
      probabilities Size / Sum, (Size - 1) / Sum, ..., 1 / Sum of the comment. */
  lemma SampleCorrectedCount(size: int, i: int)
    requires size > 1 && 0 <= i < size
    ensures |PreimageCorrected(size, i)| == size - i
  {
    SampleTableShape(size);
    var t := SampleTable(size);
    var lo := if i == 0 then 0 else t[i - 1];
    forall u
      ensures u in PreimageCorrected(size, i) <==> u in Range(lo, t[i] - 1)
    {
      if 0 <= u < Sum(size) {
        var j := SampleCorrected(size, u);
      }
    }
    assert PreimageCorrected(size, i) == Range(lo, t[i] - 1);
  }
}
