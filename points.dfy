/** Grid geometry shared by the Snake environment (include/snake.hpp) and the
    experimental driver (SimdNet/main.cpp): `char` coordinates and points,
    the four move headings, the eight scan directions, rays towards the wall
    and the counting of field cells. */
module Points {

  /** A `char` coordinate: a signed 8-bit integer. */
  newtype Int8 = v: int | -128 <= v < 128

  /** The conversion of an `int` back to `char`: two's-complement truncation,
      the unique 8-bit value congruent to `v` modulo 256. */
  function Wrap(v: int): (r: Int8)
    ensures -128 <= v < 128 ==> r as int == v
    ensures 128 <= v < 384 ==> r as int == v - 256
    ensures -384 <= v < -128 ==> r as int == v + 256
    decreases if v < -128 then 1 - v else if v >= 128 then v else 0
  {
    if v < -128 then Wrap(v + 256) else if v >= 128 then Wrap(v - 256) else v as Int8
  }

  /** The truncation keeps the value modulo 256. */
  lemma {:induction false} WrapCongruent(v: int)
    ensures (Wrap(v) as int - v) % 256 == 0
    decreases if v < -128 then 1 - v else if v >= 128 then v else 0
  {
    if v < -128 {
      WrapCongruent(v + 256);
      assert Wrap(v) as int - v == (Wrap(v + 256) as int - (v + 256)) + 256;
    } else if v >= 128 {
      WrapCongruent(v - 256);
      assert Wrap(v) as int - v == (Wrap(v - 256) as int - (v - 256)) - 256;
    }
  }

  datatype Point = Point(x: Int8, y: Int8)

  /** `operator+`: the coordinate-wise sum, stored back into `char`s. */
  function Add(p: Point, q: Point): (r: Point)
    ensures -128 <= p.x as int + q.x as int < 128 ==> r.x as int == p.x as int + q.x as int
    ensures -128 <= p.y as int + q.y as int < 128 ==> r.y as int == p.y as int + q.y as int
  {
    Point(Wrap(p.x as int + q.x as int), Wrap(p.y as int + q.y as int))
  }

  /** `operator-`: the coordinate-wise difference, cast back to `char`. */
  function Sub(p: Point, q: Point): (r: Point)
    ensures -128 <= p.x as int - q.x as int < 128 ==> r.x as int == p.x as int - q.x as int
    ensures -128 <= p.y as int - q.y as int < 128 ==> r.y as int == p.y as int - q.y as int
  {
    Point(Wrap(p.x as int - q.x as int), Wrap(p.y as int - q.y as int))
  }

  /** The difference of two points is zero exactly when they are equal:
      8-bit truncation never maps a nonzero difference to zero. */
  lemma SubZero(p: Point, q: Point)
    ensures Sub(p, q) == Point(0, 0) <==> p == q
  {
  }

  /** The field is the square [-radius, radius] x [-radius, radius]. */
  predicate InRangeXY(radius: int, x: int, y: int)
  {
    -radius <= x && -radius <= y && x <= radius && y <= radius
  }

  /** `in_range` of both SnakeSpace variants. */
  predicate InRange(radius: int, p: Point)
  {
    InRangeXY(radius, p.x as int, p.y as int)
  }

  predicate AllInRange(radius: int, s: seq<Point>)
  {
    forall i :: 0 <= i < |s| ==> InRange(radius, s[i])
  }

  predicate Distinct(s: seq<Point>)
  {
    forall i, j :: 0 <= i < j < |s| ==> s[i] != s[j]
  }

  /** `MoveDirection { no, ea, so, we }`: north is +y, east is +x. */
  datatype MoveDirection = No | Ea | So | We
  {
    function Ordinal(): int
    {
      match this
      case No => 0
      case Ea => 1
      case So => 2
      case We => 3
    }

    function DX(): int
    {
      match this
      case Ea => 1
      case We => -1
      case _ => 0
    }

    function DY(): int
    {
      match this
      case No => 1
      case So => -1
      case _ => 0
    }

    /** The unit step of this heading, as a `Point`. */
    function Unit(): Point
    {
      Point(DX() as Int8, DY() as Int8)
    }

    function Reverse(): MoveDirection
    {
      match this
      case No => So
      case Ea => We
      case So => No
      case We => Ea
    }
  }

  /** `static_cast<MoveDirection>(i)` for i in [0, 3]. */
  function MoveFromOrdinal(i: int): (d: MoveDirection)
    requires 0 <= i < 4
    ensures d.Ordinal() == i
  {
    if i == 0 then No else if i == 1 then Ea else if i == 2 then So else We
  }

  /** `ScanDirection { no, ne, ea, se, so, sw, we, nw }` of SimdNet/main.cpp,
      which is also the slot order of the 8-slot perception blocks of
      include/snake.hpp. */
  datatype ScanDirection = SNo | SNe | SEa | SSe | SSo | SSw | SWe | SNw
  {
    function Ordinal(): int
    {
      match this
      case SNo => 0
      case SNe => 1
      case SEa => 2
      case SSe => 3
      case SSo => 4
      case SSw => 5
      case SWe => 6
      case SNw => 7
    }

    function DX(): int
    {
      match this
      case SNe => 1
      case SEa => 1
      case SSe => 1
      case SSw => -1
      case SWe => -1
      case SNw => -1
      case _ => 0
    }

    function DY(): int
    {
      match this
      case SNo => 1
      case SNe => 1
      case SNw => 1
      case SSe => -1
      case SSo => -1
      case SSw => -1
      case _ => 0
    }

    predicate IsDiagonal()
    {
      DX() != 0 && DY() != 0
    }

    /** Manhattan length of one step in this direction. */
    function StepLength(): int
    {
      if IsDiagonal() then 2 else 1
    }
  }

  function ScanFromOrdinal(i: int): (k: ScanDirection)
    requires 0 <= i < 8
    ensures k.Ordinal() == i
  {
    match i
    case 0 => SNo
    case 1 => SNe
    case 2 => SEa
    case 3 => SSe
    case 4 => SSo
    case 5 => SSw
    case 6 => SWe
    case _ => SNw
  }

  function Abs(v: int): int
  {
    if v < 0 then -v else v
  }

  /** The number of king moves between two points. */
  function Chebyshev(p0: Point, p1: Point): int
  {
    var dx := Abs(p1.x as int - p0.x as int);
    var dy := Abs(p1.y as int - p0.y as int);
    if dx < dy then dy else dx
  }

  /** p1 lies d > 0 whole steps from p0 in direction k. This is the reference
      meaning of the "aligned" perception values. */
  predicate OnRay(p0: Point, p1: Point, k: ScanDirection, d: int)
  {
    d > 0 && p1.x as int == p0.x as int + d * k.DX() && p1.y as int == p0.y as int + d * k.DY()
  }

  /** The perception value of a point d steps away in direction k: the
      inverse of its Manhattan distance. */
  function ScanActivation(k: ScanDirection, d: int): real
    requires d > 0
  {
    1.0 / (k.StepLength() * d) as real
  }

  /** A point lies on at most one ray from p0, at its Chebyshev distance. */
  lemma OnRayUnique(p0: Point, p1: Point, k1: ScanDirection, d1: int, k2: ScanDirection, d2: int)
    requires OnRay(p0, p1, k1, d1) && OnRay(p0, p1, k2, d2)
    ensures k1 == k2 && d1 == d2 && d1 == Chebyshev(p0, p1)
  {
  }

  /** How many whole steps fit between an in-range point (x, y) and the wall
      in direction k. */
  function RaySteps(radius: int, x: int, y: int, k: ScanDirection): int
  {
    match k
    case SNo => radius - y
    case SNe => Min(radius - x, radius - y)
    case SEa => radius - x
    case SSe => Min(radius - x, radius + y)
    case SSo => radius + y
    case SSw => Min(radius + x, radius + y)
    case SWe => radius + x
    case SNw => Min(radius + x, radius - y)
  }

  function Min(a: int, b: int): int
  {
    if a < b then a else b
  }

  /** RaySteps is exact: the point that many steps away is still in the
      field, one more step leaves it. */
  lemma RayStepsExact(radius: int, x: int, y: int, k: ScanDirection)
    requires InRangeXY(radius, x, y)
    ensures var n := RaySteps(radius, x, y, k);
      n >= 0 &&
      InRangeXY(radius, x + n * k.DX(), y + n * k.DY()) &&
      !InRangeXY(radius, x + (n + 1) * k.DX(), y + (n + 1) * k.DY())
  {
  }

  /** The perception value of the wall in direction k: the inverse of one
      plus the Manhattan length of the ray to the wall. */
  function WallActivation(radius: int, p: Point, k: ScanDirection): (r: real)
    requires InRange(radius, p)
    ensures 0.0 < r <= 1.0
  {
    RayStepsExact(radius, p.x as int, p.y as int, k);
    1.0 / (k.StepLength() * RaySteps(radius, p.x as int, p.y as int, k) + 1) as real
  }

  // ---------------------------------------------------------------------
  // Counting the cells of the field.

  /** The number of cells of a field of the given radius. */
  function Cells(radius: nat): nat
  {
    (2 * radius + 1) * (2 * radius + 1)
  }

  /** Row-major numbering of the cells of the field. */
  function CellIndex(radius: nat, p: Point): int
  {
    (p.x as int + radius) * (2 * radius + 1) + (p.y as int + radius)
  }

  /** The cell with a given number. */
  function CellAt(radius: nat, i: int): (p: Point)
    requires radius <= 127 && 0 <= i < Cells(radius)
    ensures InRange(radius, p) && CellIndex(radius, p) == i
  {
    var n := 2 * radius + 1;
    DivBound(i, n);
    var p := Point((i / n - radius) as Int8, (i % n - radius) as Int8);
    p
  }

  lemma DivBound(i: int, n: int)
    requires n > 0 && 0 <= i < n * n
    ensures 0 <= i / n < n
    ensures i == (i / n) * n + i % n
  {
    if i / n >= n {
      MulLe(n, i / n, n);
    }
  }

  lemma MulLe(a: int, b: int, n: int)
    requires 0 <= a <= b && n >= 0
    ensures a * n <= b * n
  {
  }

  /** Distinct in-range cells have distinct numbers in [0, Cells). */
  lemma CellIndexInjective(radius: nat, p: Point, q: Point)
    requires InRange(radius, p) && InRange(radius, q)
    ensures 0 <= CellIndex(radius, p) < Cells(radius)
    ensures CellIndex(radius, p) == CellIndex(radius, q) ==> p == q
  {
    var n := 2 * radius + 1;
    var a, b := p.x as int + radius, p.y as int + radius;
    var c, d := q.x as int + radius, q.y as int + radius;
    CellIndexBound(a, b, n);
    if a * n + b == c * n + d {
      DigitsUnique(a, b, c, d, n);
    }
  }

  lemma CellIndexBound(a: int, b: int, n: int)
    requires 0 <= a < n && 0 <= b < n
    ensures 0 <= a * n + b < n * n
  {
    MulLe(a, n - 1, n);
    assert (n - 1) * n == n * n - n;
  }

  lemma DigitsUnique(a: int, b: int, c: int, d: int, n: int)
    requires n > 0 && 0 <= b < n && 0 <= d < n && a * n + b == c * n + d
    ensures a == c && b == d
  {
    assert (a - c) * n == d - b;
    MulAwayFromZero(a - c, n);
  }

  lemma MulAwayFromZero(k: int, n: int)
    requires n > 0
    ensures k >= 1 ==> k * n >= n
    ensures k <= -1 ==> k * n <= -n
  {
  }

  function Interval(n: nat): (s: set<int>)
    ensures forall i :: i in s <==> 0 <= i < n
    ensures |s| == n
  {
    if n == 0 then {} else Interval(n - 1) + {n - 1}
  }

  function Indices(radius: nat, s: seq<Point>): (r: set<int>)
    ensures forall i :: 0 <= i < |s| ==> CellIndex(radius, s[i]) in r
    ensures forall j :: j in r ==> exists i :: 0 <= i < |s| && CellIndex(radius, s[i]) == j
  {
    if s == [] then {} else {CellIndex(radius, s[0])} + Indices(radius, s[1..])
  }

  lemma {:induction false} IndicesCard(radius: nat, s: seq<Point>)
    ensures |Indices(radius, s)| <= |s|
    ensures AllInRange(radius, s) && Distinct(s) ==> |Indices(radius, s)| == |s|
  {
    if s != [] {
      IndicesCard(radius, s[1..]);
      if AllInRange(radius, s) && Distinct(s) {
        forall i | 0 <= i < |s[1..]|
          ensures CellIndex(radius, s[1..][i]) != CellIndex(radius, s[0])
        {
          CellIndexInjective(radius, s[0], s[1..][i]);
        }
      }
    }
  }

  lemma SubsetCard(a: set<int>, b: set<int>)
    requires a <= b
    ensures |a| <= |b|
  {
    assert b == a + (b - a);
  }

  /** Pigeonhole: distinct in-range points number at most Cells(radius). */
  lemma FieldBound(radius: nat, s: seq<Point>)
    requires AllInRange(radius, s) && Distinct(s)
    ensures |s| <= Cells(radius)
  {
    IndicesCard(radius, s);
    forall j | j in Indices(radius, s)
      ensures j in Interval(Cells(radius))
    {
      var i :| 0 <= i < |s| && CellIndex(radius, s[i]) == j;
      CellIndexInjective(radius, s[i], s[i]);
    }
    SubsetCard(Indices(radius, s), Interval(Cells(radius)));
  }

  /** Pigeonhole: fewer points than cells leave some cell of the field free. */
  lemma FreeCell(radius: nat, s: seq<Point>)
    requires radius <= 127 && |s| < Cells(radius)
    ensures exists p :: InRange(radius, p) && p !in s
  {
    if forall p :: InRange(radius, p) ==> p in s {
      forall j | j in Interval(Cells(radius))
        ensures j in Indices(radius, s)
      {
        var p := CellAt(radius, j);
        var i :| 0 <= i < |s| && s[i] == p;
      }
      SubsetCard(Interval(Cells(radius)), Indices(radius, s));
      IndicesCard(radius, s);
      assert false;
    }
  }
}
