/** The geometry helpers of the experimental driver SimdNet/main.cpp: a
    `SnakeSpace<S>` with a heading and a body that can turn, and the
    perception functions that look from the head along the eight scan
    directions. Coordinates are promoted to `int` before any arithmetic
    except in `dp2p`, which subtracts `Point`s and so wraps like a `char`. */
module Driver {
  import opened Points
  import Snake

  /** `turn_left`: ordinal + 1 modulo 4. */
  function TurnLeftOf(d: MoveDirection): (r: MoveDirection)
    ensures r.Ordinal() == (d.Ordinal() + 1) % 4
  {
    match d
    case No => Ea
    case Ea => So
    case So => We
    case We => No
  }

  /** `turn_right`: ordinal + 3 modulo 4. */
  function TurnRightOf(d: MoveDirection): (r: MoveDirection)
    ensures r.Ordinal() == (d.Ordinal() + 3) % 4
  {
    match d
    case No => We
    case Ea => No
    case So => Ea
    case We => So
  }

  /** Each turn undoes the other. */
  lemma TurnsInverse(d: MoveDirection)
    ensures TurnLeftOf(TurnRightOf(d)) == d
    ensures TurnRightOf(TurnLeftOf(d)) == d
  {
    match d
    case No => {}
    case Ea => {}
    case So => {}
    case We => {}
  }

  /** Four turns the same way come back to the start, and no fewer do. */
  lemma FourTurns(d: MoveDirection)
    ensures TurnLeftOf(TurnLeftOf(TurnLeftOf(TurnLeftOf(d)))) == d
    ensures TurnRightOf(TurnRightOf(TurnRightOf(TurnRightOf(d)))) == d
    ensures TurnLeftOf(d) != d && TurnLeftOf(TurnLeftOf(d)) != d && TurnLeftOf(TurnLeftOf(TurnLeftOf(d))) != d
  {
    match d
    case No => {}
    case Ea => {}
    case So => {}
    case We => {}
  }

  /** With no = (0, +1) and ea = (+1, 0), `turn_left` rotates the heading
      clockwise and two turns reverse it. */
  lemma TurnLeftRotation(d: MoveDirection)
    ensures TurnLeftOf(d).DX() == d.DY() && TurnLeftOf(d).DY() == -d.DX()
    ensures TurnLeftOf(TurnLeftOf(d)) == d.Reverse()
  {
    match d
    case No => {}
    case Ea => {}
    case So => {}
    case We => {}
  }

  /** The integer denominator `distance_to_wall` divides by: the
      Manhattan length of the ray to the wall plus one, at least 1 for a
      point in the field. */
  function WallDenominator(base: int, hp: Point, dir: ScanDirection): (n: int)
    ensures InRange(base, hp) ==> n >= 1
  {
    var x, y := hp.x as int, hp.y as int;
    match dir
    case SNo => base - y + 1
    case SNe => 2 * Min(base - x, base - y) + 1
    case SEa => base - x + 1
    case SSe => 2 * Min(base - x, base + y) + 1
    case SSo => base + y + 1
    case SSw => 2 * Min(base + x, base + y) + 1
    case SWe => base + x + 1
    case SNw => 2 * Min(base + x, base - y) + 1
  }

  /** The denominator is the Manhattan length of the ray from hp to the wall
      plus one. */
  lemma WallDenominatorRay(base: int, hp: Point, dir: ScanDirection)
    requires InRange(base, hp)
    ensures WallDenominator(base, hp, dir) == dir.StepLength() * RaySteps(base, hp.x as int, hp.y as int, dir) + 1
  {
    match dir
    case SNo => {}
    case SNe => {}
    case SEa => {}
    case SSe => {}
    case SSo => {}
    case SSw => {}
    case SWe => {}
    case SNw => {}
  }

  /** `distance_to_wall`. */
  function DistanceToWall(base: int, hp: Point, dir: ScanDirection): (r: real)
    requires WallDenominator(base, hp, dir) != 0
    ensures InRange(base, hp) ==> r == WallActivation(base, hp, dir) && 0.0 < r <= 1.0
  {
    if InRange(base, hp) then WallDenominatorRay(base, hp, dir); 1.0 / WallDenominator(base, hp, dir) as real
    else 1.0 / WallDenominator(base, hp, dir) as real
  }

  /** `distance_point_to_point`: nonzero exactly when p1 lies strictly beyond
      p0 in direction dir on the same column, row or diagonal, and then the
      inverse of their Manhattan distance. */
  function DistancePointToPoint(p0: Point, p1: Point, dir: ScanDirection): (r: real)
    ensures r >= 0.0
  {
    var x0, y0, x1, y1 := p0.x as int, p0.y as int, p1.x as int, p1.y as int;
    match dir
    case SNo => if x0 != x1 || y0 >= y1 then 0.0 else 1.0 / (y1 - y0) as real
    case SNe =>
      if x0 >= x1 || y0 >= y1 || x0 - y0 != x1 - y1 then 0.0 else 1.0 / ((x1 - x0) + (y1 - y0)) as real
    case SEa => if y0 != y1 || x0 >= x1 then 0.0 else 1.0 / (x1 - x0) as real
    case SSe =>
      if x0 >= x1 || y0 <= y1 || x0 + y0 != x1 + y1 then 0.0 else 1.0 / ((x1 - x0) + (y0 - y1)) as real
    case SSo => if x0 != x1 || y0 <= y1 then 0.0 else 1.0 / (y0 - y1) as real
    case SSw =>
      if x0 <= x1 || y0 <= y1 || x0 - y0 != x1 - y1 then 0.0 else 1.0 / ((x0 - x1) + (y0 - y1)) as real
    case SWe => if y0 != y1 || x0 <= x1 then 0.0 else 1.0 / (x0 - x1) as real
    case SNw =>
      if x0 <= x1 || y0 >= y1 || x0 + y0 != x1 + y1 then 0.0 else 1.0 / ((x0 - x1) + (y1 - y0)) as real
  }

  /** The value is nonzero exactly when p1 lies on the ray from p0 in
      direction dir, and then it is the inverse Manhattan distance. */
  lemma DistancePointToPointAligned(p0: Point, p1: Point, dir: ScanDirection)
    ensures var r := DistancePointToPoint(p0, p1, dir);
      (r != 0.0 <==> OnRay(p0, p1, dir, Chebyshev(p0, p1))) &&
      (r != 0.0 ==> r == ScanActivation(dir, Chebyshev(p0, p1)))
  {
    match dir
    case SNo => {}
    case SNe => {}
    case SEa => {}
    case SSe => {}
    case SSo => {}
    case SSw => {}
    case SWe => {}
    case SNw => {}
  }

  /** At most one of the eight directions sees p1, and none does when the
      points coincide. */
  lemma AtMostOneDirection(p0: Point, p1: Point, k1: ScanDirection, k2: ScanDirection)
    requires DistancePointToPoint(p0, p1, k1) != 0.0 && DistancePointToPoint(p0, p1, k2) != 0.0
    ensures k1 == k2 && p0 != p1
  {
    DistancePointToPointAligned(p0, p1, k1);
    DistancePointToPointAligned(p0, p1, k2);
    var c := Chebyshev(p0, p1);
    OnRayUnique(p0, p1, k1, c, k2, c);
  }

  /** `distances_point_to_point`: slot k gets the value for scan direction k.
      The member at SimdNet/main.cpp:207-224 and the free function at
      303-320 have the same body. */
  method DistancesPointToPoint(out: array<real>, p0: Point, p1: Point)
    requires out.Length >= 8
    modifies out
    ensures forall k :: 0 <= k < 8 ==> out[k] == DistancePointToPoint(p0, p1, ScanFromOrdinal(k))
    ensures out[8..] == old(out[8..])
  {
    var x0, y0, x1, y1 := p0.x as int, p0.y as int, p1.x as int, p1.y as int;
    out[0] := if x0 != x1 || y0 >= y1 then 0.0 else 1.0 / (y1 - y0) as real;
    out[1] := if x0 >= x1 || y0 >= y1 || x0 - y0 != x1 - y1 then 0.0 else 1.0 / ((x1 - x0) + (y1 - y0)) as real;
    out[2] := if y0 != y1 || x0 >= x1 then 0.0 else 1.0 / (x1 - x0) as real;
    out[3] := if x0 >= x1 || y0 <= y1 || x0 + y0 != x1 + y1 then 0.0 else 1.0 / ((x1 - x0) + (y0 - y1)) as real;
    out[4] := if x0 != x1 || y0 <= y1 then 0.0 else 1.0 / (y0 - y1) as real;
    out[5] := if x0 <= x1 || y0 <= y1 || x0 - y0 != x1 - y1 then 0.0 else 1.0 / ((x0 - x1) + (y0 - y1)) as real;
    out[6] := if y0 != y1 || x0 <= x1 then 0.0 else 1.0 / (x0 - x1) as real;
    out[7] := if x0 <= x1 || y0 >= y1 || x0 + y0 != x1 + y1 then 0.0 else 1.0 / ((x0 - x1) + (y1 - y0)) as real;
  }

  /** The slots written by `distances_point_to_point`: at most one of them
      is nonzero, none when p0 == p1, and the nonzero one is the direction
      in which p1 lies. */
  lemma DistancesAtMostOne(p0: Point, p1: Point, s: seq<real>)
    requires |s| >= 8
    requires forall k :: 0 <= k < 8 ==> s[k] == DistancePointToPoint(p0, p1, ScanFromOrdinal(k))
    ensures forall i, j :: 0 <= i < j < 8 ==> s[i] == 0.0 || s[j] == 0.0
    ensures p0 == p1 ==> forall k :: 0 <= k < 8 ==> s[k] == 0.0
    ensures forall k :: 0 <= k < 8 && s[k] != 0.0 ==> OnRay(p0, p1, ScanFromOrdinal(k), Chebyshev(p0, p1))
  {
    forall k | 0 <= k < 8 ensures s[k] != 0.0 ==> OnRay(p0, p1, ScanFromOrdinal(k), Chebyshev(p0, p1)) {
      DistancePointToPointAligned(p0, p1, ScanFromOrdinal(k));
    }
    forall i, j | 0 <= i < j < 8 ensures s[i] == 0.0 || s[j] == 0.0 {
      if s[i] != 0.0 && s[j] != 0.0 {
        AtMostOneDirection(p0, p1, ScanFromOrdinal(i), ScanFromOrdinal(j));
      }
    }
  }

  /** The example of `main`: seen from (8, -7), the point (-2, 1) lies in
      none of the eight directions, so every slot is zero. */
  lemma MainExample()
    ensures forall k: ScanDirection :: DistancePointToPoint(Point(8, -7), Point(-2, 1), k) == 0.0
  {
  }

  /** `dp2p`: classifies s = p0 - p1 (wrapped to `char`) exactly like
      `distance_point_to_point_8` of include/snake.hpp and writes the value
      into that slot when p1 is aligned, leaving every other slot as it was. */
  method Dp2p(out: array<real>, p0: Point, p1: Point)
    requires out.Length >= 8 && p0 != p1
    modifies out
    ensures var (slot, val) := Snake.DistancePointToPoint8(p0, p1);
      out[..] == if val == 0.0 then old(out[..]) else old(out[..])[slot := val]
  {
    SubZero(p0, p1);
    var s := Sub(p0, p1);
    var sx, sy := s.x as int, s.y as int;
    if sx == 0 {
      if sy < 0 {
        out[0] := 1.0 / (-sy) as real;
      } else {
        out[4] := 1.0 / sy as real;
      }
      return;
    }
    if sx == sy {
      if sx < 0 {
        out[1] := 0.5 / (-sx) as real;
      } else {
        out[5] := 0.5 / sx as real;
      }
      return;
    }
    if sy == 0 {
      if sx < 0 {
        out[2] := 1.0 / (-sx) as real;
      } else {
        out[6] := 1.0 / sx as real;
      }
      return;
    }
    if sx == -sy {
      if sx < 0 {
        out[3] := 0.5 / (-sx) as real;
      } else {
        out[7] := 0.5 / sx as real;
      }
      return;
    }
  }

  /** For points whose difference fits a `char`, the one slot `dp2p` (and
      `distance_point_to_point_8`) writes is the one slot in which
      `distances_point_to_point` is nonzero, with the same value. */
  lemma Dp2pAgreesWithScan(p0: Point, p1: Point)
    requires p0 != p1 && InRange(63, p0) && InRange(63, p1)
    ensures var (slot, val) := Snake.DistancePointToPoint8(p0, p1);
      forall k :: 0 <= k < 8 ==>
        DistancePointToPoint(p0, p1, ScanFromOrdinal(k)) == if k == slot && val != 0.0 then val else 0.0
  {
    var (slot, val) := Snake.DistancePointToPoint8(p0, p1);
    var c := Chebyshev(p0, p1);
    Snake.DistancePointToPoint8Aligned(p0, p1);
    forall k | 0 <= k < 8
      ensures DistancePointToPoint(p0, p1, ScanFromOrdinal(k)) == if k == slot && val != 0.0 then val else 0.0
    {
      DistancePointToPointAligned(p0, p1, ScanFromOrdinal(k));
    }
  }

  /** The running maximum `distance_to_body` keeps: starting from acc, the
      largest value of the segments in direction dir. */
  function MaxAlong(acc: real, head: Point, segs: seq<Point>, dir: ScanDirection): real
    decreases |segs|
  {
    if segs == [] then acc
    else
      var d := DistancePointToPoint(head, segs[0], dir);
      MaxAlong(if d > acc then d else acc, head, segs[1..], dir)
  }

  /** The running maximum is at least acc and every segment's value, and is
      acc or one of the segments' values. */
  lemma {:induction false} MaxAlongIsMax(acc: real, head: Point, segs: seq<Point>, dir: ScanDirection)
    decreases |segs|
    ensures var m := MaxAlong(acc, head, segs, dir);
      m >= acc && (forall i :: 0 <= i < |segs| ==> m >= DistancePointToPoint(head, segs[i], dir)) &&
      (m == acc || exists i :: 0 <= i < |segs| && m == DistancePointToPoint(head, segs[i], dir))
  {
    if segs != [] {
      var d := DistancePointToPoint(head, segs[0], dir);
      var a := if d > acc then d else acc;
      MaxAlongIsMax(a, head, segs[1..], dir);
      var m := MaxAlong(acc, head, segs, dir);
      forall i | 0 <= i < |segs| ensures m >= DistancePointToPoint(head, segs[i], dir) {
        if i > 0 { assert segs[i] == segs[1..][i - 1]; }
      }
      if m != acc && m != a {
        var i :| 0 <= i < |segs[1..]| && m == DistancePointToPoint(head, segs[1..][i], dir);
        assert segs[1..][i] == segs[i + 1];
      }
    }
  }

  /** The eight `if (d[k] > dist_[k]) dist_[k] = d[k];` of
      `distances_to_body`, one per scan direction, written as a loop. */
  method RaiseSlots(dist: array<real>, d: array<real>)
    requires dist.Length >= 8 && d.Length >= 8 && dist != d
    modifies dist
    ensures forall k :: 0 <= k < 8 ==> dist[k] == if d[k] > old(dist[k]) then d[k] else old(dist[k])
    ensures dist[8..] == old(dist[8..])
  {
    for k := 0 to 8
      invariant forall j :: 0 <= j < k ==> dist[j] == if d[j] > old(dist[j]) then d[j] else old(dist[j])
      invariant forall j :: k <= j < dist.Length ==> dist[j] == old(dist[j])
    {
      if d[k] > dist[k] {
        dist[k] := d[k];
      }
    }
  }

  class SnakeSpace {
    /** `Base = S / 2`. */
    const base: int
    var direction: MoveDirection
    var body: seq<Point>

    /** A space of odd size S whose snake has the given heading and
      segments, head first. */
    constructor (size: int, d: MoveDirection, segments: seq<Point>)
      requires size % 2 != 0
      ensures base == size / 2 && direction == d && body == segments
    {
      base := size / 2;
      direction := d;
      body := segments;
    }

    method TurnRight()
      modifies this`direction
      ensures direction == TurnRightOf(old(direction))
    {
      direction := MoveFromOrdinal((direction.Ordinal() + 3) % 4);
    }

    method TurnLeft()
      modifies this`direction
      ensures direction == TurnLeftOf(old(direction))
    {
      direction := MoveFromOrdinal((direction.Ordinal() + 1) % 4);
    }

    /** `distance_to_body`: the running maximum from 0 over the segments
      behind the head. */
    method DistanceToBody(dir: ScanDirection) returns (distance: real)
      requires |body| >= 1
      ensures distance == MaxAlong(0.0, body[0], body[1..], dir)
    {
      var head := body[0];
      distance := 0.0;
      var i := 1;
      while i < |body|
        invariant 1 <= i <= |body|
        invariant MaxAlong(distance, head, body[i..], dir) == MaxAlong(0.0, head, body[1..], dir)
      {
        assert body[i..][1..] == body[i + 1..];
        var d := DistancePointToPoint(head, body[i], dir);
        if d > distance {
          distance := d;
        }
        i := i + 1;
      }
    }

    /** `distances_to_body`, which needs at least two segments: each slot
      starts from the second segment's value and keeps the maximum over the
      rest, which is `distance_to_body` in that direction. */
    method DistancesToBody(dist: array<real>)
      requires dist.Length >= 8 && |body| >= 2
      modifies dist
      ensures forall k :: 0 <= k < 8 ==> dist[k] == MaxAlong(0.0, body[0], body[1..], ScanFromOrdinal(k))
      ensures dist[8..] == old(dist[8..])
    {
      var head := body[0];
      var d := new real[8];
      DistancesPointToPoint(dist, head, body[1]);
      assert body[1..][1..] == body[2..];
      var i := 2;
      while i < |body|
        invariant 2 <= i <= |body|
        invariant forall k :: 0 <= k < 8 ==>
          MaxAlong(dist[k], head, body[i..], ScanFromOrdinal(k)) == MaxAlong(0.0, head, body[1..], ScanFromOrdinal(k))
        invariant dist[8..] == old(dist[8..])
      {
        assert body[i..][1..] == body[i + 1..];
        ghost var prev := dist[..];
        DistancesPointToPoint(d, head, body[i]);
        RaiseSlots(dist, d);
        forall k | 0 <= k < 8
          ensures MaxAlong(dist[k], head, body[i + 1..], ScanFromOrdinal(k))
               == MaxAlong(0.0, head, body[1..], ScanFromOrdinal(k))
        {
          assert MaxAlong(prev[k], head, body[i..], ScanFromOrdinal(k))
              == MaxAlong(dist[k], head, body[i + 1..], ScanFromOrdinal(k));
        }
        i := i + 1;
      }
    }
  }
}
