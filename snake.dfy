/** The Snake environment of include/snake.hpp: a state machine over the
    field [-R, R] x [-R, R] (R = FieldSize / 2) holding a body of points,
    head first, a heading, an energy counter, a move counter and one food
    item. The pure part (stepping, decisions, perception) is given as
    functions on values; the class `SnakeSpace` carries the mutable fields and
    its methods are proved against those functions. */
module Snake {
  import opened Points

  /** `EnergyTopUp`: energy gained by eating. */
  const EnergyTopUp := 100
  /** Energy at the start of a trial (`init_run`). */
  const InitialEnergy := 100
  /** The body lives in a ring span over `std::array<Point, 384>`. */
  const Capacity := 384
  /** Trials per fitness evaluation (`constexpr int s = 3` in `run`). */
  const Trials := 3

  /** The template parameter FieldSize: odd (the `static_assert`), at least
      13 so that the initial tail can be drawn within radius R - 6, and at most
      19 so that a body covering the whole field still leaves room in the
      384-point ring for the head pushed by a move. */
  predicate ValidFieldSize(fieldSize: int)
  {
    fieldSize % 2 != 0 && 13 <= fieldSize <= 19
  }

  /** With an odd field size the field has exactly FieldSize * FieldSize
      cells, fewer than the ring holds. */
  lemma FieldGeometry(fieldSize: int)
    requires ValidFieldSize(fieldSize)
    ensures 2 * (fieldSize / 2) + 1 == fieldSize
    ensures Cells(fieldSize / 2) == fieldSize * fieldSize < Capacity
    ensures 6 <= fieldSize / 2 <= 9
  {
    MulLe(fieldSize, 19, fieldSize);
    MulLe(fieldSize, 19, 19);
  }

  /** `extend_head`: the head moved by one unit in heading d. */
  function ExtendHead(d: MoveDirection, head: Point): (r: Point)
    ensures InRange(126, head) ==>
      r.x as int == head.x as int + d.DX() && r.y as int == head.y as int + d.DY()
  {
    Add(d.Unit(), head)
  }

  /** `std::find`: the index of the first occurrence of p, |s| if none. */
  function Find(s: seq<Point>, p: Point): (i: nat)
    ensures i <= |s|
    ensures i < |s| ==> s[i] == p
    ensures forall j :: 0 <= j < i ==> s[j] != p
  {
    if s == [] then 0 else if s[0] == p then 0 else 1 + Find(s[1..], p)
  }

  /** `snake_body_contains`. */
  function BodyContains(body: seq<Point>, p: Point): (r: bool)
    ensures r <==> p in body
  {
    Find(body, p) < |body|
  }

  /** `snake_body_not_crossing`: the head occurs nowhere else in the body. */
  function NotCrossing(body: seq<Point>): (r: bool)
    requires |body| >= 1
    ensures r <==> forall j :: 1 <= j < |body| ==> body[j] != body[0]
  {
    Find(body[1..], body[0]) == |body| - 1
  }

  /** `valid_empty_point`: in the field and not on the body. */
  function ValidEmptyPoint(radius: int, body: seq<Point>, p: Point): (r: bool)
    ensures r <==> InRange(radius, p) && p !in body
  {
    InRange(radius, p) && !BodyContains(body, p)
  }

  /** `is_not_dead`, evaluated on the body after the head was pushed. */
  function IsNotDead(radius: int, energy: int, body: seq<Point>): (r: bool)
    requires |body| >= 1
    ensures r <==> energy != 0 && InRange(radius, body[0]) && body[0] !in body[1..]
  {
    energy != 0 && InRange(radius, body[0]) && NotCrossing(body)
  }

  /** The fields of `SnakeSpace` that the game logic reads and writes. */
  datatype SnakeView = SnakeView(moveCount: int, energy: int, direction: MoveDirection,
                                 body: seq<Point>, food: Point)

  /** The state of a live snake: at least three segments, all in the field
      and pairwise distinct, food in the field and off the body, energy left. */
  predicate Valid(radius: int, v: SnakeView)
  {
    3 <= |v.body| && AllInRange(radius, v.body) && Distinct(v.body) &&
    InRange(radius, v.food) && v.food !in v.body && v.energy > 0 && v.moveCount >= 0
  }

  /** Validity does not depend on the heading. */
  lemma TurnKeepsValid(radius: int, v: SnakeView, d: MoveDirection)
    requires Valid(radius, v)
    ensures Valid(radius, v.(direction := d))
  {
  }

  /** Some candidate of a resampling sequence lies off the body. */
  predicate HasFree(draws: seq<Point>, body: seq<Point>)
  {
    exists i :: 0 <= i < |draws| && draws[i] !in body
  }

  /** The candidate the resampling loop of `random_food` stops at. */
  function FirstFree(draws: seq<Point>, body: seq<Point>): (i: nat)
    requires HasFree(draws, body)
    ensures i < |draws| && draws[i] !in body
    ensures forall j :: 0 <= j < i ==> draws[j] in body
  {
    if draws[0] !in body then 0
    else
      assert HasFree(draws[1..], body) by {
        var k :| 0 <= k < |draws| && draws[k] !in body;
        assert draws[1..][k - 1] == draws[k];
      }
      1 + FirstFree(draws[1..], body)
  }

  /** The three segments `init_run` lays down: tail, then two head extensions. */
  function InitialBody(d: MoveDirection, tail: Point): seq<Point>
  {
    [ExtendHead(d, ExtendHead(d, tail)), ExtendHead(d, tail), tail]
  }

  /** The state `init_run` leaves, given its three random draws. */
  function InitialView(d: MoveDirection, tail: Point, draws: seq<Point>): (v: SnakeView)
    requires HasFree(draws, InitialBody(d, tail))
    ensures v.moveCount == 0 && v.energy == InitialEnergy && v.direction == d
    ensures v.body == InitialBody(d, tail) && v.food in draws && v.food !in v.body
  {
    var body := InitialBody(d, tail);
    SnakeView(0, InitialEnergy, d, body, draws[FirstFree(draws, body)])
  }

  /** After `init_run` the snake is alive and well-formed: three segments one
      step apart along the heading, all in range since the tail is drawn
      within R - 6, food in range and off the body, no moves, energy 100. */
  lemma InitRunValid(radius: int, d: MoveDirection, tail: Point, draws: seq<Point>)
    requires 6 <= radius <= 120
    requires InRange(radius - 6, tail)
    requires AllInRange(radius, draws) && HasFree(draws, InitialBody(d, tail))
    ensures var v := InitialView(d, tail, draws);
      Valid(radius, v) && v.moveCount == 0 && v.energy == 100 && v.direction == d &&
      |v.body| == 3 && v.body[2] == tail &&
      forall k :: 0 <= k < 2 ==>
        v.body[k].x as int == v.body[k + 1].x as int + d.DX() &&
        v.body[k].y as int == v.body[k + 1].y as int + d.DY()
  {
    var v := InitialView(d, tail, draws);
    var i := FirstFree(draws, v.body);
    assert InRange(radius, draws[i]);
  }

  /** The position `extend_head` gives for the next move. */
  function NextHead(v: SnakeView): Point
    requires |v.body| >= 1
  {
    ExtendHead(v.direction, v.body[0])
  }

  /** The next move survives and lands on the food. */
  predicate Eats(radius: int, v: SnakeView)
    requires |v.body| >= 1
  {
    IsNotDead(radius, v.energy - 1, [NextHead(v)] + v.body) && NextHead(v) == v.food
  }

  /** One call of `move`: count the move, spend one energy, push the new head;
      if the snake is alive, either drop the tail or eat (keep the tail,
      top up energy, place new food). A dead snake keeps the pushed head. */
  function Step(radius: int, v: SnakeView, draws: seq<Point>): (r: (bool, SnakeView))
    requires |v.body| >= 1
    requires Eats(radius, v) ==> HasFree(draws, [NextHead(v)] + v.body)
  {
    var nh := NextHead(v);
    var grown := [nh] + v.body;
    var e := v.energy - 1;
    if IsNotDead(radius, e, grown) then
      if nh != v.food then
        (true, SnakeView(v.moveCount + 1, e, v.direction, grown[..|grown| - 1], v.food))
      else
        (true, SnakeView(v.moveCount + 1, e + EnergyTopUp, v.direction, grown, draws[FirstFree(draws, grown)]))
    else
      (false, SnakeView(v.moveCount + 1, e, v.direction, grown, v.food))
  }

  /** `move` counts the move and spends one energy, and reports survival
      exactly when energy is left, the new head is in the field and the new
      head meets no other segment (the tail included, as it has not been
      dropped yet). The heading never changes. */
  lemma StepAlive(radius: int, v: SnakeView, draws: seq<Point>)
    requires |v.body| >= 1
    requires Eats(radius, v) ==> HasFree(draws, [NextHead(v)] + v.body)
    ensures var (alive, w) := Step(radius, v, draws);
      (alive <==> v.energy - 1 != 0 && InRange(radius, NextHead(v)) && NextHead(v) !in v.body) &&
      w.moveCount == v.moveCount + 1 && w.direction == v.direction &&
      w.energy == v.energy - 1 + (if Eats(radius, v) then EnergyTopUp else 0) &&
      w.body[0] == NextHead(v)
  {
    var grown := [NextHead(v)] + v.body;
    assert grown[1..] == v.body;
  }

  /** A fatal move keeps the pushed head, so the body grows by one, and the
      food stays where it was. */
  lemma StepDead(radius: int, v: SnakeView, draws: seq<Point>)
    requires |v.body| >= 1
    requires Eats(radius, v) ==> HasFree(draws, [NextHead(v)] + v.body)
    requires !Step(radius, v, draws).0
    ensures Step(radius, v, draws).1.body == [NextHead(v)] + v.body
    ensures Step(radius, v, draws).1.food == v.food
    ensures Step(radius, v, draws).1.energy == v.energy - 1
  {
  }

  /** A surviving move of a live snake: without food the new head is
      prepended and the tail dropped (same length); with food the body grows
      by one, energy rises by EnergyTopUp and the new food is in the field
      and off the grown body. Either way the snake stays well-formed. */
  lemma StepPreservesValid(radius: int, v: SnakeView, draws: seq<Point>)
    requires Valid(radius, v) && AllInRange(radius, draws)
    requires Eats(radius, v) ==> HasFree(draws, [NextHead(v)] + v.body)
    requires Step(radius, v, draws).0
    ensures var w := Step(radius, v, draws).1;
      Valid(radius, w) &&
      (!Eats(radius, v) ==>
        w.body == [NextHead(v)] + v.body[..|v.body| - 1] &&
        |w.body| == |v.body| && w.energy == v.energy - 1 && w.food == v.food) &&
      (Eats(radius, v) ==>
        w.body == [NextHead(v)] + v.body &&
        |w.body| == |v.body| + 1 && w.energy == v.energy - 1 + EnergyTopUp)
  {
    var nh := NextHead(v);
    var grown := [nh] + v.body;
    assert grown[1..] == v.body;
    var w := Step(radius, v, draws).1;
    if nh != v.food {
      assert w.body == [nh] + v.body[..|v.body| - 1];
      forall i, j | 0 <= i < j < |w.body| ensures w.body[i] != w.body[j] {
        if i > 0 {
          assert w.body[i] == v.body[i - 1] && w.body[j] == v.body[j - 1];
        } else {
          assert w.body[j] == v.body[j - 1];
        }
      }
      assert v.food !in w.body by {
        forall i | 0 <= i < |w.body| ensures w.body[i] != v.food {
          if i > 0 { assert w.body[i] == v.body[i - 1]; }
        }
      }
    } else {
      var f := FirstFree(draws, grown);
      assert InRange(radius, draws[f]);
      forall i, j | 0 <= i < j < |w.body| ensures w.body[i] != w.body[j] {
        if i > 0 {
          assert w.body[i] == v.body[i - 1] && w.body[j] == v.body[j - 1];
        } else {
          assert w.body[j] == v.body[j - 1];
        }
      }
    }
  }

  /** Turning back onto the neck is fatal: if the head was reached from the
      second segment with heading d and the heading is now d's reverse, the
      next move lands on the second segment. */
  lemma ReverseIsFatal(radius: int, v: SnakeView, d: MoveDirection, draws: seq<Point>)
    requires Valid(radius, v) && radius <= 120
    requires v.body[0] == ExtendHead(d, v.body[1]) && v.direction == d.Reverse()
    ensures Eats(radius, v) ==> HasFree(draws, [NextHead(v)] + v.body)
    ensures !Step(radius, v, draws).0
  {
    assert NextHead(v) == v.body[1];
    assert ([NextHead(v)] + v.body)[2] == v.body[1];
  }

  // ---------------------------------------------------------------------
  // Decisions.

  /** The relative choice of the 3-output network: 0, 1 or 2 for whichever of
      o[0], o[1], o[2] the comparison cascade of `decide_direction_3` picks. */
  function Choice3(o: seq<real>): (c: int)
    requires |o| >= 3
    ensures 0 <= c < 3
    ensures forall j :: 0 <= j < 3 ==> o[c] >= o[j]
  {
    if o[0] > o[1] then (if o[0] > o[2] then 0 else 2) else (if o[1] > o[2] then 1 else 2)
  }

  /** The neighbour cells `gather_input_10` probes in its slots 0, 1 and 2:
      the cell to the left of, ahead of and to the right of the head. */
  function FeelerCell(d: MoveDirection, f: Point, slot: int): Point
    requires 0 <= slot < 3
  {
    var west := Point(Wrap(f.x as int - 1), f.y);
    var east := Point(Wrap(f.x as int + 1), f.y);
    var north := Point(f.x, Wrap(f.y as int + 1));
    var south := Point(f.x, Wrap(f.y as int - 1));
    match d
    case No => [west, north, east][slot]
    case Ea => [north, east, south][slot]
    case So => [east, south, west][slot]
    case We => [south, west, north][slot]
  }

  /** The heading to the left of d, as `gather_input_10` lays out its slot 0. */
  function LeftOf(d: MoveDirection): MoveDirection
  {
    match d
    case No => We
    case Ea => No
    case So => Ea
    case We => So
  }

  function RightOf(d: MoveDirection): MoveDirection
  {
    LeftOf(d).Reverse()
  }

  /** `decide_direction_3` as written: the new heading for each of the four
      current headings. */
  function DecideDirection3AsWritten(d: MoveDirection, o: seq<real>): (r: MoveDirection)
    requires |o| >= 3
    ensures r != d.Reverse()
    ensures r == d <==> o[0] <= o[1] && o[1] > o[2]
  {
    match d
    case No => if o[0] > o[1] then (if o[0] > o[2] then Ea else We) else (if o[1] > o[2] then No else We)
    case Ea => if o[0] > o[1] then (if o[0] > o[2] then No else So) else (if o[1] > o[2] then Ea else So)
    case So => if o[0] > o[1] then (if o[0] > o[2] then We else Ea) else (if o[1] > o[2] then So else Ea)
    case We => if o[0] > o[1] then (if o[0] > o[2] then So else No) else (if o[1] > o[2] then We else No)
  }

  /** As written, output 0 turns right when heading north (and south) but left
      when heading east (and west): heading north with o = [1, 0, 0] the snake
      goes east, whereas slot 0 of its input describes the cell to the west. */
  lemma DecideDirection3Mirrored(head: Point)
    requires InRange(126, head)
    ensures DecideDirection3AsWritten(No, [1.0, 0.0, 0.0]) == Ea == RightOf(No)
    ensures DecideDirection3AsWritten(Ea, [1.0, 0.0, 0.0]) == No == LeftOf(Ea)
    ensures ExtendHead(Ea, head) != FeelerCell(No, head, 0)
  {
    var o := [1.0, 0.0, 0.0];
    assert o[0] > o[1] && o[0] > o[2];
  }

  /** `decide_direction_3` with outputs 0, 1, 2 meaning left, ahead, right
      for every heading, matching the input layout of `gather_input_10`. */
  function DecideDirection3(d: MoveDirection, o: seq<real>): (r: MoveDirection)
    requires |o| >= 3
    ensures r != d.Reverse()
    ensures r == d <==> o[0] <= o[1] && o[1] > o[2]
  {
    var c := Choice3(o);
    if c == 0 then LeftOf(d) else if c == 1 then d else RightOf(d)
  }

  /** Turning left, going ahead and turning right move the head into the
      cells of input slots 0, 1 and 2. */
  lemma FeelerCells(d: MoveDirection, head: Point)
    ensures ExtendHead(LeftOf(d), head) == FeelerCell(d, head, 0)
    ensures ExtendHead(d, head) == FeelerCell(d, head, 1)
    ensures ExtendHead(RightOf(d), head) == FeelerCell(d, head, 2)
  {
    match d
    case No => {}
    case Ea => {}
    case So => {}
    case We => {}
  }

  /** The corrected decision moves the head into the cell that the chosen
      input slot describes, whatever the heading. */
  lemma DecideDirection3FollowsInput(d: MoveDirection, o: seq<real>, head: Point)
    requires |o| >= 3
    ensures ExtendHead(DecideDirection3(d, o), head) == FeelerCell(d, head, Choice3(o))
  {
    FeelerCells(d, head);
  }

  /** `decide_direction_4`: a heading whose output is not smaller than any
      other output (an argmax over no, ea, so, we). */
  function DecideDirection4(o: seq<real>): (r: MoveDirection)
    requires |o| >= 4
    ensures forall k :: 0 <= k < 4 ==> o[r.Ordinal()] >= o[k]
  {
    if o[1] > o[0] then
      (if o[3] > o[2] then (if o[3] > o[1] then We else Ea) else (if o[2] > o[1] then So else Ea))
    else
      (if o[3] > o[2] then (if o[3] > o[0] then We else No) else (if o[2] > o[0] then So else No))
  }

  /** `decide_direction`: the 3-output variant when NumOutput is 3, the
      4-output argmax otherwise. Only the 3-output variant avoids reversing. */
  function DecideDirection(numOutput: int, d: MoveDirection, o: seq<real>): (r: MoveDirection)
    requires |o| == numOutput && (numOutput == 3 || numOutput >= 4)
    ensures numOutput == 3 ==> r != d.Reverse()
    ensures numOutput != 3 ==> forall k :: 0 <= k < 4 ==> o[r.Ordinal()] >= o[k]
  {
    if numOutput == 3 then DecideDirection3AsWritten(d, o) else DecideDirection4(o)
  }

  // ---------------------------------------------------------------------
  // Perception.

  /** `distance_point_to_point_8` on s = p0 - p1: the slot (no, ne, ea, se,
      so, sw, we, nw) in which p1 lies as seen from p0, and the inverse
      Manhattan distance; slot 0 with value 0 when p1 is not aligned. */
  function DistancePointToPoint8(p0: Point, p1: Point): (r: (int, real))
    requires p0 != p1
    ensures 0 <= r.0 < 8 && r.1 >= 0.0
    ensures r.1 == 0.0 ==> r.0 == 0
  {
    SubZero(p0, p1);
    var s := Sub(p0, p1);
    var sx, sy := s.x as int, s.y as int;
    if sx == 0 then
      (if sy < 0 then (0, 1.0 / (-sy) as real) else (4, 1.0 / sy as real))
    else if sx == sy then
      (if sy < 0 then (1, 0.5 / (-sy) as real) else (5, 0.5 / sy as real))
    else if sy == 0 then
      (if sx < 0 then (2, 1.0 / (-sx) as real) else (6, 1.0 / sx as real))
    else if sx == -sy then
      (if sx < 0 then (3, 0.5 / (-sx) as real) else (7, 0.5 / sx as real))
    else
      (0, 0.0)
  }

  /** For points whose difference fits a `char`, the value is nonzero exactly
      when p1 lies on the ray from p0 in the returned slot's direction, and
      then it is the inverse Manhattan distance; a point on any ray is
      reported in that ray's slot. */
  lemma DistancePointToPoint8Aligned(p0: Point, p1: Point)
    requires p0 != p1 && InRange(63, p0) && InRange(63, p1)
    ensures var (slot, val) := DistancePointToPoint8(p0, p1);
      var c := Chebyshev(p0, p1);
      (val != 0.0 <==> OnRay(p0, p1, ScanFromOrdinal(slot), c)) &&
      (val != 0.0 ==> val == ScanActivation(ScanFromOrdinal(slot), c)) &&
      (forall k: ScanDirection :: OnRay(p0, p1, k, c) ==> k.Ordinal() == slot && val != 0.0)
  {
    var s := Sub(p0, p1);
    var sx, sy := s.x as int, s.y as int;
    assert sx == p0.x as int - p1.x as int && sy == p0.y as int - p1.y as int;
    if sx == sy && sy != 0 {
      HalfInverse(if sy < 0 then -sy else sy);
    } else if sx == -sy && sx != 0 {
      HalfInverse(if sx < 0 then -sx else sx);
    }
  }

  lemma HalfInverse(n: int)
    requires n > 0
    ensures 0.5 / n as real == 1.0 / (2 * n) as real
  {
  }

  /** Folds `distances_to_body_8` over segments: each segment raises the slot
      it is seen in to its value when that is larger. */
  function BodyScan(acc: seq<real>, head: Point, segs: seq<Point>): (r: seq<real>)
    requires |acc| == 8 && head !in segs
    ensures |r| == 8
  {
    if segs == [] then acc
    else
      var r := BodyScan(acc, head, segs[..|segs| - 1]);
      var (dir, val) := DistancePointToPoint8(head, segs[|segs| - 1]);
      if val > r[dir] then r[dir := val] else r
  }

  /** Each slot of the scan is the maximum of its initial value and the
      values of the segments seen in that slot. */
  lemma {:induction false} BodyScanIsMax(acc: seq<real>, head: Point, segs: seq<Point>)
    requires |acc| == 8 && head !in segs
    ensures var r := BodyScan(acc, head, segs);
      (forall k :: 0 <= k < 8 ==> r[k] >= acc[k]) &&
      (forall i :: 0 <= i < |segs| ==>
        var (dir, val) := DistancePointToPoint8(head, segs[i]); r[dir] >= val) &&
      (forall k :: 0 <= k < 8 ==>
        r[k] == acc[k] || exists i :: 0 <= i < |segs| && DistancePointToPoint8(head, segs[i]) == (k, r[k]))
  {
    if segs != [] {
      var init := segs[..|segs| - 1];
      BodyScanIsMax(acc, head, init);
      var r := BodyScan(acc, head, init);
      var (dir, val) := DistancePointToPoint8(head, segs[|segs| - 1]);
      var r' := BodyScan(acc, head, segs);
      forall i | 0 <= i < |segs|
        ensures var (d, v) := DistancePointToPoint8(head, segs[i]); r'[d] >= v
      {
        if i < |segs| - 1 {
          assert segs[i] == init[i];
        }
      }
      forall k | 0 <= k < 8
        ensures r'[k] == acc[k] ||
          exists i :: 0 <= i < |segs| && DistancePointToPoint8(head, segs[i]) == (k, r'[k])
      {
        if r'[k] != acc[k] {
          if k == dir && val > r[dir] {
            assert DistancePointToPoint8(head, segs[|segs| - 1]) == (k, r'[k]);
          } else {
            var i :| 0 <= i < |init| && DistancePointToPoint8(head, init[i]) == (k, r[k]);
            assert segs[i] == init[i];
          }
        }
      }
    }
  }

  // ---------------------------------------------------------------------
  // The trial loop of `run`.

  datatype Option<T> = None | Some(value: T)

  /** The network as an oracle from the observed state to its outputs. */
  ghost predicate ValidBrain(numOutput: int, brain: SnakeView -> seq<real>)
  {
    (numOutput == 3 || numOutput >= 4) && forall v :: |brain(v)| == numOutput
  }

  /** Every food candidate sequence stays in the field. */
  ghost predicate FoodInRange(radius: int, food: int -> seq<Point>)
  {
    forall m :: AllInRange(radius, food(m))
  }

  /** The random draws of one trial: the heading and tail of `init_run`, its
      food candidates, and the food candidates drawn after the move with a
      given move count. */
  datatype Trial = Trial(direction: MoveDirection, tail: Point, initialFood: seq<Point>,
                         food: int -> seq<Point>)

  ghost predicate ValidTrial(radius: int, t: Trial)
  {
    InRange(radius - 6, t.tail) && AllInRange(radius, t.initialFood) &&
    HasFree(t.initialFood, InitialBody(t.direction, t.tail)) && FoodInRange(radius, t.food)
  }

  /** The inner loop `while (move()) m_direction = decide_direction(...)` from
      state v: the body length after the fatal move, or None when the snake
      eats with no free candidate left, where `random_food` never returns.
      Each move spends one energy and each meal adds EnergyTopUp energy and a
      segment, so energy + EnergyTopUp * (free cells) strictly decreases. */
  function Play(radius: nat, numOutput: int, brain: SnakeView -> seq<real>, v: SnakeView,
                food: int -> seq<Point>): (r: Option<int>)
    requires Valid(radius, v) && ValidBrain(numOutput, brain) && FoodInRange(radius, food)
    ensures r.Some? ==> |v.body| + 1 <= r.value <= Cells(radius) + 1
    decreases v.energy + EnergyTopUp * (Cells(radius) - |v.body|), 1
  {
    FieldBound(radius, v.body);
    if Eats(radius, v) && !HasFree(food(v.moveCount), [NextHead(v)] + v.body) then None
    else PlayMove(radius, numOutput, brain, v, food)
  }

  /** One `move` of the inner loop that does not hang, then either the final
      length or the decision and the rest of the loop. */
  function PlayMove(radius: nat, numOutput: int, brain: SnakeView -> seq<real>, v: SnakeView,
                    food: int -> seq<Point>): (r: Option<int>)
    requires Valid(radius, v) && ValidBrain(numOutput, brain) && FoodInRange(radius, food)
    requires Eats(radius, v) ==> HasFree(food(v.moveCount), [NextHead(v)] + v.body)
    ensures r.Some? ==> |v.body| + 1 <= r.value <= Cells(radius) + 1
    decreases v.energy + EnergyTopUp * (Cells(radius) - |v.body|), 0
  {
    FieldBound(radius, v.body);
    var (alive, w) := Step(radius, v, food(v.moveCount));
    if !alive then Some(|w.body|)
    else
      StepPreservesValid(radius, v, food(v.moveCount));
      FieldBound(radius, w.body);
      Play(radius, numOutput, brain, w.(direction := DecideDirection(numOutput, w.direction, brain(w))), food)
  }

  /** The eight denominators of `distances_to_wall_8`, in scan order, are
      the wall activations of the head. */
  lemma WallRow(radius: int, p: Point, row: seq<real>)
    requires InRange(radius, p) && |row| == 8
    requires var x, y := p.x as int, p.y as int;
      row[0] == 1.0 / (radius - y + 1) as real &&
      row[1] == 1.0 / (2 * Min(radius - x, radius - y) + 1) as real &&
      row[2] == 1.0 / (radius - x + 1) as real &&
      row[3] == 1.0 / (2 * Min(radius - x, radius + y) + 1) as real &&
      row[4] == 1.0 / (radius + y + 1) as real &&
      row[5] == 1.0 / (2 * Min(radius + x, radius + y) + 1) as real &&
      row[6] == 1.0 / (radius + x + 1) as real &&
      row[7] == 1.0 / (2 * Min(radius + x, radius - y) + 1) as real
    ensures forall k :: 0 <= k < 8 ==> row[k] == WallActivation(radius, p, ScanFromOrdinal(k))
  {
  }

  /** Each candidate sequence contains every cell of the field. */
  ghost predicate Covers(radius: int, draws: seq<Point>)
  {
    forall p :: InRange(radius, p) ==> p in draws
  }

  /** When the candidates cover the field, `random_food` can only fail to
      find a free cell once the grown snake occupies every cell. */
  lemma HangOnlyOnFullField(radius: nat, v: SnakeView, draws: seq<Point>)
    requires Valid(radius, v) && radius <= 127 && Covers(radius, draws)
    requires Eats(radius, v) && !HasFree(draws, [NextHead(v)] + v.body)
    ensures |v.body| + 1 == Cells(radius)
  {
    var grown := [NextHead(v)] + v.body;
    assert grown[1..] == v.body;
    assert Distinct(grown) by {
      forall i, j | 0 <= i < j < |grown| ensures grown[i] != grown[j] {
        assert grown[j] == v.body[j - 1];
        if i > 0 { assert grown[i] == v.body[i - 1]; }
      }
    }
    FieldBound(radius, grown);
    if |grown| < Cells(radius) {
      FreeCell(radius, grown);
      assert false;
    }
  }

  /** One trial: `init_run`, then the inner loop. */
  function TrialSize(radius: nat, numOutput: int, brain: SnakeView -> seq<real>, t: Trial): Option<int>
    requires 6 <= radius <= 120 && ValidBrain(numOutput, brain) && ValidTrial(radius, t)
  {
    InitRunValid(radius, t.direction, t.tail, t.initialFood);
    Play(radius, numOutput, brain, InitialView(t.direction, t.tail, t.initialFood), t.food)
  }

  /** The results of the given trials, in order. */
  function TrialSizes(radius: nat, numOutput: int, brain: SnakeView -> seq<real>, ts: seq<Trial>): (r: seq<Option<int>>)
    requires 6 <= radius <= 120 && ValidBrain(numOutput, brain)
    requires forall i :: 0 <= i < |ts| ==> ValidTrial(radius, ts[i])
    ensures |r| == |ts|
    ensures forall i :: 0 <= i < |ts| ==> r[i] == TrialSize(radius, numOutput, brain, ts[i])
  {
    seq(|ts|, i requires 0 <= i < |ts| => TrialSize(radius, numOutput, brain, ts[i]))
  }

  /** The accumulator `r` of `run` over trial results; None as soon as one
      trial does not finish. */
  function SumSizes(sizes: seq<Option<int>>): Option<int>
  {
    if sizes == [] then Some(0)
    else
      match (SumSizes(sizes[..|sizes| - 1]), sizes[|sizes| - 1])
      case (Some(a), Some(b)) => Some(a + b)
      case _ => None
  }

  /** The accumulator after one more finished trial. */
  lemma SumSizesExtend(sizes: seq<Option<int>>, i: int, a: int, b: int, j: int, c: int)
    requires 0 <= i < |sizes| && SumSizes(sizes[..i]) == Some(a) && sizes[i] == Some(b)
    requires j == i + 1 && c == a + b
    ensures SumSizes(sizes[..j]) == Some(c)
  {
    assert sizes[..j][..i] == sizes[..i];
  }

  /** The evaluation does not finish exactly when some trial does not. */
  lemma {:induction false} SumSizesHangs(sizes: seq<Option<int>>)
    ensures SumSizes(sizes).None? <==> exists i :: 0 <= i < |sizes| && sizes[i].None?
  {
    if sizes != [] {
      var k := |sizes| - 1;
      var prefix := sizes[..k];
      SumSizesHangs(prefix);
      if exists i :: 0 <= i < |prefix| && prefix[i].None? {
        var i :| 0 <= i < |prefix| && prefix[i].None?;
        assert sizes[i] == prefix[i];
      }
      if exists i :: 0 <= i < |sizes| && sizes[i].None? {
        var i :| 0 <= i < |sizes| && sizes[i].None?;
        if i < k {
          assert prefix[i] == sizes[i];
        }
      }
    }
  }

  /** Trial results between lo and hi sum to between n * lo and n * hi. */
  lemma {:induction false} SumSizesBounds(sizes: seq<Option<int>>, lo: int, hi: int)
    requires forall i :: 0 <= i < |sizes| && sizes[i].Some? ==> lo <= sizes[i].value <= hi
    ensures var r := SumSizes(sizes);
      r.Some? ==> |sizes| * lo <= r.value <= |sizes| * hi
  {
    if sizes != [] {
      var k := |sizes| - 1;
      var prefix := sizes[..k];
      forall i | 0 <= i < |prefix| && prefix[i].Some?
        ensures lo <= prefix[i].value <= hi
      {
        assert prefix[i] == sizes[i];
      }
      SumSizesBounds(prefix, lo, hi);
      match (SumSizes(prefix), sizes[k])
      case (Some(a), Some(b)) => ScaledStep(k, a, b, lo, hi);
      case _ =>
    }
  }

  lemma ScaledStep(k: int, a: int, b: int, lo: int, hi: int)
    requires k * lo <= a <= k * hi && lo <= b <= hi
    ensures (k + 1) * lo <= a + b <= (k + 1) * hi
  {
    assert (k + 1) * lo == k * lo + lo && (k + 1) * hi == k * hi + hi;
  }

  /** The fitness `run` returns: the mean body length over the trials. */
  function Fitness(radius: nat, numOutput: int, brain: SnakeView -> seq<real>, ts: seq<Trial>): (r: Option<real>)
    requires 6 <= radius <= 120 && ValidBrain(numOutput, brain)
    requires forall i :: 0 <= i < |ts| ==> ValidTrial(radius, ts[i])
    ensures r.None? <==> exists i :: 0 <= i < |ts| && TrialSize(radius, numOutput, brain, ts[i]).None?
  {
    var sizes := TrialSizes(radius, numOutput, brain, ts);
    SumSizesHangs(sizes);
    match SumSizes(sizes)
    case Some(n) => Some(n as real / Trials as real)
    case None => None
  }

  /** The fitness of three finished trials lies between 4 (the initial three
      segments and the fatal head) and one more than the number of cells. */
  lemma FitnessBounds(radius: nat, numOutput: int, brain: SnakeView -> seq<real>, ts: seq<Trial>)
    requires 6 <= radius <= 120 && ValidBrain(numOutput, brain) && |ts| == Trials
    requires forall i :: 0 <= i < |ts| ==> ValidTrial(radius, ts[i])
    ensures var f := Fitness(radius, numOutput, brain, ts);
      f.Some? ==> 4.0 <= f.value <= (Cells(radius) + 1) as real
  {
    var sizes := TrialSizes(radius, numOutput, brain, ts);
    forall i | 0 <= i < |sizes| && sizes[i].Some?
      ensures 4 <= sizes[i].value <= Cells(radius) + 1
    {
      var t := ts[i];
      InitRunValid(radius, t.direction, t.tail, t.initialFood);
    }
    SumSizesBounds(sizes, 4, Cells(radius) + 1);
  }

  /** Changes recorded by `move_display` for incremental drawing. */
  datatype Changes = Changes(oldHead: Point, newHead: Point, hasEaten: bool, oldTail: Point)

  class SnakeSpace {
    const fieldSize: int
    const radius: int
    var moveCount: int
    var energy: int
    var direction: MoveDirection
    var body: seq<Point>
    var food: Point
    var changes: Changes

    constructor (fieldSize: int)
      requires ValidFieldSize(fieldSize)
      ensures this.fieldSize == fieldSize && radius == fieldSize / 2
    {
      this.fieldSize := fieldSize;
      radius := fieldSize / 2;
    }

    function View(): SnakeView
      reads this
    {
      SnakeView(moveCount, energy, direction, body, food)
    }

    /** `random_food`: resample until a candidate is off the body. */
    method RandomFood(draws: seq<Point>)
      requires HasFree(draws, body)
      modifies this`food
      ensures food == draws[FirstFree(draws, body)]
    {
      var i := 0;
      var f := draws[0];
      while BodyContains(body, f)
        invariant 0 <= i <= FirstFree(draws, body) && f == draws[i]
        decreases FirstFree(draws, body) - i
      {
        i := i + 1;
        f := draws[i];
      }
      food := f;
    }

    /** `init_run`, given the random heading, tail and food candidates. */
    method InitRun(d: MoveDirection, tail: Point, draws: seq<Point>)
      requires InRange(radius - 6, tail) && AllInRange(radius, draws)
      requires HasFree(draws, InitialBody(d, tail))
      modifies this
      ensures View() == InitialView(d, tail, draws)
      ensures changes == old(changes)
    {
      moveCount := 0;
      energy := InitialEnergy;
      direction := d;
      body := [];
      body := [tail] + body;
      body := [ExtendHead(direction, body[0])] + body;
      body := [ExtendHead(direction, body[0])] + body;
      assert body == InitialBody(d, tail);
      RandomFood(draws);
    }

    /** `move`: the state and the status Step describes. */
    method Move(draws: seq<Point>) returns (alive: bool)
      requires 1 <= |body| < Capacity
      requires Eats(radius, View()) ==> HasFree(draws, [NextHead(View())] + body)
      modifies this
      ensures (alive, View()) == Step(radius, old(View()), draws)
      ensures changes == old(changes)
    {
      ghost var v := View();
      moveCount := moveCount + 1;
      energy := energy - 1;
      body := [ExtendHead(direction, body[0])] + body;
      if IsNotDead(radius, energy, body) {
        if body[0] != food {
          body := body[..|body| - 1];
          return true;
        } else {
          energy := energy + EnergyTopUp;
          RandomFood(draws);
          return true;
        }
      }
      return false;
    }

    /** `move_display`: `move`, recording the old and new head and either the
      dropped tail or that the snake has eaten. */
    method MoveDisplay(draws: seq<Point>) returns (alive: bool)
      requires 1 <= |body| < Capacity
      requires Eats(radius, View()) ==> HasFree(draws, [NextHead(View())] + body)
      modifies this
      ensures (alive, View()) == Step(radius, old(View()), draws)
      ensures changes.oldHead == old(body[0]) && changes.newHead == NextHead(old(View()))
      ensures alive && !Eats(radius, old(View())) ==>
        !changes.hasEaten && changes.oldTail == old(body[|body| - 1])
      ensures alive && Eats(radius, old(View())) ==>
        changes.hasEaten && changes.oldTail == old(changes.oldTail)
      ensures !alive ==> changes.hasEaten == old(changes.hasEaten) && changes.oldTail == old(changes.oldTail)
    {
      moveCount := moveCount + 1;
      energy := energy - 1;
      changes := changes.(oldHead := body[0]);
      body := [ExtendHead(direction, body[0])] + body;
      changes := changes.(newHead := body[0]);
      if IsNotDead(radius, energy, body) {
        if body[0] != food {
          changes := changes.(hasEaten := false, oldTail := body[|body| - 1]);
          body := body[..|body| - 1];
          return true;
        } else {
          changes := changes.(hasEaten := true);
          energy := energy + EnergyTopUp;
          RandomFood(draws);
          return true;
        }
      }
      return false;
    }

    /** One trial of `run`: `init_run`, then `move` and `decide_direction`
      until the snake dies; the result is the final body length. */
    method RunTrial(numOutput: int, brain: SnakeView -> seq<real>, t: Trial) returns (size: Option<int>)
      requires ValidFieldSize(fieldSize) && radius == fieldSize / 2
      requires ValidBrain(numOutput, brain) && ValidTrial(radius, t)
      modifies this
      ensures size == TrialSize(radius, numOutput, brain, t)
    {
      FieldGeometry(fieldSize);
      InitRun(t.direction, t.tail, t.initialFood);
      InitRunValid(radius, t.direction, t.tail, t.initialFood);
      ghost var start := View();
      while true
        invariant Valid(radius, View())
        invariant Play(radius, numOutput, brain, View(), t.food) == Play(radius, numOutput, brain, start, t.food)
        decreases energy + EnergyTopUp * (Cells(radius) - |body|)
      {
        var finished, result := PlayStep(numOutput, brain, t.food);
        if finished {
          return result;
        }
      }
    }

    /** One pass of the inner loop of `run`: `move`, then `decide_direction`
      when the snake lives. A finished pass returns what the rest of the
      trial yields (None when `random_food` would hang); otherwise
      the snake is still valid, the rest of the trial is unchanged and the
      loop measure has dropped. */
    method PlayStep(numOutput: int, brain: SnakeView -> seq<real>, food: int -> seq<Point>)
      returns (finished: bool, size: Option<int>)
      requires ValidFieldSize(fieldSize) && radius == fieldSize / 2
      requires ValidBrain(numOutput, brain) && FoodInRange(radius, food) && Valid(radius, View())
      modifies this
      ensures finished ==> size == Play(radius, numOutput, brain, old(View()), food)
      ensures !finished ==> (Valid(radius, View()) &&
        Play(radius, numOutput, brain, View(), food) == Play(radius, numOutput, brain, old(View()), food) &&
        0 <= energy + EnergyTopUp * (Cells(radius) - |body|) < old(energy + EnergyTopUp * (Cells(radius) - |body|)))
    {
      FieldGeometry(fieldSize);
      FieldBound(radius, body);
      if Eats(radius, View()) && !HasFree(food(moveCount), [NextHead(View())] + body) {
        return true, None;
      }
      ghost var v := View();
      assert Play(radius, numOutput, brain, v, food) == PlayMove(radius, numOutput, brain, v, food);
      var alive := Move(food(moveCount));
      if !alive {
        return true, Some(|body|);
      }
      StepPreservesValid(radius, v, food(v.moveCount));
      FieldBound(radius, body);
      ghost var w := View();
      direction := DecideDirection(numOutput, direction, brain(View()));
      TurnKeepsValid(radius, w, direction);
      assert View() == w.(direction := DecideDirection(numOutput, w.direction, brain(w)));
      return false, None;
    }

    /** `run`: three trials accumulating the final body lengths; the fitness
      is their mean. None stands for a trial in which `random_food` never
      returns. */
    method Run(numOutput: int, brain: SnakeView -> seq<real>, trials: seq<Trial>) returns (fitness: Option<real>)
      requires ValidFieldSize(fieldSize) && radius == fieldSize / 2
      requires ValidBrain(numOutput, brain) && |trials| == Trials
      requires forall i :: 0 <= i < |trials| ==> ValidTrial(radius, trials[i])
      modifies this
      ensures fitness == Fitness(radius, numOutput, brain, trials)
    {
      FieldGeometry(fieldSize);
      ghost var all := TrialSizes(radius, numOutput, brain, trials);
      assert all[..0] == [];
      var r := 0;
      var i := 0;
      while i < Trials
        invariant 0 <= i <= Trials
        invariant SumSizes(all[..i]) == Some(r)
      {
        var size := RunTrial(numOutput, brain, trials[i]);
        if size.None? {
          SumSizesHangs(all);
          return None;
        }
        ghost var r0, i0 := r, i;
        r, i := r + size.value, i + 1;
        SumSizesExtend(all, i0, r0, size.value, i, r);
      }
      assert all[..i] == all;
      fitness := Some(r as real / Trials as real);
    }

    /** `distances_to_wall_8`: slot k holds the wall activation in scan
      direction k; every denominator is at least 1 for an in-range head. */
    method DistancesToWall8(data: array<real>)
      requires data.Length >= 8 && |body| >= 1 && InRange(radius, body[0])
      modifies data
      ensures forall k :: 0 <= k < 8 ==> data[k] == WallActivation(radius, body[0], ScanFromOrdinal(k))
      ensures data[8..] == old(data[8..])
    {
      var head := body[0];
      var x, y := head.x as int, head.y as int;
      data[0] := 1.0 / (radius - y + 1) as real;
      data[1] := 1.0 / (2 * Min(radius - x, radius - y) + 1) as real;
      data[2] := 1.0 / (radius - x + 1) as real;
      data[3] := 1.0 / (2 * Min(radius - x, radius + y) + 1) as real;
      data[4] := 1.0 / (radius + y + 1) as real;
      data[5] := 1.0 / (2 * Min(radius + x, radius + y) + 1) as real;
      data[6] := 1.0 / (radius + x + 1) as real;
      data[7] := 1.0 / (2 * Min(radius + x, radius - y) + 1) as real;
      WallRow(radius, head, data[..8]);
    }

    /** `distances_to_food_8`: the food's slot receives its value. */
    method DistancesToFood8(data: array<real>)
      requires data.Length >= 8 && |body| >= 1 && body[0] != food
      modifies data
      ensures var (dir, val) := DistancePointToPoint8(body[0], food);
        data[..] == old(data[..])[dir := val]
    {
      var (dir, val) := DistancePointToPoint8(body[0], food);
      data[dir] := val;
    }

    /** `distances_to_body_8`: raises each slot to the largest value of the
      segments behind the head seen in it. */
    method DistancesToBody8(data: array<real>)
      requires data.Length >= 8 && |body| >= 1 && body[0] !in body[1..]
      modifies data
      ensures data[..8] == BodyScan(old(data[..8]), body[0], body[1..])
      ensures data[8..] == old(data[8..])
    {
      var head := body[0];
      var i := 1;
      while i < |body|
        invariant 1 <= i <= |body|
        invariant data[..8] == BodyScan(old(data[..8]), head, body[1..i])
        invariant data[8..] == old(data[8..])
      {
        assert body[1..i + 1][..i - 1] == body[1..i];
        var (dir, val) := DistancePointToPoint8(head, body[i]);
        if val > data[dir] {
          data[dir] := val;
        }
        i := i + 1;
      }
      assert body[1..i] == body[1..];
    }
  }
}
