/** The rover's pose and the pure meaning of its operations (rover.py, class Rover):
    the two turns, one move, and the interpretation of a command string. The class
    Fleet.Rover performs these in place; its methods are proved against the
    functions here. */
module Navigation {
  import opened Bounds

  /** Rover.ORIENTATIONS: orientation index 0, 1, 2, 3 names heading E, N, W, S. */
  const Headings: string := "ENWS"

  /** A grid dimension that passed the mission's validation. */
  type Extent = n: int | n > 0 witness 1

  /** The triple get_location returns, in its order: (orientation, x, y). */
  datatype Pose = Pose(orientation: int, x: int, y: int)

  /** `round(cos(2 * o * pi / 4))`: 1, 0, -1, 0 for `o % 4` = 0, 1, 2, 3. */
  function Dx(o: int): (d: int)
    ensures -1 <= d <= 1
    ensures d != 0 <==> o % 4 == 0 || o % 4 == 2
  {
    [1, 0, -1, 0][o % 4]
  }

  /** `round(sin(2 * o * pi / 4))`: 0, 1, 0, -1 for `o % 4` = 0, 1, 2, 3. */
  function Dy(o: int): (d: int)
    ensures -1 <= d <= 1
    ensures d != 0 <==> o % 4 == 1 || o % 4 == 3
  {
    [0, 1, 0, -1][o % 4]
  }

  /** Each orientation points along exactly one axis, one cell at a time. */
  lemma DirectionIsUnit(o: int)
    ensures (Dx(o) == 0) != (Dy(o) == 0)
    ensures -1 <= Dx(o) <= 1 && -1 <= Dy(o) <= 1
    ensures Dx(o + 2) == -Dx(o) && Dy(o + 2) == -Dy(o)
  {
  }

  /** turn_negative: the orientation index minus one, modulo `len(ORIENTATIONS)`, which is 4. */
  function TurnedNegative(p: Pose): (q: Pose)
    ensures 0 <= q.orientation < |Headings|
    ensures q.x == p.x && q.y == p.y
  {
    Pose((p.orientation - 1) % 4, p.x, p.y)
  }

  /** turn_positive: the orientation index plus one, modulo `len(ORIENTATIONS)`, which is 4. */
  function TurnedPositive(p: Pose): (q: Pose)
    ensures 0 <= q.orientation < |Headings|
    ensures q.x == p.x && q.y == p.y
  {
    Pose((p.orientation + 1) % 4, p.x, p.y)
  }

  /** The two turns undo each other on an orientation in range. */
  lemma TurnsCancel(p: Pose)
    requires 0 <= p.orientation < |Headings|
    ensures TurnedNegative(TurnedPositive(p)) == p
    ensures TurnedPositive(TurnedNegative(p)) == p
  {
  }

  /** Four turns in either direction come back to the orientation modulo 4,
      hence to the start when the orientation is in range. */
  lemma FourTurns(p: Pose)
    ensures TurnedPositive(TurnedPositive(TurnedPositive(TurnedPositive(p)))) == p.(orientation := p.orientation % 4)
    ensures TurnedNegative(TurnedNegative(TurnedNegative(TurnedNegative(p)))) == p.(orientation := p.orientation % 4)
    ensures 0 <= p.orientation < 4 ==>
              TurnedPositive(TurnedPositive(TurnedPositive(TurnedPositive(p)))) == p &&
              TurnedNegative(TurnedNegative(TurnedNegative(TurnedNegative(p)))) == p
  {
    var m := p.orientation % 4;
    assert p.orientation == 4 * (p.orientation / 4) + m;
    assert TurnedPositive(p).orientation == (m + 1) % 4;
    assert TurnedNegative(p).orientation == (m + 3) % 4;
  }

  /** `x_step` in move: the x coordinate one step ahead, clamped into `(0, range_x - 1)`. */
  function XStep(p: Pose, w: Extent): (r: int)
    ensures 0 <= r < w
    ensures r == p.x + Dx(p.orientation) <==> 0 <= p.x + Dx(p.orientation) < w
  {
    Bounded(p.x + Dx(p.orientation), 0, w - 1)
  }

  /** `y_step` in move: the y coordinate one step ahead, clamped into `(0, range_y - 1)`. */
  function YStep(p: Pose, h: Extent): (r: int)
    ensures 0 <= r < h
    ensures r == p.y + Dy(p.orientation) <==> 0 <= p.y + Dy(p.orientation) < h
  {
    Bounded(p.y + Dy(p.orientation), 0, h - 1)
  }

  /** move on a grid of `w` by `h`: unless both clamped targets are 0, the clamped
      targets are ADDED to the coordinates (not assigned to them). */
  function Moved(p: Pose, w: Extent, h: Extent): (q: Pose)
    ensures q.orientation == p.orientation
    ensures q.x >= p.x && q.y >= p.y
    ensures q == p <==> XStep(p, w) == 0 && YStep(p, h) == 0
  {
    var xStep, yStep := XStep(p, w), YStep(p, h);
    if (0, 0) != (xStep, yStep) then Pose(p.orientation, p.x + xStep, p.y + yStep) else p
  }

  /** A rover in the lower-left corner facing W or S stays put, and so does any
      rover on a one-cell grid. */
  lemma MoveBlockedAtOrigin(p: Pose, w: Extent, h: Extent)
    requires p.x == 0 && p.y == 0
    requires p.orientation % 4 in {2, 3} || (w == 1 && h == 1)
    ensures Moved(p, w, h) == p
  {
  }

  /** Moving does not keep a rover on the grid: on a 10 by 10 grid a rover at
      x = 5 facing E ends at x = 11, and one at x = 3 facing W ends at x = 5. */
  lemma MoveLeavesGrid()
    ensures Moved(Pose(0, 5, 0), 10, 10) == Pose(0, 11, 0)
    ensures Moved(Pose(2, 3, 0), 10, 10) == Pose(2, 5, 0)
  {
  }

  /** One character of Rover.command: M moves, R turns negative, L turns positive,
      anything else is skipped. */
  function Step(p: Pose, c: char, w: Extent, h: Extent): (q: Pose)
    ensures c != 'M' && c != 'L' && c != 'R' ==> q == p
    ensures c != 'M' ==> q.x == p.x && q.y == p.y
    ensures c == 'M' ==> q.orientation == p.orientation
    ensures q.x <= p.x + w - 1 && q.y <= p.y + h - 1
  {
    if c == 'M' then Moved(p, w, h)
    else if c == 'R' then TurnedNegative(p)
    else if c == 'L' then TurnedPositive(p)
    else p
  }

  /** Rover.command: the characters applied one after another, left to right. */
  function Commanded(p: Pose, s: string, w: Extent, h: Extent): (q: Pose)
    ensures q.x <= p.x + |s| * (w - 1) && q.y <= p.y + |s| * (h - 1)
    decreases |s|
  {
    if s == [] then p
    else
      assert |s| * (w - 1) == (|s| - 1) * (w - 1) + (w - 1);
      assert |s| * (h - 1) == (|s| - 1) * (h - 1) + (h - 1);
      Commanded(Step(p, s[0], w, h), s[1..], w, h)
  }

  /** Running `s + t` is running `s`, then `t` from where `s` left the rover. */
  lemma {:induction false} CommandedConcat(p: Pose, s: string, t: string, w: Extent, h: Extent)
    ensures Commanded(p, s + t, w, h) == Commanded(Commanded(p, s, w, h), t, w, h)
    decreases |s|
  {
    if s == [] {
      assert s + t == t;
    } else {
      assert (s + t)[1..] == s[1..] + t;
      CommandedConcat(Step(p, s[0], w, h), s[1..], t, w, h);
    }
  }

  /** Running `s` then one more character. */
  lemma CommandedSnoc(p: Pose, s: string, c: char, w: Extent, h: Extent)
    ensures Commanded(p, s + [c], w, h) == Step(Commanded(p, s, w, h), c, w, h)
  {
    CommandedConcat(p, s, [c], w, h);
  }

  /** The command characters Rover.command acts on. */
  function IsCommand(c: char): (b: bool)
    ensures !b ==> forall p: Pose, w: Extent, h: Extent :: Step(p, c, w, h) == p
  {
    c in "MLR"
  }

  /** `''.join(char for char in command_str if char in "MLR")` in Mission.command. */
  function Filtered(s: string): (r: string)
    ensures |r| <= |s|
    ensures forall i :: 0 <= i < |r| ==> IsCommand(r[i])
    ensures (forall i :: 0 <= i < |s| ==> IsCommand(s[i])) ==> r == s
  {
    if s == [] then []
    else (if IsCommand(s[0]) then [s[0]] else []) + Filtered(s[1..])
  }

  /** Dropping the non-command characters does not change what a command string does. */
  lemma {:induction false} CommandedFiltered(p: Pose, s: string, w: Extent, h: Extent)
    ensures Commanded(p, Filtered(s), w, h) == Commanded(p, s, w, h)
    decreases |s|
  {
    if s != [] {
      var q := Step(p, s[0], w, h);
      CommandedFiltered(q, s[1..], w, h);
      if IsCommand(s[0]) {
        assert ([s[0]] + Filtered(s[1..]))[1..] == Filtered(s[1..]);
      } else {
        assert q == p;
        assert Filtered(s) == Filtered(s[1..]);
      }
    }
  }

  /** A string without any M, L or R leaves the rover where and as it was. */
  lemma NoiseIsNoOp(p: Pose, s: string, w: Extent, h: Extent)
    requires Filtered(s) == []
    ensures Commanded(p, s, w, h) == p
  {
    CommandedFiltered(p, s, w, h);
  }

  /** Whatever the commands, x and y never decrease; in particular coordinates
      that start non-negative stay non-negative. */
  lemma {:induction false} CommandedMonotone(p: Pose, s: string, w: Extent, h: Extent)
    ensures Commanded(p, s, w, h).x >= p.x
    ensures Commanded(p, s, w, h).y >= p.y
    decreases |s|
  {
    if s != [] {
      CommandedMonotone(Step(p, s[0], w, h), s[1..], w, h);
    }
  }

  /** Without an M the rover only turns: its position stays. */
  lemma {:induction false} CommandedWithoutMove(p: Pose, s: string, w: Extent, h: Extent)
    requires 'M' !in s
    ensures Commanded(p, s, w, h).x == p.x && Commanded(p, s, w, h).y == p.y
    decreases |s|
  {
    if s != [] {
      assert s[0] != 'M' && 'M' !in s[1..];
      CommandedWithoutMove(Step(p, s[0], w, h), s[1..], w, h);
    }
  }

  /** An orientation in range stays in range whatever the commands. */
  lemma {:induction false} CommandedKeepsOrientationInRange(p: Pose, s: string, w: Extent, h: Extent)
    requires 0 <= p.orientation < |Headings|
    ensures 0 <= Commanded(p, s, w, h).orientation < |Headings|
    decreases |s|
  {
    if s != [] {
      CommandedKeepsOrientationInRange(Step(p, s[0], w, h), s[1..], w, h);
    }
  }

  lemma CommandedCons(p: Pose, c: char, t: string, w: Extent, h: Extent)
    ensures Commanded(p, [c] + t, w, h) == Commanded(Step(p, c, w, h), t, w, h)
  {
    assert ([c] + t)[1..] == t;
  }

  /** The y coordinate after `n` moves north from x = 0 on a grid `h` rows high:
      each move adds the clamped target `bounded(y + 1, (0, h - 1))`. */
  function NorthRun(y: int, n: nat, h: Extent): (r: int)
    ensures y <= r
    decreases n
  {
    if n == 0 then y else NorthRun(y + Bounded(y + 1, 0, h - 1), n - 1, h)
  }

  /** A rover facing N in column 0 that receives `n` moves stays in column 0 and
      reaches NorthRun. */
  lemma {:induction false} MovesNorth(y: int, n: nat, w: Extent, h: Extent)
    ensures Commanded(Pose(1, 0, y), seq(n, _ => 'M'), w, h) == Pose(1, 0, NorthRun(y, n, h))
    decreases n
  {
    var ms := seq(n, _ => 'M');
    if n > 0 {
      assert ms[0] == 'M' && ms[1..] == seq(n - 1, _ => 'M');
      assert Step(Pose(1, 0, y), 'M', w, h) == Pose(1, 0, y + Bounded(y + 1, 0, h - 1));
      MovesNorth(y + Bounded(y + 1, 0, h - 1), n - 1, w, h);
    }
  }

  /** A rover at the origin facing E that turns left and then moves `n` times faces
      N, stays in column 0 and reaches NorthRun. */
  lemma LeftThenMovesNorth(n: nat, w: Extent, h: Extent)
    ensures Commanded(Pose(0, 0, 0), ['L'] + seq(n, _ => 'M'), w, h) == Pose(1, 0, NorthRun(0, n, h))
  {
    CommandedCons(Pose(0, 0, 0), 'L', seq(n, _ => 'M'), w, h);
    assert Step(Pose(0, 0, 0), 'L', w, h) == Pose(1, 0, 0);
    MovesNorth(0, n, w, h);
  }

  /** On a 10 by 10 grid, a rover at the origin facing E that runs "LMMMMMMMM"
      faces N and ends at y = 51. */
  lemma LeftThenEightMoves(w: Extent)
    ensures Commanded(Pose(0, 0, 0), "LMMMMMMMM", w, 10) == Pose(1, 0, 51)
  {
    LeftThenEightMovesText();
    LeftThenMovesNorth(8, w, 10);
    EightMovesNorth();
  }

  lemma LeftThenEightMovesText()
    ensures "LMMMMMMMM" == ['L'] + seq(8, _ => 'M')
  {
  }

  /** The targets 1, 2, 4, 8, 9, 9, 9, 9 add up to 51. */
  lemma EightMovesNorth()
    ensures NorthRun(0, 8, 10) == 51
  {
    assert NorthRun(51, 0, 10) == 51;
    assert NorthRun(42, 1, 10) == 51;
    assert NorthRun(33, 2, 10) == 51;
    assert NorthRun(24, 3, 10) == 51;
    assert NorthRun(15, 4, 10) == 51;
    assert NorthRun(7, 5, 10) == 51;
    assert NorthRun(3, 6, 10) == 51;
    assert NorthRun(1, 7, 10) == 51;
  }
}
