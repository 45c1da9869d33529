/** The two classes of rover.py: Rover, whose position and orientation change in
    place, and Mission, which owns the grid size and the ordered list of rovers.
    Each method is proved against the pure functions of Navigation and Field. */
module Fleet {
  import opened Outcomes
  import opened Sequences
  import opened Bounds
  import opened Text
  import opened Navigation
  import Field
  import Listing

  /** The locations of a list of rovers, in list order. */
  function PosesOf(rs: seq<Rover>): (ps: seq<Pose>)
    reads rs
    ensures |ps| == |rs|
    ensures forall i :: 0 <= i < |rs| ==> ps[i] == rs[i].GetLocation()
  {
    if rs == [] then [] else PosesOf(rs[..|rs| - 1]) + [rs[|rs| - 1].GetLocation()]
  }

  class Rover {
    var orientation: int
    var x: int
    var y: int
    /** The mission the rover was deployed by; move reads the grid size from it. */
    const mission: Mission

    /** `Rover(pos_x, pos_y, orientation, mission)`. */
    constructor (posX: int, posY: int, orientation: int, mission: Mission)
      ensures GetLocation() == Pose(orientation, posX, posY)
      ensures this.mission == mission
    {
      this.orientation := orientation;
      x := posX;
      y := posY;
      this.mission := mission;
    }

    /** `get_location()`: the triple (orientation, x, y), in that order. */
    function GetLocation(): (p: Pose)
      reads this
      ensures p.orientation == orientation && p.x == x && p.y == y
    {
      Pose(orientation, x, y)
    }

    method TurnNegative()
      modifies this
      ensures GetLocation() == TurnedNegative(old(GetLocation()))
    {
      orientation := (orientation - 1) % |Headings|;
    }

    method TurnPositive()
      modifies this
      ensures GetLocation() == TurnedPositive(old(GetLocation()))
    {
      orientation := (orientation + 1) % |Headings|;
    }

    /** `move()`: the clamped targets are added to x and y unless both are 0. */
    method Move()
      modifies this
      ensures GetLocation() == Moved(old(GetLocation()), mission.rangeX, mission.rangeY)
    {
      var (rangeX, rangeY) := mission.GetBoundaries();
      var xStep := Bounded(x + Dx(orientation), 0, rangeX - 1);
      var yStep := Bounded(y + Dy(orientation), 0, rangeY - 1);
      if (0, 0) != (xStep, yStep) {
        x := x + xStep;
        y := y + yStep;
      }
    }

    /** `command(command_str)`: each character in turn, M, R and L acting, the rest skipped. */
    method Command(commandStr: string)
      modifies this
      ensures GetLocation() == Commanded(old(GetLocation()), commandStr, mission.rangeX, mission.rangeY)
    {
      for i := 0 to |commandStr|
        invariant GetLocation() == Commanded(old(GetLocation()), commandStr[..i], mission.rangeX, mission.rangeY)
      {
        var commandKey := commandStr[i];
        if commandKey == 'M' {
          Move();
        } else if commandKey == 'R' {
          TurnNegative();
        } else if commandKey == 'L' {
          TurnPositive();
        }
        CommandedSnoc(old(GetLocation()), commandStr[..i], commandKey, mission.rangeX, mission.rangeY);
        assert commandStr[..i + 1] == commandStr[..i] + [commandKey];
      }
      assert commandStr[..|commandStr|] == commandStr;
    }
  }

  /** `Mission(range_x, range_y)`: SpaceError unless both dimensions are positive,
      otherwise a mission with that grid and no rovers. */
  method NewMission(rangeX: int, rangeY: int) returns (r: Result<Mission>)
    ensures r.Err? <==> rangeX <= 0 || rangeY <= 0
    ensures r.Err? ==> r.error == SpaceError
    ensures r.Ok? ==> fresh(r.value) && r.value.Valid() && r.value.rovers == []
    ensures r.Ok? ==> r.value.GetBoundaries() == (rangeX, rangeY)
  {
    var verdict := Mission.ValidateMissionControl(rangeX, rangeY);
    if verdict.Fail? {
      return Err(verdict.error);
    }
    var mission := new Mission(rangeX, rangeY);
    return Ok(mission);
  }

  class Mission {
    const rangeX: Extent
    const rangeY: Extent
    var rovers: seq<Rover>

    /** Every rover points back at this mission, and no rover is listed twice. */
    ghost function Valid(): (b: bool)
      reads this
      ensures b ==> forall r :: r in rovers ==> r.mission == this
    {
      (forall i :: 0 <= i < |rovers| ==> rovers[i].mission == this) &&
      (forall i, j :: 0 <= i < j < |rovers| ==> rovers[i] != rovers[j])
    }

    /** The state `__init__` sets up once validate_mission_control has passed. */
    constructor (rangeX: Extent, rangeY: Extent)
      ensures Valid() && rovers == []
      ensures this.rangeX == rangeX && this.rangeY == rangeY
    {
      rovers := [];
      this.rangeX := rangeX;
      this.rangeY := rangeY;
    }

    /** The rovers' locations in deployment order. */
    ghost function Poses(): (ps: seq<Pose>)
      reads this, rovers
      ensures |ps| == |rovers|
    {
      PosesOf(rovers)
    }

    /** `validate_mission_control`: SpaceError exactly when a dimension is not positive. */
    static function ValidateMissionControl(rangeX: int, rangeY: int): (r: Outcome)
      ensures r == Pass <==> rangeX > 0 && rangeY > 0
      ensures r.Fail? ==> r.error == SpaceError
    {
      var failX, failY := rangeX <= 0, rangeY <= 0;
      if failX || failY then Fail(SpaceError) else Pass
    }

    /** `get_boundaries()`: the grid size, both dimensions positive. */
    function GetBoundaries(): (r: (int, int))
      ensures r == (rangeX as int, rangeY as int)
      ensures r.0 > 0 && r.1 > 0
    {
      (rangeX, rangeY)
    }

    /** `deploy_rover(o, x, y)`: appends one new rover and changes none of the others.
        The clamped x and y and the orientation reach the constructor in the wrong
        positions, so the new rover has x = o, y = x clamped to the columns and
        orientation = y clamped to the rows. No validation is done. It then prints
        the mission; the rover stays appended when printing raises, and `r` is
        the exception that escapes. */
    method DeployRover(o: int, x: int, y: int) returns (r: Outcome)
      requires Valid()
      modifies this
      ensures Valid()
      ensures |rovers| == |old(rovers)| + 1 && rovers[..|old(rovers)|] == old(rovers)
      ensures fresh(rovers[|rovers| - 1])
      ensures Poses() == old(Poses()) + [Pose(Bounded(y, 0, rangeY - 1), o, Bounded(x, 0, rangeX - 1))]
      ensures r == (match Listing.MissionText(Poses(), rangeX, rangeY)
                    case Ok(_) => Pass
                    case Err(e) => Fail(e))
      ensures r.Fail? <==> !Field.FaultFree(Poses(), rangeX, rangeY)
    {
      var rover := new Rover(o, Bounded(x, 0, rangeX - 1), Bounded(y, 0, rangeY - 1), this);
      rovers := rovers + [rover];
      assert rovers[..|old(rovers)|] == old(rovers);
      var text := Describe();
      r := if text.Err? then Fail(text.error) else Pass;
    }

    /** `__repr__()`: the text `print(self)` writes, or the exception it raises. */
    method Describe() returns (r: Result<string>)
      ensures r == Listing.MissionText(Poses(), rangeX, rangeY)
    {
      ghost var ps := Poses();
      var lines: seq<string> := [];
      for index := 0 to |rovers|
        invariant |lines| == index
        invariant forall k :: 0 <= k < index ==>
                    0 <= ps[k].orientation < |Headings| && lines[k] == Listing.RoverLine(k, ps[k])
      {
        var p := rovers[index].GetLocation();
        var text := Listing.RoverText(p);
        if text.Err? {
          assert !Listing.HeadingsKnown(ps);
          return Err(text.error);
        }
        lines := lines + [Listing.RoverLine(index, p)];
      }
      assert Listing.HeadingsKnown(ps);
      assert lines == Listing.RoverLines(ps);
      var field := DrawField();
      if field.Err? {
        return Err(field.error);
      }
      r := Ok(Listing.Report(rangeX, rangeY, lines, field.value));
    }

    /** `validate_deploy(o, x, y)`: NavigationError for an orientation outside 0..3 or
        a position off the grid. Its last check calls `vars(self)`, which raises
        TypeError on a class with `__slots__`, so it never passes. */
    function ValidateDeploy(o: int, x: int, y: int): (r: Outcome)
      ensures r != Pass
      ensures r == Fail(NavigationError) <==> !(0 <= o < |Headings|) || !(0 <= x < rangeX) || !(0 <= y < rangeY)
      ensures r.Fail? && r.error != NavigationError ==> r.error == TypeError
    {
      if !(0 <= o < |Headings|) then Fail(NavigationError)
      else if !(0 <= x < rangeX) || !(0 <= y < rangeY) then Fail(NavigationError)
      else Fail(TypeError)
    }

    /** `locate(rover_id)`: the location of the rover at that list index. */
    function Locate(roverId: int): (r: Result<Pose>)
      reads this, rovers
      ensures r.Ok? <==> -|rovers| <= roverId < |rovers|
      ensures r.Err? ==> r.error == IndexError
      ensures r.Ok? && roverId >= 0 ==> r.value == rovers[roverId].GetLocation()
      ensures r.Ok? && roverId < 0 ==> r.value == rovers[|rovers| + roverId].GetLocation()
    {
      match PyIndex(roverId, |rovers|)
      case None => Err(IndexError)
      case Some(k) => Ok(rovers[k].GetLocation())
    }

    /** `turn(rover_id, clockwise)`: turn_negative when clockwise, turn_positive
        otherwise, on that rover alone. */
    method Turn(roverId: int, clockwise: bool) returns (r: Outcome)
      requires Valid()
      modifies rovers
      ensures Valid()
      ensures r == Pass <==> -|rovers| <= roverId < |rovers|
      ensures r.Fail? ==> r.error == IndexError && Poses() == old(Poses())
      ensures r.Pass? ==>
                var k := PyIndex(roverId, |rovers|).value;
                Poses() == old(Poses())[k := if clockwise then TurnedNegative(old(Poses())[k])
                                             else TurnedPositive(old(Poses())[k])]
    {
      var k := PyIndex(roverId, |rovers|);
      if k.None? {
        return Fail(IndexError);
      }
      var rover := rovers[k.value];
      if clockwise {
        rover.TurnNegative();
      } else {
        rover.TurnPositive();
      }
      r := Pass;
      OthersUnchanged(k.value);
    }

    /** `validate_command(rover_id, command_str)`: FleetError without rovers, then
        CommunicationError for a missing or empty command string. */
    function ValidateCommand(roverId: int, commandStr: Option<string>): (r: Outcome)
      reads this
      ensures r == Fail(FleetError) <==> rovers == []
      ensures r == Fail(CommunicationError) <==> rovers != [] && (commandStr.None? || commandStr.value == [])
      ensures r == Pass <==> rovers != [] && commandStr.Some? && commandStr.value != []
    {
      if rovers == [] then Fail(FleetError)
      else if commandStr.None? || commandStr.value == [] then Fail(CommunicationError)
      else Pass
    }

    /** `command(rover_id, command_str)`: validates, drops everything but M, L and R,
        and, if anything is left, runs it on the rover at that index. The rover index
        is only looked up when something is left, so an unknown index with a string
        of noise passes. */
    method Command(roverId: int, commandStr: Option<string>) returns (r: Outcome)
      requires Valid()
      modifies rovers
      ensures Valid()
      ensures r == (if rovers == [] then Fail(FleetError)
                    else if commandStr.None? || commandStr.value == [] then Fail(CommunicationError)
                    else if Filtered(commandStr.value) != [] && PyIndex(roverId, |rovers|).None? then Fail(IndexError)
                    else Pass)
      ensures r.Fail? ==> Poses() == old(Poses())
      ensures r.Pass? && PyIndex(roverId, |rovers|).None? ==> Poses() == old(Poses())
      ensures r.Pass? && PyIndex(roverId, |rovers|).Some? ==>
                var k := PyIndex(roverId, |rovers|).value;
                Poses() == old(Poses())[k := Commanded(old(Poses())[k], commandStr.value, rangeX, rangeY)]
    {
      r := ValidateCommand(roverId, commandStr);
      if r.Fail? {
        return;
      }
      var filtered := Filtered(commandStr.value);
      var k := PyIndex(roverId, |rovers|);
      if filtered != [] {
        if k.None? {
          return Fail(IndexError);
        }
        var rover := rovers[k.value];
        ghost var before := rover.GetLocation();
        rover.Command(filtered);
        CommandedFiltered(before, commandStr.value, rangeX, rangeY);
        OthersUnchanged(k.value);
      } else if k.Some? {
        NoiseIsNoOp(old(Poses())[k.value], commandStr.value, rangeX, rangeY);
        assert Poses() == old(Poses())[k.value := old(Poses())[k.value]];
      }
    }

    /** After a call that changed only rover k, the other locations are the old ones. */
    twostate lemma OthersUnchanged(k: nat)
      requires Valid() && k < |rovers| && rovers == old(rovers)
      requires forall j :: 0 <= j < |rovers| && j != k ==> unchanged(rovers[j])
      ensures Poses() == old(Poses())[k := rovers[k].GetLocation()]
    {
    }

    /** `draw_field()`: the map text, or the exception the first misplaced rover raises. */
    method DrawField() returns (r: Result<string>)
      ensures r == Field.Rendered(Poses(), rangeX, rangeY)
    {
      ghost var ps := Poses();
      var grid: seq<seq<string>> := seq(rangeY, _ => seq(rangeX, _ => "~"));
      Field.BlankGrid(rangeX, rangeY);
      assert ps[..0] == [];
      for index := 0 to |rovers|
        invariant Field.FaultFree(ps[..index], rangeX, rangeY)
        invariant Field.GridHolds(grid, ps[..index], rangeX, rangeY)
      {
        var location := Locate(index);
        var p := location.value;
        var fault := Field.Fault(p, rangeX, rangeY);
        if fault.Some? {
          Field.FirstFaultAt(ps, index, rangeX, rangeY);
          return Err(fault.value);
        }
        assert ps[..index + 1] == ps[..index] + [p];
        var y := PyIndex(p.y, rangeY).value;
        var x := PyIndex(p.x, rangeX).value;
        var mark := Str(index) + [Field.Glyph(p.orientation)];
        var text := if grid[y][x] == "~" then mark else FilterDigits(grid[y][x] + mark);
        Field.PlaceRover(grid, ps, index, rangeX, rangeY, x, y, text);
        grid := grid[y := grid[y][x := text]];
      }
      assert ps[..|rovers|] == ps;
      ghost var cells := grid;
      for index := 0 to |grid|
        invariant |grid| == rangeY
        invariant forall k :: 0 <= k < index ==> grid[k] == [Str(k)] + cells[k]
        invariant forall k :: index <= k < rangeY ==> grid[k] == cells[k]
      {
        grid := grid[index := [Str(index)] + grid[index]];
      }
      Field.AssembleTable(cells, grid, ps, rangeX, rangeY);
      grid := Reversed(grid);
      grid := grid + [["X"] + seq(rangeX, n requires 0 <= n < rangeX => Str(n))];
      r := Ok(Field.Lines(grid));
    }
  }

  /** A command on a mission without rovers raises FleetError, whatever the command. */
  method NoRovers() returns (r: Outcome)
    ensures r == Fail(FleetError)
  {
    var created := NewMission(5, 5);
    var mission := created.value;
    r := mission.Command(0, Some("Move"));
  }

  /** A rover deployed with `deploy_rover(0, 0, 0)` on a 10 by 10 mission prints
      fine, and sent "LMMMMMMMM" ends facing N at x = 0, y = 51. */
  method LeftThenEightMovesOnMission() returns (deployed: Outcome, location: Result<Pose>)
    ensures deployed == Pass
    ensures location == Ok(Pose(1, 0, 51))
  {
    var created := NewMission(10, 10);
    var mission := created.value;
    deployed := mission.DeployRover(0, 0, 0);
    assert mission.Poses() == [Pose(0, 0, 0)];
    assert Field.Fault(Pose(0, 0, 0), 10, 10) == None;
    assert Field.FaultFree(mission.Poses(), 10, 10);
    var r := mission.Command(0, Some("LMMMMMMMM"));
    LeftThenEightMoves(10);
    location := mission.Locate(0);
  }

  /** `deploy_rover(0, 0, 7)` on a 10 by 10 mission gives the new rover orientation 7,
      which has no heading: printing the mission raises KeyError. */
  method DeployWithoutHeading() returns (r: Outcome, count: nat)
    ensures r == Fail(KeyError)
    ensures count == 1
  {
    var created := NewMission(10, 10);
    var mission := created.value;
    r := mission.DeployRover(0, 0, 7);
    count := |mission.rovers|;
  }

  /** `deploy_rover(5, 0, 0)` on a 3 by 3 mission puts the new rover at x = 5, past
      the last column: printing the mission raises IndexError in draw_field. */
  method DeployOffGrid() returns (r: Outcome, count: nat)
    ensures r == Fail(IndexError)
    ensures count == 1
  {
    var created := NewMission(3, 3);
    var mission := created.value;
    r := mission.DeployRover(5, 0, 0);
    count := |mission.rovers|;
  }
}
