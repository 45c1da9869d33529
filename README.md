# RoverTurtle in Dafny

This is a model of the core of RoverTurtle: the `Mission` and `Rover` classes and the `bounded` helper in `rover.py`. The model proves properties about it.

A `Mission` is a rectangular plateau, `range_x` columns by `range_y` rows. It holds a list of rovers. Each `Rover` has an orientation (0 = E, 1 = N, 2 = W, 3 = S), grid coordinates, and a back-reference to its mission. Rovers can be deployed, turned, moved, sent command strings (`M`, `L`, `R`, with every other character ignored), and drawn as a tab-separated text map.

Layout:

- `outcomes.dfy` (`Outcomes`) defines the exception classes the code raises, as an `Error` datatype, along with `Option`, `Result` and `Outcome` carriers. Every Python `raise` becomes an `Err`/`Fail` value.
- `sequences.dfy` (`Sequences`) models Python list indexing, including negative indices, with `PyIndex`. It also defines `list.reverse` as `Reversed`.
- `bounds.dfy` (`Bounds`) models `bounded`.
- `text.dfy` (`Text`) models `str(n)` on naturals, the `string.digits` filter, `str.join`, and a `split` used to state what the joined text contains.
- `navigation.dfy` (`Navigation`) holds the pure semantics of a rover:
  - turns;
  - one move;
  - a whole command string;
  - the `"MLR"` filter.
- `field.dfy` (`Field`) specifies the text that `draw_field` returns, declaratively: cell by cell, row by row, the footer, the error cases.
- `listing.dfy` (`Listing`) specifies the text of `Mission.__repr__` and `Rover.__repr__`, which `deploy_rover` prints, and the exceptions they raise.
- `fleet.dfy` (`Fleet`) holds the two classes:
  - `Rover` has mutable `orientation`, `x` and `y` fields and a `const mission`.
  - `Mission` has `const` dimensions and a mutable `rovers: seq<Rover>`.
  - Every method's postcondition ties the new state to the pure functions above, applied to the old state. `DrawField` builds the grid imperatively, as the source does, and is proved to return `Field.Rendered`; `Describe` builds the `__repr__` text and is proved to return `Listing.MissionText`.

The model follows the code as written. Where the code does something surprising, the model does the same:

- **`move` adds the clamped target, not the step.** `move` computes `x_step = bounded(x + dx, (0, range_x - 1))` and then does `x += x_step`. So a move adds the clamped *target coordinate* to the position. A rover therefore leaves the grid easily (`Navigation.MoveLeavesGrid`), and stays put only when both clamped targets are 0 (`Navigation.MoveBlockedAtOrigin`).
- **`deploy_rover(o, x, y)` passes its arguments in the wrong order.** It calls `Rover(o, bounded(x), bounded(y), self)`, but the constructor's parameter order is `(pos_x, pos_y, orientation)`. The new rover therefore has x = `o`, y = clamped `x` and orientation = clamped `y`.
- **`deploy_rover` does not validate.** `validate_deploy` is never called. If it were called, its last test (`vars(self)` on a class with `__slots__`) would raise `TypeError`. So it never passes.
- **`CommunicationError` is raised only for a `None` or empty command string.** It is checked before the `"MLR"` filter. A string made only of other characters passes validation, then does nothing.
- **`turn` accepts negative rover ids, as Python lists do.** An index out of range is an `IndexError` in `turn`, in `command` (only when the filtered string is non-empty) and in `draw_field`.
- **An orientation outside 0..3 makes `draw_field` fail.** A rover can get such an orientation only through the swapped arguments of `deploy_rover`. The avatar lookup then raises `KeyError`. A rover outside the grid makes `draw_field` raise `IndexError`. A negative y or x wraps around, as Python indexing does.
- **`deploy_rover` prints the mission, and printing can raise.** `print(self)` runs `Mission.__repr__`, which lists every rover through `Rover.__repr__` and then appends `draw_field()`. `Rover.__repr__` looks the orientation up in the `ORIENTATIONS` dict, so an orientation outside 0..3 raises `KeyError`; an off-grid rover makes `draw_field` raise `IndexError`. The exception escapes `deploy_rover` after the new rover has been appended (`Fleet.Mission.DeployRover`, `Fleet.DeployWithoutHeading`, `Fleet.DeployOffGrid`).

Taken together: a rover is not kept inside the grid, nothing checks a deployment before the rover is appended, and a command string of only non-command characters is accepted and does nothing.

The unit test at rover_test.py:34-36 expects rover 1, deployed with `(0, 0, 0)` on a 10 by 10 mission and sent `"LMMMMMMMM"`, to be at `(0, 8, 1)`. That triple is written in (x, y, orientation) order, while `get_location` returns (orientation, x, y) (rover.py:154-155). The code as written gives `(1, 0, 51)`, because each move adds the clamped target; the model proves y = 51 (`Navigation.LeftThenEightMoves`, `Fleet.LeftThenEightMovesOnMission`).

## Model

| member | source | states |
|---|---|---|
| Bounds.Bounded | rover.py:12-17 | the result lies in [min, max] of the range; it is the minimum when the argument is below, the maximum when above, and the argument itself exactly when the argument is inside |
| Bounds.BoundedIdempotent | rover.py:12-17 | clamping an already clamped value changes nothing |
| Bounds.BoundedMonotone | rover.py:12-17 | clamping preserves the order of its arguments |
| Sequences.PyIndex | rover.py:42 | a list index i into length n is valid exactly when -n <= i < n; a non-negative index selects position i and a negative one position n + i |
| Sequences.Reversed | rover.py:82 | the reversal has the same length, and element k is element n-1-k of the input |
| Text.Str | rover.py:76 | the decimal text of a natural is non-empty and made only of digits |
| Text.StrRoundTrip | rover.py:76 | reading the decimal text of n back gives n |
| Text.FilterDigits | rover.py:79 | the filtered text holds only digits and is no longer than its input |
| Text.StrInjective | rover.py:76 | distinct naturals have distinct decimal texts |
| Text.DecimalValue | rover.py:76 | a text of zeros only denotes 0 |
| Text.Join | rover.py:84 | a join of n parts has at least n - 1 characters; that it is undone by splitting is `Text.SplitJoin` |
| Text.CutAt | rover.py:125-127 | a text cut at the first occurrence of a character that neither part holds determines both parts |
| Text.SplitConcat | rover.py:59-61 | splitting a text at a separator splits the two sides of that separator independently |
| Text.SplitJoin | rover.py:84 | splitting a join at its separator gives back the parts when no part contains the separator |
| Navigation.DirectionIsUnit | rover.py:148-149 | exactly one of an orientation's dx and dy is non-zero, both lie in -1..1, and orientations two apart step in opposite directions |
| Navigation.TurnedNegative | rover.py:129-130 | a right turn leaves the orientation in 0..3 and the position unchanged |
| Navigation.TurnedPositive | rover.py:132-133 | a left turn leaves the orientation in 0..3 and the position unchanged |
| Navigation.TurnsCancel | rover.py:129-133 | a left turn after a right turn (and the reverse) restores any in-range orientation |
| Navigation.FourTurns | rover.py:129-133 | four turns in one direction give the orientation modulo 4 back |
| Navigation.Moved | rover.py:146-152 | a move keeps the orientation, never decreases x or y, and leaves the pose unchanged exactly when both clamped targets are 0 |
| Navigation.MoveBlockedAtOrigin | rover.py:150 | a rover at the origin facing W or S, or any rover at the origin of a 1 by 1 mission, does not move |
| Navigation.MoveLeavesGrid | rover.py:148-152 | on a 10 by 10 mission, an E move from x = 5 lands at x = 11, and a W move from x = 3 lands at x = 5 |
| Navigation.Dx | rover.py:148 | dx lies in -1..1 and is non-zero exactly when the orientation is 0 or 2 modulo 4 (E and W) |
| Navigation.Dy | rover.py:149 | dy lies in -1..1 and is non-zero exactly when the orientation is 1 or 3 modulo 4 (N and S) |
| Navigation.XStep | rover.py:148 | the x target lies in 0..range_x-1, and equals x + dx exactly when x + dx is already inside that span |
| Navigation.YStep | rover.py:149 | the y target lies in 0..range_y-1, and equals y + dy exactly when y + dy is already inside that span |
| Navigation.Step | rover.py:136-144 | a character other than M, L or R changes nothing; only M changes the position, M keeps the orientation, and one step adds at most range-1 to each coordinate |
| Navigation.Commanded | rover.py:135-144 | a command string of n characters adds at most n·(range_x-1) to x and n·(range_y-1) to y |
| Navigation.IsCommand | rover.py:53 | a character outside "MLR" is one that a rover's command skips, from every pose on every grid |
| Navigation.NorthRun | rover.py:146-152 | moving north never lowers y |
| Navigation.CommandedConcat | rover.py:135-144 | running a concatenation of commands is running the first part, then the second |
| Navigation.Filtered | rover.py:53 | the filtered string holds only M, L and R, is no longer than its input, and is the input itself when the input holds only commands |
| Navigation.CommandedFiltered | rover.py:53-55 | dropping non-command characters does not change the pose a command string produces |
| Navigation.NoiseIsNoOp | rover.py:53-55 | a string without M, L or R leaves the pose unchanged |
| Navigation.CommandedMonotone | rover.py:146-152 | no command string ever decreases x or y |
| Navigation.CommandedWithoutMove | rover.py:135-144 | a string without M never changes the position |
| Navigation.CommandedKeepsOrientationInRange | rover.py:129-144 | a command string keeps an orientation in 0..3 inside 0..3 |
| Navigation.MovesNorth | rover.py:146-152 | a rover facing N in column 0 that receives n moves stays in column 0 and each move adds the clamped target bounded(y + 1, (0, range_y - 1)) to y |
| Navigation.LeftThenMovesNorth | rover.py:135-152 | from the origin facing E, "L" followed by n moves ends facing N in column 0 at the y that NorthRun gives |
| Navigation.EightMovesNorth | rover.py:148-152 | on 10 rows, eight moves north from y = 0 add the targets 1, 2, 4, 8, 9, 9, 9, 9 and reach y = 51 |
| Navigation.LeftThenEightMoves | rover.py:135-152 | from the origin facing E on a mission 10 rows high (any width), "LMMMMMMMM" ends facing N at (0, 51) |
| Field.Glyph | rover.py:65-70 | each avatar is one character that is neither a digit, `~`, tab nor newline |
| Field.Fault | rover.py:73-78 | placing a rover fails exactly when its row or column is outside what Python indexing accepts (IndexError) or, on the grid, its orientation has no avatar (KeyError) |
| Field.Row | rover.py:71-79 | a row has range_x cells |
| Field.Footer | rover.py:83 | the footer has range_x + 1 entries |
| Field.Table | rover.py:80-83 | the table has range_y + 1 lines of range_x + 1 entries each |
| Field.Lines | rover.py:84 | the text of n lines is at least n - 1 characters long |
| Field.LinesSplit | rover.py:84 | text joined from lines of cells splits back into those lines and cells when no cell holds a tab or newline |
| Field.Rendered | rover.py:64-84 | drawing fails exactly when some rover faults, only with IndexError or KeyError, and never with KeyError when every orientation is in 0..3 |
| Field.FirstFault | rover.py:72-78 | the first failing rover's error is absent exactly when no rover fails, is IndexError or KeyError, and is never KeyError when every orientation is in 0..3 |
| Field.FirstFaultAt | rover.py:72-78 | the first fault is the error of the earliest failing rover, and every rover before it is fault-free |
| Field.Occupants | rover.py:72-78 | the indices listed for a cell are exactly the rovers standing on it, in increasing order |
| Field.DigitsOf | rover.py:78-79 | the indices of the rovers sharing a cell, written one after another, are only digits, and non-empty when some rover is there |
| Field.Cell | rover.py:75-79 | every cell text is non-empty and holds no tab or newline |
| Field.CellStep | rover.py:75-79 | placing a rover updates a cell exactly as the loop body does: `~` becomes index and avatar, and anything else gets index and avatar appended before the non-digits are dropped |
| Field.PlaceRoverAt | rover.py:72-79 | writing rover i's marker into its cell leaves each cell of the grid holding `Field.Cell` of the rovers 0..i |
| Field.PlaceRover | rover.py:72-79 | after the rovers 0..i have been placed, every cell of the working grid holds `Field.Cell` of those rovers |
| Field.AssembleTable | rover.py:80-83 | numbering the rows, reversing them and appending the footer gives `Field.Table` |
| Field.RenderedLayout | rover.py:80-84 | a map has range_y + 1 lines; line k is row range_y-1-k prefixed with its number, and the last is "X" followed by the column numbers |
| Field.RenderedFails | rover.py:72-78 | drawing fails exactly when some rover faults; if every rover is inside the grid with a valid orientation, it succeeds |
| Field.BlankGrid | rover.py:71 | the starting grid of `~` holds the cells of no rovers |
| Field.OccupantsSingle | rover.py:72-76 | a cell exactly one rover lands on lists only that rover |
| Field.OccupantsNone | rover.py:71-75 | a cell no rover lands on lists nobody |
| Field.CellMeaning | rover.py:71-79 | a cell is `~` exactly when no rover stands on it; a lone rover shows its index and avatar, and several rovers show only their indices |
| Field.EmptyField | rover.py:64-84 | the map of a 3 by 2 mission without rovers is "1\t~\t~\t~\n0\t~\t~\t~\nX\t0\t1\t2" |
| Field.FaultExamples | rover.py:73-78 | an orientation of 7 raises KeyError, an x of 12 on a 10-wide mission raises IndexError, and x = -1 wraps to the last column |
| Listing.IntStr | rover.py:126 | the text of an integer is non-empty, starts with a minus sign exactly when the integer is negative, and holds only digits and that sign |
| Listing.IntStrInjective | rover.py:126 | distinct integers have distinct texts |
| Listing.RoverText | rover.py:125-127 | a rover without a name prints as its heading letter and coordinates; it raises KeyError exactly when its orientation is outside 0..3; the text starts with the heading letter and holds no newline |
| Listing.RoverTextShape | rover.py:126-127 | after the heading letter and " @ (" come x, a comma that x does not contain, and the rest |
| Listing.RoverTextInjective | rover.py:125-127 | two rovers print the same text only when they have the same orientation, x and y |
| Listing.RoverLine | rover.py:60 | a listing line holds no newline |
| Listing.RoverLineShape | rover.py:60 | a listing line is the tab and index, a parenthesis neither holds, and the rover's text |
| Listing.RoverLineInjective | rover.py:60 | a listing line gives back its index and the rover's location |
| Listing.RoverLines | rover.py:60 | the listing has one line per rover |
| Listing.AreaLine | rover.py:59 | the area line holds no newline |
| Listing.Report | rover.py:58-61 | the text starts with the area line and a newline, ends with the field text, and holds at least the 11 characters of `"\nRovers:\n"` and `"\n\n"` besides them |
| Listing.MissionText | rover.py:57-62 | printing a mission fails exactly when drawing its field would, with KeyError exactly when some orientation is outside 0..3 and IndexError otherwise |
| Listing.MissionTextLayout | rover.py:57-62 | split at newlines, a printable mission's text is the area line, "Rovers:", one line per rover (an empty line if none), an empty line, then the lines of the field |
| Listing.ReportLayout | rover.py:59-61 | the same layout for the text Report assembles from any area line and rover lines free of newlines |
| Listing.ListingThenField | rover.py:60-61 | the rover lines followed by the blank separator line split back into those lines |
| Fleet.PosesOf | rover.py:154-155 | the list of locations has one entry per rover, entry i being rover i's location |
| Fleet.Rover.constructor | rover.py:118-123 | a new rover has the given position and orientation and belongs to the given mission |
| Fleet.Rover.GetLocation | rover.py:154-155 | the location is the triple (orientation, x, y) |
| Fleet.Rover.TurnNegative | rover.py:129-130 | the new pose is the right turn of the old one |
| Fleet.Rover.TurnPositive | rover.py:132-133 | the new pose is the left turn of the old one |
| Fleet.Rover.Move | rover.py:146-152 | the new pose is the move of the old pose on the mission's boundaries |
| Fleet.Rover.Command | rover.py:135-144 | the new pose is the old pose run through the whole command string |
| Fleet.NewMission | rover.py:28-32 | creation fails with SpaceError exactly when a dimension is non-positive; otherwise the mission has those boundaries and no rovers |
| Fleet.Mission.Valid | rover.py:34-35 | in a valid mission every listed rover belongs to that mission |
| Fleet.Mission.constructor | rover.py:28-32 | a new mission has the given boundaries and no rovers |
| Fleet.Mission.ValidateMissionControl | rover.py:106-110 | validation fails with SpaceError exactly when a dimension is non-positive |
| Fleet.Mission.GetBoundaries | rover.py:38-39 | the boundaries are (range_x, range_y) |
| Fleet.Mission.DeployRover | rover.py:34-36 | a fresh rover is appended with pose (clamped y, o, clamped x); the existing rovers and their poses are unchanged; the call then fails with the exception printing the mission raises, exactly when some rover faults |
| Fleet.Mission.Describe | rover.py:57-62 | the returned text is exactly `Listing.MissionText` of the current poses, including the KeyError and IndexError cases |
| Fleet.Mission.ValidateDeploy | rover.py:90-98 | validation never passes: NavigationError exactly when the orientation or the position is out of range, and TypeError otherwise |
| Fleet.Mission.Locate | rover.py:48-49 | the location of a valid (possibly negative) index is that rover's pose; other indices give IndexError |
| Fleet.Mission.Turn | rover.py:41-46 | with a valid index, only that rover turns, right when clockwise and left otherwise; with an invalid one, IndexError and nothing changes |
| Fleet.Mission.ValidateCommand | rover.py:100-104 | FleetError exactly when there are no rovers, CommunicationError exactly when there are rovers and the string is None or empty, and success otherwise |
| Fleet.Mission.Command | rover.py:51-55 | the errors come in the code's order (FleetError, CommunicationError, then IndexError only for a non-empty filtered string), and a failure changes nothing; on success only the addressed rover moves, to the pose its command string produces |
| Fleet.Mission.DrawField | rover.py:64-84 | the returned text is exactly `Field.Rendered` of the current poses, including the IndexError and KeyError cases |
| Fleet.NoRovers | rover_test.py:12-15 | commanding rover 0 of a fresh 5 by 5 mission raises FleetError |
| Fleet.LeftThenEightMovesOnMission | rover_test.py:34-36 | a rover deployed with (0, 0, 0) on a 10 by 10 mission prints without error and, sent "LMMMMMMMM", is located at orientation 1, x 0, y 51 |
| Fleet.DeployWithoutHeading | rover.py:34-36 | deploy_rover(0, 0, 7) on a 10 by 10 mission appends the rover and then raises KeyError |
| Fleet.DeployOffGrid | rover.py:34-36 | deploy_rover(5, 0, 0) on a 3 by 3 mission appends the rover and then raises IndexError |

## Left out

- Writing to standard output is left out: `Fleet.Mission.DeployRover` computes the text `print(self)` would write (rover.py:36) and models the exceptions it raises, but the text itself is discarded.
- The rover's `name` field (rover.py:116-123) is left out: only `__repr__` reads it, and `deploy_rover` never passes a name, so `Listing.RoverText` models `__repr__` for `name = None`.
- `Playground` and the module-level manual test (rover.py:157-188) are left out, because they are driven by `random` and by printing.
- `eldritch_rover.py` is not part of this model.
- The `RoverTurtle.Exceptions` module is not part of this model. The exception classes appear only as the constructors of `Outcomes.Error`.
- Navigation.Dx: the source's `round(cos(2·o·π/4))` and `round(sin(…))` on floats become an exact table indexed by `o mod 4`. The two agree for every orientation whose floating-point angle is accurate to within a few degrees. They may disagree for astronomically large integer orientations, because floating-point precision is lost there.
- Dynamic typing is left out: arguments of other types than `int` (or, for command strings, `str` or `None`) are not modelled.
- `Mission.rovers` is a public Python list that any caller may mutate directly. In the model it changes only through `DeployRover`, which is what lets `Mission.Valid` assume that every rover belongs to its mission and that rovers are distinct objects.
- The `ValueError` that `bounded` would raise on an empty range cannot happen: every call passes a range of at least one element, since mission dimensions are positive.
