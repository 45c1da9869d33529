/** The text `print(self)` in Mission.deploy_rover writes (rover.py): Mission.__repr__,
    which lists the rovers through Rover.__repr__ and then appends draw_field. What
    matters to deploy_rover is whether it raises: the exception propagates after the
    new rover has been appended. Fleet.Mission.Describe builds the text in place and
    is proved to produce MissionText. */
module Listing {
  import opened Outcomes
  import opened Text
  import opened Navigation
  import Field

  /** Python's `str(n)` for any integer: a minus sign before the digits of a negative number. */
  function IntStr(n: int): (s: string)
    ensures |s| > 0
    ensures s[0] == '-' <==> n < 0
    ensures forall k :: 0 <= k < |s| ==> s[k] == '-' || IsDigit(s[k])
  {
    if n < 0 then "-" + Str(-n) else Str(n)
  }

  /** Distinct integers print differently. */
  lemma IntStrInjective(a: int, b: int)
    requires IntStr(a) == IntStr(b)
    ensures a == b
  {
    if a < 0 && b < 0 {
      NegativeDigits(a);
      NegativeDigits(b);
      StrInjective(-a, -b);
    } else if a >= 0 && b >= 0 {
      StrInjective(a, b);
    }
  }

  lemma NegativeDigits(n: int)
    requires n < 0
    ensures IntStr(n)[1..] == Str(-n)
  {
    assert IntStr(n) == "-" + Str(-n);
  }

  /** `Rover.__repr__` for a rover without a name, which is every rover deploy_rover
      creates: the heading letter, ` @ (`, x, `, `, y and `)`. ORIENTATIONS is a
      dict, so an orientation outside 0..3 raises KeyError. */
  function RoverText(p: Pose): (r: Result<string>)
    ensures r.Ok? <==> 0 <= p.orientation < |Headings|
    ensures r.Err? ==> r.error == KeyError
    ensures r.Ok? ==> |r.value| > 0 && r.value[0] == Headings[p.orientation] && '\n' !in r.value
  {
    if 0 <= p.orientation < |Headings| then
      Ok([Headings[p.orientation]] + " @ (" + IntStr(p.x) + ", " + IntStr(p.y) + ")")
    else
      Err(KeyError)
  }

  /** Two rovers print the same text only when they have the same location. */
  lemma RoverTextInjective(p: Pose, q: Pose)
    requires RoverText(p).Ok? && RoverText(q) == RoverText(p)
    ensures p == q
  {
    var s := RoverText(p).value;
    RoverTextShape(p);
    RoverTextShape(q);
    assert p.orientation == q.orientation by {
      assert Headings[p.orientation] == s[0] == Headings[q.orientation];
    }
    var tp := " " + IntStr(p.y) + ")";
    var tq := " " + IntStr(q.y) + ")";
    CutAt(IntStr(p.x), ',', tp, IntStr(q.x), tq);
    IntStrInjective(p.x, q.x);
    assert IntStr(p.y) == tp[1..|tp| - 1] == tq[1..|tq| - 1] == IntStr(q.y);
    IntStrInjective(p.y, q.y);
  }

  /** After the heading letter and ` @ (` come x, a comma that is in neither number, and the rest. */
  lemma RoverTextShape(p: Pose)
    requires RoverText(p).Ok?
    ensures RoverText(p).value[5..] == IntStr(p.x) + [','] + (" " + IntStr(p.y) + ")")
    ensures ',' !in IntStr(p.x)
  {
    var tail := IntStr(p.x) + [','] + (" " + IntStr(p.y) + ")");
    assert RoverText(p).value == [Headings[p.orientation]] + " @ (" + tail;
  }

  /** Every rover faces one of the four headings, so each prints. */
  predicate HeadingsKnown(ps: seq<Pose>) {
    forall j :: 0 <= j < |ps| ==> 0 <= ps[j].orientation < |Headings|
  }

  /** The listing line of rover `index`: a tab, the index, `) ` and the rover's text. */
  function RoverLine(index: nat, p: Pose): (line: string)
    requires 0 <= p.orientation < |Headings|
    ensures '\n' !in line
  {
    DigitsExclude(Str(index), '\n');
    "\t" + Str(index) + ") " + RoverText(p).value
  }

  /** A listing line gives back the index and the location it was printed from. */
  lemma RoverLineInjective(i: nat, p: Pose, j: nat, q: Pose)
    requires 0 <= p.orientation < |Headings| && 0 <= q.orientation < |Headings|
    requires RoverLine(i, p) == RoverLine(j, q)
    ensures i == j && p == q
  {
    RoverLineShape(i, p);
    RoverLineShape(j, q);
    var tp := " " + RoverText(p).value;
    var tq := " " + RoverText(q).value;
    CutAt("\t" + Str(i), ')', tp, "\t" + Str(j), tq);
    assert Str(i) == ("\t" + Str(i))[1..] == ("\t" + Str(j))[1..] == Str(j);
    StrInjective(i, j);
    assert RoverText(p).value == tp[1..] == tq[1..] == RoverText(q).value;
    RoverTextInjective(p, q);
  }

  /** A listing line is the tab and index, a parenthesis that is in neither, and the rest. */
  lemma RoverLineShape(i: nat, p: Pose)
    requires 0 <= p.orientation < |Headings|
    ensures RoverLine(i, p) == "\t" + Str(i) + [')'] + (" " + RoverText(p).value)
    ensures ')' !in "\t" + Str(i)
  {
    DigitsExclude(Str(i), ')');
  }

  /** The rover listing, one line per rover in deployment order. */
  function RoverLines(ps: seq<Pose>): (lines: seq<string>)
    requires HeadingsKnown(ps)
    ensures |lines| == |ps|
  {
    seq(|ps|, k requires 0 <= k < |ps| => RoverLine(k, ps[k]))
  }

  /** The first line of `Mission.__repr__`. */
  function AreaLine(rx: nat, ry: nat): (line: string)
    ensures '\n' !in line
  {
    DigitsExclude(Str(rx), '\n');
    DigitsExclude(Str(ry), '\n');
    "Area: " + Str(rx) + "x" + Str(ry)
  }

  /** The text `Mission.__repr__` assembles from the listing and the field. */
  function Report(rx: nat, ry: nat, lines: seq<string>, field: string): (s: string)
    ensures |s| >= |AreaLine(rx, ry)| + |field| + 11
    ensures s[..|AreaLine(rx, ry)| + 1] == AreaLine(rx, ry) + "\n"
    ensures s[|s| - |field|..] == field
  {
    AreaLine(rx, ry) + "\nRovers:\n" + Join(lines, '\n') + "\n\n" + field
  }

  /** `Mission.__repr__`: the area, the rover listing and the field; or the exception
      raised on the way. The listing is built first, so a rover with an orientation
      outside 0..3 raises KeyError there, before draw_field runs. */
  function MissionText(ps: seq<Pose>, rx: Extent, ry: Extent): (r: Result<string>)
    ensures r.Err? <==> !Field.FaultFree(ps, rx, ry)
    ensures r.Err? ==> r.error in {IndexError, KeyError}
    ensures r.Err? ==> (r.error == KeyError <==> !HeadingsKnown(ps))
  {
    if !HeadingsKnown(ps) then Err(KeyError)
    else
      match Field.Rendered(ps, rx, ry)
      case Err(e) => Err(e)
      case Ok(field) => Ok(Report(rx, ry, RoverLines(ps), field))
  }

  /** Split at newlines, the printed text is the area line, `Rovers:`, one line per
      rover (an empty line when there are none), an empty line, and the lines of
      the field. */
  lemma MissionTextLayout(ps: seq<Pose>, rx: Extent, ry: Extent)
    requires Field.FaultFree(ps, rx, ry)
    ensures MissionText(ps, rx, ry).Ok? && Field.Rendered(ps, rx, ry).Ok?
    ensures Split(MissionText(ps, rx, ry).value, '\n') ==
              [AreaLine(rx, ry), "Rovers:"] + (if ps == [] then [""] else RoverLines(ps)) + [""] +
              Split(Field.Rendered(ps, rx, ry).value, '\n')
  {
    var field := Field.Rendered(ps, rx, ry).value;
    var lines := RoverLines(ps);
    assert MissionText(ps, rx, ry) == Ok(Report(rx, ry, lines, field));
    assert Report(rx, ry, lines, field) == AreaLine(rx, ry) + "\nRovers:\n" + Join(lines, '\n') + "\n\n" + field;
    ReportShape(AreaLine(rx, ry), Join(lines, '\n'), field);
    ReportLayout(AreaLine(rx, ry), lines, field);
    assert lines == [] <==> ps == [];
  }

  /** The layout of the text Report assembles, for any area line and listing lines
      free of newlines (the text as ReportShape regroups it). */
  lemma ReportLayout(area: string, lines: seq<string>, field: string)
    requires '\n' !in area
    requires forall k :: 0 <= k < |lines| ==> '\n' !in lines[k]
    ensures Split(area + ['\n'] + ("Rovers:" + ['\n'] + (Join(lines, '\n') + ['\n'] + (['\n'] + field))), '\n') ==
              [area, "Rovers:"] + (if lines == [] then [""] else lines) + [""] + Split(field, '\n')
  {
    var t2 := Join(lines, '\n') + ['\n'] + (['\n'] + field);
    ListingThenField(lines, field);
    SplitAtSeparator("Rovers:", '\n', t2);
    SplitAtSeparator(area, '\n', "Rovers:" + ['\n'] + t2);
    Regroup(area, "Rovers:", if lines == [] then [""] else lines, "", Split(field, '\n'));
  }

  /** Two leading items followed by three pieces, grouped either way. */
  lemma Regroup<T>(a: T, b: T, x: seq<T>, y: T, z: seq<T>)
    ensures [a] + ([b] + (x + [y] + z)) == [a, b] + x + [y] + z
  {
  }

  lemma ReportShape(area: string, listing: string, field: string)
    ensures area + "\nRovers:\n" + listing + "\n\n" + field ==
              area + ['\n'] + ("Rovers:" + ['\n'] + (listing + ['\n'] + (['\n'] + field)))
  {
  }

  /** The rover lines and the empty line that precedes the field. */
  lemma ListingThenField(lines: seq<string>, field: string)
    requires forall k :: 0 <= k < |lines| ==> '\n' !in lines[k]
    ensures Split(Join(lines, '\n') + ['\n'] + (['\n'] + field), '\n') ==
              (if lines == [] then [""] else lines) + [""] + Split(field, '\n')
  {
    var t3 := ['\n'] + field;
    SplitAtSeparator([], '\n', field);
    assert [] + ['\n'] + field == t3;
    if lines == [] {
      assert Join(lines, '\n') + ['\n'] + t3 == [] + ['\n'] + t3;
      SplitAtSeparator([], '\n', t3);
    } else {
      SplitJoinThen(lines, '\n', t3);
    }
  }
}
