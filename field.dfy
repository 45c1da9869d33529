/** The text map Mission.draw_field renders (rover.py), as a function of the
    rovers' poses and the grid size. Fleet.Mission.DrawField builds it in place,
    cell by cell, and is proved to produce Rendered. */
module Field {
  import opened Outcomes
  import opened Sequences
  import opened Text
  import opened Navigation

  /** The `avatar` table: the glyph for orientation 0 (E), 1 (N), 2 (W), 3 (S). */
  function Glyph(o: int): (g: char)
    requires 0 <= o < 4
    ensures !IsDigit(g) && g != '~' && g != '\t' && g != '\n'
  {
    ">^<V"[o]
  }

  /** The exception, if any, that placing a rover at `p` raises on a grid of `rx`
      columns and `ry` rows: `grid[y]` is read first, then `[x]`, then `avatar[orientation]`.
      Negative coordinates count from the far end, as Python list indexing does. */
  function Fault(p: Pose, rx: nat, ry: nat): (e: Option<Error>)
    ensures e.None? <==> -(ry as int) <= p.y < ry && -(rx as int) <= p.x < rx && 0 <= p.orientation < 4
    ensures e == Some(KeyError) <==> -(ry as int) <= p.y < ry && -(rx as int) <= p.x < rx && !(0 <= p.orientation < 4)
    ensures e.Some? ==> e.value in {IndexError, KeyError}
  {
    if PyIndex(p.y, ry).None? then Some(IndexError)
    else if PyIndex(p.x, rx).None? then Some(IndexError)
    else if !(0 <= p.orientation < 4) then Some(KeyError)
    else None
  }

  predicate FaultFree(ps: seq<Pose>, rx: nat, ry: nat) {
    forall j :: 0 <= j < |ps| ==> Fault(ps[j], rx, ry).None?
  }

  /** The exception draw_field raises: that of the first rover, in deployment order, that has one. */
  function FirstFault(ps: seq<Pose>, rx: nat, ry: nat): (e: Option<Error>)
    ensures e.None? <==> FaultFree(ps, rx, ry)
    ensures e.Some? ==> e.value in {IndexError, KeyError}
    ensures (forall j :: 0 <= j < |ps| ==> 0 <= ps[j].orientation < 4) ==> e != Some(KeyError)
  {
    if ps == [] then None
    else if Fault(ps[0], rx, ry).Some? then Fault(ps[0], rx, ry)
    else
      assert forall j :: 1 <= j < |ps| ==> ps[1..][j - 1] == ps[j];
      FirstFault(ps[1..], rx, ry)
  }

  /** The rovers before `i` place fine and rover `i` does not: draw_field raises rover `i`'s error. */
  lemma {:induction false} FirstFaultAt(ps: seq<Pose>, i: nat, rx: nat, ry: nat)
    requires i < |ps|
    requires FaultFree(ps[..i], rx, ry) && Fault(ps[i], rx, ry).Some?
    ensures FirstFault(ps, rx, ry) == Fault(ps[i], rx, ry)
    decreases i
  {
    if i > 0 {
      assert ps[..i][0] == ps[0];
      assert ps[1..][..i - 1] == ps[..i][1..];
      FirstFaultAt(ps[1..], i - 1, rx, ry);
    }
  }

  /** Rover pose `p` lands on column `c`, row `r` of the grid. */
  predicate At(p: Pose, rx: nat, ry: nat, c: nat, r: nat) {
    PyIndex(p.x, rx) == Some(c) && PyIndex(p.y, ry) == Some(r)
  }

  /** The indices of the rovers that land on cell (c, r), in increasing order. */
  function Occupants(ps: seq<Pose>, rx: nat, ry: nat, c: nat, r: nat): (occ: seq<nat>)
    ensures forall k :: 0 <= k < |occ| ==> occ[k] < |ps| && At(ps[occ[k]], rx, ry, c, r)
    ensures forall j :: 0 <= j < |ps| && At(ps[j], rx, ry, c, r) ==> j in occ
    ensures forall k, l :: 0 <= k < l < |occ| ==> occ[k] < occ[l]
  {
    if ps == [] then []
    else
      var n := |ps| - 1;
      assert forall j :: 0 <= j < n ==> ps[..n][j] == ps[j];
      Occupants(ps[..n], rx, ry, c, r) + (if At(ps[n], rx, ry, c, r) then [n] else [])
  }

  /** The decimal indices written one after another. */
  function DigitsOf(occ: seq<nat>): (s: string)
    ensures AllDigits(s)
    ensures |occ| > 0 ==> |s| > 0
  {
    if occ == [] then "" else DigitsOf(occ[..|occ| - 1]) + Str(occ[|occ| - 1])
  }

  /** The text of cell (c, r): `~` when empty, index and glyph for a lone rover,
      only the indices (the glyphs filtered out) when several rovers share it. */
  function Cell(ps: seq<Pose>, rx: nat, ry: nat, c: nat, r: nat): (s: string)
    requires FaultFree(ps, rx, ry)
    ensures |s| > 0 && '\t' !in s && '\n' !in s
  {
    var occ := Occupants(ps, rx, ry, c, r);
    if |occ| == 0 then "~"
    else if |occ| == 1 then Str(occ[0]) + [Glyph(ps[occ[0]].orientation)]
    else DigitsOf(occ)
  }

  /** Row `r` of the grid, before its row number is inserted. */
  function Row(ps: seq<Pose>, rx: nat, ry: nat, r: nat): (row: seq<string>)
    requires FaultFree(ps, rx, ry)
    ensures |row| == rx
  {
    seq(rx, c requires 0 <= c < rx => Cell(ps, rx, ry, c, r))
  }

  /** The last line: `X` and the column numbers. */
  function Footer(rx: nat): (line: seq<string>)
    ensures |line| == rx + 1
  {
    ["X"] + seq(rx, n requires 0 <= n < rx => Str(n))
  }

  /** The lines as lists of cells: the highest row first, each row led by its number,
      then the footer. */
  function Table(ps: seq<Pose>, rx: nat, ry: nat): (t: seq<seq<string>>)
    requires FaultFree(ps, rx, ry)
    ensures |t| == ry + 1
    ensures forall k :: 0 <= k < |t| ==> |t[k]| == rx + 1
  {
    seq(ry, k requires 0 <= k < ry => [Str(ry - 1 - k)] + Row(ps, rx, ry, ry - 1 - k)) + [Footer(rx)]
  }

  /** `'\n'.join('\t'.join(line) for line in lines)`. */
  function Lines(t: seq<seq<string>>): (s: string)
    ensures |s| >= |t| - 1
  {
    Join(seq(|t|, k requires 0 <= k < |t| => Join(t[k], '\t')), '\n')
  }

  /** The value draw_field returns, or the exception it raises. */
  function Rendered(ps: seq<Pose>, rx: nat, ry: nat): (r: Result<string>)
    ensures r.Err? <==> !FaultFree(ps, rx, ry)
    ensures r.Err? ==> r.error in {IndexError, KeyError}
    ensures (forall j :: 0 <= j < |ps| ==> 0 <= ps[j].orientation < 4) ==> r != Err(KeyError)
  {
    match FirstFault(ps, rx, ry)
    case Some(e) => Err(e)
    case None => Ok(Lines(Table(ps, rx, ry)))
  }

  /** How placing rover `i` changes each cell: a cell it does not land on keeps its
      text; on the cell it lands on, `~` becomes index and glyph, and any other text
      gets index and glyph appended and is then filtered down to its digits. */
  lemma CellStep(ps: seq<Pose>, i: nat, rx: nat, ry: nat, c: nat, r: nat)
    requires i < |ps| && FaultFree(ps[..i + 1], rx, ry)
    ensures FaultFree(ps[..i], rx, ry)
    ensures var before, g := Cell(ps[..i], rx, ry, c, r), Glyph(ps[i].orientation);
            Cell(ps[..i + 1], rx, ry, c, r) ==
              if !At(ps[i], rx, ry, c, r) then before
              else if before == "~" then Str(i) + [g]
              else FilterDigits(before + (Str(i) + [g]))
  {
    var a, b := ps[..i], ps[..i + 1];
    assert b[..i] == a && b[i] == ps[i];
    assert forall j :: 0 <= j < i ==> a[j] == b[j];
    var occA := Occupants(a, rx, ry, c, r);
    assert FaultFree(a, rx, ry);
    if !At(ps[i], rx, ry, c, r) {
      CellAwayFromRover(a, b, i, rx, ry, c, r);
    } else if |occA| == 0 {
      CellFirstRover(a, b, i, rx, ry, c, r);
    } else if |occA| == 1 {
      CellSecondRover(a, b, i, rx, ry, c, r);
    } else {
      CellFurtherRover(a, b, i, rx, ry, c, r);
    }
  }

  /** The occupants after one more rover: those before, and the new index if it lands here. */
  lemma OccupantsSnoc(a: seq<Pose>, b: seq<Pose>, i: nat, rx: nat, ry: nat, c: nat, r: nat)
    requires |a| == i && |b| == i + 1 && b[..i] == a
    ensures Occupants(b, rx, ry, c, r) == Occupants(a, rx, ry, c, r) + (if At(b[i], rx, ry, c, r) then [i] else [])
  {
  }

  lemma CellAwayFromRover(a: seq<Pose>, b: seq<Pose>, i: nat, rx: nat, ry: nat, c: nat, r: nat)
    requires |a| == i && |b| == i + 1 && b[..i] == a && FaultFree(b, rx, ry) && FaultFree(a, rx, ry)
    requires !At(b[i], rx, ry, c, r)
    ensures Cell(b, rx, ry, c, r) == Cell(a, rx, ry, c, r)
  {
    var occA := Occupants(a, rx, ry, c, r);
    assert Occupants(b, rx, ry, c, r) == occA;
    if |occA| == 1 {
      assert b[occA[0]] == a[occA[0]];
    }
  }

  lemma CellFirstRover(a: seq<Pose>, b: seq<Pose>, i: nat, rx: nat, ry: nat, c: nat, r: nat)
    requires |a| == i && |b| == i + 1 && b[..i] == a && FaultFree(b, rx, ry) && FaultFree(a, rx, ry)
    requires At(b[i], rx, ry, c, r) && |Occupants(a, rx, ry, c, r)| == 0
    ensures Cell(a, rx, ry, c, r) == "~"
    ensures Cell(b, rx, ry, c, r) == Str(i) + [Glyph(b[i].orientation)]
  {
    OccupantsSnoc(a, b, i, rx, ry, c, r);
    assert Occupants(b, rx, ry, c, r) == [i];
  }

  lemma CellSecondRover(a: seq<Pose>, b: seq<Pose>, i: nat, rx: nat, ry: nat, c: nat, r: nat)
    requires |a| == i && |b| == i + 1 && b[..i] == a && FaultFree(b, rx, ry) && FaultFree(a, rx, ry)
    requires At(b[i], rx, ry, c, r) && |Occupants(a, rx, ry, c, r)| == 1
    ensures Cell(a, rx, ry, c, r) != "~"
    ensures Cell(b, rx, ry, c, r) == FilterDigits(Cell(a, rx, ry, c, r) + (Str(i) + [Glyph(b[i].orientation)]))
  {
    var j := Occupants(a, rx, ry, c, r)[0];
    var g, gj := Glyph(b[i].orientation), Glyph(a[j].orientation);
    assert Cell(a, rx, ry, c, r) == Str(j) + [gj];
    assert Cell(a, rx, ry, c, r)[0] == Str(j)[0];
    OccupantsSnoc(a, b, i, rx, ry, c, r);
    assert Occupants(b, rx, ry, c, r) == [j, i];
    PairDigits(j, i);
    assert Cell(b, rx, ry, c, r) == Str(j) + Str(i);
    FilterDigitsAppend(Str(j) + [gj], Str(i) + [g]);
    FilterDigitsDropsMark(Str(j), gj);
    FilterDigitsDropsMark(Str(i), g);
  }

  lemma PairDigits(j: nat, i: nat)
    ensures DigitsOf([j, i]) == Str(j) + Str(i)
  {
    assert [j][..0] == [] && DigitsOf([]) == "";
    assert DigitsOf([j]) == "" + Str(j) == Str(j);
    assert [j, i][..1] == [j];
  }

  lemma CellFurtherRover(a: seq<Pose>, b: seq<Pose>, i: nat, rx: nat, ry: nat, c: nat, r: nat)
    requires |a| == i && |b| == i + 1 && b[..i] == a && FaultFree(b, rx, ry) && FaultFree(a, rx, ry)
    requires At(b[i], rx, ry, c, r) && |Occupants(a, rx, ry, c, r)| >= 2
    ensures Cell(a, rx, ry, c, r) != "~"
    ensures Cell(b, rx, ry, c, r) == FilterDigits(Cell(a, rx, ry, c, r) + (Str(i) + [Glyph(b[i].orientation)]))
  {
    var occA := Occupants(a, rx, ry, c, r);
    var d := DigitsOf(occA);
    assert Cell(a, rx, ry, c, r) == d;
    assert d[0] != '~';
    var occB := Occupants(b, rx, ry, c, r);
    OccupantsSnoc(a, b, i, rx, ry, c, r);
    assert |occB| == |occA| + 1 && occB[..|occB| - 1] == occA && occB[|occB| - 1] == i;
    assert Cell(b, rx, ry, c, r) == d + Str(i);
    FilterDigitsAppendMark(d, Str(i), Glyph(b[i].orientation));
  }

  /** The grid holds the cells of the first `i` rovers. */
  predicate GridHolds(grid: seq<seq<string>>, qs: seq<Pose>, rx: nat, ry: nat)
    requires FaultFree(qs, rx, ry)
  {
    |grid| == ry &&
    (forall row :: 0 <= row < ry ==> |grid[row]| == rx) &&
    (forall row, col :: 0 <= row < ry && 0 <= col < rx ==> grid[row][col] == Cell(qs, rx, ry, col, row))
  }

  /** The grid draw_field starts from holds the cells of no rovers. */
  lemma BlankGrid(rx: nat, ry: nat)
    ensures GridHolds(seq(ry, _ => seq(rx, _ => "~")), [], rx, ry)
  {
    var grid := seq(ry, _ => seq(rx, _ => "~"));
    forall row, col | 0 <= row < ry && 0 <= col < rx
      ensures grid[row][col] == Cell([], rx, ry, col, row)
    {
      assert Occupants([], rx, ry, col, row) == [];
    }
  }

  /** One pass of draw_field's loop: writing rover `i`'s marker into its cell turns a
      grid of the first `i` rovers into one of the first `i + 1`. */
  lemma PlaceRover(grid: seq<seq<string>>, ps: seq<Pose>, i: nat, rx: nat, ry: nat, col: nat, row: nat, text: string)
    requires i < |ps| && FaultFree(ps[..i], rx, ry) && FaultFree(ps[..i + 1], rx, ry)
    requires GridHolds(grid, ps[..i], rx, ry)
    requires PyIndex(ps[i].x, rx) == Some(col) && PyIndex(ps[i].y, ry) == Some(row)
    requires var mark := Str(i) + [Glyph(ps[i].orientation)];
             text == if grid[row][col] == "~" then mark else FilterDigits(grid[row][col] + mark)
    ensures GridHolds(grid[row := grid[row][col := text]], ps[..i + 1], rx, ry)
  {
    var next := grid[row := grid[row][col := text]];
    forall r, c | 0 <= r < ry && 0 <= c < rx
      ensures next[r][c] == Cell(ps[..i + 1], rx, ry, c, r)
    {
      PlaceRoverAt(grid, ps, i, rx, ry, col, row, text, c, r);
    }
  }

  lemma PlaceRoverAt(grid: seq<seq<string>>, ps: seq<Pose>, i: nat, rx: nat, ry: nat, col: nat, row: nat, text: string, c: nat, r: nat)
    requires i < |ps| && FaultFree(ps[..i], rx, ry) && FaultFree(ps[..i + 1], rx, ry)
    requires GridHolds(grid, ps[..i], rx, ry)
    requires PyIndex(ps[i].x, rx) == Some(col) && PyIndex(ps[i].y, ry) == Some(row)
    requires var mark := Str(i) + [Glyph(ps[i].orientation)];
             text == if grid[row][col] == "~" then mark else FilterDigits(grid[row][col] + mark)
    requires r < ry && c < rx
    ensures grid[row := grid[row][col := text]][r][c] == Cell(ps[..i + 1], rx, ry, c, r)
  {
    var now := if r == row && c == col then text else grid[r][c];
    assert grid[row := grid[row][col := text]][r][c] == now;
    PlaceRoverCell(grid[r][c], ps, i, rx, ry, col, row, c, r, now);
  }

  lemma PlaceRoverCell(before: string, ps: seq<Pose>, i: nat, rx: nat, ry: nat, col: nat, row: nat, c: nat, r: nat, now: string)
    requires i < |ps| && FaultFree(ps[..i], rx, ry) && FaultFree(ps[..i + 1], rx, ry)
    requires PyIndex(ps[i].x, rx) == Some(col) && PyIndex(ps[i].y, ry) == Some(row)
    requires before == Cell(ps[..i], rx, ry, c, r)
    requires var mark := Str(i) + [Glyph(ps[i].orientation)];
             now == if r == row && c == col then (if before == "~" then mark else FilterDigits(before + mark)) else before
    ensures now == Cell(ps[..i + 1], rx, ry, c, r)
  {
    CellStep(ps, i, rx, ry, c, r);
  }

  /** The end of draw_field: rows numbered by `insert`, reversed, and the footer
      appended give the table. */
  lemma AssembleTable(cells: seq<seq<string>>, numbered: seq<seq<string>>, ps: seq<Pose>, rx: nat, ry: nat)
    requires FaultFree(ps, rx, ry) && GridHolds(cells, ps, rx, ry)
    requires |numbered| == ry && forall k :: 0 <= k < ry ==> numbered[k] == [Str(k)] + cells[k]
    ensures Reversed(numbered) + [Footer(rx)] == Table(ps, rx, ry)
  {
    var t := Table(ps, rx, ry);
    var g := Reversed(numbered) + [Footer(rx)];
    assert |g| == |t| == ry + 1;
    forall k | 0 <= k < ry
      ensures g[k] == t[k]
    {
      AssembleLine(cells, numbered, ps, rx, ry, k);
      TableLine(ps, rx, ry, k);
    }
    assert g[ry] == Footer(rx) == t[ry];
  }

  lemma AssembleLine(cells: seq<seq<string>>, numbered: seq<seq<string>>, ps: seq<Pose>, rx: nat, ry: nat, k: nat)
    requires FaultFree(ps, rx, ry) && GridHolds(cells, ps, rx, ry)
    requires |numbered| == ry && forall k :: 0 <= k < ry ==> numbered[k] == [Str(k)] + cells[k]
    requires k < ry
    ensures Reversed(numbered)[k] == [Str(ry - 1 - k)] + Row(ps, rx, ry, ry - 1 - k)
  {
    var row := ry - 1 - k;
    GridRow(cells, ps, rx, ry, row);
    assert Reversed(numbered)[k] == numbered[row];
  }

  lemma TableLine(ps: seq<Pose>, rx: nat, ry: nat, k: nat)
    requires FaultFree(ps, rx, ry) && k < ry
    ensures Table(ps, rx, ry)[k] == [Str(ry - 1 - k)] + Row(ps, rx, ry, ry - 1 - k)
  {
  }

  /** A finished grid row is Row. */
  lemma GridRow(cells: seq<seq<string>>, ps: seq<Pose>, rx: nat, ry: nat, row: nat)
    requires FaultFree(ps, rx, ry) && GridHolds(cells, ps, rx, ry) && row < ry
    ensures cells[row] == Row(ps, rx, ry, row)
  {
    var want := Row(ps, rx, ry, row);
    forall c | 0 <= c < rx
      ensures cells[row][c] == want[c]
    {
      assert cells[row][c] == Cell(ps, rx, ry, c, row);
    }
  }

  /** The rendered text has `ry + 1` lines; line k (k < ry) splits at tabs into the
      number `ry - 1 - k` followed by the `rx` cells of row `ry - 1 - k`, and the
      last line into `X` and the column numbers 0 .. rx - 1. */
  lemma RenderedLayout(ps: seq<Pose>, rx: nat, ry: nat)
    requires FaultFree(ps, rx, ry)
    ensures Rendered(ps, rx, ry).Ok?
    ensures var lines := Split(Rendered(ps, rx, ry).value, '\n');
            |lines| == ry + 1 &&
            (forall k :: 0 <= k < ry ==> Split(lines[k], '\t') == [Str(ry - 1 - k)] + Row(ps, rx, ry, ry - 1 - k)) &&
            Split(lines[ry], '\t') == Footer(rx)
  {
    var t := Table(ps, rx, ry);
    forall k | 0 <= k < |t|
      ensures forall m :: 0 <= m < |t[k]| ==> '\n' !in t[k][m] && '\t' !in t[k][m]
    {
      TableLineClean(ps, rx, ry, k);
    }
    assert Rendered(ps, rx, ry) == Ok(Lines(t));
    LinesSplit(t);
    var lines := Split(Lines(t), '\n');
    forall k | 0 <= k < ry
      ensures Split(lines[k], '\t') == [Str(ry - 1 - k)] + Row(ps, rx, ry, ry - 1 - k)
    {
      TableLine(ps, rx, ry, k);
    }
    assert t[ry] == Footer(rx);
  }

  /** Text made by Lines splits back into its lines and cells when no cell holds a tab
      or a newline. */
  lemma LinesSplit(t: seq<seq<string>>)
    requires |t| >= 1
    requires forall k :: 0 <= k < |t| ==> |t[k]| >= 1
    requires forall k :: 0 <= k < |t| ==> forall m :: 0 <= m < |t[k]| ==> '\n' !in t[k][m] && '\t' !in t[k][m]
    ensures |Split(Lines(t), '\n')| == |t|
    ensures forall k :: 0 <= k < |t| ==> Split(Split(Lines(t), '\n')[k], '\t') == t[k]
  {
    var strs := seq(|t|, k requires 0 <= k < |t| => Join(t[k], '\t'));
    forall k | 0 <= k < |t|
      ensures '\n' !in strs[k] && Split(strs[k], '\t') == t[k]
    {
      JoinAvoids(t[k], '\t', '\n');
      SplitJoin(t[k], '\t');
    }
    SplitJoin(strs, '\n');
  }

  /** No entry of the table holds a tab or a newline. */
  lemma TableLineClean(ps: seq<Pose>, rx: nat, ry: nat, k: nat)
    requires FaultFree(ps, rx, ry) && k <= ry
    ensures var line := Table(ps, rx, ry)[k];
            forall m :: 0 <= m < |line| ==> '\n' !in line[m] && '\t' !in line[m]
  {
    if k < ry {
      TableLine(ps, rx, ry, k);
      DigitsExclude(Str(ry - 1 - k), '\t');
      DigitsExclude(Str(ry - 1 - k), '\n');
    } else {
      assert Table(ps, rx, ry)[k] == Footer(rx);
      forall n | 0 <= n < rx ensures '\n' !in Str(n) && '\t' !in Str(n) {
        DigitsExclude(Str(n), '\t');
        DigitsExclude(Str(n), '\n');
      }
    }
  }

  /** Every rover on the grid and facing one of the four headings. */
  predicate InGrid(ps: seq<Pose>, rx: nat, ry: nat) {
    forall j :: 0 <= j < |ps| ==> 0 <= ps[j].x < rx && 0 <= ps[j].y < ry && 0 <= ps[j].orientation < 4
  }

  /** draw_field raises exactly when some rover is off the grid (beyond what negative
      indexing wraps) or has an orientation outside 0..3. */
  lemma RenderedFails(ps: seq<Pose>, rx: nat, ry: nat)
    ensures Rendered(ps, rx, ry).Err? <==> exists j :: 0 <= j < |ps| && Fault(ps[j], rx, ry).Some?
    ensures InGrid(ps, rx, ry) ==> Rendered(ps, rx, ry).Ok?
  {
  }

  /** With every rover on the grid, the cell in column c of row r is `~` when no
      rover stands there, `{j}` then the glyph of rover j when j stands there alone,
      and the digits of the indices of the rovers standing there, in deployment order,
      when there are several. */
  lemma CellMeaning(ps: seq<Pose>, rx: nat, ry: nat, c: nat, r: nat)
    requires InGrid(ps, rx, ry) && c < rx && r < ry
    ensures FaultFree(ps, rx, ry)
    ensures forall j :: 0 <= j < |ps| ==> (j in Occupants(ps, rx, ry, c, r) <==> ps[j].x == c && ps[j].y == r)
    ensures Cell(ps, rx, ry, c, r) == "~" <==> forall j :: 0 <= j < |ps| ==> ps[j].x != c || ps[j].y != r
    ensures forall j :: 0 <= j < |ps| && ps[j].x == c && ps[j].y == r &&
                        (forall i :: 0 <= i < |ps| && ps[i].x == c && ps[i].y == r ==> i == j) ==>
                          Cell(ps, rx, ry, c, r) == Str(j) + [Glyph(ps[j].orientation)]
    ensures forall i, j :: 0 <= i < j < |ps| && ps[i].x == c && ps[i].y == r && ps[j].x == c && ps[j].y == r ==>
                          Cell(ps, rx, ry, c, r) == DigitsOf(Occupants(ps, rx, ry, c, r))
  {
    OccupantsInGrid(ps, rx, ry, c, r);
    CellEmpty(ps, rx, ry, c, r);
    forall j | 0 <= j < |ps| && ps[j].x == c && ps[j].y == r &&
               (forall i :: 0 <= i < |ps| && ps[i].x == c && ps[i].y == r ==> i == j)
      ensures Cell(ps, rx, ry, c, r) == Str(j) + [Glyph(ps[j].orientation)]
    {
      CellLone(ps, rx, ry, c, r, j);
    }
    forall i, j | 0 <= i < j < |ps| && ps[i].x == c && ps[i].y == r && ps[j].x == c && ps[j].y == r
      ensures Cell(ps, rx, ry, c, r) == DigitsOf(Occupants(ps, rx, ry, c, r))
    {
      CellShared(ps, rx, ry, c, r, i, j);
    }
  }

  lemma CellEmpty(ps: seq<Pose>, rx: nat, ry: nat, c: nat, r: nat)
    requires InGrid(ps, rx, ry)
    ensures FaultFree(ps, rx, ry)
    ensures Cell(ps, rx, ry, c, r) == "~" <==> forall j :: 0 <= j < |ps| ==> ps[j].x != c || ps[j].y != r
  {
    OccupantsInGrid(ps, rx, ry, c, r);
    CellTilde(ps, rx, ry, c, r);
    var occ := Occupants(ps, rx, ry, c, r);
    if occ != [] {
      assert ps[occ[0]].x == c && ps[occ[0]].y == r;
    }
  }

  lemma CellShared(ps: seq<Pose>, rx: nat, ry: nat, c: nat, r: nat, i: nat, j: nat)
    requires InGrid(ps, rx, ry) && i < j < |ps|
    requires ps[i].x == c && ps[i].y == r && ps[j].x == c && ps[j].y == r
    ensures FaultFree(ps, rx, ry)
    ensures Cell(ps, rx, ry, c, r) == DigitsOf(Occupants(ps, rx, ry, c, r))
  {
    OccupantsInGrid(ps, rx, ry, c, r);
    var occ := Occupants(ps, rx, ry, c, r);
    assert i in occ && j in occ;
  }

  /** On a grid every rover is in, the occupants of a cell are the rovers whose
      coordinates are that cell's. */
  lemma OccupantsInGrid(ps: seq<Pose>, rx: nat, ry: nat, c: nat, r: nat)
    requires InGrid(ps, rx, ry)
    ensures forall j :: 0 <= j < |ps| ==> (j in Occupants(ps, rx, ry, c, r) <==> ps[j].x == c && ps[j].y == r)
  {
    assert forall j :: 0 <= j < |ps| ==> (At(ps[j], rx, ry, c, r) <==> ps[j].x == c && ps[j].y == r);
  }

  lemma CellLone(ps: seq<Pose>, rx: nat, ry: nat, c: nat, r: nat, j: nat)
    requires InGrid(ps, rx, ry) && j < |ps| && ps[j].x == c && ps[j].y == r
    requires forall i :: 0 <= i < |ps| && ps[i].x == c && ps[i].y == r ==> i == j
    ensures FaultFree(ps, rx, ry)
    ensures Cell(ps, rx, ry, c, r) == Str(j) + [Glyph(ps[j].orientation)]
  {
    OccupantsSingle(ps, rx, ry, c, r, j);
  }

  /** A cell that exactly one rover lands on lists only that rover. */
  lemma {:induction false} OccupantsSingle(ps: seq<Pose>, rx: nat, ry: nat, c: nat, r: nat, j: nat)
    requires j < |ps| && At(ps[j], rx, ry, c, r)
    requires forall i :: 0 <= i < |ps| && At(ps[i], rx, ry, c, r) ==> i == j
    ensures Occupants(ps, rx, ry, c, r) == [j]
    decreases |ps|
  {
    var n := |ps| - 1;
    var front := ps[..n];
    OccupantsSnoc(front, ps, n, rx, ry, c, r);
    if j == n {
      forall i | 0 <= i < n
        ensures !At(front[i], rx, ry, c, r)
      {
        assert front[i] == ps[i];
      }
      OccupantsNone(front, rx, ry, c, r);
    } else {
      assert !At(ps[n], rx, ry, c, r);
      assert front[j] == ps[j];
      forall i | 0 <= i < n && At(front[i], rx, ry, c, r)
        ensures i == j
      {
        assert front[i] == ps[i];
      }
      OccupantsSingle(front, rx, ry, c, r, j);
    }
  }

  /** A cell that no rover lands on lists nobody. */
  lemma {:induction false} OccupantsNone(ps: seq<Pose>, rx: nat, ry: nat, c: nat, r: nat)
    requires forall i :: 0 <= i < |ps| ==> !At(ps[i], rx, ry, c, r)
    ensures Occupants(ps, rx, ry, c, r) == []
    decreases |ps|
  {
    if ps != [] {
      var n := |ps| - 1;
      var front := ps[..n];
      OccupantsSnoc(front, ps, n, rx, ry, c, r);
      forall i | 0 <= i < n
        ensures !At(front[i], rx, ry, c, r)
      {
        assert front[i] == ps[i];
      }
      OccupantsNone(front, rx, ry, c, r);
    }
  }

  /** A cell reads `~` exactly when nobody stands on it. */
  lemma CellTilde(ps: seq<Pose>, rx: nat, ry: nat, c: nat, r: nat)
    requires FaultFree(ps, rx, ry)
    ensures Cell(ps, rx, ry, c, r) == "~" <==> Occupants(ps, rx, ry, c, r) == []
  {
    var occ := Occupants(ps, rx, ry, c, r);
    if |occ| == 1 {
      assert Str(occ[0])[0] != '~';
    } else if |occ| >= 2 {
      assert DigitsOf(occ)[0] != '~';
    }
  }

  /** Without rovers every cell is `~`. */
  lemma EmptyRow(rx: nat, ry: nat, r: nat)
    ensures Row([], rx, ry, r) == seq(rx, _ => "~")
  {
    forall c: nat ensures Cell([], rx, ry, c, r) == "~" {
      assert Occupants([], rx, ry, c, r) == [];
    }
  }

  /** The map of an empty 3 by 2 field. */
  lemma EmptyField()
    ensures Rendered([], 3, 2) == Ok("1\t~\t~\t~\n0\t~\t~\t~\nX\t0\t1\t2")
  {
    EmptyFieldTable();
    EmptyFieldText();
  }

  lemma EmptyFieldTable()
    ensures Table([], 3, 2) == [["1", "~", "~", "~"], ["0", "~", "~", "~"], ["X", "0", "1", "2"]]
  {
    var empty := ["~", "~", "~"];
    EmptyRow(3, 2, 0);
    EmptyRow(3, 2, 1);
    assert seq(3, _ => "~") == empty;
    assert Str(0) == "0" && Str(1) == "1" && Str(2) == "2";
    assert Footer(3) == ["X", "0", "1", "2"];
    var t := Table([], 3, 2);
    assert |t| == 3;
    assert t[0] == ["1", "~", "~", "~"] && t[1] == ["0", "~", "~", "~"] && t[2] == ["X", "0", "1", "2"];
  }

  lemma EmptyFieldText()
    ensures Lines([["1", "~", "~", "~"], ["0", "~", "~", "~"], ["X", "0", "1", "2"]]) == "1\t~\t~\t~\n0\t~\t~\t~\nX\t0\t1\t2"
  {
    var t := [["1", "~", "~", "~"], ["0", "~", "~", "~"], ["X", "0", "1", "2"]];
    var strs := seq(|t|, k requires 0 <= k < |t| => Join(t[k], '\t'));
    EmptyFieldLines();
    assert strs == ["1\t~\t~\t~", "0\t~\t~\t~", "X\t0\t1\t2"];
  }

  lemma EmptyFieldLines()
    ensures Join(["1", "~", "~", "~"], '\t') == "1\t~\t~\t~"
    ensures Join(["0", "~", "~", "~"], '\t') == "0\t~\t~\t~"
    ensures Join(["X", "0", "1", "2"], '\t') == "X\t0\t1\t2"
    ensures Join(["1\t~\t~\t~", "0\t~\t~\t~", "X\t0\t1\t2"], '\n') == "1\t~\t~\t~\n0\t~\t~\t~\nX\t0\t1\t2"
  {
    EmptyFieldRow("1");
    EmptyFieldRow("0");
    EmptyFieldFooter();
    EmptyFieldJoin();
  }

  lemma EmptyFieldFooter()
    ensures Join(["X", "0", "1", "2"], '\t') == "X\t0\t1\t2"
  {
    JoinFour("X", "0", "1", "2", '\t');
    assert "X" + ['\t'] + "0" + ['\t'] + "1" + ['\t'] + "2" == "X\t0\t1\t2";
  }

  lemma EmptyFieldJoin()
    ensures Join(["1\t~\t~\t~", "0\t~\t~\t~", "X\t0\t1\t2"], '\n') == "1\t~\t~\t~\n0\t~\t~\t~\nX\t0\t1\t2"
  {
    JoinThree("1\t~\t~\t~", "0\t~\t~\t~", "X\t0\t1\t2", '\n');
  }

  lemma EmptyFieldRow(n: string)
    requires |n| == 1
    ensures Join([n, "~", "~", "~"], '\t') == n + "\t~\t~\t~"
  {
    JoinFour(n, "~", "~", "~", '\t');
    assert n + ['\t'] + "~" + ['\t'] + "~" + ['\t'] + "~" == n + "\t~\t~\t~";
  }

  lemma JoinThree(a: string, b: string, c: string, sep: char)
    ensures Join([a, b, c], sep) == a + [sep] + b + [sep] + c
  {
    assert [a, b, c][1..] == [b, c] && [b, c][1..] == [c];
    assert Join([c], sep) == c;
    assert Join([b, c], sep) == b + [sep] + c;
  }

  lemma JoinFour(a: string, b: string, c: string, d: string, sep: char)
    ensures Join([a, b, c, d], sep) == a + [sep] + b + [sep] + c + [sep] + d
  {
    assert [a, b, c, d][1..] == [b, c, d];
    JoinThree(b, c, d, sep);
  }

  /** A rover whose orientation is outside 0..3 (deploy_rover(0, 0, 7) on a 10 by 10
      mission creates one) makes draw_field raise KeyError; one at x = -1 is drawn in
      the last column. */
  lemma FaultExamples()
    ensures Rendered([Pose(7, 0, 0)], 10, 10) == Err(KeyError)
    ensures Rendered([Pose(0, 12, 0)], 10, 10) == Err(IndexError)
    ensures Occupants([Pose(0, -1, 0)], 3, 2, 2, 0) == [0]
  {
  }
}
