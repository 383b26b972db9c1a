/**
 * `_iter_docx_lines`: a document, given as its paragraph texts and its
 * tables (rows of cell texts), flattened into the ordered list of
 * `(text, location_hint)` lines the detector scans.
 *
 * Paragraphs come first: each is stripped, empty ones are dropped, and the
 * hint `paragraph:<i>` counts every paragraph, dropped ones included. Table
 * cells follow, table by table, row by row, cell by cell: each has its
 * whitespace runs collapsed to single spaces, empty ones are dropped, and
 * the hint is `table:<ti> row:<ri> col:<ci>`.
 */
module Flatten {
  import opened Text

  /** Where a flattened line came from; `Render` gives its hint text. */
  datatype Location = Paragraph(index: nat) | Cell(table: nat, row: nat, col: nat)

  /** One flattened line: its text and where it came from. */
  datatype Line = Line(text: string, loc: Location)

  /** A table as python-docx lists it: rows of cell texts. */
  type Row = seq<string>
  type Table = seq<Row>

  /** The `location_hint` string of a line. */
  function Render(l: Location): string
  {
    match l
    case Paragraph(i) => "paragraph:" + Decimal(i)
    case Cell(ti, ri, ci) => "table:" + (Decimal(ti) + (" row:" + (Decimal(ri) + (" col:" + Decimal(ci)))))
  }

  // ---- the flattened list, defined the way the loops build it ----
  // Each function gives the lines of the first `n` items (paragraphs,
  // cells of a row, rows of a table, tables).

  function ParagraphLine(p: string, i: nat): seq<Line>
  {
    var t := Strip(p, Whitespace);
    if t != "" then [Line(t, Paragraph(i))] else []
  }

  function ParagraphLines(ps: seq<string>, n: nat): seq<Line>
    requires n <= |ps|
  {
    if n == 0 then [] else ParagraphLines(ps, n - 1) + ParagraphLine(ps[n - 1], n - 1)
  }

  function CellLine(c: string, ti: nat, ri: nat, ci: nat): seq<Line>
  {
    var t := Collapse(c);
    if t != "" then [Line(t, Cell(ti, ri, ci))] else []
  }

  function CellLines(cells: Row, ti: nat, ri: nat, n: nat): seq<Line>
    requires n <= |cells|
  {
    if n == 0 then [] else CellLines(cells, ti, ri, n - 1) + CellLine(cells[n - 1], ti, ri, n - 1)
  }

  function RowLines(rows: Table, ti: nat, n: nat): seq<Line>
    requires n <= |rows|
  {
    if n == 0 then [] else RowLines(rows, ti, n - 1) + CellLines(rows[n - 1], ti, n - 1, |rows[n - 1]|)
  }

  function TableLines(ts: seq<Table>, n: nat): seq<Line>
    requires n <= |ts|
  {
    if n == 0 then [] else TableLines(ts, n - 1) + RowLines(ts[n - 1], n - 1, |ts[n - 1]|)
  }

  function Flattened(ps: seq<string>, ts: seq<Table>): seq<Line>
  {
    ParagraphLines(ps, |ps|) + TableLines(ts, |ts|)
  }

  /**
   * `_iter_docx_lines(doc)` over the document's paragraph texts and tables.
   * The loop over the paragraphs is `ParagraphTextLines`, the loops over a
   * table's rows and a row's cells are `TableCellLines` and `RowCellLines`;
   * this method walks the tables.
   */
  method IterDocxLines(paragraphs: seq<string>, tables: seq<Table>) returns (lines: seq<Line>)
    ensures lines == Flattened(paragraphs, tables)
  {
    lines := ParagraphTextLines(paragraphs);
    ghost var fromParagraphs := lines;
    for ti := 0 to |tables|
      invariant lines == fromParagraphs + TableLines(tables, ti)
    {
      var fromTable := TableCellLines(tables[ti], ti);
      TablesAppend(tables, ti, fromParagraphs, lines, fromTable);
      lines := lines + fromTable;
    }
  }

  /** Appending table `ti`'s lines extends the lines of the tables before it. */
  lemma TablesAppend(tables: seq<Table>, ti: nat, pre: seq<Line>, lines: seq<Line>, fromTable: seq<Line>)
    requires ti < |tables| && lines == pre + TableLines(tables, ti)
    requires fromTable == RowLines(tables[ti], ti, |tables[ti]|)
    ensures lines + fromTable == pre + TableLines(tables, ti + 1)
  {
  }

  /** The paragraph lines, in document order. */
  method ParagraphTextLines(paragraphs: seq<string>) returns (lines: seq<Line>)
    ensures lines == ParagraphLines(paragraphs, |paragraphs|)
  {
    lines := [];
    for i := 0 to |paragraphs|
      invariant lines == ParagraphLines(paragraphs, i)
    {
      var t := Strip(paragraphs[i], Whitespace);
      if t != "" {
        lines := lines + [Line(t, Paragraph(i))];
      }
    }
  }

  /** The lines of table `ti`, row by row. */
  method TableCellLines(table: Table, ti: nat) returns (lines: seq<Line>)
    ensures lines == RowLines(table, ti, |table|)
  {
    lines := [];
    for ri := 0 to |table|
      invariant lines == RowLines(table, ti, ri)
    {
      var fromRow := RowCellLines(table[ri], ti, ri);
      lines := lines + fromRow;
    }
  }

  /** The lines of row `ri` of table `ti`, cell by cell. */
  method RowCellLines(row: Row, ti: nat, ri: nat) returns (lines: seq<Line>)
    ensures lines == CellLines(row, ti, ri, |row|)
  {
    lines := [];
    for ci := 0 to |row|
      invariant lines == CellLines(row, ti, ri, ci)
    {
      var cellText := Collapse(row[ci]);
      if cellText != "" {
        lines := lines + [Line(cellText, Cell(ti, ri, ci))];
      }
    }
  }

  // ---- what the flattened list holds ----

  /** Document order: paragraphs by index, then cells by table, row, column. */
  predicate Before(a: Location, b: Location)
  {
    if a.Paragraph? then b.Cell? || a.index < b.index
    else b.Cell? && (a.table < b.table || (a.table == b.table && (a.row < b.row || (a.row == b.row && a.col < b.col))))
  }

  predicate InDocumentOrder(ls: seq<Line>)
  {
    forall j, k :: 0 <= j < k < |ls| ==> Before(ls[j].loc, ls[k].loc)
  }

  /** Every line of `a` comes before every line of `b`. */
  predicate AllBefore(a: seq<Line>, b: seq<Line>)
  {
    forall j, k :: 0 <= j < |a| && 0 <= k < |b| ==> Before(a[j].loc, b[k].loc)
  }

  lemma OrderAppend(a: seq<Line>, b: seq<Line>)
    requires InDocumentOrder(a) && InDocumentOrder(b) && AllBefore(a, b)
    ensures InDocumentOrder(a + b)
  {
    var ls := a + b;
    forall j, k | 0 <= j < k < |ls| ensures Before(ls[j].loc, ls[k].loc) {
      if k < |a| {
        assert ls[j] == a[j] && ls[k] == a[k];
      } else if j < |a| {
        assert ls[j] == a[j] && ls[k] == b[k - |a|];
      } else {
        assert ls[j] == b[j - |a|] && ls[k] == b[k - |a|];
      }
    }
  }

  predicate Mentions(ls: seq<Line>, loc: Location)
  {
    exists k :: 0 <= k < |ls| && ls[k].loc == loc
  }

  lemma MentionsAppend(a: seq<Line>, b: seq<Line>, loc: Location)
    ensures Mentions(a, loc) ==> Mentions(a + b, loc)
    ensures Mentions(b, loc) ==> Mentions(a + b, loc)
  {
    if Mentions(b, loc) {
      var k :| 0 <= k < |b| && b[k].loc == loc;
      assert (a + b)[|a| + k] == b[k];
    }
    if Mentions(a, loc) {
      var k :| 0 <= k < |a| && a[k].loc == loc;
      assert (a + b)[k] == a[k];
    }
  }

  /** The location exists in the document. */
  predicate Valid(ps: seq<string>, ts: seq<Table>, loc: Location)
  {
    match loc
    case Paragraph(i) => i < |ps|
    case Cell(t, r, c) => t < |ts| && r < |ts[t]| && c < |ts[t][r]|
  }

  /** The text a location contributes: stripped paragraph, collapsed cell. */
  function TextAt(ps: seq<string>, ts: seq<Table>, loc: Location): string
    requires Valid(ps, ts, loc)
  {
    match loc
    case Paragraph(i) => Strip(ps[i], Whitespace)
    case Cell(t, r, c) => Collapse(ts[t][r][c])
  }

  /** What the lines of the first `n` paragraphs satisfy; `ParagraphLinesSpec` proves it. */
  predicate ParagraphsSpec(ps: seq<string>, n: nat, ls: seq<Line>)
    requires n <= |ps|
  {
    && InDocumentOrder(ls)
    && (forall k :: 0 <= k < |ls| ==>
          ls[k].loc.Paragraph? && ls[k].loc.index < n
          && ls[k].text == Strip(ps[ls[k].loc.index], Whitespace) && ls[k].text != "")
    && (forall i :: 0 <= i < n && Strip(ps[i], Whitespace) != "" ==> Mentions(ls, Paragraph(i)))
  }

  lemma {:induction false} ParagraphLinesSpec(ps: seq<string>, n: nat)
    requires n <= |ps|
    ensures ParagraphsSpec(ps, n, ParagraphLines(ps, n))
  {
    if n > 0 {
      ParagraphLinesSpec(ps, n - 1);
      ParagraphStep(ps, n, ParagraphLines(ps, n - 1), ParagraphLines(ps, n));
    }
  }

  /** Appending paragraph `m`'s line, if any, to those of the paragraphs before it. */
  lemma ParagraphStep(ps: seq<string>, n: nat, a: seq<Line>, ls: seq<Line>)
    requires 0 < n <= |ps| && ParagraphsSpec(ps, n - 1, a) && ls == a + ParagraphLine(ps[n - 1], n - 1)
    ensures ParagraphsSpec(ps, n, ls)
  {
    var m := n - 1;
    var b := ParagraphLine(ps[m], m);
    OrderAppend(a, b);
    forall i | 0 <= i < n && Strip(ps[i], Whitespace) != "" ensures Mentions(a + b, Paragraph(i)) {
      MentionsAppend(a, b, Paragraph(i));
      if i == m {
        assert b[0].loc == Paragraph(i);
      }
    }
  }

  /** What a line contributed by one of the first `n` cells of `cells` looks like. */
  predicate CellLineOk(cells: Row, ti: nat, ri: nat, n: nat, l: Line)
    requires n <= |cells|
  {
    l.loc.Cell? && l.loc.table == ti && l.loc.row == ri && l.loc.col < n
    && l.text == Collapse(cells[l.loc.col]) && l.text != ""
  }

  /** What a line contributed by one of the first `n` rows of table `ti` looks like. */
  predicate RowLineOk(rows: Table, ti: nat, n: nat, l: Line)
    requires n <= |rows|
  {
    l.loc.Cell? && l.loc.table == ti && l.loc.row < n
    && CellLineOk(rows[l.loc.row], ti, l.loc.row, |rows[l.loc.row]|, l)
  }

  /** What a line contributed by one of the first `n` tables looks like. */
  predicate TableLineOk(ts: seq<Table>, n: nat, l: Line)
    requires n <= |ts|
  {
    l.loc.Cell? && l.loc.table < n && RowLineOk(ts[l.loc.table], l.loc.table, |ts[l.loc.table]|, l)
  }

  /** What the lines of the first `n` cells of a row satisfy; `CellLinesSpec` proves it. */
  predicate CellsSpec(cells: Row, ti: nat, ri: nat, n: nat, ls: seq<Line>)
    requires n <= |cells|
  {
    && InDocumentOrder(ls)
    && (forall k :: 0 <= k < |ls| ==> CellLineOk(cells, ti, ri, n, ls[k]))
    && (forall c :: 0 <= c < n && Collapse(cells[c]) != "" ==> Mentions(ls, Cell(ti, ri, c)))
  }

  lemma {:induction false} CellLinesSpec(cells: Row, ti: nat, ri: nat, n: nat)
    requires n <= |cells|
    ensures CellsSpec(cells, ti, ri, n, CellLines(cells, ti, ri, n))
  {
    if n > 0 {
      CellLinesSpec(cells, ti, ri, n - 1);
      CellStep(cells, ti, ri, n, CellLines(cells, ti, ri, n - 1), CellLines(cells, ti, ri, n));
    }
  }

  /** Appending cell `n - 1`'s line, if any, to those of the cells before it. */
  lemma CellStep(cells: Row, ti: nat, ri: nat, n: nat, a: seq<Line>, ls: seq<Line>)
    requires 0 < n <= |cells| && CellsSpec(cells, ti, ri, n - 1, a)
    requires ls == a + CellLine(cells[n - 1], ti, ri, n - 1)
    ensures CellsSpec(cells, ti, ri, n, ls)
  {
    var b := CellLine(cells[n - 1], ti, ri, n - 1);
    OrderAppend(a, b);
    forall k | 0 <= k < |a + b| ensures CellLineOk(cells, ti, ri, n, (a + b)[k]) {
      if k < |a| {
        assert CellLineOk(cells, ti, ri, n - 1, a[k]);
      }
    }
    forall c | 0 <= c < n && Collapse(cells[c]) != "" ensures Mentions(a + b, Cell(ti, ri, c)) {
      MentionsAppend(a, b, Cell(ti, ri, c));
      if c == n - 1 {
        assert b[0].loc == Cell(ti, ri, c);
      }
    }
  }

  lemma {:induction false} RowLinesSpec(rows: Table, ti: nat, n: nat)
    requires n <= |rows|
    ensures RowsSpec(rows, ti, n, RowLines(rows, ti, n))
  {
    if n > 0 {
      RowLinesSpec(rows, ti, n - 1);
      CellLinesSpec(rows[n - 1], ti, n - 1, |rows[n - 1]|);
      RowStep(rows, ti, n, RowLines(rows, ti, n - 1), CellLines(rows[n - 1], ti, n - 1, |rows[n - 1]|), RowLines(rows, ti, n));
    }
  }

  /** Appending row `m`'s lines to those of the rows before it. */
  lemma RowStep(rows: Table, ti: nat, n: nat, a: seq<Line>, b: seq<Line>, ls: seq<Line>)
    requires 0 < n <= |rows| && RowsSpec(rows, ti, n - 1, a) && CellsSpec(rows[n - 1], ti, n - 1, |rows[n - 1]|, b)
    requires ls == a + b
    ensures RowsSpec(rows, ti, n, ls)
  {
    var m := n - 1;
    forall j, k | 0 <= j < |a| && 0 <= k < |b| ensures Before(a[j].loc, b[k].loc) {
      assert RowLineOk(rows, ti, m, a[j]) && CellLineOk(rows[m], ti, m, |rows[m]|, b[k]);
    }
    OrderAppend(a, b);
    forall k | 0 <= k < |a + b| ensures RowLineOk(rows, ti, n, (a + b)[k]) {
      if k < |a| {
        assert RowLineOk(rows, ti, m, a[k]);
      } else {
        assert CellLineOk(rows[m], ti, m, |rows[m]|, b[k - |a|]);
      }
    }
    forall r, c | 0 <= r < n && 0 <= c < |rows[r]| && Collapse(rows[r][c]) != ""
      ensures Mentions(a + b, Cell(ti, r, c))
    {
      MentionsAppend(a, b, Cell(ti, r, c));
    }
  }

  /** What the lines of the first `n` tables satisfy; `TableLinesSpec` proves it. */
  predicate TablesSpec(ts: seq<Table>, n: nat, ls: seq<Line>)
    requires n <= |ts|
  {
    && InDocumentOrder(ls)
    && (forall k :: 0 <= k < |ls| ==> TableLineOk(ts, n, ls[k]))
    && (forall t, r, c :: 0 <= t < n && 0 <= r < |ts[t]| && 0 <= c < |ts[t][r]| && Collapse(ts[t][r][c]) != "" ==>
          Mentions(ls, Cell(t, r, c)))
  }

  /** What the lines of the first `n` rows of table `ti` satisfy; `RowLinesSpec` proves it. */
  predicate RowsSpec(rows: Table, ti: nat, n: nat, ls: seq<Line>)
    requires n <= |rows|
  {
    && InDocumentOrder(ls)
    && (forall k :: 0 <= k < |ls| ==> RowLineOk(rows, ti, n, ls[k]))
    && (forall r, c :: 0 <= r < n && 0 <= c < |rows[r]| && Collapse(rows[r][c]) != "" ==>
          Mentions(ls, Cell(ti, r, c)))
  }

  lemma {:induction false} TableLinesSpec(ts: seq<Table>, n: nat)
    requires n <= |ts|
    ensures TablesSpec(ts, n, TableLines(ts, n))
  {
    if n > 0 {
      TableLinesSpec(ts, n - 1);
      RowLinesSpec(ts[n - 1], n - 1, |ts[n - 1]|);
      TableStep(ts, n, TableLines(ts, n - 1), RowLines(ts[n - 1], n - 1, |ts[n - 1]|), TableLines(ts, n));
    }
  }

  /** Appending table `m`'s lines to those of the tables before it. */
  lemma TableStep(ts: seq<Table>, n: nat, a: seq<Line>, b: seq<Line>, ls: seq<Line>)
    requires 0 < n <= |ts| && TablesSpec(ts, n - 1, a) && RowsSpec(ts[n - 1], n - 1, |ts[n - 1]|, b)
    requires ls == a + b
    ensures TablesSpec(ts, n, ls)
  {
    var m := n - 1;
    forall j, k | 0 <= j < |a| && 0 <= k < |b| ensures Before(a[j].loc, b[k].loc) {
      assert TableLineOk(ts, m, a[j]) && RowLineOk(ts[m], m, |ts[m]|, b[k]);
    }
    OrderAppend(a, b);
    forall k | 0 <= k < |a + b| ensures TableLineOk(ts, n, (a + b)[k]) {
      if k < |a| {
        assert TableLineOk(ts, m, a[k]);
      } else {
        assert RowLineOk(ts[m], m, |ts[m]|, b[k - |a|]);
      }
    }
    forall t, r, c | 0 <= t < n && 0 <= r < |ts[t]| && 0 <= c < |ts[t][r]| && Collapse(ts[t][r][c]) != ""
      ensures Mentions(a + b, Cell(t, r, c))
    {
      MentionsAppend(a, b, Cell(t, r, c));
    }
  }

  /**
   * The flattened list holds exactly one line per paragraph that is not
   * blank after stripping and one per cell that is not blank after
   * collapsing, each carrying that text and its own location, in document
   * order: all paragraphs first, then the cells table by table, row by row.
   */
  lemma FlattenedSpec(ps: seq<string>, ts: seq<Table>)
    ensures var ls := Flattened(ps, ts);
      && InDocumentOrder(ls)
      && (forall k :: 0 <= k < |ls| ==>
            Valid(ps, ts, ls[k].loc) && ls[k].text == TextAt(ps, ts, ls[k].loc) && ls[k].text != "")
      && (forall loc: Location :: Valid(ps, ts, loc) && TextAt(ps, ts, loc) != "" ==> Mentions(ls, loc))
  {
    ParagraphLinesSpec(ps, |ps|);
    TableLinesSpec(ts, |ts|);
    var a, b := ParagraphLines(ps, |ps|), TableLines(ts, |ts|);
    OrderAppend(a, b);
    forall k | 0 <= k < |a + b|
      ensures Valid(ps, ts, (a + b)[k].loc) && (a + b)[k].text == TextAt(ps, ts, (a + b)[k].loc)
    {
      if k >= |a| {
        assert TableLineOk(ts, |ts|, b[k - |a|]);
      }
    }
    forall loc: Location | Valid(ps, ts, loc) && TextAt(ps, ts, loc) != "" ensures Mentions(a + b, loc) {
      MentionsAppend(a, b, loc);
    }
  }

  /** Paragraph lines are stripped; cell lines are single-spaced. */
  lemma FlattenedText(ps: seq<string>, ts: seq<Table>)
    ensures var ls := Flattened(ps, ts);
      forall k :: 0 <= k < |ls| ==>
        Trimmed(ls[k].text, Whitespace) && (ls[k].loc.Cell? ==> SingleSpaced(ls[k].text))
  {
    FlattenedSpec(ps, ts);
    var ls := Flattened(ps, ts);
    forall k | 0 <= k < |ls|
      ensures Trimmed(ls[k].text, Whitespace) && (ls[k].loc.Cell? ==> SingleSpaced(ls[k].text))
    {
      var q := ls[k].loc;
      if q.Cell? {
        CollapseSpec(ts[q.table][q.row][q.col]);
      } else {
        StripSpec(ps[q.index], Whitespace);
      }
    }
  }

  // ---- location hints ----

  lemma DropPrefix(p: string, x: string)
    ensures (p + x)[|p|..] == x
  {
  }

  predicate AllDigits(x: string)
  {
    forall k :: 0 <= k < |x| ==> IsDigit(x[k])
  }

  /** The length of the leading run of digits. */
  function DigitRun(s: string): (n: nat)
    ensures n <= |s|
  {
    if |s| == 0 || !IsDigit(s[0]) then 0 else 1 + DigitRun(s[1..])
  }

  lemma {:induction false} DigitRunOf(x: string, y: string)
    requires AllDigits(x) && y != [] && !IsDigit(y[0])
    ensures DigitRun(x + y) == |x|
  {
    if |x| > 0 {
      assert (x + y)[1..] == x[1..] + y;
      DigitRunOf(x[1..], y);
    } else {
      assert x + y == y;
    }
  }

  /** A digit string followed by a non-digit splits in only one way. */
  lemma DigitsPrefix(x: string, y: string, x2: string, y2: string)
    requires AllDigits(x) && AllDigits(x2)
    requires y != [] && !IsDigit(y[0]) && y2 != [] && !IsDigit(y2[0])
    requires x + y == x2 + y2
    ensures x == x2 && y == y2
  {
    DigitRunOf(x, y);
    DigitRunOf(x2, y2);
    assert x == (x + y)[..|x|];
    assert x2 == (x2 + y2)[..|x2|];
    DropPrefix(x, y);
    DropPrefix(x2, y2);
  }

  lemma CellHintInjective(t: nat, r: nat, c: nat, t2: nat, r2: nat, c2: nat)
    requires Render(Cell(t, r, c)) == Render(Cell(t2, r2, c2))
    ensures t == t2 && r == r2 && c == c2
  {
    var w, w2 := " col:" + Decimal(c), " col:" + Decimal(c2);
    var z, z2 := Decimal(r) + w, Decimal(r2) + w2;
    var y, y2 := " row:" + z, " row:" + z2;
    var x, x2 := Decimal(t) + y, Decimal(t2) + y2;
    DropPrefix("table:", x);
    DropPrefix("table:", x2);
    DigitsPrefix(Decimal(t), y, Decimal(t2), y2);
    DropPrefix(" row:", z);
    DropPrefix(" row:", z2);
    DigitsPrefix(Decimal(r), w, Decimal(r2), w2);
    DropPrefix(" col:", Decimal(c));
    DropPrefix(" col:", Decimal(c2));
    DecimalRoundTrip(t);
    DecimalRoundTrip(t2);
    DecimalRoundTrip(r);
    DecimalRoundTrip(r2);
    DecimalRoundTrip(c);
    DecimalRoundTrip(c2);
  }

  /** A location hint names exactly one location. */
  lemma RenderInjective(a: Location, b: Location)
    ensures Render(a) == Render(b) <==> a == b
  {
    if Render(a) == Render(b) {
      assert Render(a)[0] == Render(b)[0];
      if a.Paragraph? && b.Paragraph? {
        DropPrefix("paragraph:", Decimal(a.index));
        DropPrefix("paragraph:", Decimal(b.index));
        DecimalRoundTrip(a.index);
        DecimalRoundTrip(b.index);
      } else if a.Cell? && b.Cell? {
        CellHintInjective(a.table, a.row, a.col, b.table, b.row, b.col);
      }
    }
  }
}
