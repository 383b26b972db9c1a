/**
 * The whole of `detect_fields_from_docx` once the document is loaded:
 * flatten it, render each line's location hint, scan every line, then
 * de-duplicate. The theorems at the end state what the returned list
 * promises about the flattened lines.
 */
module Fields {
  import opened Wrappers
  import Patterns
  import opened Flatten
  import opened Detect
  import opened Dedup

  /** The `(text, location_hint)` pairs the scan reads, hints rendered from locations. */
  function Hinted(ls: seq<Line>): seq<FlatLine>
  {
    if |ls| == 0 then [] else Hinted(ls[..|ls| - 1]) + [FlatLine(ls[|ls| - 1].text, Render(ls[|ls| - 1].loc))]
  }

  lemma {:induction false} HintedAt(ls: seq<Line>)
    ensures |Hinted(ls)| == |ls|
    ensures forall i :: 0 <= i < |ls| ==> Hinted(ls)[i] == FlatLine(ls[i].text, Render(ls[i].loc))
  {
    if |ls| > 0 {
      HintedAt(ls[..|ls| - 1]);
    }
  }

  /** The scan, then `list(uniq.values())`; the scan's `IndexError` propagates. */
  function DetectFieldsSpec(lines: seq<FlatLine>, window: int): Result<seq<DetectedField>, DetectError>
  {
    match DetectUpTo(lines, window, |lines|)
    case Err(e) => Err(e)
    case Ok(ds) => Ok(Deduped(ds))
  }

  method DetectFields(lines: seq<FlatLine>, window: int) returns (r: Result<seq<DetectedField>, DetectError>)
    ensures r == DetectFieldsSpec(lines, window)
  {
    var scanned := DetectAll(lines, window);
    if scanned.Err? {
      return Err(scanned.error);
    }
    var uniq := DedupFields(scanned.value);
    return Ok(uniq);
  }

  /** `detect_fields_from_docx` on a document given as its paragraphs' and tables' texts. */
  method DetectFieldsFromDocx(paragraphs: seq<string>, tables: seq<Table>, window: int)
    returns (r: Result<seq<DetectedField>, DetectError>)
    ensures r == DetectFieldsSpec(Hinted(Flattened(paragraphs, tables)), window)
  {
    var lines := IterDocxLines(paragraphs, tables);
    r := DetectFields(Hinted(lines), window);
  }

  // ---- theorems ----

  /**
   * The function raises `IndexError` exactly when the window is negative
   * and there is at least one line.
   */
  lemma DetectFieldsError(lines: seq<FlatLine>, window: int)
    ensures DetectFieldsSpec(lines, window).Err? <==> window < 0 && |lines| > 0
  {
    ScanErrorIff(lines, window);
  }

  /** Every returned field is one its own line yields. */
  lemma ResultFromLines(lines: seq<FlatLine>, window: int)
    requires DetectFieldsSpec(lines, window).Ok?
    ensures forall d :: d in DetectFieldsSpec(lines, window).value ==> FieldOfLine(lines, window, d.lineIndex, d)
  {
    var ds := DetectUpTo(lines, window, |lines|).value;
    ScanSound(lines, window, |lines|);
    DedupLastWins(ds);
    forall d | d in Deduped(ds) ensures FieldOfLine(lines, window, d.lineIndex, d) {
      var j :| 0 <= j < |Deduped(ds)| && Deduped(ds)[j] == d;
      var i :| LastWith(ds, |ds|, i, KeyOf(d)) && ds[i] == d;
      assert ds[i] in ds;
    }
  }

  /**
   * Every returned field carries its line's context: the line, its hint,
   * the line `window` places before (or "" when there is none) and the
   * line `window` places after (or "").
   */
  lemma ResultContext(lines: seq<FlatLine>, window: int)
    requires DetectFieldsSpec(lines, window).Ok?
    ensures forall d :: d in DetectFieldsSpec(lines, window).value ==>
      window >= 0 && d.lineIndex < |lines| &&
      d.contextLine == lines[d.lineIndex].text && d.locationHint == lines[d.lineIndex].hint &&
      d.contextBefore == (if d.lineIndex >= window then lines[d.lineIndex - window].text else "") &&
      d.contextAfter == (if d.lineIndex + window < |lines| then lines[d.lineIndex + window].text else "")
  {
    ResultFromLines(lines, window);
    DetectFieldsError(lines, window);
    forall d | d in DetectFieldsSpec(lines, window).value
      ensures window >= 0 && d.lineIndex < |lines| &&
        d.contextLine == lines[d.lineIndex].text && d.locationHint == lines[d.lineIndex].hint &&
        d.contextBefore == (if d.lineIndex >= window then lines[d.lineIndex - window].text else "") &&
        d.contextAfter == (if d.lineIndex + window < |lines| then lines[d.lineIndex + window].text else "")
    {
      var c := LineContext(lines, d.lineIndex, window).value;
      LineFieldsContext(c);
      ContextSpec(lines, d.lineIndex, window);
    }
  }

  /** Every returned field has its kind's shape (see `Detect.Shape`). */
  lemma ResultShape(lines: seq<FlatLine>, window: int)
    requires DetectFieldsSpec(lines, window).Ok?
    ensures forall d :: d in DetectFieldsSpec(lines, window).value ==> Shape(d)
  {
    ResultFromLines(lines, window);
    forall d | d in DetectFieldsSpec(lines, window).value ensures Shape(d) {
      LineFieldsShape(LineContext(lines, d.lineIndex, window).value);
    }
  }

  /** The scan's records agree whenever their keys do, since all context follows from the line index. */
  lemma ScanKeyCoherent(lines: seq<FlatLine>, window: int)
    requires DetectUpTo(lines, window, |lines|).Ok?
    ensures KeyCoherent(DetectUpTo(lines, window, |lines|).value)
  {
    var ds := DetectUpTo(lines, window, |lines|).value;
    ScanSound(lines, window, |lines|);
    forall i, j | 0 <= i < |ds| && 0 <= j < |ds| && KeyOf(ds[i]) == KeyOf(ds[j]) ensures ds[i] == ds[j] {
      assert ds[i] in ds && ds[j] in ds;
      LineFieldsContext(LineContext(lines, ds[i].lineIndex, window).value);
    }
  }

  /**
   * Every field of every line is returned, up to de-duplication: the
   * returned list holds each field the line's four scans yield.
   */
  lemma ResultComplete(lines: seq<FlatLine>, window: int)
    requires DetectFieldsSpec(lines, window).Ok?
    ensures forall i, d :: 0 <= i < |lines| && FieldOfLine(lines, window, i, d) ==> d in DetectFieldsSpec(lines, window).value
  {
    var ds := DetectUpTo(lines, window, |lines|).value;
    var out := Deduped(ds);
    ScanComplete(lines, window, |lines|);
    ScanKeyCoherent(lines, window);
    DedupKeepsKeys(ds);
    DedupLastWins(ds);
    forall i, d | 0 <= i < |lines| && FieldOfLine(lines, window, i, d) ensures d in out {
      var a :| 0 <= a < |ds| && ds[a] == d;
      assert HasKey(ds, KeyOf(d));
      var j :| 0 <= j < |out| && KeyOf(out[j]) == KeyOf(d);
      var b :| LastWith(ds, |ds|, b, KeyOf(out[j])) && ds[b] == out[j];
    }
  }

  /** No two returned fields share a key (placeholder text, line index, kind). */
  lemma ResultDistinct(lines: seq<FlatLine>, window: int)
    requires DetectFieldsSpec(lines, window).Ok?
    ensures DistinctKeys(DetectFieldsSpec(lines, window).value)
  {
    DedupDistinct(DetectUpTo(lines, window, |lines|).value);
  }

  /**
   * The returned fields are in scan order: by line, and within a line
   * tokens, then blanks, then the signature label, then the underline.
   */
  lemma ResultOrdered(lines: seq<FlatLine>, window: int)
    requires DetectFieldsSpec(lines, window).Ok?
    ensures ScanOrdered(DetectFieldsSpec(lines, window).value)
  {
    var ds := DetectUpTo(lines, window, |lines|).value;
    var out := Deduped(ds);
    ScanOrder(lines, window, |lines|);
    ScanKeyCoherent(lines, window);
    DedupFirstOrder(ds);
    DedupFirstOccurrence(ds);
    forall j, k | 0 <= j < k < |out| ensures Precedes(out[j], out[k]) {
      assert out[j] == ds[FirstAt(ds, KeyOf(out[j]))];
      assert out[k] == ds[FirstAt(ds, KeyOf(out[k]))];
    }
  }

  /** A line contributes at most one signature-label field and at most one underline field. */
  lemma ResultOneLabelPerLine(lines: seq<FlatLine>, window: int)
    requires DetectFieldsSpec(lines, window).Ok?
    ensures forall j, k ::
      (0 <= j < k < |DetectFieldsSpec(lines, window).value|
       && DetectFieldsSpec(lines, window).value[j].lineIndex == DetectFieldsSpec(lines, window).value[k].lineIndex
       && DetectFieldsSpec(lines, window).value[j].kind == DetectFieldsSpec(lines, window).value[k].kind)
      ==> DetectFieldsSpec(lines, window).value[k].kind !in {SignatureLabel, Underline}
  {
    var out := DetectFieldsSpec(lines, window).value;
    ResultDistinct(lines, window);
    ResultContext(lines, window);
    ResultShape(lines, window);
    forall j, k | 0 <= j < k < |out| && out[j].lineIndex == out[k].lineIndex && out[j].kind == out[k].kind
      ensures out[k].kind !in {SignatureLabel, Underline}
    {
      var a, b := out[j], out[k];
      assert a in out && b in out;
      assert b.kind in {SignatureLabel, Underline} ==> KeyOf(a) == KeyOf(b);
    }
  }

  /** On a document: the hint of line `i` is the rendering of the `i`-th flattened location. */
  lemma DocxLines(paragraphs: seq<string>, tables: seq<Table>)
    ensures |Hinted(Flattened(paragraphs, tables))| == |Flattened(paragraphs, tables)|
    ensures forall i :: 0 <= i < |Flattened(paragraphs, tables)| ==>
      Hinted(Flattened(paragraphs, tables))[i].text == Flattened(paragraphs, tables)[i].text &&
      Hinted(Flattened(paragraphs, tables))[i].text != "" &&
      Hinted(Flattened(paragraphs, tables))[i].hint == Render(Flattened(paragraphs, tables)[i].loc)
  {
    HintedAt(Flattened(paragraphs, tables));
    FlattenedSpec(paragraphs, tables);
  }
}
