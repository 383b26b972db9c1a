/**
 * `detect_fields_from_docx`: every flattened line is scanned, in order, for
 * bracket tokens, bracket blanks, a signature label and a bare underline;
 * each hit becomes a `DetectedField` carrying the line, its neighbours at
 * distance `window` and its location hint. The list is then de-duplicated
 * by `(raw_placeholder, line_index, kind)` (module `Dedup`).
 */
module Detect {
  import opened Wrappers
  import opened Text
  import Patterns

  /** The `kind` field; `KindName` gives the string the source stores. */
  datatype Kind = BracketToken | BracketBlank | SignatureLabel | Underline

  function KindName(k: Kind): string
  {
    match k
    case BracketToken => "bracket_token"
    case BracketBlank => "bracket_blank"
    case SignatureLabel => "signature_label"
    case Underline => "underline"
  }

  /** The position of a kind's scan among the four scans of a line. */
  function Rank(k: Kind): nat
  {
    match k
    case BracketToken => 0
    case BracketBlank => 1
    case SignatureLabel => 2
    case Underline => 3
  }

  /** One flattened line as the scan sees it: its text and its location hint. */
  datatype FlatLine = FlatLine(text: string, hint: string)

  /** A detection, with the fields of the source's `DetectedField` record. */
  datatype DetectedField = DetectedField(
    rawPlaceholder: string,
    kind: Kind,
    contextBefore: string,
    contextLine: string,
    contextAfter: string,
    locationHint: string,
    lineIndex: nat)

  /** The placeholder text recorded for every underline hit. */
  const UnderlinePlaceholder: string := "__________"

  /** Python's `IndexError` from `lines[j]` with `j` out of range. */
  datatype DetectError = IndexError

  /** Python's `lines[j][0]`, negative `j` counting from the end; `None` where it raises. */
  function PyText(lines: seq<FlatLine>, j: int): Option<string>
  {
    if 0 <= j < |lines| then Some(lines[j].text)
    else if -|lines| <= j < 0 then Some(lines[|lines| + j].text)
    else None
  }

  /** What every field found on one line shares. */
  datatype Ctx = Ctx(before: string, line: string, after: string, hint: string, index: nat)

  /** The context of line `idx`, or `None` where the source raises `IndexError`. */
  function LineContext(lines: seq<FlatLine>, idx: nat, window: int): Option<Ctx>
    requires idx < |lines|
  {
    var before := if idx - window >= 0 then PyText(lines, idx - window) else Some("");
    var after := if idx + window < |lines| then PyText(lines, idx + window) else Some("");
    if before.None? || after.None? then None
    else Some(Ctx(before.value, lines[idx].text, after.value, lines[idx].hint, idx))
  }

  function MakeField(raw: string, kind: Kind, c: Ctx): DetectedField
  {
    DetectedField(raw, kind, c.before, c.line, c.after, c.hint, c.index)
  }

  predicate Within(s: string, ms: seq<Patterns.Span>)
  {
    forall k :: 0 <= k < |ms| ==> ms[k].start <= ms[k].end <= |s|
  }

  lemma FindAllWithin(s: string, p: Patterns.Pattern)
    ensures Within(s, Patterns.FindAll(s, 0, p))
  {
    Patterns.FindAllMatches(s, 0, p);
    var ms := Patterns.FindAll(s, 0, p);
    assert forall k :: 0 <= k < |ms| ==> ms[k] in ms;
  }

  /** One field per match among the first `n` of `ms`, in order. */
  function SpanFields(ms: seq<Patterns.Span>, n: nat, kind: Kind, c: Ctx): seq<DetectedField>
    requires n <= |ms| && Within(c.line, ms)
  {
    if n == 0 then []
    else SpanFields(ms, n - 1, kind, c) + [MakeField(c.line[ms[n - 1].start..ms[n - 1].end], kind, c)]
  }

  function TokenSpans(line: string): seq<Patterns.Span>
  {
    Patterns.FindAll(line, 0, Patterns.TokenPattern)
  }

  function BlankSpans(line: string): seq<Patterns.Span>
  {
    Patterns.FindAll(line, 0, Patterns.BlankPattern)
  }

  function SignatureFields(c: Ctx): seq<DetectedField>
  {
    match Patterns.SignatureLabel(c.line)
    case Some(lab) => [MakeField(lab, SignatureLabel, c)]
    case None => []
  }

  /** The underline scan fires when `___` occurs and no bracket blank does. */
  predicate UnderlineFires(line: string)
  {
    Patterns.HasUnderline(line) && Patterns.Search(line, Patterns.BlankPattern).None?
  }

  function UnderlineFields(c: Ctx): seq<DetectedField>
  {
    if UnderlineFires(c.line) then [MakeField(UnderlinePlaceholder, Underline, c)] else []
  }

  /** The fields one line yields: its four scans, in the source's order. */
  function LineFields(c: Ctx): seq<DetectedField>
  {
    ScansUpTo(c, 4)
  }

  /** Scan `k` of a line: 0 bracket tokens, 1 bracket blanks, 2 the signature label, 3 the underline. */
  function ScanFields(c: Ctx, k: nat): seq<DetectedField>
    requires k < 4
  {
    if k == 0 then TokenFields(c)
    else if k == 1 then BlankFields(c)
    else if k == 2 then SignatureFields(c)
    else UnderlineFields(c)
  }

  /** What the first `k` scans of a line yield, one after the other. */
  function ScansUpTo(c: Ctx, k: nat): seq<DetectedField>
    requires k <= 4
  {
    if k == 0 then [] else ScansUpTo(c, k - 1) + ScanFields(c, k - 1)
  }

  /** The four scans spelled out. */
  lemma LineFieldsUnfold(c: Ctx)
    ensures LineFields(c) == TokenFields(c) + BlankFields(c) + SignatureFields(c) + UnderlineFields(c)
  {
    assert ScansUpTo(c, 1) == TokenFields(c);
    assert ScansUpTo(c, 2) == TokenFields(c) + BlankFields(c);
    assert ScansUpTo(c, 3) == TokenFields(c) + BlankFields(c) + SignatureFields(c);
  }

  /** One bracket-token field per `finditer` match, in order. */
  function TokenFields(c: Ctx): seq<DetectedField>
  {
    var ts := TokenSpans(c.line);
    FindAllWithin(c.line, Patterns.TokenPattern);
    SpanFields(ts, |ts|, BracketToken, c)
  }

  /** One bracket-blank field per `finditer` match, in order. */
  function BlankFields(c: Ctx): seq<DetectedField>
  {
    var bs := BlankSpans(c.line);
    FindAllWithin(c.line, Patterns.BlankPattern);
    SpanFields(bs, |bs|, BracketBlank, c)
  }

  /** The detections of the first `n` lines, before de-duplication. */
  function DetectUpTo(lines: seq<FlatLine>, window: int, n: nat): Result<seq<DetectedField>, DetectError>
    requires n <= |lines|
  {
    if n == 0 then Ok([])
    else
      match DetectUpTo(lines, window, n - 1)
      case Err(e) => Err(e)
      case Ok(ds) =>
        match LineContext(lines, n - 1, window)
        case None => Err(IndexError)
        case Some(c) => Ok(ds + LineFields(c))
  }

  /** The scan of one line: appends its fields to `detected`. */
  method ScanLine(detected: seq<DetectedField>, c: Ctx) returns (out: seq<DetectedField>)
    ensures out == detected + LineFields(c)
  {
    var tokens := TokenSpans(c.line);
    FindAllWithin(c.line, Patterns.TokenPattern);
    out := AppendMatches(detected, tokens, BracketToken, c);
    ScanStep(detected, c, 0, detected, out);
    var blanks := BlankSpans(c.line);
    FindAllWithin(c.line, Patterns.BlankPattern);
    ghost var done := out;
    out := AppendMatches(out, blanks, BracketBlank, c);
    ScanStep(detected, c, 1, done, out);
    done := out;
    var sig := Patterns.SignatureLabel(c.line);
    if sig.Some? {
      var lab := sig.value;
      out := out + [MakeField(lab, SignatureLabel, c)];
    }
    ScanStep(detected, c, 2, done, out);
    done := out;
    if Patterns.HasUnderline(c.line) && Patterns.Search(c.line, Patterns.BlankPattern).None? {
      out := out + [MakeField(UnderlinePlaceholder, Underline, c)];
    }
    ScanStep(detected, c, 3, done, out);
  }

  /** After scan `k`, the detections so far are those of the first `k + 1` scans. */
  lemma ScanStep(detected: seq<DetectedField>, c: Ctx, k: nat, before: seq<DetectedField>, after: seq<DetectedField>)
    requires k < 4 && before == detected + ScansUpTo(c, k) && after == before + ScanFields(c, k)
    ensures after == detected + ScansUpTo(c, k + 1)
  {
  }

  /** A `for m in PATTERN.finditer(line)` loop: one field per match. */
  method AppendMatches(detected: seq<DetectedField>, ms: seq<Patterns.Span>, kind: Kind, c: Ctx)
    returns (out: seq<DetectedField>)
    requires Within(c.line, ms)
    ensures out == detected + SpanFields(ms, |ms|, kind, c)
  {
    out := detected;
    for k := 0 to |ms|
      invariant out == detected + SpanFields(ms, k, kind, c)
    {
      out := out + [MakeField(c.line[ms[k].start..ms[k].end], kind, c)];
    }
  }

  /** A scan that has raised stays raised for one more line. */
  lemma ErrorStep(lines: seq<FlatLine>, window: int, n: nat)
    requires 0 < n <= |lines| && DetectUpTo(lines, window, n - 1) == Err(IndexError)
    ensures DetectUpTo(lines, window, n) == Err(IndexError)
  {
  }

  /** Once a line raises, so does the whole scan. */
  lemma {:induction false} ErrorPersists(lines: seq<FlatLine>, window: int, n: nat, m: nat)
    requires n <= m <= |lines|
    requires DetectUpTo(lines, window, n) == Err(IndexError)
    ensures DetectUpTo(lines, window, m) == Err(IndexError)
  {
    if n < m {
      ErrorPersists(lines, window, n, m - 1);
      ErrorStep(lines, window, m);
    }
  }

  /**
   * The scanning loop of `detect_fields_from_docx` over the flattened
   * lines, before de-duplication.
   */
  method DetectAll(lines: seq<FlatLine>, window: int) returns (r: Result<seq<DetectedField>, DetectError>)
    ensures r == DetectUpTo(lines, window, |lines|)
  {
    var detected: seq<DetectedField> := [];
    for idx := 0 to |lines|
      invariant DetectUpTo(lines, window, idx) == Ok(detected)
    {
      var c := ContextOf(lines, idx, window);
      if c.None? {
        ErrorPersists(lines, window, idx + 1, |lines|);
        return Err(IndexError);
      }
      detected := ScanLine(detected, c.value);
    }
    return Ok(detected);
  }

  /** `before` and `after` for line `idx`; `None` where indexing raises. */
  method ContextOf(lines: seq<FlatLine>, idx: nat, window: int) returns (c: Option<Ctx>)
    requires idx < |lines|
    ensures c == LineContext(lines, idx, window)
  {
    var before := "";
    if idx - window >= 0 {
      var j := idx - window;
      if j >= |lines| {
        return None;
      }
      before := lines[j].text;
    }
    var after := "";
    if idx + window < |lines| {
      var j := idx + window;
      if j < -|lines| {
        return None;
      }
      after := if j >= 0 then lines[j].text else lines[|lines| + j].text;
    }
    return Some(Ctx(before, lines[idx].text, after, lines[idx].hint, idx));
  }

  // ---- what one line yields ----

  predicate IsInfix(t: string, s: string)
  {
    exists i :: 0 <= i <= |s| && t <= s[i..]
  }

  /** The shape a field's placeholder has, by kind, relative to its line. */
  predicate Shape(d: DetectedField)
  {
    match d.kind
    case BracketToken => Patterns.IsBracketToken(d.rawPlaceholder) && IsInfix(d.rawPlaceholder, d.contextLine)
    case BracketBlank => Patterns.IsBracketBlank(d.rawPlaceholder) && IsInfix(d.rawPlaceholder, d.contextLine)
    case SignatureLabel => Patterns.SignatureLabel(d.contextLine) == Some(d.rawPlaceholder)
    case Underline => d.rawPlaceholder == UnderlinePlaceholder && UnderlineFires(d.contextLine)
  }

  /** The field was found on the line `c` describes. */
  predicate FromContext(d: DetectedField, c: Ctx)
  {
    d == MakeField(d.rawPlaceholder, d.kind, c)
  }

  lemma {:induction false} SpanFieldsAt(ms: seq<Patterns.Span>, n: nat, kind: Kind, c: Ctx)
    requires n <= |ms| && Within(c.line, ms)
    ensures |SpanFields(ms, n, kind, c)| == n
    ensures forall k :: 0 <= k < n ==>
      SpanFields(ms, n, kind, c)[k] == MakeField(c.line[ms[k].start..ms[k].end], kind, c)
  {
    if n > 0 {
      SpanFieldsAt(ms, n - 1, kind, c);
    }
  }

  /** A match reported by `finditer` is a word of the pattern's language, found in the line. */
  lemma MatchShape(s: string, p: Patterns.Pattern, k: nat)
    requires k < |Patterns.FindAll(s, 0, p)|
    ensures var sp := Patterns.FindAll(s, 0, p)[k];
      sp.start < sp.end <= |s| && Patterns.Matches(s[sp.start..sp.end], p) && IsInfix(s[sp.start..sp.end], s)
  {
    var sp := Patterns.FindAll(s, 0, p)[k];
    Patterns.FindAllMatches(s, 0, p);
    assert sp in Patterns.FindAll(s, 0, p);
    Patterns.MatchAtExact(s, sp.start, sp.end, p);
    assert s[sp.start..sp.end] <= s[sp.start..];
  }

  lemma TokenFieldsAt(c: Ctx)
    ensures Within(c.line, TokenSpans(c.line)) && |TokenFields(c)| == |TokenSpans(c.line)|
    ensures forall k :: 0 <= k < |TokenSpans(c.line)| ==>
      TokenFields(c)[k] == MakeField(c.line[TokenSpans(c.line)[k].start..TokenSpans(c.line)[k].end], BracketToken, c)
  {
    FindAllWithin(c.line, Patterns.TokenPattern);
    SpanFieldsAt(TokenSpans(c.line), |TokenSpans(c.line)|, BracketToken, c);
  }

  lemma BlankFieldsAt(c: Ctx)
    ensures Within(c.line, BlankSpans(c.line)) && |BlankFields(c)| == |BlankSpans(c.line)|
    ensures forall k :: 0 <= k < |BlankSpans(c.line)| ==>
      BlankFields(c)[k] == MakeField(c.line[BlankSpans(c.line)[k].start..BlankSpans(c.line)[k].end], BracketBlank, c)
  {
    FindAllWithin(c.line, Patterns.BlankPattern);
    SpanFieldsAt(BlankSpans(c.line), |BlankSpans(c.line)|, BracketBlank, c);
  }

  /** Every field a line yields carries that line's context. */
  lemma LineFieldsContext(c: Ctx)
    ensures forall d :: d in LineFields(c) ==> FromContext(d, c)
  {
    LineFieldsUnfold(c);
    TokenFieldsAt(c);
    BlankFieldsAt(c);
  }

  /**
   * Every field a line yields has its kind's shape: bracket tokens and
   * blanks are words of their patterns found in the line, a signature
   * label is the label the line starts with, an underline is recorded
   * only when the line has `___` and no bracket blank.
   */
  lemma LineFieldsShape(c: Ctx)
    ensures forall d :: d in LineFields(c) ==> Shape(d)
  {
    LineFieldsUnfold(c);
    TokenFieldsAt(c);
    BlankFieldsAt(c);
    forall d | d in TokenFields(c) ensures Shape(d) {
      var k :| 0 <= k < |TokenFields(c)| && TokenFields(c)[k] == d;
      MatchShape(c.line, Patterns.TokenPattern, k);
    }
    forall d | d in BlankFields(c) ensures Shape(d) {
      var k :| 0 <= k < |BlankFields(c)| && BlankFields(c)[k] == d;
      MatchShape(c.line, Patterns.BlankPattern, k);
    }
  }

  /**
   * A line yields a field for every `finditer` match of either bracket
   * pattern, its signature label if it has one, and an underline field
   * when the underline scan fires.
   */
  lemma LineFieldsComplete(c: Ctx)
    ensures Within(c.line, TokenSpans(c.line)) && Within(c.line, BlankSpans(c.line))
    ensures forall k :: 0 <= k < |TokenSpans(c.line)| ==>
      MakeField(c.line[TokenSpans(c.line)[k].start..TokenSpans(c.line)[k].end], BracketToken, c) in LineFields(c)
    ensures forall k :: 0 <= k < |BlankSpans(c.line)| ==>
      MakeField(c.line[BlankSpans(c.line)[k].start..BlankSpans(c.line)[k].end], BracketBlank, c) in LineFields(c)
    ensures Patterns.SignatureLabel(c.line).Some? ==>
      MakeField(Patterns.SignatureLabel(c.line).value, SignatureLabel, c) in LineFields(c)
    ensures UnderlineFires(c.line) ==> MakeField(UnderlinePlaceholder, Underline, c) in LineFields(c)
  {
    LineFieldsUnfold(c);
    TokenFieldsAt(c);
    BlankFieldsAt(c);
    forall k | 0 <= k < |TokenSpans(c.line)| ensures TokenFields(c)[k] in LineFields(c) {
      assert TokenFields(c)[k] in TokenFields(c);
    }
    forall k | 0 <= k < |BlankSpans(c.line)| ensures BlankFields(c)[k] in LineFields(c) {
      assert BlankFields(c)[k] in BlankFields(c);
    }
  }

  /** Within a line: tokens, then blanks, then the signature label, then the underline. */
  lemma LineFieldsOrder(c: Ctx)
    ensures forall j, k :: 0 <= j < k < |LineFields(c)| ==> Rank(LineFields(c)[j].kind) <= Rank(LineFields(c)[k].kind)
  {
    LineFieldsUnfold(c);
    TokenFieldsAt(c);
    BlankFieldsAt(c);
    var a, b, sg, un := TokenFields(c), BlankFields(c), SignatureFields(c), UnderlineFields(c);
    var fs := LineFields(c);
    assert forall k :: 0 <= k < |fs| ==> Rank(fs[k].kind) == (if k < |a| then 0 else if k < |a| + |b| then 1 else if k < |a| + |b| + |sg| then 2 else 3);
  }

  // ---- what the whole scan yields ----

  /**
   * With a window of zero or more, no indexing raises: `before` is the
   * line `window` places earlier, or empty when there is none, and
   * `after` the line `window` places later, or empty.
   */
  lemma ContextSpec(lines: seq<FlatLine>, idx: nat, window: int)
    requires idx < |lines| && window >= 0
    ensures LineContext(lines, idx, window) == Some(Ctx(
      if idx >= window then lines[idx - window].text else "",
      lines[idx].text,
      if idx + window < |lines| then lines[idx + window].text else "",
      lines[idx].hint,
      idx))
  {
  }

  lemma ContextExists(lines: seq<FlatLine>, idx: nat, window: int)
    requires idx < |lines| && window >= 0
    ensures LineContext(lines, idx, window).Some?
  {
  }

  lemma OkStep(lines: seq<FlatLine>, window: int, n: nat)
    requires 0 < n <= |lines| && window >= 0 && DetectUpTo(lines, window, n - 1).Ok?
    ensures DetectUpTo(lines, window, n).Ok?
  {
    ContextExists(lines, n - 1, window);
  }

  lemma {:induction false} ScanOkWhenWindowNonNegative(lines: seq<FlatLine>, window: int, n: nat)
    requires n <= |lines| && window >= 0
    ensures DetectUpTo(lines, window, n).Ok?
  {
    if n > 0 {
      ScanOkWhenWindowNonNegative(lines, window, n - 1);
      OkStep(lines, window, n);
    }
  }

  /**
   * The scan raises `IndexError` exactly when the window is negative and
   * there is at least one line: the last line's `before` index then
   * lies past the end.
   */
  lemma ScanErrorIff(lines: seq<FlatLine>, window: int)
    ensures DetectUpTo(lines, window, |lines|).Err? <==> window < 0 && |lines| > 0
  {
    if window >= 0 {
      ScanOkWhenWindowNonNegative(lines, window, |lines|);
    }
  }

  /** One step of the scan, when it has not raised. */
  lemma DetectStep(lines: seq<FlatLine>, window: int, n: nat)
    requires 0 < n <= |lines| && DetectUpTo(lines, window, n).Ok?
    ensures DetectUpTo(lines, window, n - 1).Ok? && LineContext(lines, n - 1, window).Some?
    ensures DetectUpTo(lines, window, n).value
      == DetectUpTo(lines, window, n - 1).value + LineFields(LineContext(lines, n - 1, window).value)
  {
  }

  /** `d` is one of the fields line `i` yields. */
  predicate FieldOfLine(lines: seq<FlatLine>, window: int, i: nat, d: DetectedField)
  {
    i < |lines| && LineContext(lines, i, window).Some? && d in LineFields(LineContext(lines, i, window).value)
  }

  /** Every detection in `ds` comes from the line it names, among the first `n`. */
  ghost predicate SoundUpTo(lines: seq<FlatLine>, window: int, n: nat, ds: seq<DetectedField>)
  {
    forall d :: d in ds ==> d.lineIndex < n && FieldOfLine(lines, window, d.lineIndex, d)
  }

  /** `ds` holds every field of every one of the first `n` lines. */
  ghost predicate CompleteUpTo(lines: seq<FlatLine>, window: int, n: nat, ds: seq<DetectedField>)
  {
    forall i, d :: 0 <= i < n && FieldOfLine(lines, window, i, d) ==> d in ds
  }

  /** Every detection comes from the line it names, among the first `n`. */
  lemma {:induction false} ScanSound(lines: seq<FlatLine>, window: int, n: nat)
    requires n <= |lines| && DetectUpTo(lines, window, n).Ok?
    ensures SoundUpTo(lines, window, n, DetectUpTo(lines, window, n).value)
  {
    if n > 0 {
      DetectStep(lines, window, n);
      ScanSound(lines, window, n - 1);
      SoundStep(lines, window, n, DetectUpTo(lines, window, n - 1).value, DetectUpTo(lines, window, n).value);
    }
  }

  lemma SoundStep(lines: seq<FlatLine>, window: int, n: nat, prev: seq<DetectedField>, ds: seq<DetectedField>)
    requires 0 < n <= |lines| && LineContext(lines, n - 1, window).Some?
    requires SoundUpTo(lines, window, n - 1, prev)
    requires ds == prev + LineFields(LineContext(lines, n - 1, window).value)
    ensures SoundUpTo(lines, window, n, ds)
  {
    var c := LineContext(lines, n - 1, window).value;
    LineFieldsContext(c);
    forall d | d in prev + LineFields(c) ensures d.lineIndex < n && FieldOfLine(lines, window, d.lineIndex, d) {
      if d !in prev {
        assert FromContext(d, c);
      }
    }
  }

  /** Every field of every one of the first `n` lines is detected. */
  lemma {:induction false} ScanComplete(lines: seq<FlatLine>, window: int, n: nat)
    requires n <= |lines| && DetectUpTo(lines, window, n).Ok?
    ensures CompleteUpTo(lines, window, n, DetectUpTo(lines, window, n).value)
  {
    if n > 0 {
      DetectStep(lines, window, n);
      ScanComplete(lines, window, n - 1);
      CompleteStep(lines, window, n, DetectUpTo(lines, window, n - 1).value, DetectUpTo(lines, window, n).value);
    }
  }

  lemma CompleteStep(lines: seq<FlatLine>, window: int, n: nat, prev: seq<DetectedField>, ds: seq<DetectedField>)
    requires 0 < n <= |lines| && LineContext(lines, n - 1, window).Some?
    requires CompleteUpTo(lines, window, n - 1, prev)
    requires ds == prev + LineFields(LineContext(lines, n - 1, window).value)
    ensures CompleteUpTo(lines, window, n, ds)
  {
    var fs := LineFields(LineContext(lines, n - 1, window).value);
    forall i, d | 0 <= i < n && FieldOfLine(lines, window, i, d) ensures d in prev + fs {
      if i == n - 1 {
        assert d in fs;
      } else {
        assert d in prev;
      }
    }
  }

  /** `a` comes no later than `b` in scan order: by line, then by the order of the four scans. */
  predicate Precedes(a: DetectedField, b: DetectedField)
  {
    a.lineIndex < b.lineIndex || (a.lineIndex == b.lineIndex && Rank(a.kind) <= Rank(b.kind))
  }

  predicate ScanOrdered(ds: seq<DetectedField>)
  {
    forall j, k :: 0 <= j < k < |ds| ==> Precedes(ds[j], ds[k])
  }

  /** Scan order, with every field from one of the first `n` lines. */
  predicate OrderedBelow(ds: seq<DetectedField>, n: nat)
  {
    ScanOrdered(ds) && forall d :: d in ds ==> d.lineIndex < n
  }

  /** The scan lists fields line by line, and within a line in the order of the four scans. */
  lemma {:induction false} ScanOrder(lines: seq<FlatLine>, window: int, n: nat)
    requires n <= |lines| && DetectUpTo(lines, window, n).Ok?
    ensures OrderedBelow(DetectUpTo(lines, window, n).value, n)
  {
    if n > 0 {
      DetectStep(lines, window, n);
      ScanOrder(lines, window, n - 1);
      var c := LineContext(lines, n - 1, window).value;
      assert c.index == n - 1;
      OrderStep(DetectUpTo(lines, window, n - 1).value, c, n, DetectUpTo(lines, window, n).value);
    }
  }

  lemma OrderStep(prev: seq<DetectedField>, c: Ctx, n: nat, out: seq<DetectedField>)
    requires 0 < n && c.index == n - 1 && OrderedBelow(prev, n - 1)
    requires out == prev + LineFields(c)
    ensures OrderedBelow(out, n)
  {
    var fs := LineFields(c);
    LineFieldsContext(c);
    LineFieldsOrder(c);
    var ds := prev + fs;
    forall j, k | 0 <= j < k < |ds| ensures Precedes(ds[j], ds[k]) {
      if k < |prev| {
        assert ds[j] == prev[j] && ds[k] == prev[k];
      } else if j < |prev| {
        assert ds[j] == prev[j] && prev[j] in prev;
        assert ds[k] == fs[k - |prev|] && fs[k - |prev|] in fs;
      } else {
        assert ds[j] == fs[j - |prev|] && ds[k] == fs[k - |prev|];
        assert fs[j - |prev|] in fs && fs[k - |prev|] in fs;
      }
    }
  }
}
