/**
 * The four regular expressions of the detector, written as explicit
 * scanners instead of a regex engine:
 *
 *   BRACKET_TOKEN_RE    \[[^\[\]\n]{1,120}\]
 *   BRACKET_BLANK_RE    \$\[[\s_]{3,}\]|\[[\s_]{3,}\]
 *   UNDERLINE_RE        _{3,}                      (only ever searched for)
 *   SIGNATURE_LABEL_RE  ^\s*(By:|Name:|Title:|Address:|Email:)\s*(.*)$   (IGNORECASE)
 *
 * In both bracket patterns the closing `]` lies outside the repeated class,
 * so greedy matching with backtracking succeeds exactly when the maximal
 * run of class characters after the `[` has an admissible length and is
 * followed by `]`. `TokenAt` and `BlankAt` compute that; the lemmas
 * `TokenAtExact` and `BlankAtExact` show it is the language each regex
 * denotes, anchored at the given position.
 */
module Patterns {
  import opened Wrappers
  import opened Text

  /** A match: the half-open range `s[start..end]`. */
  datatype Span = Span(start: nat, end: nat)

  /** The two patterns the detector runs `finditer` over. */
  datatype Pattern = TokenPattern | BlankPattern

  // ---- what each pattern matches, as a language ----

  /** `[` + 1..120 characters other than `[`, `]` and newline + `]`. */
  predicate IsBracketToken(t: string)
  {
    && 3 <= |t| <= 122
    && t[0] == '[' && t[|t| - 1] == ']'
    && AllInRange(t, 1, |t| - 1, Bracketless)
  }

  /** `[` + at least 3 whitespace or `_` characters + `]`. */
  predicate IsBareBlank(t: string)
  {
    && |t| >= 5
    && t[0] == '[' && t[|t| - 1] == ']'
    && AllInRange(t, 1, |t| - 1, BlankFill)
  }

  /** A bare blank, optionally preceded by `$`. */
  predicate IsBracketBlank(t: string)
  {
    IsBareBlank(t) || (|t| > 0 && t[0] == '$' && IsBareBlank(t[1..]))
  }

  // ---- anchored matching ----

  /** End of the `BRACKET_TOKEN_RE` match that starts at `i`, if there is one. */
  function TokenAt(s: string, i: nat): (r: Option<nat>)
    ensures r.Some? ==> i < r.value <= |s|
  {
    if i < |s| && s[i] == '[' then
      var n := RunFrom(s, i + 1, Bracketless);
      var e := i + 1 + n;
      if 1 <= n <= 120 && e < |s| && s[e] == ']' then
        Some(e + 1)
      else None
    else None
  }

  /** End of the `\[[\s_]{3,}\]` match that starts at `i`, if there is one. */
  function BareBlankAt(s: string, i: nat): (r: Option<nat>)
    ensures r.Some? ==> i < r.value <= |s|
  {
    if i < |s| && s[i] == '[' then
      var n := RunFrom(s, i + 1, BlankFill);
      var e := i + 1 + n;
      if n >= 3 && e < |s| && s[e] == ']' then
        Some(e + 1)
      else None
    else None
  }

  /** End of the `BRACKET_BLANK_RE` match at `i`: the `$[` alternative is tried first. */
  function BlankAt(s: string, i: nat): (r: Option<nat>)
    ensures r.Some? ==> i < r.value <= |s|
  {
    if i < |s| && s[i] == '$' && BareBlankAt(s, i + 1).Some? then BareBlankAt(s, i + 1)
    else BareBlankAt(s, i)
  }

  function MatchAt(s: string, i: nat, p: Pattern): (r: Option<nat>)
    ensures r.Some? ==> i < r.value <= |s|
  {
    match p
    case TokenPattern => TokenAt(s, i)
    case BlankPattern => BlankAt(s, i)
  }

  /** The pattern's language, for either pattern. */
  predicate Matches(t: string, p: Pattern)
  {
    match p
    case TokenPattern => IsBracketToken(t)
    case BlankPattern => IsBracketBlank(t)
  }

  /** The class characters of `s[i..e]` sit at indices `1..|s[i..e]| - 1` of the slice. */
  lemma SliceRange(s: string, i: nat, e: nat, cs: CharSet)
    requires i + 2 <= e <= |s|
    ensures AllInRange(s[i..e], 1, e - i - 1, cs) <==> AllInRange(s, i + 1, e - 1, cs)
  {
    var t := s[i..e];
    assert forall q :: i + 1 <= q < e - 1 ==> s[q] == t[q - i];
  }

  /** `TokenAt` matches at `i` exactly the bracket tokens that start at `i`. */
  lemma {:induction false} TokenAtExact(s: string, i: nat, e: nat)
    requires i < e <= |s|
    ensures TokenAt(s, i) == Some(e) <==> IsBracketToken(s[i..e])
  {
    if e >= i + 2 {
      SliceRange(s, i, e, Bracketless);
    }
    if IsBracketToken(s[i..e]) {
      RunCovers(s, i + 1, Bracketless, e - 1);
      assert s[e - 1] == s[i..e][e - 1 - i];
      RunStops(s, i + 1, Bracketless, e - 1);
    }
  }

  lemma {:induction false} BareBlankAtExact(s: string, i: nat, e: nat)
    requires i < e <= |s|
    ensures BareBlankAt(s, i) == Some(e) <==> IsBareBlank(s[i..e])
  {
    if e >= i + 2 {
      SliceRange(s, i, e, BlankFill);
    }
    if IsBareBlank(s[i..e]) {
      RunCovers(s, i + 1, BlankFill, e - 1);
      assert s[e - 1] == s[i..e][e - 1 - i];
      RunStops(s, i + 1, BlankFill, e - 1);
    }
  }

  /** `BlankAt` matches at `i` exactly the bracket blanks that start at `i`. */
  lemma {:induction false} BlankAtExact(s: string, i: nat, e: nat)
    requires i < e <= |s|
    ensures BlankAt(s, i) == Some(e) <==> IsBracketBlank(s[i..e])
  {
    assert s[i..e][1..] == s[i + 1..e];
    if IsBareBlank(s[i..e]) {
      BareBlankAtExact(s, i, e);
      assert s[i] == '[';
    } else if IsBracketBlank(s[i..e]) {
      BareBlankAtExact(s, i + 1, e);
    } else if BlankAt(s, i) == Some(e) {
      assert false;
    }
  }

  /** Either pattern matches at `i` exactly the strings of its language. */
  lemma MatchAtExact(s: string, i: nat, e: nat, p: Pattern)
    requires i < e <= |s|
    ensures MatchAt(s, i, p) == Some(e) <==> Matches(s[i..e], p)
  {
    match p
    case TokenPattern => TokenAtExact(s, i, e);
    case BlankPattern => BlankAtExact(s, i, e);
  }

  /**
   * A bare blank is also a bracket token exactly when its inside has at
   * most 120 characters and no newline. For a blank with `$`, this applies
   * to its part from the `[`.
   */
  lemma BareBlankIsToken(t: string)
    requires IsBareBlank(t)
    ensures IsBracketToken(t) <==> |t| <= 122 && '\n' !in t
  {
    if '\n' in t {
      var k :| 0 <= k < |t| && t[k] == '\n';
      assert !InSet(t[k], Bracketless);
    } else {
      forall k | 1 <= k < |t| - 1 ensures InSet(t[k], Bracketless) {
        assert InSet(t[k], BlankFill);
        assert t[k] != '\n';
      }
    }
  }

  // ---- finditer / search ----

  /**
   * `pattern.finditer(s)` resumed at `from`: leftmost-first, each search
   * resuming where the previous match ended (no pattern here matches the
   * empty string).
   */
  function FindAll(s: string, from: nat, p: Pattern): (ms: seq<Span>)
    requires from <= |s|
    decreases |s| - from
  {
    if from == |s| then []
    else
      match MatchAt(s, from, p)
      case Some(e) => [Span(from, e)] + FindAll(s, e, p)
      case None => FindAll(s, from + 1, p)
  }

  /** `pattern.search(s)`: the leftmost match, which is `finditer`'s first. */
  function Search(s: string, p: Pattern): Option<Span>
  {
    var ms := FindAll(s, 0, p);
    if ms == [] then None else Some(ms[0])
  }

  /** One step of `finditer`: report the match at `from`, or move one position on. */
  lemma FindAllStep(s: string, from: nat, p: Pattern)
    requires from < |s|
    ensures MatchAt(s, from, p).Some? ==>
      FindAll(s, from, p) == [Span(from, MatchAt(s, from, p).value)] + FindAll(s, MatchAt(s, from, p).value, p)
    ensures MatchAt(s, from, p).None? ==> FindAll(s, from, p) == FindAll(s, from + 1, p)
  {
  }

  /** `finditer` yields matches of the pattern, inside the string, at or after `from`. */
  lemma {:induction false} FindAllMatches(s: string, from: nat, p: Pattern)
    requires from <= |s|
    ensures forall sp :: sp in FindAll(s, from, p) ==>
      from <= sp.start < sp.end <= |s| && MatchAt(s, sp.start, p) == Some(sp.end)
    decreases |s| - from
  {
    if from < |s| {
      var m := MatchAt(s, from, p);
      if m.Some? {
        FindAllMatches(s, m.value, p);
        assert FindAll(s, from, p) == [Span(from, m.value)] + FindAll(s, m.value, p);
      } else {
        FindAllMatches(s, from + 1, p);
      }
    }
  }

  /** Each match ends no later than the next one starts. */
  predicate Ordered(ms: seq<Span>)
  {
    forall k :: 0 <= k < |ms| - 1 ==> ms[k].end <= ms[k + 1].start
  }

  /** The first match `finditer` reports from `from` starts at or after `from`. */
  lemma {:induction false} FindAllFirst(s: string, from: nat, p: Pattern)
    requires from <= |s|
    ensures FindAll(s, from, p) != [] ==> from <= FindAll(s, from, p)[0].start
    decreases |s| - from
  {
    if from < |s| && MatchAt(s, from, p).None? {
      FindAllFirst(s, from + 1, p);
    }
  }

  lemma OrderedCons(sp: Span, rest: seq<Span>)
    requires Ordered(rest) && (rest == [] || sp.end <= rest[0].start)
    ensures Ordered([sp] + rest)
  {
    var ms := [sp] + rest;
    forall k | 0 <= k < |ms| - 1 ensures ms[k].end <= ms[k + 1].start {
      if k > 0 {
        assert ms[k] == rest[k - 1] && ms[k + 1] == rest[k];
      }
    }
  }

  /** `finditer`'s matches come left to right, without overlap. */
  lemma {:induction false} FindAllOrdered(s: string, from: nat, p: Pattern)
    requires from <= |s|
    ensures Ordered(FindAll(s, from, p))
    decreases |s| - from
  {
    if from < |s| {
      var m := MatchAt(s, from, p);
      FindAllStep(s, from, p);
      if m.Some? {
        FindAllOrdered(s, m.value, p);
        FindAllFirst(s, m.value, p);
        OrderedCons(Span(from, m.value), FindAll(s, m.value, p));
      } else {
        FindAllOrdered(s, from + 1, p);
      }
    }
  }

  /** No match of `p` starts in `s[lo..hi]`. */
  predicate NoMatchIn(s: string, lo: nat, hi: nat, p: Pattern)
  {
    forall q :: lo <= q < hi ==> MatchAt(s, q, p) == None
  }

  /** Where the search for the `k`-th match began. */
  function GapStart(ms: seq<Span>, from: nat, k: nat): nat
    requires k < |ms|
  {
    if k == 0 then from else ms[k - 1].end
  }

  /** Where the search after the last match began. */
  function LastEnd(ms: seq<Span>, from: nat): nat
  {
    if ms == [] then from else ms[|ms| - 1].end
  }

  /**
   * Leftmost-first: no match starts between the point where a search began
   * and the match it reported, nor after the last match.
   */
  predicate Leftmost(s: string, ms: seq<Span>, from: nat, p: Pattern)
  {
    && (forall k :: 0 <= k < |ms| ==> NoMatchIn(s, GapStart(ms, from, k), ms[k].start, p))
    && NoMatchIn(s, LastEnd(ms, from), |s|, p)
  }

  lemma LeftmostCons(s: string, from: nat, e: nat, rest: seq<Span>, p: Pattern)
    requires MatchAt(s, from, p) == Some(e) && Leftmost(s, rest, e, p)
    ensures Leftmost(s, [Span(from, e)] + rest, from, p)
  {
    var ms := [Span(from, e)] + rest;
    forall k | 0 <= k < |ms| ensures NoMatchIn(s, GapStart(ms, from, k), ms[k].start, p) {
      if k > 0 {
        assert ms[k] == rest[k - 1];
        assert GapStart(ms, from, k) == GapStart(rest, e, k - 1);
      }
    }
    assert LastEnd(ms, from) == LastEnd(rest, e);
  }

  lemma LeftmostSkip(s: string, from: nat, ms: seq<Span>, p: Pattern)
    requires MatchAt(s, from, p) == None && Leftmost(s, ms, from + 1, p)
    ensures Leftmost(s, ms, from, p)
  {
    forall k | 0 <= k < |ms| ensures NoMatchIn(s, GapStart(ms, from, k), ms[k].start, p) {
      if k == 0 {
        NoMatchExtend(s, from, ms[0].start, p);
      } else {
        assert GapStart(ms, from, k) == GapStart(ms, from + 1, k);
      }
    }
    if ms == [] {
      NoMatchExtend(s, from, |s|, p);
    }
  }

  lemma NoMatchExtend(s: string, lo: nat, hi: nat, p: Pattern)
    requires MatchAt(s, lo, p) == None && NoMatchIn(s, lo + 1, hi, p)
    ensures NoMatchIn(s, lo, hi, p)
  {
  }

  lemma {:induction false} FindAllLeftmost(s: string, from: nat, p: Pattern)
    requires from <= |s|
    ensures Leftmost(s, FindAll(s, from, p), from, p)
    decreases |s| - from
  {
    if from < |s| {
      var m := MatchAt(s, from, p);
      FindAllStep(s, from, p);
      if m.Some? {
        FindAllLeftmost(s, m.value, p);
        LeftmostCons(s, from, m.value, FindAll(s, m.value, p), p);
      } else {
        FindAllLeftmost(s, from + 1, p);
        LeftmostSkip(s, from, FindAll(s, from + 1, p), p);
      }
    }
  }

  /** `search` fails exactly when no position starts a match. */
  lemma SearchNone(s: string, p: Pattern)
    ensures Search(s, p).None? <==> forall q :: 0 <= q < |s| ==> MatchAt(s, q, p) == None
  {
    FindAllMatches(s, 0, p);
    FindAllLeftmost(s, 0, p);
    var ms := FindAll(s, 0, p);
    if ms != [] {
      assert ms[0] in ms;
    }
  }

  /**
   * A `$` right before a reported blank's `[` is always part of that blank:
   * no match of `BRACKET_BLANK_RE` starts at a `[` that follows a `$`.
   */
  lemma DollarIncluded(s: string)
    ensures forall sp :: sp in FindAll(s, 0, BlankPattern) && 0 < sp.start < |s| && s[sp.start] == '[' ==>
      s[sp.start - 1] != '$'
  {
    DollarIncludedFrom(s, 0);
  }

  lemma {:induction false} DollarIncludedFrom(s: string, from: nat)
    requires from <= |s|
    requires from == 0 || s[from - 1] != '$' || BareBlankAt(s, from).None?
    ensures forall sp :: sp in FindAll(s, from, BlankPattern) && 0 < sp.start < |s| && s[sp.start] == '[' ==>
      s[sp.start - 1] != '$'
    decreases |s| - from
  {
    if from < |s| {
      match BlankAt(s, from)
      case Some(e) =>
        assert s[from..e][|s[from..e]| - 1] == ']';
        DollarIncludedFrom(s, e);
      case None =>
        DollarIncludedFrom(s, from + 1);
    }
  }

  // ---- UNDERLINE_RE.search ----

  predicate UnderscoresAt(s: string, i: nat)
  {
    i + 3 <= |s| && s[i] == '_' && s[i + 1] == '_' && s[i + 2] == '_'
  }

  /** `UNDERLINE_RE.search(s[from..])` succeeds. */
  function HasUnderlineFrom(s: string, from: nat): (b: bool)
    requires from <= |s|
    ensures b <==> exists i :: from <= i < |s| && UnderscoresAt(s, i)
    decreases |s| - from
  {
    if from + 3 > |s| then false
    else UnderscoresAt(s, from) || HasUnderlineFrom(s, from + 1)
  }

  function HasUnderline(s: string): bool
  {
    HasUnderlineFrom(s, 0)
  }

  // ---- SIGNATURE_LABEL_RE.match ----

  /** The label alternatives, lower-cased, in the order the regex tries them. */
  const Labels: seq<string> := ["by:", "name:", "title:", "address:", "email:"]

  predicate NoNewline(u: string)
  {
    forall k :: 0 <= k < |u| ==> u[k] != '\n'
  }

  /** `(.*)$` matches all of `u`: `.` stops at newlines, `$` also matches before a final newline. */
  predicate LineEnd(u: string)
  {
    NoNewline(u) || (|u| > 0 && u[|u| - 1] == '\n' && NoNewline(u[..|u| - 1]))
  }

  /** `\s*(.*)$` matches all of `t`, taking the whitespace greedily. */
  predicate RestMatches(t: string)
  {
    LineEnd(t[LeadingIn(t, Whitespace)..])
  }

  /** `s[at..]` starts with `lab`, ignoring ASCII case. */
  predicate LabelAt(s: string, at: nat, lab: string)
  {
    at + |lab| <= |s| && forall k :: 0 <= k < |lab| ==> Lower(s[at + k]) == lab[k]
  }

  /** The regex accepts the line with `lab` as the alternative taken at `at`. */
  predicate LabelAccepted(s: string, at: nat, lab: string)
  {
    LabelAt(s, at, lab) && RestMatches(s[at + |lab|..])
  }

  /** The first of `labels` the regex accepts at `at`, as written in `s`. */
  function LabelFrom(s: string, at: nat, labels: seq<string>): Option<string>
  {
    if labels == [] then None
    else if LabelAccepted(s, at, labels[0]) then Some(s[at..at + |labels[0]|])
    else LabelFrom(s, at, labels[1..])
  }

  /** `SIGNATURE_LABEL_RE.match(s).group(1).strip()`, if the line matches. */
  function SignatureLabel(s: string): Option<string>
  {
    LabelFrom(s, LeadingIn(s, Whitespace), Labels)
  }

  /** The whitespace the regex skips before `(.*)` can be taken greedily without losing a match. */
  lemma RestMatchesExact(t: string)
    ensures RestMatches(t) <==>
      exists k :: 0 <= k <= |t| && AllIn(t[..k], Whitespace) && LineEnd(t[k..])
  {
    var w := LeadingIn(t, Whitespace);
    if k :| 0 <= k <= |t| && AllIn(t[..k], Whitespace) && LineEnd(t[k..]) {
      LeadingInCovers(t, Whitespace, k);
      var u, v := t[k..], t[w..];
      assert v == u[w - k..];
      if NoNewline(u) {
        assert NoNewline(v);
      } else if |v| > 0 {
        assert v[..|v| - 1] == u[..|u| - 1][w - k..];
        assert LineEnd(v);
      }
    }
  }

  /** A label is returned exactly when some alternative is accepted, and it is returned as written in `s`. */
  lemma {:induction false} LabelFromSpec(s: string, at: nat, labels: seq<string>)
    ensures LabelFrom(s, at, labels).Some? <==> exists l :: l in labels && LabelAccepted(s, at, l)
    ensures LabelFrom(s, at, labels).Some? ==>
      exists l :: l in labels && LabelAccepted(s, at, l) && LabelFrom(s, at, labels).value == s[at..at + |l|]
  {
    if labels != [] {
      LabelFromSpec(s, at, labels[1..]);
      assert forall l :: l in labels <==> l == labels[0] || l in labels[1..];
    }
  }

  /** `labels[j]` is accepted at `at` and no earlier alternative is. */
  predicate FirstAccepted(s: string, at: nat, labels: seq<string>, j: nat)
  {
    j < |labels| && LabelAccepted(s, at, labels[j]) && forall i :: 0 <= i < j ==> !LabelAccepted(s, at, labels[i])
  }

  /** The alternatives are tried in order: the label returned is the first accepted one. */
  lemma {:induction false} LabelFromFirst(s: string, at: nat, labels: seq<string>)
    requires LabelFrom(s, at, labels).Some?
    ensures exists j: nat :: FirstAccepted(s, at, labels, j) && LabelFrom(s, at, labels).value == s[at..at + |labels[j]|]
  {
    if !LabelAccepted(s, at, labels[0]) {
      LabelFromFirst(s, at, labels[1..]);
      var j: nat :| FirstAccepted(s, at, labels[1..], j) && LabelFrom(s, at, labels[1..]).value == s[at..at + |labels[1..][j]|];
      FirstStep(s, at, labels, j);
    } else {
      assert FirstAccepted(s, at, labels, 0);
    }
  }

  lemma FirstStep(s: string, at: nat, labels: seq<string>, j: nat)
    requires |labels| > 0 && !LabelAccepted(s, at, labels[0]) && FirstAccepted(s, at, labels[1..], j)
    ensures FirstAccepted(s, at, labels, j + 1) && labels[j + 1] == labels[1..][j]
  {
    forall i | 0 <= i < j + 1 ensures !LabelAccepted(s, at, labels[i]) {
      if i > 0 {
        assert labels[i] == labels[1..][i - 1];
      }
    }
  }

  /** No two of the five labels start at the same position of a line. */
  lemma LabelsExclusive(s: string, at: nat, l1: string, l2: string)
    requires l1 in Labels && l2 in Labels && LabelAt(s, at, l1) && LabelAt(s, at, l2)
    ensures l1 == l2
  {
    assert Lower(s[at]) == l1[0] && Lower(s[at]) == l2[0];
  }

  /**
   * A line yields a signature label exactly when, after its leading
   * whitespace, it starts with one of the labels (ignoring ASCII case) and
   * the regex accepts the rest; the label is returned as written.
   */
  lemma SignatureLabelSpec(s: string)
    ensures var w := LeadingIn(s, Whitespace);
      SignatureLabel(s).Some? <==> exists l :: l in Labels && LabelAccepted(s, w, l)
    ensures var w := LeadingIn(s, Whitespace);
      SignatureLabel(s).Some? ==>
        exists l :: l in Labels && LabelAccepted(s, w, l) && SignatureLabel(s).value == s[w..w + |l|]
  {
    LabelFromSpec(s, LeadingIn(s, Whitespace), Labels);
  }

  /** When only one alternative is accepted, it is the one returned. */
  lemma LabelFromOnly(s: string, at: nat, labels: seq<string>, l: string)
    requires l in labels && LabelAccepted(s, at, l)
    requires forall m :: m in labels && LabelAccepted(s, at, m) ==> m == l
    ensures LabelFrom(s, at, labels) == Some(s[at..at + |l|])
  {
    LabelFromSpec(s, at, labels);
  }

  /** Since no two labels start alike, any label accepted after the leading whitespace is the one returned. */
  lemma SignatureLabelUnique(s: string, l: string)
    requires l in Labels && LabelAccepted(s, LeadingIn(s, Whitespace), l)
    ensures SignatureLabel(s) == Some(s[LeadingIn(s, Whitespace)..LeadingIn(s, Whitespace) + |l|])
  {
    var w := LeadingIn(s, Whitespace);
    forall m | m in Labels && LabelAccepted(s, w, m) ensures m == l {
      LabelsExclusive(s, w, l, m);
    }
    LabelFromOnly(s, w, Labels, l);
  }

  /** Without newlines in the line, the part after the label never stops a match. */
  lemma NoNewlineLabel(s: string, at: nat, lab: string)
    requires NoNewline(s) && LabelAt(s, at, lab)
    ensures LabelAccepted(s, at, lab)
  {
    var t := s[at + |lab|..];
    assert NoNewline(t[LeadingIn(t, Whitespace)..]);
  }
}
