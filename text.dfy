/**
 * The string primitives the detector and the .env loader rely on:
 * Python's `str.strip()` / `str.strip(c)`, `str.split()` with no
 * separator, `" ".join(...)`, decimal rendering of an `int` in an
 * f-string, and ASCII case folding.
 *
 * Whitespace is the fixed ASCII set space, tab, line feed, carriage
 * return, vertical tab and form feed.
 */
module Text {

  predicate IsSpace(c: char)
  {
    c == ' ' || c == '\t' || c == '\n' || c == '\r' || c == '\U{B}' || c == '\U{C}'
  }

  /**
   * The character sets the scanners in this project skip over: whitespace
   * and its complement, a single character (`str.strip(c)`), and the two
   * repeated classes of the bracket patterns, `[^\[\]\n]` and `[\s_]`.
   */
  datatype CharSet = Whitespace | NonWhitespace | Only(c: char) | Bracketless | BlankFill

  predicate InSet(c: char, cs: CharSet)
  {
    match cs
    case Whitespace => IsSpace(c)
    case NonWhitespace => !IsSpace(c)
    case Only(x) => c == x
    case Bracketless => c != '[' && c != ']' && c != '\n'
    case BlankFill => IsSpace(c) || c == '_'
  }

  predicate AllIn(s: string, cs: CharSet)
  {
    forall k :: 0 <= k < |s| ==> InSet(s[k], cs)
  }

  predicate AllInRange(s: string, lo: nat, hi: nat, cs: CharSet)
    requires hi <= |s|
  {
    forall k :: lo <= k < hi ==> InSet(s[k], cs)
  }

  /** Length of the longest run of `cs` characters in `s` starting at index `j`. */
  function RunFrom(s: string, j: nat, cs: CharSet): (n: nat)
    requires j <= |s|
    ensures j + n <= |s|
    ensures AllInRange(s, j, j + n, cs)
    ensures j + n < |s| ==> !InSet(s[j + n], cs)
    decreases |s| - j
  {
    if j < |s| && InSet(s[j], cs) then 1 + RunFrom(s, j + 1, cs) else 0
  }

  /** The run `RunFrom` measures ends no later than the first non-`cs` character. */
  lemma {:induction false} RunStops(s: string, j: nat, cs: CharSet, k: nat)
    requires j <= k < |s| && !InSet(s[k], cs)
    ensures j + RunFrom(s, j, cs) <= k
    decreases k - j
  {
    if j < k && InSet(s[j], cs) {
      RunStops(s, j + 1, cs, k);
    }
  }

  /** The run `RunFrom` measures covers every all-`cs` stretch starting at `j`. */
  lemma {:induction false} RunCovers(s: string, j: nat, cs: CharSet, k: nat)
    requires j <= k <= |s| && AllInRange(s, j, k, cs)
    ensures j + RunFrom(s, j, cs) >= k
    decreases k - j
  {
    if j < k {
      RunCovers(s, j + 1, cs, k);
    }
  }

  /** Length of the longest prefix of `s` made only of `cs` characters. */
  function LeadingIn(s: string, cs: CharSet): (n: nat)
    ensures n <= |s| && AllIn(s[..n], cs)
    ensures n < |s| ==> !InSet(s[n], cs)
  {
    RunFrom(s, 0, cs)
  }

  lemma LeadingInCovers(s: string, cs: CharSet, k: nat)
    requires k <= |s| && AllIn(s[..k], cs)
    ensures LeadingIn(s, cs) >= k
  {
    assert forall q :: 0 <= q < k ==> s[q] == s[..k][q];
    RunCovers(s, 0, cs, k);
  }

  /** No `cs` character at either end. */
  predicate Trimmed(r: string, cs: CharSet)
  {
    r == [] || (!InSet(r[0], cs) && !InSet(r[|r| - 1], cs))
  }

  /** `s.lstrip(...)`: drops leading characters of `cs`. */
  function StripStart(s: string, cs: CharSet): string
  {
    if |s| > 0 && InSet(s[0], cs) then StripStart(s[1..], cs) else s
  }

  /** `s.rstrip(...)`: drops trailing characters of `cs`. */
  function StripEnd(s: string, cs: CharSet): string
  {
    if |s| > 0 && InSet(s[|s| - 1], cs) then StripEnd(s[..|s| - 1], cs) else s
  }

  /** Python's `s.strip()` (for `Whitespace`) and `s.strip(c)` (for `Only(c)`). */
  function Strip(s: string, cs: CharSet): string
  {
    StripEnd(StripStart(s, cs), cs)
  }

  lemma {:induction false} StripStartSpec(s: string, cs: CharSet)
    ensures var r := StripStart(s, cs);
      |r| <= |s| && r == s[|s| - |r|..] && AllIn(s[..|s| - |r|], cs) && (r != [] ==> !InSet(r[0], cs))
  {
    if |s| > 0 && InSet(s[0], cs) {
      StripStartSpec(s[1..], cs);
      var r := StripStart(s, cs);
      assert s[1..][..|s| - 1 - |r|] == s[1..|s| - |r|];
      assert s[1..][|s| - 1 - |r|..] == s[|s| - |r|..];
    }
  }

  lemma {:induction false} StripEndSpec(s: string, cs: CharSet)
    ensures var r := StripEnd(s, cs);
      |r| <= |s| && r == s[..|r|] && AllIn(s[|r|..], cs) && (r != [] ==> !InSet(r[|r| - 1], cs))
  {
    if |s| > 0 && InSet(s[|s| - 1], cs) {
      var t := s[..|s| - 1];
      StripEndSpec(t, cs);
      var r := StripEnd(s, cs);
      assert t[..|r|] == s[..|r|];
      forall k | 0 <= k < |s| - |r| ensures InSet(s[|r|..][k], cs) {
        if |r| + k < |s| - 1 {
          assert s[|r|..][k] == t[|r|..][k];
        }
      }
    }
  }

  /**
   * `Strip` keeps an infix of `s`, everything cut off on either side is in
   * `cs`, and the result itself neither starts nor ends with a `cs` character.
   */
  lemma StripSpec(s: string, cs: CharSet)
    ensures var r := Strip(s, cs);
      && Trimmed(r, cs) && |r| <= |s|
      && exists i :: 0 <= i <= |s| - |r| && s[i..i + |r|] == r && AllIn(s[..i], cs) && AllIn(s[i + |r|..], cs)
  {
    var t := StripStart(s, cs);
    var r := StripEnd(t, cs);
    StripStartSpec(s, cs);
    StripEndSpec(t, cs);
    var i := |s| - |t|;
    assert s[i..i + |r|] == r;
    assert s[i + |r|..] == t[|r|..];
    if r != [] {
      assert r[0] == t[0];
    }
  }

  /** A piece of `str.split()` output: non-empty and free of whitespace. */
  predicate IsWord(w: string)
  {
    |w| > 0 && AllIn(w, NonWhitespace)
  }

  /** The leading run of non-whitespace characters of `s`. */
  function Word(s: string): (w: string)
    ensures |w| <= |s|
  {
    if |s| == 0 || IsSpace(s[0]) then "" else [s[0]] + Word(s[1..])
  }

  /** Python's `s.split()`: the maximal runs of non-whitespace, in order. */
  function Split(s: string): seq<string>
    decreases |s|
  {
    if |s| == 0 then []
    else if IsSpace(s[0]) then Split(s[1..])
    else
      var w := Word(s);
      [w] + Split(s[|w|..])
  }

  lemma {:induction false} WordSpec(s: string)
    ensures var w := Word(s);
      w == s[..|w|] && AllIn(w, NonWhitespace) && (|w| < |s| ==> IsSpace(s[|w|]))
  {
    if |s| > 0 && !IsSpace(s[0]) {
      WordSpec(s[1..]);
    }
  }

  /** Every piece `Split` returns is a word. */
  lemma {:induction false} SplitWords(s: string)
    ensures forall k :: 0 <= k < |Split(s)| ==> IsWord(Split(s)[k])
    decreases |s|
  {
    if |s| > 0 {
      if IsSpace(s[0]) {
        SplitWords(s[1..]);
      } else {
        WordSpec(s);
        SplitWords(s[|Word(s)|..]);
      }
    }
  }

  lemma {:induction false} WordOf(w: string, rest: string)
    requires AllIn(w, NonWhitespace)
    requires rest == [] || IsSpace(rest[0])
    ensures Word(w + rest) == w
  {
    if |w| > 0 {
      assert (w + rest)[1..] == w[1..] + rest;
      WordOf(w[1..], rest);
    } else {
      assert w + rest == rest;
    }
  }

  /** Python's `" ".join(ws)`. */
  function JoinSpace(ws: seq<string>): string
  {
    if |ws| == 0 then ""
    else if |ws| == 1 then ws[0]
    else ws[0] + " " + JoinSpace(ws[1..])
  }

  /** `" ".join(s.split())`: whitespace runs collapsed to one space, ends trimmed. */
  function Collapse(s: string): string
  {
    JoinSpace(Split(s))
  }

  /** What `Collapse` promises about its output's spacing. */
  predicate SingleSpaced(r: string)
  {
    && Trimmed(r, Whitespace)
    && (forall k :: 0 <= k < |r| && IsSpace(r[k]) ==> r[k] == ' ')
    && (forall k :: 0 <= k < |r| - 1 && r[k] == ' ' ==> r[k + 1] != ' ')
  }

  lemma SplitSkipsSpace(s: string)
    requires |s| > 0 && IsSpace(s[0])
    ensures Split(s) == Split(s[1..])
  {
  }

  lemma {:induction false} SplitWordFirst(w: string, rest: string)
    requires IsWord(w)
    requires rest == [] || IsSpace(rest[0])
    ensures Split(w + rest) == [w] + Split(rest)
  {
    var s := w + rest;
    assert s[0] == w[0];
    WordOf(w, rest);
    assert s[|w|..] == rest;
  }

  lemma SplitNil()
    ensures Split("") == []
  {
  }

  lemma {:induction false} SplitCons(w: string, rest: string)
    requires IsWord(w)
    ensures Split(w + " " + rest) == [w] + Split(rest)
  {
    var tail := " " + rest;
    assert w + " " + rest == w + tail;
    SplitWordFirst(w, tail);
    SplitSkipsSpace(tail);
    assert tail[1..] == rest;
  }

  /** Splitting a space-joined list of words gives the words back. */
  lemma {:induction false} SplitJoinSpace(ws: seq<string>)
    requires forall k :: 0 <= k < |ws| ==> IsWord(ws[k])
    ensures Split(JoinSpace(ws)) == ws
    decreases |ws|
  {
    if |ws| == 0 {
      SplitNil();
    } else if |ws| == 1 {
      SplitWordFirst(ws[0], "");
      assert ws[0] + "" == ws[0];
      SplitNil();
      assert ws == [ws[0]];
    } else {
      SplitJoinSpace(ws[1..]);
      SplitCons(ws[0], JoinSpace(ws[1..]));
      assert ws == [ws[0]] + ws[1..];
    }
  }

  lemma {:induction false} JoinSpaceSingleSpaced(ws: seq<string>)
    requires forall k :: 0 <= k < |ws| ==> IsWord(ws[k])
    ensures SingleSpaced(JoinSpace(ws))
    ensures JoinSpace(ws) == "" <==> ws == []
    ensures ws != [] ==> JoinSpace(ws)[0] == ws[0][0]
    decreases |ws|
  {
    if |ws| >= 2 {
      var w := ws[0];
      var rest := JoinSpace(ws[1..]);
      JoinSpaceSingleSpaced(ws[1..]);
      var r := w + " " + rest;
      assert r == JoinSpace(ws);
      assert forall k :: 0 <= k < |w| ==> r[k] == w[k];
      assert r[|w|] == ' ';
      assert forall k :: |w| < k < |r| ==> r[k] == rest[k - |w| - 1];
      assert r[|r| - 1] == rest[|rest| - 1];
      assert r[|w| + 1] == rest[0];
    }
  }

  lemma {:induction false} SplitEmpty(s: string)
    ensures Split(s) == [] <==> AllIn(s, Whitespace)
    decreases |s|
  {
    if |s| > 0 && IsSpace(s[0]) {
      SplitEmpty(s[1..]);
      assert forall k :: 1 <= k < |s| ==> s[k] == s[1..][k - 1];
    }
  }

  /**
   * `Collapse` keeps exactly the words of its input, in order, and
   * separates them by single spaces; it is empty exactly when the input
   * is all whitespace.
   */
  lemma CollapseSpec(s: string)
    ensures Split(Collapse(s)) == Split(s)
    ensures SingleSpaced(Collapse(s))
    ensures Collapse(s) == "" <==> AllIn(s, Whitespace)
  {
    SplitWords(s);
    SplitJoinSpace(Split(s));
    JoinSpaceSingleSpaced(Split(s));
    SplitEmpty(s);
  }

  // ---- decimal rendering of natural numbers (`f"{i}"`) ----

  predicate IsDigit(c: char)
  {
    '0' <= c <= '9'
  }

  function DigitValue(c: char): (d: nat)
    requires IsDigit(c)
    ensures d < 10
  {
    c as int - '0' as int
  }

  function Digit(d: nat): (c: char)
    requires d < 10
    ensures IsDigit(c) && DigitValue(c) == d
  {
    "0123456789"[d]
  }

  /** Base-10 rendering without leading zeros, as Python's `str(int)`. */
  function Decimal(n: nat): (s: string)
    ensures |s| > 0 && forall k :: 0 <= k < |s| ==> IsDigit(s[k])
    ensures s[0] == '0' ==> n == 0
  {
    if n < 10 then [Digit(n)] else Decimal(n / 10) + [Digit(n % 10)]
  }

  /** The number a string of digits denotes. */
  function DecimalValue(s: string): nat
    requires forall k :: 0 <= k < |s| ==> IsDigit(s[k])
  {
    if |s| == 0 then 0
    else DecimalValue(s[..|s| - 1]) * 10 + DigitValue(s[|s| - 1])
  }

  lemma {:induction false} DecimalRoundTrip(n: nat)
    ensures DecimalValue(Decimal(n)) == n
  {
    if n >= 10 {
      DecimalRoundTrip(n / 10);
      var s := Decimal(n);
      assert s[..|s| - 1] == Decimal(n / 10);
    }
  }

  // ---- ASCII case folding (what `re.IGNORECASE` does to ASCII letters) ----

  function Lower(c: char): (l: char)
    ensures 'A' <= c <= 'Z' ==> l as int == c as int + 32
    ensures !('A' <= c <= 'Z') ==> l == c
  {
    if 'A' <= c <= 'Z' then (c as int + 32) as char else c
  }
}
