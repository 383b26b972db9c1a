/**
 * The minimal `.env` reader at the start of `main` in
 * `semantic_cluster_test.py`: each line of the file is stripped; blank
 * lines, comments and lines without `=` are skipped; the rest are split
 * at the first `=` into a key and a value, both stripped, the value also
 * losing surrounding `"` and then `'` characters; a non-empty key not yet
 * in the environment is then set. The environment is a `map` field that
 * the loading method updates.
 */
module DotEnv {
  import opened Wrappers
  import opened Text

  /** `s.split(c, 1)` when `c` occurs in `s`: the text before the first `c` and the rest. */
  function SplitFirst(s: string, c: char): Option<(string, string)>
  {
    if |s| == 0 then None
    else if s[0] == c then Some(("", s[1..]))
    else
      match SplitFirst(s[1..], c)
      case None => None
      case Some(p) => Some(([s[0]] + p.0, p.1))
  }

  /** The value's clean-up: `v.strip().strip('"').strip("'")`. */
  function CleanValue(v: string): string
  {
    Strip(Strip(Strip(v, Whitespace), Only('"')), Only('\''))
  }

  /**
   * What one line contributes, before the environment is consulted: a
   * key and a value, or `None` for a line the loop skips.
   */
  function ParseLine(line: string): Option<(string, string)>
  {
    var s := Strip(line, Whitespace);
    if |s| == 0 || s[0] == '#' then None
    else
      match SplitFirst(s, '=')
      case None => None
      case Some(p) => Some((Strip(p.0, Whitespace), CleanValue(p.1)))
  }

  /** One iteration of the loop: set the key unless it is empty or already set. */
  function Apply(env: map<string, string>, line: string): map<string, string>
  {
    match ParseLine(line)
    case None => env
    case Some(kv) => if kv.0 != "" && kv.0 !in env then env[kv.0 := kv.1] else env
  }

  /** The environment after the first `n` lines. */
  function LoadUpTo(env: map<string, string>, lines: seq<string>, n: nat): map<string, string>
    requires n <= |lines|
  {
    if n == 0 then env else Apply(LoadUpTo(env, lines, n - 1), lines[n - 1])
  }

  /** The process environment, `os.environ`. */
  class Environ {
    var vars: map<string, string>

    constructor(initial: map<string, string>)
      ensures vars == initial
    {
      vars := initial;
    }

    /** The loop over the lines of `.env`. */
    method LoadDotEnv(lines: seq<string>)
      modifies this
      ensures vars == LoadUpTo(old(vars), lines, |lines|)
    {
      for i := 0 to |lines|
        invariant vars == LoadUpTo(old(vars), lines, i)
      {
        var s := Strip(lines[i], Whitespace);
        if |s| == 0 || s[0] == '#' {
          continue;
        }
        var parts := SplitFirst(s, '=');
        if parts.None? {
          continue;
        }
        var k := Strip(parts.value.0, Whitespace);
        var v := CleanValue(parts.value.1);
        if k != "" && k !in vars {
          vars := vars[k := v];
        }
      }
    }
  }

  // ---- properties ----

  /** `SplitFirst` finds the first `c`: it splits exactly when `c` occurs, and the key part has no `c`. */
  lemma {:induction false} SplitFirstSpec(s: string, c: char)
    ensures SplitFirst(s, c).Some? <==> c in s
    ensures SplitFirst(s, c).Some? ==>
      s == SplitFirst(s, c).value.0 + [c] + SplitFirst(s, c).value.1 && c !in SplitFirst(s, c).value.0
  {
    if |s| > 0 && s[0] != c {
      SplitFirstSpec(s[1..], c);
      assert s == [s[0]] + s[1..];
    }
  }

  /** Any split of `s` at a `c` with no earlier `c` is the one `SplitFirst` makes. */
  lemma {:induction false} SplitFirstUnique(s: string, c: char, a: string, b: string)
    requires s == a + [c] + b && c !in a
    ensures SplitFirst(s, c) == Some((a, b))
  {
    if |a| > 0 {
      assert s[0] == a[0] && a[0] != c;
      assert s[1..] == a[1..] + [c] + b;
      SplitFirstUnique(s[1..], c, a[1..], b);
      assert [s[0]] + a[1..] == a;
    } else {
      assert s[1..] == b;
    }
  }

  /** Blank lines, comments and lines without `=` are skipped, and no other line is. */
  lemma ParseLineSkips(line: string)
    ensures ParseLine(line).None? <==>
      var s := Strip(line, Whitespace);
      |s| == 0 || s[0] == '#' || '=' !in s
  {
    SplitFirstSpec(Strip(line, Whitespace), '=');
  }

  /**
   * A parsed line is split at its first `=`: the key is the stripped text
   * before it and the value the cleaned text after it, which may itself
   * contain `=`.
   */
  lemma ParseLineSplits(line: string, a: string, b: string)
    requires var s := Strip(line, Whitespace); s == a + "=" + b && '=' !in a && (a == "" || a[0] != '#')
    ensures ParseLine(line) == Some((Strip(a, Whitespace), CleanValue(b)))
  {
    SplitFirstUnique(Strip(line, Whitespace), '=', a, b);
    assert Strip(line, Whitespace)[0] == (if a == "" then '=' else a[0]);
  }

  /** A blank line, a comment or a line without `=` leaves the environment as it is. */
  lemma IgnoredLineKeepsEnv(env: map<string, string>, line: string)
    requires var s := Strip(line, Whitespace); |s| == 0 || s[0] == '#' || '=' !in s
    ensures Apply(env, line) == env
  {
    ParseLineSkips(line);
  }

  /** Keys come out stripped of whitespace; values come out with no `'` at either end. */
  lemma ParseLineTrimmed(line: string)
    ensures ParseLine(line).Some? ==>
      Trimmed(ParseLine(line).value.0, Whitespace) && Trimmed(ParseLine(line).value.1, Only('\''))
  {
    var s := Strip(line, Whitespace);
    if ParseLine(line).Some? {
      var p := SplitFirst(s, '=').value;
      StripSpec(p.0, Whitespace);
      StripSpec(Strip(Strip(p.1, Whitespace), Only('"')), Only('\''));
    }
  }

  /** Loading never changes or removes a variable that is already set. */
  lemma {:induction false} LoadKeeps(env: map<string, string>, lines: seq<string>, n: nat)
    requires n <= |lines|
    ensures forall k :: k in env ==> k in LoadUpTo(env, lines, n) && LoadUpTo(env, lines, n)[k] == env[k]
  {
    if n > 0 {
      LoadKeeps(env, lines, n - 1);
    }
  }

  /** Later lines never change or remove a binding that earlier lines made. */
  lemma {:induction false} LoadMonotone(env: map<string, string>, lines: seq<string>, n: nat, m: nat)
    requires n <= m <= |lines|
    ensures forall k :: k in LoadUpTo(env, lines, n) ==>
      k in LoadUpTo(env, lines, m) && LoadUpTo(env, lines, m)[k] == LoadUpTo(env, lines, n)[k]
  {
    if n < m {
      LoadMonotone(env, lines, n, m - 1);
    }
  }

  /**
   * Every variable loading adds has a non-empty key and comes from some
   * line that parses to that key and exactly that value.
   */
  lemma {:induction false} LoadAdds(env: map<string, string>, lines: seq<string>, n: nat)
    requires n <= |lines|
    ensures forall k :: k in LoadUpTo(env, lines, n) && k !in env ==>
      k != "" && exists i :: 0 <= i < n && ParseLine(lines[i]) == Some((k, LoadUpTo(env, lines, n)[k]))
  {
    if n > 0 {
      LoadAdds(env, lines, n - 1);
      var prev := LoadUpTo(env, lines, n - 1);
      forall k | k in LoadUpTo(env, lines, n) && k !in env
        ensures k != "" && exists i :: 0 <= i < n && ParseLine(lines[i]) == Some((k, LoadUpTo(env, lines, n)[k]))
      {
        if k in prev {
          var i :| 0 <= i < n - 1 && ParseLine(lines[i]) == Some((k, prev[k]));
        } else {
          assert ParseLine(lines[n - 1]) == Some((k, LoadUpTo(env, lines, n)[k]));
        }
      }
    }
  }

  /** `line` at `i` is the first of the first `n` lines to assign key `k`. */
  predicate FirstAssignment(lines: seq<string>, n: nat, i: nat, k: string)
    requires n <= |lines|
  {
    i < n && ParseLine(lines[i]).Some? && ParseLine(lines[i]).value.0 == k
    && forall j :: 0 <= j < i ==> ParseLine(lines[j]).None? || ParseLine(lines[j]).value.0 != k
  }

  /** Within one file the first assignment of a key wins; later ones are ignored. */
  lemma {:induction false} FirstAssignmentWins(env: map<string, string>, lines: seq<string>, n: nat, i: nat, k: string)
    requires n <= |lines| && k != "" && k !in env && FirstAssignment(lines, n, i, k)
    ensures k in LoadUpTo(env, lines, n) && LoadUpTo(env, lines, n)[k] == ParseLine(lines[i]).value.1
  {
    if n - 1 == i {
      NotYetAssigned(env, lines, i, k);
    } else {
      FirstAssignmentWins(env, lines, n - 1, i, k);
    }
  }

  /** A key no earlier line assigns is still unset. */
  lemma {:induction false} NotYetAssigned(env: map<string, string>, lines: seq<string>, n: nat, k: string)
    requires n <= |lines| && k !in env
    requires forall j :: 0 <= j < n ==> ParseLine(lines[j]).None? || ParseLine(lines[j]).value.0 != k
    ensures k !in LoadUpTo(env, lines, n)
  {
    if n > 0 {
      NotYetAssigned(env, lines, n - 1, k);
    }
  }

  /** An empty key is never added. */
  lemma NoEmptyKey(env: map<string, string>, lines: seq<string>)
    ensures "" in LoadUpTo(env, lines, |lines|) ==> "" in env
  {
    LoadAdds(env, lines, |lines|);
  }
}
