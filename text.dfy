/**
 * The string predicates the contact form relies on: JavaScript's whitespace class
 * (shared by `String.prototype.trim` and the regular-expression class `\s`), `trim`
 * itself, and the lenient e-mail test `/\S+@\S+\.\S+/.test(s)`.
 */
module Text {

  /**
   * ECMAScript WhiteSpace and LineTerminator code points: what `trim` removes and
   * what `\s` matches (tab, line tabulation, form feed, space, no-break space, the
   * byte-order mark, the Unicode space separators, and the four line terminators).
   */
  predicate IsSpace(c: char) {
    c == ' ' || c == '\t' || c == '\n' || c == '\r' || c == '\U{000B}' || c == '\U{000C}'
    || c == '\U{00A0}' || c == '\U{1680}' || ('\U{2000}' <= c <= '\U{200A}')
    || c == '\U{2028}' || c == '\U{2029}' || c == '\U{202F}' || c == '\U{205F}'
    || c == '\U{3000}' || c == '\U{FEFF}'
  }

  /** Every character of `s` is whitespace (vacuously so for ""). */
  ghost predicate AllSpace(s: string) {
    forall k | 0 <= k < |s| :: IsSpace(s[k])
  }

  /** No character of `s` is whitespace: `s` is a run of `\S`. */
  ghost predicate NoSpace(s: string) {
    forall k | 0 <= k < |s| :: !IsSpace(s[k])
  }

  /** `s` without its leading whitespace. */
  function TrimStart(s: string): string
    decreases |s|
  {
    if |s| > 0 && IsSpace(s[0]) then TrimStart(s[1..]) else s
  }

  /** `s` without its trailing whitespace. */
  function TrimEnd(s: string): string
    decreases |s|
  {
    if |s| > 0 && IsSpace(s[|s| - 1]) then TrimEnd(s[..|s| - 1]) else s
  }

  /** `s.trim()`: whitespace removed at both ends. */
  function Trim(s: string): string {
    TrimEnd(TrimStart(s))
  }

  /** `TrimStart` drops a whitespace-only prefix and stops at the first other character. */
  lemma {:induction false} TrimStartSpec(s: string)
    ensures |TrimStart(s)| <= |s|
    ensures TrimStart(s) == s[|s| - |TrimStart(s)|..]
    ensures AllSpace(s[..|s| - |TrimStart(s)|])
    ensures TrimStart(s) == [] || !IsSpace(TrimStart(s)[0])
    decreases |s|
  {
    if |s| > 0 && IsSpace(s[0]) {
      TrimStartSpec(s[1..]);
      var k := |s| - |TrimStart(s)|;
      assert s[..k] == [s[0]] + s[1..][..k - 1];
    }
  }

  /** `TrimEnd` drops a whitespace-only suffix and stops at the last other character. */
  lemma {:induction false} TrimEndSpec(s: string)
    ensures |TrimEnd(s)| <= |s|
    ensures TrimEnd(s) == s[..|TrimEnd(s)|]
    ensures AllSpace(s[|TrimEnd(s)|..])
    ensures TrimEnd(s) == [] || !IsSpace(TrimEnd(s)[|TrimEnd(s)| - 1])
    decreases |s|
  {
    if |s| > 0 && IsSpace(s[|s| - 1]) {
      var s' := s[..|s| - 1];
      TrimEndSpec(s');
      var k := |TrimEnd(s)|;
      assert s[k..] == s'[k..] + [s[|s| - 1]];
    }
  }

  /**
   * `s.trim()` is the slice of `s` between its first and last non-whitespace
   * characters; it is empty, so falsy in JavaScript, exactly when `s` is all whitespace.
   */
  lemma TrimSpec(s: string)
    ensures |Trim(s)| <= |s|
    ensures Trim(s) != [] ==> !IsSpace(Trim(s)[0]) && !IsSpace(Trim(s)[|Trim(s)| - 1])
    ensures Trim(s) == [] <==> AllSpace(s)
  {
    var t := TrimStart(s);
    var r := TrimEnd(t);
    TrimStartSpec(s);
    TrimEndSpec(t);
    if r == [] {
      assert t == [];
      assert s[..|s| - |t|] == s;
    }
    if r != [] {
      assert r[0] == t[0];
    }
  }

  /** `!s.trim()`: the value is falsy after trimming, i.e. blank. */
  method IsBlank(s: string) returns (blank: bool)
    ensures blank <==> AllSpace(s)
  {
    blank := Trim(s) == "";
    TrimSpec(s);
  }

  // ---------------------------------------------------------------------------
  // The lenient e-mail pattern
  // ---------------------------------------------------------------------------

  /** `t` starts with a match of `\S+\.\S+`. */
  predicate DotTail(t: string)
    decreases |t|
  {
    |t| >= 3 && !IsSpace(t[0]) && ((t[1] == '.' && !IsSpace(t[2])) || DotTail(t[1..]))
  }

  /**
   * `/\S+@\S+\.\S+/.test(s)`: some substring of `s` matches the pattern. The scan
   * looks for a non-whitespace character directly followed by `@` and a `DotTail`.
   */
  predicate LooksLikeEmail(s: string)
    decreases |s|
  {
    |s| >= 2 && ((!IsSpace(s[0]) && s[1] == '@' && DotTail(s[2..])) || LooksLikeEmail(s[1..]))
  }

  /**
   * Reference reading of the regular expression: `s[p..e]` is `\S+` `@` `\S+` `.` `\S+`
   * with the `@` at `at` and the `.` at `dot`.
   */
  ghost predicate MatchSpan(s: string, p: int, at: int, dot: int, e: int) {
    0 <= p < at && at + 1 < dot && dot + 1 < e <= |s|
    && s[at] == '@' && s[dot] == '.'
    && NoSpace(s[p..at]) && NoSpace(s[at + 1..dot]) && NoSpace(s[dot + 1..e])
  }

  /** The unanchored pattern occurs somewhere in `s`. */
  ghost predicate PatternOccurs(s: string) {
    exists p, at, dot, e :: MatchSpan(s, p, at, dot, e)
  }

  /** `t` starts with `\S+` ending at `dot`, then `.`, then one `\S`. */
  ghost predicate DotTailAt(t: string, dot: int) {
    1 <= dot && dot + 1 < |t| && t[dot] == '.' && NoSpace(t[..dot]) && !IsSpace(t[dot + 1])
  }

  lemma {:induction false} DotTailWitness(t: string)
    ensures DotTail(t) <==> exists dot :: DotTailAt(t, dot)
    decreases |t|
  {
    if DotTail(t) {
      if t[1] == '.' && !IsSpace(t[2]) {
        assert DotTailAt(t, 1);
      } else {
        DotTailWitness(t[1..]);
        var d :| DotTailAt(t[1..], d);
        assert t[..d + 1] == [t[0]] + t[1..][..d];
        assert DotTailAt(t, d + 1);
      }
    }
    if exists dot :: DotTailAt(t, dot) {
      var dot :| DotTailAt(t, dot);
      assert !IsSpace(t[..dot][0]);
      if dot > 1 {
        assert t[1..][..dot - 1] == t[..dot][1..];
        assert DotTailAt(t[1..], dot - 1);
        DotTailWitness(t[1..]);
      }
    }
  }

  /** The recursive scan decides exactly the unanchored regular-expression match. */
  lemma {:induction false} LooksLikeEmailMatchesPattern(s: string)
    ensures LooksLikeEmail(s) <==> PatternOccurs(s)
    decreases |s|
  {
    if LooksLikeEmail(s) {
      if !IsSpace(s[0]) && s[1] == '@' && DotTail(s[2..]) {
        DotTailWitness(s[2..]);
        var d :| DotTailAt(s[2..], d);
        assert s[0..1] == [s[0]];
        assert s[2..d + 2] == s[2..][..d];
        assert s[d + 3..d + 4] == [s[2..][d + 1]];
        assert MatchSpan(s, 0, 1, d + 2, d + 4);
      } else {
        LooksLikeEmailMatchesPattern(s[1..]);
        var p, at, dot, e :| MatchSpan(s[1..], p, at, dot, e);
        assert s[p + 1..at + 1] == s[1..][p..at];
        assert s[at + 2..dot + 1] == s[1..][at + 1..dot];
        assert s[dot + 2..e + 1] == s[1..][dot + 1..e];
        assert MatchSpan(s, p + 1, at + 1, dot + 1, e + 1);
      }
    }
    if PatternOccurs(s) {
      var p, at, dot, e :| MatchSpan(s, p, at, dot, e);
      assert !IsSpace(s[p..at][at - 1 - p]);
      if at == 1 {
        assert s[2..][..dot - 2] == s[2..dot];
        assert DotTailAt(s[2..], dot - 2);
        DotTailWitness(s[2..]);
      } else {
        assert s[1..][at - 2..at - 1] == [s[at - 1]];
        assert s[1..][at..dot - 1] == s[at + 1..dot];
        assert s[1..][dot..e - 1] == s[dot + 1..e];
        assert MatchSpan(s[1..], at - 2, at - 1, dot - 1, e - 1);
        LooksLikeEmailMatchesPattern(s[1..]);
      }
    }
  }

  /** `/\S+@\S+\.\S+/.test(s)` on the value as entered (not trimmed). */
  method TestEmailPattern(s: string) returns (matched: bool)
    ensures matched <==> PatternOccurs(s)
  {
    matched := LooksLikeEmail(s);
    LooksLikeEmailMatchesPattern(s);
  }

  /** The two examples of the pattern's behaviour: "foo" fails and "a@b.c" passes. */
  lemma EmailExamples()
    ensures !LooksLikeEmail("foo")
    ensures LooksLikeEmail("a@b.c")
    ensures !LooksLikeEmail("a@b.")
    ensures LooksLikeEmail(" x a@b.c ")
  {
  }
}
