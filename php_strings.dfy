/**
 * The two PHP string primitives the publisher relies on: `strpos` used as a
 * substring test, and `str_replace` with one search string.
 */
module PhpStrings {

  /** `p` is a prefix of `s`. */
  predicate IsPrefix(p: string, s: string)
  {
    |p| <= |s| && s[..|p|] == p
  }

  /**
   * `false !== strpos(s, sub)`: `sub` occurs somewhere in `s`
   * (an empty `sub` occurs everywhere, as in PHP 8).
   */
  predicate Contains(s: string, sub: string)
    decreases |s|
  {
    IsPrefix(sub, s) || (|s| > 0 && Contains(s[1..], sub))
  }

  /**
   * `str_replace(pat, rep, s)`: scans `s` from the left and replaces every
   * non-overlapping occurrence of `pat` by `rep`. An empty `pat` leaves `s`
   * as it is.
   */
  function Replace(s: string, pat: string, rep: string): string
    decreases |s|
  {
    if |pat| == 0 || |s| < |pat| then s
    else if s[..|pat|] == pat then rep + Replace(s[|pat|..], pat, rep)
    else [s[0]] + Replace(s[1..], pat, rep)
  }

  /** Where `pat` does not occur, `str_replace` returns its subject unchanged. */
  lemma {:induction false} ReplaceAbsent(s: string, pat: string, rep: string)
    requires !Contains(s, pat)
    ensures Replace(s, pat, rep) == s
    decreases |s|
  {
    if |pat| == 0 || |s| < |pat| {
    } else {
      assert !IsPrefix(pat, s);
      ReplaceAbsent(s[1..], pat, rep);
      assert [s[0]] + s[1..] == s;
    }
  }

  /**
   * Where `pat` does occur and differs from `rep`, the result is not the
   * subject: together with ReplaceAbsent, the subject comes back unchanged
   * exactly when `pat` does not occur in it.
   */
  lemma {:induction false} ReplacePresent(s: string, pat: string, rep: string)
    requires Contains(s, pat) && |pat| > 0 && pat != rep
    ensures Replace(s, pat, rep) != s
    decreases |s|
  {
    if |s| < |pat| {
      TooShort(s, pat);
    } else if IsPrefix(pat, s) {
      var rest := s[|pat|..];
      var r := Replace(rest, pat, rep);
      if |rep| < |pat| {
        ReplaceShrinks(rest, pat, rep);
        assert |rep + r| < |s|;
      } else if |rep| > |pat| {
        ReplaceGrows(rest, pat, rep);
        assert |rep + r| > |s|;
      } else {
        assert (rep + r)[..|pat|] == rep;
      }
    } else {
      ReplacePresent(s[1..], pat, rep);
      var r := Replace(s[1..], pat, rep);
      assert ([s[0]] + r)[1..] == r;
    }
  }

  /** A string shorter than `pat` holds no occurrence of it. */
  lemma {:induction false} TooShort(s: string, pat: string)
    requires |s| < |pat|
    ensures !Contains(s, pat)
    decreases |s|
  {
    if |s| > 0 { TooShort(s[1..], pat); }
  }

  /** Replacing by something no longer never lengthens the subject. */
  lemma {:induction false} ReplaceShrinks(s: string, pat: string, rep: string)
    requires |rep| <= |pat|
    ensures |Replace(s, pat, rep)| <= |s|
    decreases |s|
  {
    if |pat| == 0 || |s| < |pat| {
    } else if s[..|pat|] == pat {
      ReplaceShrinks(s[|pat|..], pat, rep);
    } else {
      ReplaceShrinks(s[1..], pat, rep);
    }
  }

  /** Replacing by something no shorter never shortens the subject. */
  lemma {:induction false} ReplaceGrows(s: string, pat: string, rep: string)
    requires |rep| >= |pat|
    ensures |Replace(s, pat, rep)| >= |s|
    decreases |s|
  {
    if |pat| == 0 || |s| < |pat| {
    } else if s[..|pat|] == pat {
      ReplaceGrows(s[|pat|..], pat, rep);
    } else {
      ReplaceGrows(s[1..], pat, rep);
    }
  }

  /** A leading occurrence of `pat` becomes `rep`; the rest is processed after it. */
  lemma ReplaceLeading(pat: string, rep: string, rest: string)
    requires |pat| > 0
    ensures Replace(pat + rest, pat, rep) == rep + Replace(rest, pat, rep)
  {
    assert (pat + rest)[..|pat|] == pat;
    assert (pat + rest)[|pat|..] == rest;
  }
}
