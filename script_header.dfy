/**
 * The `CACHE_NAME` line the publisher writes in front of the service-worker
 * script (index.php), and the value that variable holds once the script's
 * leading statements have run in the browser.
 */
module ScriptHeader {
  import opened Wrappers
  import opened PhpStrings

  const HeaderStart: string := "var CACHE_NAME = 'tribe_"
  const HeaderEnd: string := "';\n\n"

  /** `"var CACHE_NAME = 'tribe_{$version}';\n\n"`. */
  function Header(version: string): string
  {
    HeaderStart + version + HeaderEnd
  }

  /** A version that can sit inside the single-quoted JavaScript literal. */
  predicate QuoteFree(version: string)
  {
    '\'' !in version
  }

  /** The index of the first `'` of `t`, or `|t|` when there is none. */
  function QuoteIndex(t: string): (i: nat)
    ensures i <= |t|
    ensures QuoteFree(t[..i])
    ensures i < |t| ==> t[i] == '\''
  {
    if t == [] then 0
    else if t[0] == '\'' then 0
    else
      var i := 1 + QuoteIndex(t[1..]);
      assert t[..i] == [t[0]] + t[1..][..i - 1];
      i
  }

  lemma {:induction false} QuoteIndexAfter(v: string, w: string)
    requires QuoteFree(v) && |w| > 0 && w[0] == '\''
    ensures QuoteIndex(v + w) == |v|
  {
    if v != [] {
      assert (v + w)[1..] == v[1..] + w;
      QuoteIndexAfter(v[1..], w);
    }
  }

  /**
   * Reads one `CACHE_NAME` line off the front of a script: its version and
   * what follows it, or `None` when the script does not begin with one.
   */
  function SplitHeader(s: string): (r: Option<(string, string)>)
    ensures r.Some? ==> QuoteFree(r.value.0) && s == Header(r.value.0) + r.value.1
  {
    if !IsPrefix(HeaderStart, s) then None
    else
      var t := s[|HeaderStart|..];
      var i := QuoteIndex(t);
      if !IsPrefix(HeaderEnd, t[i..]) then None
      else
        Reassemble(s, HeaderStart, HeaderEnd, i);
        Some((t[..i], t[i + |HeaderEnd|..]))
  }

  /** A string that begins with `a` and has `b` at offset `i` after it falls apart into the four pieces. */
  lemma Reassemble(s: string, a: string, b: string, i: nat)
    requires IsPrefix(a, s) && i <= |s| - |a| && IsPrefix(b, s[|a|..][i..])
    ensures s == a + s[|a|..][..i] + b + s[|a|..][i + |b|..]
  {
    var t := s[|a|..];
    assert s == a + t;
    assert t[i..] == b + t[i..][|b|..];
    assert t[i..][|b|..] == t[i + |b|..];
    assert t == t[..i] + t[i..];
  }

  lemma SplitHeaderOfHeader(v: string, rest: string)
    requires QuoteFree(v)
    ensures SplitHeader(Header(v) + rest) == Some((v, rest))
  {
    var s := Header(v) + rest;
    assert s == HeaderStart + (v + (HeaderEnd + rest));
    assert IsPrefix(HeaderStart, s);
    var t := s[|HeaderStart|..];
    assert t == v + (HeaderEnd + rest);
    QuoteIndexAfter(v, HeaderEnd + rest);
    assert t[..|v|] == v;
    assert t[|v|..] == HeaderEnd + rest;
    assert t[|v| + |HeaderEnd|..] == rest;
  }

  /**
   * The value of `CACHE_NAME` after the script's leading assignments have
   * run: each `var CACHE_NAME = …` overwrites the one before it, so the LAST
   * header line wins; `None` when the script assigns it nowhere in front.
   */
  function CacheNameOf(s: string): Option<string>
    decreases |s|
  {
    match SplitHeader(s)
    case None => None
    case Some((v, rest)) =>
      var later := CacheNameOf(rest);
      if later.Some? then later else Some("tribe_" + v)
  }

  /** The rewrite index.php performs: the new line is put in front of the old contents. */
  function Prepend(version: string, contents: string): (r: string)
    ensures |r| == |Header(version)| + |contents|
    ensures r[|Header(version)|..] == contents
  {
    Header(version) + contents
  }

  /** The first rewrite of a script without a header names the bucket after its version. */
  lemma PrependOnBareScript(v: string, body: string)
    requires QuoteFree(v) && SplitHeader(body) == None
    ensures CacheNameOf(Prepend(v, body)) == Some("tribe_" + v)
  {
    SplitHeaderOfHeader(v, body);
  }

  /**
   * Once a header is in the file, prepending another one does not change
   * the value `CACHE_NAME` ends up with.
   */
  lemma PrependKeepsName(v: string, s: string, name: string)
    requires QuoteFree(v) && CacheNameOf(s) == Some(name)
    ensures CacheNameOf(Prepend(v, s)) == Some(name)
  {
    SplitHeaderOfHeader(v, s);
  }

  /**
   * As written, a version change leaves the worker on the OLD bucket name:
   * after rewrites for `v1` and then `v2 != v1`, `CACHE_NAME` is still
   * `tribe_<v1>`.
   */
  lemma StaleCacheName(v1: string, v2: string, body: string)
    requires QuoteFree(v1) && QuoteFree(v2) && v1 != v2 && SplitHeader(body) == None
    ensures CacheNameOf(Prepend(v2, Prepend(v1, body))) == Some("tribe_" + v1)
    ensures CacheNameOf(Prepend(v2, Prepend(v1, body))) != Some("tribe_" + v2)
  {
    PrependOnBareScript(v1, body);
    PrependKeepsName(v2, Prepend(v1, body), "tribe_" + v1);
    assert ("tribe_" + v1)[6..] == v1;
    assert ("tribe_" + v2)[6..] == v2;
  }

  /** The script with every leading header line removed. */
  function StripHeaders(s: string): (r: string)
    ensures SplitHeader(r) == None
    ensures |r| <= |s|
    decreases |s|
  {
    match SplitHeader(s)
    case None => s
    case Some((_, rest)) => StripHeaders(rest)
  }

  /** Corrected rewrite: the old header lines are replaced, not kept. */
  function ReplaceHeader(version: string, contents: string): string
  {
    Header(version) + StripHeaders(contents)
  }

  /** After the corrected rewrite, `CACHE_NAME` is the new version's bucket name. */
  lemma ReplaceHeaderNames(v: string, s: string)
    requires QuoteFree(v)
    ensures CacheNameOf(ReplaceHeader(v, s)) == Some("tribe_" + v)
  {
    SplitHeaderOfHeader(v, StripHeaders(s));
  }

  /**
   * The corrected rewrite does not grow the file: rewriting for `v1` and then
   * `v2` gives what rewriting for `v2` alone gives.
   */
  lemma ReplaceHeaderNoGrowth(v1: string, v2: string, s: string)
    requires QuoteFree(v1)
    ensures ReplaceHeader(v2, ReplaceHeader(v1, s)) == ReplaceHeader(v2, s)
  {
    var bare := StripHeaders(s);
    SplitHeaderOfHeader(v1, bare);
    assert StripHeaders(Header(v1) + bare) == StripHeaders(bare) == bare;
  }
}
