/**
 * `to_path`, `modified_time` and the arrays handed to `to_hash` (index.php).
 */
module Paths {
  import opened PhpStrings
  import opened Assets

  /** A file of the site: its contents and its modification time (`filemtime`). */
  datatype FileEntry = FileEntry(contents: string, mtime: int)

  /** The site's file system, by full path. */
  type FileSystem = map<string, FileEntry>

  /** PHP's string cast of a source: `false` and `null` become `''`. */
  function AsString(src: Src): string
  {
    if src.Url? then src.s else ""
  }

  /** `to_path`: every occurrence of the site's base URL becomes `/`. */
  function ToPath(base: string, url: Src): string
  {
    Replace(AsString(url), base, "/")
  }

  /**
   * A URL without the base URL comes back unchanged; one with it does not
   * (for any base other than `''` and `/`, which `trailingslashit` never yields
   * for a real site URL).
   */
  lemma ToPathUnchangedIff(base: string, s: string)
    requires |base| > 0 && base != "/"
    ensures ToPath(base, Url(s)) == s <==> !Contains(s, base)
  {
    if Contains(s, base) {
      ReplacePresent(s, base, "/");
    } else {
      ReplaceAbsent(s, base, "/");
    }
  }

  /** A URL under the site's base becomes the root-relative path `/…`. */
  lemma ToPathOfSiteUrl(base: string, path: string)
    requires |base| > 0 && !Contains(path, base)
    ensures ToPath(base, Url(base + path)) == "/" + path
  {
    ReplaceLeading(base, "/", path);
    ReplaceAbsent(path, base, "/");
  }

  /** The root path `/` is a fixed point of `to_path`, whatever the base. */
  lemma ToPathRoot(base: string)
    ensures ToPath(base, Url("/")) == "/"
  {
    var s := "/";
    if |base| == 0 || |s| < |base| {
    } else if s[..|base|] == base {
      assert s[|base|..] == "";
    } else {
      assert s[1..] == "";
    }
  }

  /** A modification time, or `''` for a path that has none. */
  datatype Stamp = NoStamp | Stamp(t: int)

  /** The full path `modified_time` asks about: ABSPATH followed by the path, `/wp-content` made relative. */
  function FullPath(absPath: string, path: string): string
  {
    absPath + Replace(path, "/wp-content", "wp-content")
  }

  /**
   * `modified_time`: `''` for the root path, otherwise the file's
   * `filemtime`, or `''` when the file does not exist.
   */
  function ModifiedTime(absPath: string, fs: FileSystem, path: string): (r: Stamp)
    ensures path == "/" ==> r == NoStamp
    ensures r.Stamp? <==> path != "/" && FullPath(absPath, path) in fs
    ensures r.Stamp? ==> r.t == fs[FullPath(absPath, path)].mtime
  {
    if path == "/" && !IsPrefix("/wp-content", path) then NoStamp
    else
      var full := FullPath(absPath, path);
      if full in fs then Stamp(fs[full].mtime) else NoStamp
  }

  /** PHP truthiness of a `modified_time` result: `''` and `0` are falsy. */
  predicate StampTruthy(s: Stamp)
  {
    s.Stamp? && s.t != 0
  }

  /**
   * `array_filter(array_map('modified_time', $files))`: the truthy times,
   * each under the index of its file (array_filter keeps the keys).
   */
  function Stamps(absPath: string, fs: FileSystem, files: seq<string>): seq<(nat, int)>
  {
    if files == [] then []
    else
      var st := ModifiedTime(absPath, fs, files[|files| - 1]);
      Stamps(absPath, fs, files[..|files| - 1]) + (if StampTruthy(st) then [(|files| - 1, st.t)] else [])
  }

  /**
   * The filtered times are exactly the truthy times of the files, keyed by
   * the file's index, in index order; so the root path and the files that
   * do not exist contribute nothing to the version hash.
   */
  lemma {:induction false} StampsSpec(absPath: string, fs: FileSystem, files: seq<string>)
    ensures forall e :: e in Stamps(absPath, fs, files) ==>
      e.0 < |files| && e.1 != 0 && ModifiedTime(absPath, fs, files[e.0]) == Stamp(e.1)
    ensures forall i :: 0 <= i < |files| && StampTruthy(ModifiedTime(absPath, fs, files[i])) ==>
      (i, ModifiedTime(absPath, fs, files[i]).t) in Stamps(absPath, fs, files)
    ensures forall a, b :: 0 <= a < b < |Stamps(absPath, fs, files)| ==>
      Stamps(absPath, fs, files)[a].0 < Stamps(absPath, fs, files)[b].0
  {
    if files != [] {
      var init := files[..|files| - 1];
      StampsSpec(absPath, fs, init);
      forall e | e in Stamps(absPath, fs, init)
        ensures files[e.0] == init[e.0]
      {
      }
    }
  }

  /** A PHP scalar as `maybe_serialize` sees it. */
  datatype PhpScalar = PStr(s: string) | PInt(i: int)

  /** A PHP array as `maybe_serialize` sees it: its key/value pairs in order. */
  type PhpArray = seq<(nat, PhpScalar)>

  /** A list of paths as a PHP array with keys 0, 1, 2, … */
  function ListArray(files: seq<string>): (a: PhpArray)
    ensures |a| == |files|
    ensures forall i :: 0 <= i < |files| ==> a[i] == (i, PStr(files[i]))
  {
    seq(|files|, i requires 0 <= i < |files| => (i, PStr(files[i])))
  }

  /** The filtered times as a PHP array, each under its file's index. */
  function StampArray(stamps: seq<(nat, int)>): (a: PhpArray)
    ensures |a| == |stamps|
    ensures forall i :: 0 <= i < |stamps| ==> a[i] == (stamps[i].0, PInt(stamps[i].1))
  {
    seq(|stamps|, i requires 0 <= i < |stamps| => (stamps[i].0, PInt(stamps[i].1)))
  }

  /**
   * Different file lists give different hash inputs: the array keeps every
   * path, in order, so reordering, adding or dropping a file changes it.
   */
  lemma ListArrayInjective(f1: seq<string>, f2: seq<string>)
    requires ListArray(f1) == ListArray(f2)
    ensures f1 == f2
  {
    forall i | 0 <= i < |f1| ensures f1[i] == f2[i] {
      assert ListArray(f1)[i] == ListArray(f2)[i];
    }
  }

  /** Different filtered times give different hash inputs: each time keeps its file's index. */
  lemma StampArrayInjective(t1: seq<(nat, int)>, t2: seq<(nat, int)>)
    requires StampArray(t1) == StampArray(t2)
    ensures t1 == t2
  {
    forall i | 0 <= i < |t1| ensures t1[i] == t2[i] {
      assert StampArray(t1)[i] == StampArray(t2)[i];
    }
  }
}
