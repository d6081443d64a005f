/**
 * `localize_assets` (index.php): publishes the list of files the service
 * worker caches and the cache version, keeping three transients so that a
 * page load that changes nothing writes nothing.
 */
module Publisher {
  import opened Assets
  import opened Paths
  import opened Wrappers
  import opened ScriptHeader

  /** Transient holding the version computed from the files' modification times (one hour). */
  const ModifiedKey: string := "tribe_sw_modified"
  /** Transient holding the version last written into the worker script (one week). */
  const VersionKey: string := "tribe_sw_version"
  /** Transient holding the hash of the list of files last written (one month). */
  const FilesHashKey: string := "tribe_sw_files_hash"

  /**
   * What the plugin knows of its host: the site's base URL with its trailing
   * slash, ABSPATH, the plugin's directory, and the two functions the model
   * leaves abstract: `md5(maybe_serialize(…))` and `json_encode`.
   */
  datatype Config = Config(
    base: string,
    absPath: string,
    pluginDir: string,
    hash: PhpArray -> string,
    json: seq<string> -> string)

  /** The plugin's copy of the worker script, which each rewrite reads and overwrites. */
  function ScriptFile(cfg: Config): string { cfg.pluginDir + "js/tribe-sw.js" }
  /** The worker script served from the site root. */
  function RootScript(cfg: Config): string { cfg.absPath + "tribe-sw.js" }
  /** The JSON list of files to cache, served from the site root. */
  function ManifestFile(cfg: Config): string { cfg.absPath + "tribe-files-to-cache.json" }

  /**
   * The JSON list is neither copy of the script, whatever the directories:
   * both script paths end in `.js`, the list's in `.json`.
   */
  lemma ListIsNoScript(cfg: Config)
    ensures ManifestFile(cfg) != ScriptFile(cfg) && ManifestFile(cfg) != RootScript(cfg)
  {
    var m := ManifestFile(cfg);
    assert m[|m| - 1] == 'n';
    assert ScriptFile(cfg)[|ScriptFile(cfg)| - 1] == 's';
    assert RootScript(cfg)[|RootScript(cfg)| - 1] == 's';
  }

  /**
   * The state `localize_assets` reads and changes: the transients (an
   * expired one is simply absent), the files, and the paths written so far.
   */
  datatype Site = Site(transients: map<string, string>, fs: FileSystem, writes: seq<string>)

  /** `array_map('to_path', …)` over a list of sources. */
  function PathsOf(base: string, srcs: seq<Src>): (paths: seq<string>)
    ensures |paths| == |srcs|
    ensures forall i :: 0 <= i < |srcs| ==> paths[i] == ToPath(base, srcs[i])
  {
    seq(|srcs|, i requires 0 <= i < |srcs| => ToPath(base, srcs[i]))
  }

  /** `$files`: the root, the scripts' assets and the styles' assets, as paths. */
  function Manifest(cfg: Config, scripts: Registry, styles: Registry): seq<string>
  {
    PathsOf(cfg.base, [Url("/")] + AssetsOf(scripts) + AssetsOf(styles))
  }

  /** The version a fresh computation gives: the hash of the filtered modification times. */
  function FreshVersion(cfg: Config, fs: FileSystem, files: seq<string>): string
  {
    cfg.hash(StampArray(Stamps(cfg.absPath, fs, files)))
  }

  /** The version `localize_assets` works with: the modified-hash transient, or a fresh one when it is absent. */
  function VersionOf(cfg: Config, s: Site, files: seq<string>): string
  {
    if ModifiedKey in s.transients then s.transients[ModifiedKey] else FreshVersion(cfg, s.fs, files)
  }

  /** Lines 178-186: recompute and store the version only when the transient is absent. */
  function VersionStep(cfg: Config, s: Site, files: seq<string>): Site
  {
    if ModifiedKey in s.transients then s
    else s.(transients := s.transients[ModifiedKey := FreshVersion(cfg, s.fs, files)])
  }

  /** The version differs from the one last written (an absent transient reads as `false`). */
  predicate VersionChanged(t: map<string, string>, version: string)
  {
    VersionKey !in t || t[VersionKey] != version
  }

  /**
   * Lines 188-200: on a version change, prepend the `CACHE_NAME` line to the
   * plugin's script, copy it to the root, and record the version, the last
   * even when the script does not exist.
   */
  function ScriptStep(cfg: Config, s: Site, version: string, now: int): Site
  {
    if !VersionChanged(s.transients, version) then s
    else
      var s' :=
        if ScriptFile(cfg) in s.fs then
          var js := Prepend(version, s.fs[ScriptFile(cfg)].contents);
          s.(fs := s.fs[ScriptFile(cfg) := FileEntry(js, now)][RootScript(cfg) := FileEntry(js, now)],
             writes := s.writes + [ScriptFile(cfg), RootScript(cfg)])
        else s;
      s'.(transients := s'.transients[VersionKey := version])
  }

  /** Lines 203-207: on a change of the files hash, record it and write the JSON list. */
  function ManifestStep(cfg: Config, s: Site, files: seq<string>, now: int): Site
  {
    var filesHash := cfg.hash(ListArray(files));
    if FilesHashKey in s.transients && s.transients[FilesHashKey] == filesHash then s
    else
      Site(s.transients[FilesHashKey := filesHash],
           s.fs[ManifestFile(cfg) := FileEntry(cfg.json(files), now)],
           s.writes + [ManifestFile(cfg)])
  }

  /** The whole of `localize_assets`, as a function of the site before it runs. */
  function Localize(cfg: Config, s: Site, scripts: Registry, styles: Registry, now: int): Site
  {
    var files := Manifest(cfg, scripts, styles);
    var version := VersionOf(cfg, s, files);
    ManifestStep(cfg, ScriptStep(cfg, VersionStep(cfg, s, files), version, now), files, now)
  }

  /**
   * The list always begins with `/`, followed by one path per script asset
   * and then one per style asset, each passed through `to_path`.
   */
  lemma ManifestShape(cfg: Config, scripts: Registry, styles: Registry)
    ensures |Manifest(cfg, scripts, styles)| == 1 + |AssetsOf(scripts)| + |AssetsOf(styles)|
    ensures Manifest(cfg, scripts, styles)[0] == "/"
    ensures forall i :: 0 <= i < |AssetsOf(scripts)| ==>
      Manifest(cfg, scripts, styles)[1 + i] == ToPath(cfg.base, AssetsOf(scripts)[i])
    ensures forall i :: 0 <= i < |AssetsOf(styles)| ==>
      Manifest(cfg, scripts, styles)[1 + |AssetsOf(scripts)| + i] == ToPath(cfg.base, AssetsOf(styles)[i])
  {
    ToPathRoot(cfg.base);
    var srcs := [Url("/")] + AssetsOf(scripts) + AssetsOf(styles);
    forall i | 0 <= i < |AssetsOf(scripts)|
      ensures srcs[1 + i] == AssetsOf(scripts)[i]
    {
    }
    forall i | 0 <= i < |AssetsOf(styles)|
      ensures srcs[1 + |AssetsOf(scripts)| + i] == AssetsOf(styles)[i]
    {
    }
  }

  /** With the modified-hash transient present, its value is reused and left as it was. */
  lemma VersionReused(cfg: Config, s: Site, scripts: Registry, styles: Registry, now: int)
    requires ModifiedKey in s.transients
    ensures ModifiedKey in Localize(cfg, s, scripts, styles, now).transients
    ensures Localize(cfg, s, scripts, styles, now).transients[ModifiedKey] == s.transients[ModifiedKey]
    ensures VersionKey in Localize(cfg, s, scripts, styles, now).transients
    ensures Localize(cfg, s, scripts, styles, now).transients[VersionKey] == s.transients[ModifiedKey]
  {
  }

  /** With the modified-hash transient absent, the version is the hash of the filtered modification times. */
  lemma VersionRecomputed(cfg: Config, s: Site, scripts: Registry, styles: Registry, now: int)
    requires ModifiedKey !in s.transients
    ensures ModifiedKey in Localize(cfg, s, scripts, styles, now).transients
    ensures Localize(cfg, s, scripts, styles, now).transients[ModifiedKey]
      == cfg.hash(StampArray(Stamps(cfg.absPath, s.fs, Manifest(cfg, scripts, styles))))
    ensures VersionKey in Localize(cfg, s, scripts, styles, now).transients
    ensures Localize(cfg, s, scripts, styles, now).transients[VersionKey]
      == Localize(cfg, s, scripts, styles, now).transients[ModifiedKey]
  {
  }

  /** Afterwards the stored files hash is the hash of the list just computed. */
  lemma FilesHashRecorded(cfg: Config, s: Site, scripts: Registry, styles: Registry, now: int)
    ensures FilesHashKey in Localize(cfg, s, scripts, styles, now).transients
    ensures Localize(cfg, s, scripts, styles, now).transients[FilesHashKey]
      == cfg.hash(ListArray(Manifest(cfg, scripts, styles)))
  {
  }

  /**
   * Exactly which files are written: the plugin's script and its root copy
   * when the version changed and the script exists, then the JSON list when
   * the files hash changed. The two decisions read different transients.
   */
  lemma WritesExactly(cfg: Config, s: Site, scripts: Registry, styles: Registry, now: int)
    ensures
      var files := Manifest(cfg, scripts, styles);
      var version := VersionOf(cfg, s, files);
      Localize(cfg, s, scripts, styles, now).writes == s.writes
        + (if VersionChanged(s.transients, version) && ScriptFile(cfg) in s.fs
           then [ScriptFile(cfg), RootScript(cfg)] else [])
        + (if FilesHashKey !in s.transients || s.transients[FilesHashKey] != cfg.hash(ListArray(files))
           then [ManifestFile(cfg)] else [])
  {
  }

  /** No file other than the three targets is touched, and no write means no file changed. */
  lemma OnlyTargetsChange(cfg: Config, s: Site, scripts: Registry, styles: Registry, now: int, path: string)
    requires path != ScriptFile(cfg) && path != RootScript(cfg) && path != ManifestFile(cfg)
    ensures path in Localize(cfg, s, scripts, styles, now).fs <==> path in s.fs
    ensures path in s.fs ==> Localize(cfg, s, scripts, styles, now).fs[path] == s.fs[path]
    ensures Localize(cfg, s, scripts, styles, now).writes == s.writes ==> Localize(cfg, s, scripts, styles, now).fs == s.fs
  {
  }

  /**
   * The JSON list on disk afterwards: when the files hash changed it is
   * the JSON encoding of the current list, stamped with the run's time;
   * otherwise it is exactly what it was, or still absent.
   */
  lemma ManifestWritten(cfg: Config, s: Site, scripts: Registry, styles: Registry, now: int)
    ensures
      var files := Manifest(cfg, scripts, styles);
      var s' := Localize(cfg, s, scripts, styles, now);
      if FilesHashKey !in s.transients || s.transients[FilesHashKey] != cfg.hash(ListArray(files)) then
        ManifestFile(cfg) in s'.fs && s'.fs[ManifestFile(cfg)] == FileEntry(cfg.json(files), now)
      else
        && (ManifestFile(cfg) in s'.fs <==> ManifestFile(cfg) in s.fs)
        && (ManifestFile(cfg) in s.fs ==> s'.fs[ManifestFile(cfg)] == s.fs[ManifestFile(cfg)])
  {
    ListIsNoScript(cfg);
    var files := Manifest(cfg, scripts, styles);
    var version := VersionOf(cfg, s, files);
    var s1 := VersionStep(cfg, s, files);
    var s2 := ScriptStep(cfg, s1, version, now);
    assert FilesHashKey in s2.transients <==> FilesHashKey in s.transients;
    assert FilesHashKey in s.transients ==> s2.transients[FilesHashKey] == s.transients[FilesHashKey];
    assert ManifestFile(cfg) in s2.fs <==> ManifestFile(cfg) in s.fs;
    assert ManifestFile(cfg) in s.fs ==> s2.fs[ManifestFile(cfg)] == s.fs[ManifestFile(cfg)];
  }

  /** What the plugin's script holds afterwards: the old contents, or the header followed by them. */
  lemma ScriptContentsAfter(cfg: Config, s: Site, scripts: Registry, styles: Registry, now: int)
    requires ScriptFile(cfg) in s.fs
    ensures
      var s' := Localize(cfg, s, scripts, styles, now);
      var version := VersionOf(cfg, s, Manifest(cfg, scripts, styles));
      && ScriptFile(cfg) in s'.fs
      && s'.fs[ScriptFile(cfg)].contents ==
         if VersionChanged(s.transients, version) then Prepend(version, s.fs[ScriptFile(cfg)].contents)
         else s.fs[ScriptFile(cfg)].contents
  {
    ListIsNoScript(cfg);
    var files := Manifest(cfg, scripts, styles);
    var version := VersionOf(cfg, s, files);
    var s1 := VersionStep(cfg, s, files);
    assert s1.fs == s.fs;
    var s2 := ScriptStep(cfg, s1, version, now);
    assert ScriptFile(cfg) in s2.fs;
    assert s2.fs[ScriptFile(cfg)].contents ==
      if VersionChanged(s.transients, version) then Prepend(version, s.fs[ScriptFile(cfg)].contents)
      else s.fs[ScriptFile(cfg)].contents;
    var s3 := ManifestStep(cfg, s2, files, now);
    assert s3.fs[ScriptFile(cfg)] == s2.fs[ScriptFile(cfg)];
  }

  /**
   * A version change rewrites the plugin's script as the `CACHE_NAME` line
   * followed by ALL of its old contents (the file only ever grows), and the
   * root copy is the same text.
   */
  lemma ScriptRewritten(cfg: Config, s: Site, scripts: Registry, styles: Registry, now: int)
    requires VersionChanged(s.transients, VersionOf(cfg, s, Manifest(cfg, scripts, styles)))
    requires ScriptFile(cfg) in s.fs
    ensures
      var s' := Localize(cfg, s, scripts, styles, now);
      var version := VersionOf(cfg, s, Manifest(cfg, scripts, styles));
      && ScriptFile(cfg) in s'.fs && RootScript(cfg) in s'.fs
      && s'.fs[RootScript(cfg)].contents == s'.fs[ScriptFile(cfg)].contents
      == Header(version) + s.fs[ScriptFile(cfg)].contents
  {
    ScriptContentsAfter(cfg, s, scripts, styles, now);
  }

  /**
   * A second run with the same registries, and no transient expired in
   * between, changes nothing: no transient, no file, no write.
   */
  lemma LocalizeIdempotent(cfg: Config, s: Site, scripts: Registry, styles: Registry, now: int, later: int)
    ensures
      var s' := Localize(cfg, s, scripts, styles, now);
      Localize(cfg, s', scripts, styles, later) == s'
  {
    var files := Manifest(cfg, scripts, styles);
    var version := VersionOf(cfg, s, files);
    var s' := Localize(cfg, s, scripts, styles, now);
    assert s'.transients[ModifiedKey] == version;
    assert s'.transients[VersionKey] == version;
    assert s'.transients[FilesHashKey] == cfg.hash(ListArray(files));
  }

  /**
   * When the three transients already agree with the current inputs, nothing
   * at all happens; in particular nothing is written.
   */
  lemma NothingChangedNothingWritten(cfg: Config, s: Site, scripts: Registry, styles: Registry, now: int)
    requires ModifiedKey in s.transients && VersionKey in s.transients && FilesHashKey in s.transients
    requires s.transients[VersionKey] == s.transients[ModifiedKey]
    requires s.transients[FilesHashKey] == cfg.hash(ListArray(Manifest(cfg, scripts, styles)))
    ensures Localize(cfg, s, scripts, styles, now) == s
  {
  }

  /**
   * As written, once the served script holds a `CACHE_NAME` line, no later
   * run of `localize_assets` changes the name the worker ends up with.
   */
  lemma PublishedCacheNameNeverChanges(cfg: Config, s: Site, scripts: Registry, styles: Registry, now: int, name: string)
    requires ScriptFile(cfg) in s.fs && CacheNameOf(s.fs[ScriptFile(cfg)].contents) == Some(name)
    requires QuoteFree(VersionOf(cfg, s, Manifest(cfg, scripts, styles)))
    ensures
      var s' := Localize(cfg, s, scripts, styles, now);
      ScriptFile(cfg) in s'.fs && CacheNameOf(s'.fs[ScriptFile(cfg)].contents) == Some(name)
  {
    var version := VersionOf(cfg, s, Manifest(cfg, scripts, styles));
    ScriptContentsAfter(cfg, s, scripts, styles, now);
    if VersionChanged(s.transients, version) {
      PrependKeepsName(version, s.fs[ScriptFile(cfg)].contents, name);
    }
  }

  /** The plugin object, holding the transients and files it reads and updates. */
  class ServiceWorkerPublisher {
    const cfg: Config
    var transients: map<string, string>
    var fs: FileSystem
    var writes: seq<string>

    function State(): Site
      reads this
    {
      Site(transients, fs, writes)
    }

    constructor (cfg: Config, transients: map<string, string>, fs: FileSystem)
      ensures this.cfg == cfg && State() == Site(transients, fs, [])
    {
      this.cfg := cfg;
      this.transients := transients;
      this.fs := fs;
      this.writes := [];
    }

    /** `localize_assets`, step by step, for the two dependency registries and the current time. */
    method LocalizeAssets(scripts: Registry, styles: Registry, now: int)
      modifies this
      ensures State() == Localize(cfg, old(State()), scripts, styles, now)
    {
      var scriptAssets := GetAssets(scripts);
      var styleAssets := GetAssets(styles);
      var files := PathsOf(cfg.base, [Url("/")] + scriptAssets + styleAssets);
      assert files == Manifest(cfg, scripts, styles);
      var version := RefreshVersion(files);
      RewriteScript(version, now);
      PublishList(files, now);
    }

    /** Lines 178-186: the version from its transient, or freshly hashed and stored when the transient is absent. */
    method RefreshVersion(files: seq<string>) returns (version: string)
      modifies this
      ensures version == VersionOf(cfg, old(State()), files)
      ensures State() == VersionStep(cfg, old(State()), files)
    {
      if ModifiedKey in transients {
        version := transients[ModifiedKey];
      } else {
        version := cfg.hash(StampArray(Stamps(cfg.absPath, fs, files)));
        transients := transients[ModifiedKey := version];
      }
    }

    /** Lines 188-200: on a version change, prepend the header, copy the script to the root, record the version. */
    method RewriteScript(version: string, now: int)
      modifies this
      ensures State() == ScriptStep(cfg, old(State()), version, now)
    {
      if VersionKey !in transients || version != transients[VersionKey] {
        if ScriptFile(cfg) in fs {
          var jsData := Prepend(version, fs[ScriptFile(cfg)].contents);
          fs := fs[ScriptFile(cfg) := FileEntry(jsData, now)];
          // copy() to the site root
          fs := fs[RootScript(cfg) := FileEntry(jsData, now)];
          writes := writes + [ScriptFile(cfg), RootScript(cfg)];
        }
        transients := transients[VersionKey := version];
      }
    }

    /** Lines 202-207: on a change of the files hash, record it and write the JSON list. */
    method PublishList(files: seq<string>, now: int)
      modifies this
      ensures State() == ManifestStep(cfg, old(State()), files, now)
    {
      var filesHash := cfg.hash(ListArray(files));
      if FilesHashKey !in transients || filesHash != transients[FilesHashKey] {
        transients := transients[FilesHashKey := filesHash];
        fs := fs[ManifestFile(cfg) := FileEntry(cfg.json(files), now)];
        writes := writes + [ManifestFile(cfg)];
      }
    }
  }
}
