/**
 * Where the two halves meet: the list `localize_assets` publishes is the
 * list the worker's install hands to `cache.addAll`, and `addAll` rejects a
 * batch that holds the same request twice. `get_assets` keeps a tribe asset
 * that is both queued and a dependency of another queued tribe asset twice
 * (once as an own source, once as a dependency source), so such a site
 * publishes a list no install can accept.
 */
module ManifestDuplicates {
  import opened Wrappers
  import opened Sequences
  import opened PhpStrings
  import opened Assets
  import opened Publisher
  import opened ServiceWorker

  /** Two queued tribe scripts, the first depending on the second. */
  const SharedDependency: Registry := Registry(
    ["tribe-a", "tribe-b"],
    map["tribe-a" := Dependency(Url("/a.js"), Some(["tribe-b"])),
        "tribe-b" := Dependency(Url("/b.js"), None)])

  /** As written, `get_assets` lists the shared script twice. */
  lemma SharedDependencyListedTwice()
    ensures AssetsOf(SharedDependency) == [Url("/a.js"), Url("/b.js"), Url("/b.js")]
  {
    var reg := SharedDependency.registered;
    var q := SharedDependency.queue;
    assert SrcOf(reg, "tribe-a") == Url("/a.js") && DepsOf(reg, "tribe-a") == Some(["tribe-b"]);
    assert SrcOf(reg, "tribe-b") == Url("/b.js") && DepsOf(reg, "tribe-b") == None;
    assert IsTribe("tribe-a") by { assert IsPrefix("tribe", "tribe-a"); }
    assert IsTribe("tribe-b") by { assert IsPrefix("tribe", "tribe-b"); }
    assert q[..|q| - 1] == ["tribe-a"] && q[|q| - 1] == "tribe-b";
    assert ["tribe-a"][..0] == [] && ["tribe-b"][..0] == [];
    var own := OwnSources(reg, ["tribe-a"]);
    assert own == [Url("/a.js")];
    assert OwnSources(reg, q) == own + [Url("/b.js")];
    assert AddKeys([], ["tribe-b"]) == ["tribe-b"];
    var deps := DepOrder(reg, ["tribe-a"]);
    assert deps == ["tribe-b"];
    assert DepOrder(reg, q) == deps;
    assert TruthySources(reg, deps) == [Url("/b.js")];
  }

  /** Whatever the base URL and the styles, the published list then holds the same path twice. */
  lemma SharedDependencyDuplicatesManifest(cfg: Config, styles: Registry)
    ensures !NoDuplicates(Manifest(cfg, SharedDependency, styles))
  {
    SharedDependencyListedTwice();
    ManifestShape(cfg, SharedDependency, styles);
    assert Manifest(cfg, SharedDependency, styles)[2] == Manifest(cfg, SharedDependency, styles)[3];
  }

  /**
   * As written: when the worker fetches and parses that list, its install
   * fails at `addAll` whatever the network answers for the files, so the
   * worker never installs.
   */
  lemma SharedDependencyFailsInstall(cfg: Config, styles: Registry, st: Storage, cacheName: string,
                                     net: string -> NetResult, parse: string -> Option<seq<string>>)
    requires net(ManifestUrl).Fetched?
    requires parse(net(ManifestUrl).response.body) == Some(Manifest(cfg, SharedDependency, styles))
    ensures InstallEffect(st, cacheName, net, parse).outcome == Fail(CacheAddAllError)
  {
    SharedDependencyDuplicatesManifest(cfg, styles);
  }

  /**
   * `array_values(array_unique(...))` on the list: each path once, at its
   * first position, renumbered so that it stays a JSON array. The keys of an
   * ordered array built from the list are exactly that.
   */
  function Unique(files: seq<string>): (u: seq<string>)
    ensures NoDuplicates(u)
    ensures forall f :: f in u <==> f in files
    ensures NoDuplicates(files) ==> u == files
  {
    UniqueSpec(files);
    AddKeys([], files)
  }

  lemma {:induction false} UniqueSpec(files: seq<string>)
    ensures NoDuplicates(AddKeys([], files))
    ensures forall f :: f in AddKeys([], files) <==> f in files
    ensures NoDuplicates(files) ==> AddKeys([], files) == files
  {
    forall f ensures f in AddKeys([], files) <==> f in files {
      AddKeysSpec([], files, f);
    }
    if files != [] {
      var init := files[..|files| - 1];
      UniqueSpec(init);
      if NoDuplicates(files) {
        assert NoDuplicates(init) by {
          forall i, j | 0 <= i < j < |init| ensures init[i] != init[j] { assert init[i] == files[i] && init[j] == files[j]; }
        }
        assert files[|files| - 1] !in init by {
          forall i | 0 <= i < |init| ensures init[i] != files[|files| - 1] { assert init[i] == files[i]; }
        }
        assert files == init + [files[|files| - 1]];
      }
    } else {
      AddKeysSpec([], files, "");
    }
  }

  /**
   * Corrected: when the published list is the de-duplicated one, install
   * succeeds as soon as the list was fetched and parsed and every file
   * fetched with a status `addAll` accepts, and the new bucket then answers
   * every file of the original list.
   */
  lemma UniqueListInstalls(files: seq<string>, st: Storage, cacheName: string,
                           net: string -> NetResult, parse: string -> Option<seq<string>>, url: string)
    requires net(ManifestUrl).Fetched?
    requires parse(net(ManifestUrl).response.body) == Some(Unique(files))
    requires AllOk(files, net)
    ensures InstallEffect(st, cacheName, net, parse).outcome == Pass
    ensures url in files ==>
      && cacheName in InstallEffect(st, cacheName, net, parse).storage.buckets
      && BucketMatch(InstallEffect(st, cacheName, net, parse).storage.buckets[cacheName], url).Some?
  {
    var u := Unique(files);
    assert AllOk(u, net) by {
      forall i | 0 <= i < |u| ensures net(u[i]).Fetched? && AddableStatus(net(u[i]).response) {
        assert u[i] in u && u[i] in files;
        var j :| 0 <= j < |files| && files[j] == u[i];
      }
    }
    InstallSucceedsIff(st, cacheName, net, parse);
    if url in files {
      InstalledEntriesMatch(st, cacheName, net, parse, url);
    }
  }
}
