/**
 * `get_assets` (index.php): collect the sources of the queued assets whose
 * handle mentions `tribe`, followed by the sources of their dependencies.
 */
module Assets {
  import opened Wrappers
  import opened PhpStrings
  import opened Sequences

  /**
   * The `src` of a registered asset: a URL string, or `false`/`null`
   * (an alias handle, or a lookup of a handle that is not registered).
   */
  datatype Src = Absent | Url(s: string)

  /** A registered asset: its `src` and its `deps`, `None` when `deps` is not an array. */
  datatype Dependency = Dependency(src: Src, deps: Option<seq<string>>)

  /** A `WP_Dependencies` object: the queue of handles and the registered assets. */
  datatype Registry = Registry(queue: seq<string>, registered: map<string, Dependency>)

  /** PHP truthiness of a source: `false`, `null`, `''` and `'0'` are falsy. */
  predicate Truthy(src: Src)
  {
    src.Url? && src.s != "" && src.s != "0"
  }

  /** The handle names a tribe asset: `false !== strpos($asset, 'tribe')`. */
  predicate IsTribe(handle: string)
  {
    Contains(handle, "tribe")
  }

  /** `$registered[$h]->src`; an unregistered handle reads as `null`. */
  function SrcOf(reg: map<string, Dependency>, h: string): Src
  {
    if h in reg then reg[h].src else Absent
  }

  /** `$registered[$h]->deps`; an unregistered handle reads as `null`, which is not an array. */
  function DepsOf(reg: map<string, Dependency>, h: string): Option<seq<string>>
  {
    if h in reg then reg[h].deps else None
  }

  /** `h` is listed in the array `deps` of the registered asset `a`. */
  predicate HasDep(reg: map<string, Dependency>, a: string, h: string)
  {
    DepsOf(reg, a).Some? && h in DepsOf(reg, a).value
  }

  /** The tribe handles of a queue, in queue order. */
  function TribeOnly(q: seq<string>): seq<string>
  {
    if q == [] then []
    else TribeOnly(q[..|q| - 1]) + (if IsTribe(q[|q| - 1]) then [q[|q| - 1]] else [])
  }

  /** The sources `$assets[]` receives for a queue: one per tribe handle, unfiltered. */
  function OwnSources(reg: map<string, Dependency>, q: seq<string>): seq<Src>
  {
    if q == [] then []
    else
      var h := q[|q| - 1];
      OwnSources(reg, q[..|q| - 1]) + (if IsTribe(h) then [SrcOf(reg, h)] else [])
  }

  /**
   * The keys of an ordered PHP array after `$a[$d] = …` for each `d` of `ds`:
   * a key already present keeps its place, a new key goes to the end.
   */
  function AddKeys(keys: seq<string>, ds: seq<string>): seq<string>
  {
    if ds == [] then keys
    else
      var k := AddKeys(keys, ds[..|ds| - 1]);
      if ds[|ds| - 1] in k then k else k + [ds[|ds| - 1]]
  }

  /** The keys of `$dependencies` after the outer loop has visited the queue `q`. */
  function DepOrder(reg: map<string, Dependency>, q: seq<string>): seq<string>
  {
    if q == [] then []
    else
      var h := q[|q| - 1];
      var prev := DepOrder(reg, q[..|q| - 1]);
      if IsTribe(h) && DepsOf(reg, h).Some? then AddKeys(prev, DepsOf(reg, h).value) else prev
  }

  /** `array_filter(array_values($dependencies))`: the truthy sources, in key order. */
  function TruthySources(reg: map<string, Dependency>, keys: seq<string>): seq<Src>
  {
    if keys == [] then []
    else
      var src := SrcOf(reg, keys[|keys| - 1]);
      TruthySources(reg, keys[..|keys| - 1]) + (if Truthy(src) then [src] else [])
  }

  /** The keys whose source is truthy, in key order. */
  function TruthyKeys(reg: map<string, Dependency>, keys: seq<string>): seq<string>
  {
    if keys == [] then []
    else
      var h := keys[|keys| - 1];
      TruthyKeys(reg, keys[..|keys| - 1]) + (if Truthy(SrcOf(reg, h)) then [h] else [])
  }

  /** The sources of a list of handles, one each, in the same order. */
  function SrcsOf(reg: map<string, Dependency>, hs: seq<string>): (srcs: seq<Src>)
    ensures |srcs| == |hs|
    ensures forall i :: 0 <= i < |hs| ==> srcs[i] == SrcOf(reg, hs[i])
  {
    seq(|hs|, i requires 0 <= i < |hs| => SrcOf(reg, hs[i]))
  }

  /** What `get_assets` returns: own sources first, then the kept dependency sources. */
  function AssetsOf(r: Registry): seq<Src>
  {
    OwnSources(r.registered, r.queue) + TruthySources(r.registered, DepOrder(r.registered, r.queue))
  }

  /**
   * `get_assets`: the two nested `foreach` loops filling `$assets` and the
   * ordered array `$dependencies`, then the filter and the merge.
   */
  method GetAssets(r: Registry) returns (result: seq<Src>)
    ensures result == AssetsOf(r)
  {
    var reg := r.registered;
    var assets: seq<Src> := [];
    var depKeys: seq<string> := [];
    var depSrc: map<string, Src> := map[];
    var i := 0;
    while i < |r.queue|
      invariant 0 <= i <= |r.queue|
      invariant assets == OwnSources(reg, r.queue[..i])
      invariant depKeys == DepOrder(reg, r.queue[..i])
      invariant depSrc.Keys == set k | k in depKeys
      invariant forall k :: k in depSrc ==> depSrc[k] == SrcOf(reg, k)
    {
      var asset := r.queue[i];
      assert r.queue[..i + 1][..i] == r.queue[..i];
      if Contains(asset, "tribe") {
        assets := assets + [SrcOf(reg, asset)];
        var assetDeps := DepsOf(reg, asset);
        if assetDeps.Some? {
          var ds := assetDeps.value;
          var j := 0;
          ghost var before := depKeys;
          while j < |ds|
            invariant 0 <= j <= |ds|
            invariant depKeys == AddKeys(before, ds[..j])
            invariant depSrc.Keys == set k | k in depKeys
            invariant forall k :: k in depSrc ==> depSrc[k] == SrcOf(reg, k)
          {
            assert ds[..j + 1][..j] == ds[..j];
            var dependency := ds[j];
            if dependency !in depSrc {
              depKeys := depKeys + [dependency];
            }
            depSrc := depSrc[dependency := SrcOf(reg, dependency)];
            j := j + 1;
          }
          assert ds[..j] == ds;
        }
      }
      i := i + 1;
    }
    assert r.queue[..i] == r.queue;
    var values := ValuesOf(depSrc, depKeys);
    var kept := FilterTruthy(values);
    result := assets + kept;
    ValuesAreSources(reg, depSrc, depKeys);
  }

  /** `array_values`: the values of an ordered array, in key order. */
  function ValuesOf(m: map<string, Src>, keys: seq<string>): (vs: seq<Src>)
    requires forall k :: k in keys ==> k in m
    ensures |vs| == |keys|
    ensures forall i :: 0 <= i < |keys| ==> vs[i] == m[keys[i]]
  {
    if keys == [] then [] else ValuesOf(m, keys[..|keys| - 1]) + [m[keys[|keys| - 1]]]
  }

  /** `array_filter` with no callback: drops the falsy values, keeps the order. */
  function FilterTruthy(vs: seq<Src>): (kept: seq<Src>)
    ensures forall x :: x in kept <==> Truthy(x) && x in vs
  {
    if vs == [] then [] else FilterTruthy(vs[..|vs| - 1]) + (if Truthy(vs[|vs| - 1]) then [vs[|vs| - 1]] else [])
  }

  /**
   * The filter works element by element and keeps the order: filtering two
   * pieces and joining the results is filtering the whole.
   */
  lemma {:induction false} FilterTruthyAppend(a: seq<Src>, b: seq<Src>)
    ensures FilterTruthy(a + b) == FilterTruthy(a) + FilterTruthy(b)
  {
    if b == [] {
      assert a + b == a;
    } else {
      var init := b[..|b| - 1];
      FilterTruthyAppend(a, init);
      assert (a + b)[..|a + b| - 1] == a + init;
      assert (a + b)[|a + b| - 1] == b[|b| - 1];
    }
  }

  lemma {:induction false} ValuesAreSources(reg: map<string, Dependency>, m: map<string, Src>, keys: seq<string>)
    requires forall k :: k in keys ==> k in m
    requires forall k :: k in m ==> m[k] == SrcOf(reg, k)
    ensures FilterTruthy(ValuesOf(m, keys)) == TruthySources(reg, keys)
  {
    if keys != [] {
      var init := keys[..|keys| - 1];
      ValuesAreSources(reg, m, init);
      var vs := ValuesOf(m, keys);
      assert vs[..|vs| - 1] == ValuesOf(m, init);
    }
  }

  /** The tribe handles are exactly the queued handles that mention `tribe`. */
  lemma {:induction false} TribeOnlyMembers(q: seq<string>, h: string)
    ensures h in TribeOnly(q) <==> h in q && IsTribe(h)
  {
    if q != [] {
      TribeOnlyMembers(q[..|q| - 1], h);
      assert q == q[..|q| - 1] + [q[|q| - 1]];
    }
  }

  lemma {:induction false} OwnSourcesAreTribeSources(reg: map<string, Dependency>, q: seq<string>)
    ensures |OwnSources(reg, q)| == |TribeOnly(q)|
    ensures forall i :: 0 <= i < |TribeOnly(q)| ==> OwnSources(reg, q)[i] == SrcOf(reg, TribeOnly(q)[i])
  {
    if q != [] {
      OwnSourcesAreTribeSources(reg, q[..|q| - 1]);
    }
  }

  /**
   * The result begins with one source per queued tribe handle, in queue
   * order and unfiltered (a falsy own source is kept).
   */
  lemma OwnSourcesFirst(r: Registry)
    ensures |AssetsOf(r)| >= |TribeOnly(r.queue)|
    ensures forall i :: 0 <= i < |TribeOnly(r.queue)| ==> AssetsOf(r)[i] == SrcOf(r.registered, TribeOnly(r.queue)[i])
  {
    OwnSourcesAreTribeSources(r.registered, r.queue);
  }

  /** Handles without `tribe` contribute nothing: dropping them from the queue changes no result. */
  lemma {:induction false} NonTribeHandlesIgnored(r: Registry)
    ensures AssetsOf(r) == AssetsOf(Registry(TribeOnly(r.queue), r.registered))
  {
    OwnSourcesIgnoreNonTribe(r.registered, r.queue);
    DepOrderIgnoresNonTribe(r.registered, r.queue);
  }

  lemma {:induction false} OwnSourcesIgnoreNonTribe(reg: map<string, Dependency>, q: seq<string>)
    ensures OwnSources(reg, q) == OwnSources(reg, TribeOnly(q))
  {
    if q != [] {
      var init := q[..|q| - 1];
      OwnSourcesIgnoreNonTribe(reg, init);
      var t := TribeOnly(q);
      if IsTribe(q[|q| - 1]) {
        assert t == TribeOnly(init) + [q[|q| - 1]];
        assert t[..|t| - 1] == TribeOnly(init) && t[|t| - 1] == q[|q| - 1];
        assert OwnSources(reg, t) == OwnSources(reg, TribeOnly(init)) + [SrcOf(reg, q[|q| - 1])];
      } else {
        assert t == TribeOnly(init);
      }
    }
  }

  lemma {:induction false} DepOrderIgnoresNonTribe(reg: map<string, Dependency>, q: seq<string>)
    ensures DepOrder(reg, q) == DepOrder(reg, TribeOnly(q))
  {
    if q != [] {
      var init := q[..|q| - 1];
      DepOrderIgnoresNonTribe(reg, init);
      var t := TribeOnly(q);
      if IsTribe(q[|q| - 1]) {
        assert t == TribeOnly(init) + [q[|q| - 1]];
        assert t[..|t| - 1] == TribeOnly(init) && t[|t| - 1] == q[|q| - 1];
      } else {
        assert t == TribeOnly(init);
      }
    }
  }

  lemma {:induction false} AddKeysSpec(keys: seq<string>, ds: seq<string>, h: string)
    requires NoDuplicates(keys)
    ensures NoDuplicates(AddKeys(keys, ds))
    ensures h in AddKeys(keys, ds) <==> h in keys || h in ds
    ensures keys <= AddKeys(keys, ds)
  {
    if ds != [] {
      var init := ds[..|ds| - 1];
      AddKeysSpec(keys, init, h);
      AddKeysSpec(keys, init, ds[|ds| - 1]);
      assert ds == init + [ds[|ds| - 1]];
    }
  }

  /**
   * A dependency shared by several tribe assets is keyed by its handle, so
   * it appears once among the dependency keys.
   */
  lemma {:induction false} DepOrderNoDuplicates(reg: map<string, Dependency>, q: seq<string>)
    ensures NoDuplicates(DepOrder(reg, q))
  {
    if q != [] {
      var h := q[|q| - 1];
      DepOrderNoDuplicates(reg, q[..|q| - 1]);
      if IsTribe(h) && DepsOf(reg, h).Some? {
        AddKeysSpec(DepOrder(reg, q[..|q| - 1]), DepsOf(reg, h).value, h);
      }
    }
  }

  /**
   * A handle is a dependency key exactly when a queued tribe asset whose
   * `deps` is an array lists it.
   */
  lemma {:induction false} DepOrderMembers(reg: map<string, Dependency>, q: seq<string>, d: string)
    ensures d in DepOrder(reg, q) <==> exists i :: 0 <= i < |q| && IsTribe(q[i]) && HasDep(reg, q[i], d)
  {
    if q != [] {
      var init := q[..|q| - 1];
      var h := q[|q| - 1];
      DepOrderMembers(reg, init, d);
      DepOrderNoDuplicates(reg, init);
      if IsTribe(h) && DepsOf(reg, h).Some? {
        AddKeysSpec(DepOrder(reg, init), DepsOf(reg, h).value, d);
      }
      if exists i :: 0 <= i < |q| && IsTribe(q[i]) && HasDep(reg, q[i], d) {
        var i :| 0 <= i < |q| && IsTribe(q[i]) && HasDep(reg, q[i], d);
        if i < |q| - 1 {
          assert init[i] == q[i];
        }
      }
      if exists i :: 0 <= i < |init| && IsTribe(init[i]) && HasDep(reg, init[i], d) {
        var i :| 0 <= i < |init| && IsTribe(init[i]) && HasDep(reg, init[i], d);
        assert q[i] == init[i];
      }
    }
  }

  /**
   * The dependency sources kept are the truthy sources of the dependency
   * keys: exactly one entry per key with a truthy source, in key order (and,
   * the keys being distinct, no key twice); none is falsy, each comes from a
   * key, and each key with a truthy source contributes it.
   */
  lemma {:induction false} TruthySourcesSpec(reg: map<string, Dependency>, keys: seq<string>)
    ensures TruthySources(reg, keys) == SrcsOf(reg, TruthyKeys(reg, keys))
    ensures forall h :: h in TruthyKeys(reg, keys) <==> h in keys && Truthy(SrcOf(reg, h))
    ensures NoDuplicates(keys) ==> NoDuplicates(TruthyKeys(reg, keys))
    ensures |TruthySources(reg, keys)| <= |keys|
    ensures forall x :: x in TruthySources(reg, keys) ==> Truthy(x) && exists h :: h in keys && x == SrcOf(reg, h)
    ensures forall h :: h in keys && Truthy(SrcOf(reg, h)) ==> SrcOf(reg, h) in TruthySources(reg, keys)
  {
    TruthySourcesOfTruthyKeys(reg, keys);
    forall h ensures h in TruthyKeys(reg, keys) <==> h in keys && Truthy(SrcOf(reg, h)) {
      TruthyKeysMembers(reg, keys, h);
    }
    if NoDuplicates(keys) {
      TruthyKeysDistinct(reg, keys);
    }
    TruthySourcesMembers(reg, keys);
  }

  /** A key is kept by the truthy-key filter exactly when it is a key with a truthy source. */
  lemma {:induction false} TruthyKeysMembers(reg: map<string, Dependency>, keys: seq<string>, h: string)
    ensures h in TruthyKeys(reg, keys) <==> h in keys && Truthy(SrcOf(reg, h))
  {
    if keys != [] {
      var init := keys[..|keys| - 1];
      TruthyKeysMembers(reg, init, h);
      assert keys == init + [keys[|keys| - 1]];
    }
  }

  lemma {:induction false} TruthySourcesOfTruthyKeys(reg: map<string, Dependency>, keys: seq<string>)
    ensures TruthySources(reg, keys) == SrcsOf(reg, TruthyKeys(reg, keys))
  {
    if keys != [] {
      var init := keys[..|keys| - 1];
      var last := keys[|keys| - 1];
      TruthySourcesOfTruthyKeys(reg, init);
      var hs := TruthyKeys(reg, keys);
      if Truthy(SrcOf(reg, last)) {
        assert hs == TruthyKeys(reg, init) + [last];
        assert SrcsOf(reg, hs) == SrcsOf(reg, TruthyKeys(reg, init)) + [SrcOf(reg, last)];
      } else {
        assert hs == TruthyKeys(reg, init);
      }
    }
  }

  lemma {:induction false} TruthyKeysDistinct(reg: map<string, Dependency>, keys: seq<string>)
    requires NoDuplicates(keys)
    ensures NoDuplicates(TruthyKeys(reg, keys))
  {
    if keys != [] {
      var init := keys[..|keys| - 1];
      var last := keys[|keys| - 1];
      assert NoDuplicates(init) by {
        forall i, j | 0 <= i < j < |init| ensures init[i] != init[j] { assert init[i] == keys[i] && init[j] == keys[j]; }
      }
      assert last !in init by {
        forall i | 0 <= i < |init| ensures init[i] != last { assert init[i] == keys[i]; }
      }
      TruthyKeysDistinct(reg, init);
      TruthyKeysMembers(reg, init, last);
      if Truthy(SrcOf(reg, last)) {
        var hs := TruthyKeys(reg, keys);
        assert hs == TruthyKeys(reg, init) + [last];
        forall i, j | 0 <= i < j < |hs| ensures hs[i] != hs[j] {
          if j == |hs| - 1 { assert hs[i] in TruthyKeys(reg, init); }
        }
      }
    }
  }

  lemma {:induction false} TruthySourcesMembers(reg: map<string, Dependency>, keys: seq<string>)
    ensures |TruthySources(reg, keys)| <= |keys|
    ensures forall x :: x in TruthySources(reg, keys) ==> Truthy(x) && exists h :: h in keys && x == SrcOf(reg, h)
    ensures forall h :: h in keys && Truthy(SrcOf(reg, h)) ==> SrcOf(reg, h) in TruthySources(reg, keys)
  {
    if keys != [] {
      var init := keys[..|keys| - 1];
      TruthySourcesMembers(reg, init);
      assert keys == init + [keys[|keys| - 1]];
      forall x | x in TruthySources(reg, keys)
        ensures Truthy(x) && exists h :: h in keys && x == SrcOf(reg, h)
      {
        if x in TruthySources(reg, init) {
          var h :| h in init && x == SrcOf(reg, h);
          assert h in keys;
        } else {
          assert x == SrcOf(reg, keys[|keys| - 1]);
        }
      }
    }
  }

  /** The filter that keeps the truthy keys keeps their order: it distributes over joining key lists. */
  lemma {:induction false} TruthyKeysAppend(reg: map<string, Dependency>, a: seq<string>, b: seq<string>)
    ensures TruthyKeys(reg, a + b) == TruthyKeys(reg, a) + TruthyKeys(reg, b)
  {
    if b == [] {
      assert a + b == a;
    } else {
      var init := b[..|b| - 1];
      TruthyKeysAppend(reg, a, init);
      assert (a + b)[..|a + b| - 1] == a + init;
      assert (a + b)[|a + b| - 1] == b[|b| - 1];
    }
  }

  /**
   * After the own sources comes one source per dependency key whose source
   * is truthy, in key order, each key once.
   */
  lemma DependencySourcesFollow(r: Registry)
    ensures AssetsOf(r)[|OwnSources(r.registered, r.queue)|..] == TruthySources(r.registered, DepOrder(r.registered, r.queue))
    ensures AssetsOf(r)[|OwnSources(r.registered, r.queue)|..]
      == SrcsOf(r.registered, TruthyKeys(r.registered, DepOrder(r.registered, r.queue)))
    ensures NoDuplicates(TruthyKeys(r.registered, DepOrder(r.registered, r.queue)))
    ensures forall x :: x in AssetsOf(r)[|OwnSources(r.registered, r.queue)|..] ==> Truthy(x)
  {
    DepOrderNoDuplicates(r.registered, r.queue);
    TruthySourcesSpec(r.registered, DepOrder(r.registered, r.queue));
  }
}
