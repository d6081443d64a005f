/**
 * The service worker (js/tribe-sw.js): the install sequence that fills the
 * bucket named `CACHE_NAME` from the published list, the cache-first fetch
 * rule with network fallback, and activation.
 *
 * Cache storage follows section 5.4 "Cache" and 5.5 "CacheStorage" of the
 * W3C Service Workers specification, reduced to what the worker uses: named
 * buckets in creation order, `addAll`, and `match` with `ignoreSearch`.
 */
module ServiceWorker {
  import opened Wrappers
  import opened Sequences

  /** A response: its HTTP status and its body. */
  datatype Response = Response(status: int, body: string)

  /**
   * A status `addAll` accepts: an ok status (200 to 299) other than 206, the
   * partial content a range request gets.
   */
  predicate AddableStatus(r: Response)
  {
    200 <= r.status <= 299 && r.status != 206
  }

  /** What `fetch(url)` settles to: a response (of any status) or a network error. */
  datatype NetResult = Fetched(response: Response) | NetworkError

  /** A request as the fetch event carries it: its method and its URL. */
  datatype Request = Request(httpMethod: string, url: string)

  /** One bucket: responses by request URL, the query string stripped. */
  type Bucket = map<string, Response>

  /** The origin's cache storage: bucket names in creation order, and the buckets. */
  datatype Storage = Storage(names: seq<string>, buckets: map<string, Bucket>)

  /** Every name is listed once and names a bucket, and every bucket is listed. */
  ghost predicate ValidStorage(st: Storage)
  {
    && (forall i, j :: 0 <= i < j < |st.names| ==> st.names[i] != st.names[j])
    && (forall n :: n in st.names <==> n in st.buckets)
  }

  /** The URL with its query string (from the first `?` on) removed. */
  function StripQuery(url: string): (r: string)
    ensures |r| <= |url| && r == url[..|r|]
    ensures '?' !in r
    ensures |r| < |url| ==> url[|r|] == '?'
  {
    if url == [] || url[0] == '?' then []
    else
      var rest := StripQuery(url[1..]);
      assert url[..1 + |rest|] == [url[0]] + url[1..][..|rest|];
      [url[0]] + rest
  }

  /** A URL without `?` is its own stripped form, whatever query follows it. */
  lemma {:induction false} StripQueryOf(path: string, query: string)
    requires '?' !in path
    ensures StripQuery(path) == path
    ensures StripQuery(path + "?" + query) == path
  {
    if path != [] {
      StripQueryOf(path[1..], query);
      assert (path + "?" + query)[1..] == path[1..] + "?" + query;
    }
  }

  /** `cache.match(url, {ignoreSearch: true})` on one bucket. */
  function BucketMatch(b: Bucket, url: string): Option<Response>
  {
    var key := StripQuery(url);
    if key in b then Some(b[key]) else None
  }

  /** The search `caches.match` makes for a GET: the first bucket, in creation order, that matches the URL. */
  function StorageMatch(names: seq<string>, buckets: map<string, Bucket>, url: string): Option<Response>
  {
    if names == [] then None
    else if names[0] in buckets && BucketMatch(buckets[names[0]], url).Some? then BucketMatch(buckets[names[0]], url)
    else StorageMatch(names[1..], buckets, url)
  }

  /**
   * `caches.match` answers from the first bucket that holds the URL, and
   * answers nothing exactly when no bucket holds it.
   */
  lemma {:induction false} StorageMatchSpec(names: seq<string>, buckets: map<string, Bucket>, url: string)
    ensures StorageMatch(names, buckets, url).None? <==>
      forall i :: 0 <= i < |names| && names[i] in buckets ==> BucketMatch(buckets[names[i]], url).None?
    ensures StorageMatch(names, buckets, url).Some? ==>
      exists i :: 0 <= i < |names| && names[i] in buckets
        && BucketMatch(buckets[names[i]], url) == StorageMatch(names, buckets, url)
        && forall j :: 0 <= j < i && names[j] in buckets ==> BucketMatch(buckets[names[j]], url).None?
  {
    if names != [] {
      StorageMatchSpec(names[1..], buckets, url);
      if !(names[0] in buckets && BucketMatch(buckets[names[0]], url).Some?) {
        if StorageMatch(names, buckets, url).Some? {
          var i :| 0 <= i < |names[1..]| && names[1..][i] in buckets
            && BucketMatch(buckets[names[1..][i]], url) == StorageMatch(names, buckets, url)
            && forall j :: 0 <= j < i && names[1..][j] in buckets ==> BucketMatch(buckets[names[1..][j]], url).None?;
          assert names[i + 1] == names[1..][i];
          forall j | 0 <= j < i + 1 && names[j] in buckets
            ensures BucketMatch(buckets[names[j]], url).None?
          {
            if j > 0 { assert names[j] == names[1..][j - 1]; }
          }
        } else {
          forall i | 0 <= i < |names| && names[i] in buckets
            ensures BucketMatch(buckets[names[i]], url).None?
          {
            if i > 0 { assert names[i] == names[1..][i - 1]; }
          }
        }
      }
    }
  }

  /**
   * `caches.match(request, {ignoreSearch: true})`: a request whose method is
   * not GET matches nothing; a GET searches the buckets by its URL.
   */
  function CachesMatch(st: Storage, request: Request): Option<Response>
  {
    if request.httpMethod == "GET" then StorageMatch(st.names, st.buckets, request.url) else None
  }

  /**
   * `caches.match` answers a GET from the first bucket that holds its URL,
   * and answers nothing exactly when the method is not GET or no bucket
   * holds the URL.
   */
  lemma CachesMatchSpec(st: Storage, request: Request)
    ensures CachesMatch(st, request).None? <==>
      || request.httpMethod != "GET"
      || forall i :: 0 <= i < |st.names| && st.names[i] in st.buckets ==> BucketMatch(st.buckets[st.names[i]], request.url).None?
    ensures CachesMatch(st, request).Some? ==>
      && request.httpMethod == "GET"
      && (exists i :: 0 <= i < |st.names| && st.names[i] in st.buckets
            && BucketMatch(st.buckets[st.names[i]], request.url) == CachesMatch(st, request)
            && forall j :: 0 <= j < i && st.names[j] in st.buckets ==> BucketMatch(st.buckets[st.names[j]], request.url).None?)
  {
    StorageMatchSpec(st.names, st.buckets, request.url);
  }

  /** Requests that differ only in their query string get the same answer from the cache. */
  lemma QueryIgnored(st: Storage, path: string, q1: string, q2: string)
    requires '?' !in path
    ensures StorageMatch(st.names, st.buckets, path + "?" + q1) == StorageMatch(st.names, st.buckets, path + "?" + q2)
    ensures StorageMatch(st.names, st.buckets, path + "?" + q1) == StorageMatch(st.names, st.buckets, path)
  {
    StripQueryOf(path, q1);
    StripQueryOf(path, q2);
    MatchByStrippedUrl(st.names, st.buckets, path + "?" + q1, path);
    MatchByStrippedUrl(st.names, st.buckets, path + "?" + q2, path);
  }

  lemma {:induction false} MatchByStrippedUrl(names: seq<string>, buckets: map<string, Bucket>, u1: string, u2: string)
    requires StripQuery(u1) == StripQuery(u2)
    ensures StorageMatch(names, buckets, u1) == StorageMatch(names, buckets, u2)
  {
    if names != [] { MatchByStrippedUrl(names[1..], buckets, u1, u2); }
  }

  /** `caches.open(name)`: the bucket of that name, created empty (and listed last) when absent. */
  function Open(st: Storage, name: string): (r: Storage)
    ensures name in r.buckets
  {
    if name in st.buckets then st
    else Storage(st.names + [name], st.buckets[name := map[]])
  }

  /** Every URL of the list fetches to a response with an ok status. */
  predicate AllOk(urls: seq<string>, net: string -> NetResult)
  {
    forall i :: 0 <= i < |urls| ==> net(urls[i]).Fetched? && AddableStatus(net(urls[i]).response)
  }

  /** The batch of puts `addAll` commits: each URL's response, a later URL winning over an earlier one. */
  function PutAll(b: Bucket, urls: seq<string>, net: string -> NetResult): Bucket
    requires AllOk(urls, net)
  {
    if urls == [] then b
    else
      var u := urls[|urls| - 1];
      PutAll(b, urls[..|urls| - 1], net)[StripQuery(u) := net(u).response]
  }

  /**
   * `cache.addAll(urls)`: all the responses, or nothing at all when one
   * fetch fails or has a status it does not accept, or when the batch holds
   * the same request twice (the batch cache operations throw
   * `InvalidStateError` then).
   */
  function AddAll(b: Bucket, urls: seq<string>, net: string -> NetResult): Option<Bucket>
  {
    if AllOk(urls, net) && NoDuplicates(urls) then Some(PutAll(b, urls, net)) else None
  }

  /** The stripped forms of a list of URLs: the keys the puts write. */
  function KeysOf(urls: seq<string>): (keys: seq<string>)
    ensures |keys| == |urls|
    ensures forall i :: 0 <= i < |urls| ==> keys[i] == StripQuery(urls[i])
  {
    seq(|urls|, i requires 0 <= i < |urls| => StripQuery(urls[i]))
  }

  lemma AllOkPrefix(urls: seq<string>, net: string -> NetResult)
    requires AllOk(urls, net) && urls != []
    ensures AllOk(urls[..|urls| - 1], net)
  {
    var init := urls[..|urls| - 1];
    forall i | 0 <= i < |init| ensures net(init[i]).Fetched? && AddableStatus(net(init[i]).response) {
      assert init[i] == urls[i];
    }
  }

  lemma KeysOfPrefix(urls: seq<string>)
    requires urls != []
    ensures KeysOf(urls) == KeysOf(urls[..|urls| - 1]) + [StripQuery(urls[|urls| - 1])]
  {
  }

  /** After the puts, the bucket's keys are its old keys and the stripped URLs of the list. */
  lemma {:induction false} PutAllKeys(b: Bucket, urls: seq<string>, net: string -> NetResult, k: string)
    requires AllOk(urls, net)
    ensures k in PutAll(b, urls, net) <==> k in b || k in KeysOf(urls)
  {
    if urls != [] {
      AllOkPrefix(urls, net);
      KeysOfPrefix(urls);
      PutAllKeys(b, urls[..|urls| - 1], net, k);
    }
  }

  /** Entries whose key the list does not write are left as they were. */
  lemma {:induction false} PutAllUntouched(b: Bucket, urls: seq<string>, net: string -> NetResult, k: string)
    requires AllOk(urls, net) && k in b && k !in KeysOf(urls)
    ensures k in PutAll(b, urls, net) && PutAll(b, urls, net)[k] == b[k]
  {
    if urls != [] {
      AllOkPrefix(urls, net);
      KeysOfPrefix(urls);
      PutAllUntouched(b, urls[..|urls| - 1], net, k);
    }
  }

  /** An entry whose key the list writes holds the response of a listed URL with that stripped form. */
  lemma {:induction false} PutAllWritten(b: Bucket, urls: seq<string>, net: string -> NetResult, k: string)
    requires AllOk(urls, net) && k in KeysOf(urls)
    ensures k in PutAll(b, urls, net)
    ensures exists i :: 0 <= i < |urls| && StripQuery(urls[i]) == k && PutAll(b, urls, net)[k] == net(urls[i]).response
  {
    var init := urls[..|urls| - 1];
    AllOkPrefix(urls, net);
    KeysOfPrefix(urls);
    if StripQuery(urls[|urls| - 1]) != k {
      PutAllWritten(b, init, net, k);
      var i :| 0 <= i < |init| && StripQuery(init[i]) == k && PutAll(b, init, net)[k] == net(init[i]).response;
      assert urls[i] == init[i];
    }
  }

  /** Whatever the bucket before, the puts leave the same response under every key they write. */
  lemma {:induction false} PutAllSameWritten(b1: Bucket, b2: Bucket, urls: seq<string>, net: string -> NetResult, k: string)
    requires AllOk(urls, net) && k in KeysOf(urls)
    ensures k in PutAll(b1, urls, net) && k in PutAll(b2, urls, net)
    ensures PutAll(b1, urls, net)[k] == PutAll(b2, urls, net)[k]
  {
    AllOkPrefix(urls, net);
    KeysOfPrefix(urls);
    if StripQuery(urls[|urls| - 1]) != k {
      PutAllSameWritten(b1, b2, urls[..|urls| - 1], net, k);
    }
  }

  /** Adding the same list twice leaves what adding it once leaves. */
  lemma PutAllTwice(b: Bucket, urls: seq<string>, net: string -> NetResult)
    requires AllOk(urls, net)
    ensures PutAll(PutAll(b, urls, net), urls, net) == PutAll(b, urls, net)
  {
    var once := PutAll(b, urls, net);
    var twice := PutAll(once, urls, net);
    forall k ensures k in twice <==> k in once {
      PutAllKeys(b, urls, net, k);
      PutAllKeys(once, urls, net, k);
    }
    forall k | k in once ensures twice[k] == once[k] {
      PutAllKeys(once, urls, net, k);
      if k in KeysOf(urls) {
        PutAllSameWritten(b, once, urls, net, k);
      } else {
        PutAllUntouched(once, urls, net, k);
      }
    }
  }

  /** The install failures, each fatal to the install attempt. */
  datatype InstallError = ManifestFetchError | ManifestParseError | CacheAddAllError

  /** The list of files to cache, fetched relative to the worker's own URL. */
  const ManifestUrl: string := "tribe-files-to-cache.json"

  /** What an install attempt leaves: the storage, and how the `waitUntil` promise settled. */
  datatype InstallResult = InstallResult(storage: Storage, outcome: Outcome<InstallError>)

  /**
   * The install handler: open the bucket, fetch the list, parse it, add all
   * its entries; the first step that fails settles the attempt. `parse`
   * stands for `response.json()` resolving to a list of strings.
   */
  function InstallEffect(st: Storage, cacheName: string, net: string -> NetResult,
                         parse: string -> Option<seq<string>>): InstallResult
  {
    var withBucket := Open(st, cacheName);
    match net(ManifestUrl)
    case NetworkError => InstallResult(withBucket, Fail(ManifestFetchError))
    case Fetched(resp) =>
      match parse(resp.body)
      case None => InstallResult(withBucket, Fail(ManifestParseError))
      case Some(files) =>
        match AddAll(withBucket.buckets[cacheName], files, net)
        case None => InstallResult(withBucket, Fail(CacheAddAllError))
        case Some(b) => InstallResult(withBucket.(buckets := withBucket.buckets[cacheName := b]), Pass)
  }

  /**
   * Install succeeds exactly when the list was fetched (whatever its
   * status: the code does not look at it), parsed, holds no URL twice, and
   * every entry was fetched with a status `addAll` accepts.
   */
  lemma InstallSucceedsIff(st: Storage, cacheName: string, net: string -> NetResult, parse: string -> Option<seq<string>>)
    ensures InstallEffect(st, cacheName, net, parse).outcome.Pass? <==>
      && net(ManifestUrl).Fetched?
      && parse(net(ManifestUrl).response.body).Some?
      && AllOk(parse(net(ManifestUrl).response.body).value, net)
      && NoDuplicates(parse(net(ManifestUrl).response.body).value)
  {
  }

  /**
   * A successful install leaves the bucket `cacheName` answering every
   * entry of the parsed list.
   */
  lemma InstalledEntriesMatch(st: Storage, cacheName: string, net: string -> NetResult,
                              parse: string -> Option<seq<string>>, url: string)
    requires InstallEffect(st, cacheName, net, parse).outcome.Pass?
    requires url in parse(net(ManifestUrl).response.body).value
    ensures cacheName in InstallEffect(st, cacheName, net, parse).storage.buckets
    ensures BucketMatch(InstallEffect(st, cacheName, net, parse).storage.buckets[cacheName], url).Some?
  {
    var files := parse(net(ManifestUrl).response.body).value;
    var i :| 0 <= i < |files| && files[i] == url;
    PutAllKeys(Open(st, cacheName).buckets[cacheName], files, net, StripQuery(url));
  }

  /**
   * A failed install stores nothing: every bucket is as it was, except that
   * the bucket `cacheName` exists afterwards, empty if it is new.
   */
  lemma FailedInstallStoresNothing(st: Storage, cacheName: string, net: string -> NetResult,
                                   parse: string -> Option<seq<string>>)
    requires InstallEffect(st, cacheName, net, parse).outcome.Fail?
    ensures InstallEffect(st, cacheName, net, parse).storage == Open(st, cacheName)
    ensures cacheName !in st.buckets ==> InstallEffect(st, cacheName, net, parse).storage.buckets[cacheName] == map[]
    ensures forall n :: n in st.buckets ==> InstallEffect(st, cacheName, net, parse).storage.buckets[n] == st.buckets[n]
  {
  }

  /**
   * Install never deletes or alters another version's bucket: the names are
   * kept in order (at most the new one is appended) and every other bucket
   * is unchanged.
   */
  lemma InstallIsolatesVersions(st: Storage, cacheName: string, net: string -> NetResult,
                                parse: string -> Option<seq<string>>)
    ensures st.names <= InstallEffect(st, cacheName, net, parse).storage.names
    ensures InstallEffect(st, cacheName, net, parse).storage.names
      == if cacheName in st.buckets then st.names else st.names + [cacheName]
    ensures forall n :: n in st.buckets && n != cacheName ==>
      n in InstallEffect(st, cacheName, net, parse).storage.buckets
      && InstallEffect(st, cacheName, net, parse).storage.buckets[n] == st.buckets[n]
  {
  }

  /** Install keeps the storage well formed. */
  lemma InstallKeepsValid(st: Storage, cacheName: string, net: string -> NetResult,
                          parse: string -> Option<seq<string>>)
    requires ValidStorage(st)
    ensures ValidStorage(InstallEffect(st, cacheName, net, parse).storage)
  {
    var r := InstallEffect(st, cacheName, net, parse).storage;
    if cacheName !in st.buckets {
      assert cacheName !in st.names;
      forall i, j | 0 <= i < j < |r.names| ensures r.names[i] != r.names[j] {
        if j == |st.names| { assert r.names[i] == st.names[i] && r.names[i] in st.names; }
      }
    }
  }

  /** Installing twice with the same list and network leaves the same storage as installing once. */
  lemma InstallIdempotent(st: Storage, cacheName: string, net: string -> NetResult,
                          parse: string -> Option<seq<string>>)
    ensures
      var once := InstallEffect(st, cacheName, net, parse);
      InstallEffect(once.storage, cacheName, net, parse) == once
  {
    var withBucket := Open(st, cacheName);
    if net(ManifestUrl).Fetched? && parse(net(ManifestUrl).response.body).Some? {
      var files := parse(net(ManifestUrl).response.body).value;
      if AllOk(files, net) && NoDuplicates(files) {
        PutAllTwice(withBucket.buckets[cacheName], files, net);
      }
    }
  }

  /**
   * A new version's bucket goes last, so for any URL an older bucket already
   * answers, `caches.match` keeps answering from the older bucket.
   */
  lemma OlderBucketShadowsNew(st: Storage, cacheName: string, net: string -> NetResult,
                              parse: string -> Option<seq<string>>, url: string)
    requires ValidStorage(st) && cacheName !in st.buckets
    requires StorageMatch(st.names, st.buckets, url).Some?
    ensures
      var st' := InstallEffect(st, cacheName, net, parse).storage;
      StorageMatch(st'.names, st'.buckets, url) == StorageMatch(st.names, st.buckets, url)
  {
    var st' := InstallEffect(st, cacheName, net, parse).storage;
    MatchAppended(st.names, st.buckets, st'.buckets, cacheName, url);
  }

  lemma {:induction false} MatchAppended(names: seq<string>, before: map<string, Bucket>, after: map<string, Bucket>,
                                         extra: string, url: string)
    requires StorageMatch(names, before, url).Some?
    requires forall n :: n in names ==> n in before && n in after && after[n] == before[n]
    ensures StorageMatch(names + [extra], after, url) == StorageMatch(names, before, url)
  {
    assert names != [];
    assert (names + [extra])[1..] == names[1..] + [extra];
    if !(names[0] in before && BucketMatch(before[names[0]], url).Some?) {
      MatchAppended(names[1..], before, after, extra, url);
    }
  }

  /**
   * The fetch handler: the cached response when `caches.match` finds one
   * for the request with its query ignored, otherwise exactly what the
   * network gives for the request, failure included.
   */
  function Respond(st: Storage, request: Request, net: Request -> NetResult): NetResult
  {
    match CachesMatch(st, request)
    case Some(r) => Fetched(r)
    case None => net(request)
  }

  /** On a hit the answer is the cached response and does not depend on the network. */
  lemma HitIgnoresNetwork(st: Storage, request: Request, net1: Request -> NetResult, net2: Request -> NetResult)
    requires CachesMatch(st, request).Some?
    ensures request.httpMethod == "GET"
    ensures Respond(st, request, net1) == Respond(st, request, net2)
      == Fetched(StorageMatch(st.names, st.buckets, request.url).value)
  {
  }

  /**
   * A request that is not a GET, or whose URL no bucket holds, goes to the
   * network, and the answer is the network's, a network error included.
   */
  lemma MissIsNetwork(st: Storage, request: Request, net: Request -> NetResult)
    requires || request.httpMethod != "GET"
             || forall i :: 0 <= i < |st.names| && st.names[i] in st.buckets ==>
                  BucketMatch(st.buckets[st.names[i]], request.url).None?
    ensures Respond(st, request, net) == net(request)
  {
    CachesMatchSpec(st, request);
  }

  /** The worker: the cache storage it sees, and the two lifecycle flags its handlers set. */
  class Worker {
    /** `CACHE_NAME`, as the script's header lines left it. */
    const cacheName: string
    var names: seq<string>
    var buckets: map<string, Bucket>
    var skippedWaiting: bool
    var claimedClients: bool

    function Caches(): Storage
      reads this
    {
      Storage(names, buckets)
    }

    ghost predicate Valid()
      reads this
    {
      ValidStorage(Caches())
    }

    constructor (cacheName: string, caches: Storage)
      requires ValidStorage(caches)
      ensures Valid() && this.cacheName == cacheName && Caches() == caches
      ensures !skippedWaiting && !claimedClients
    {
      this.cacheName := cacheName;
      names := caches.names;
      buckets := caches.buckets;
      skippedWaiting := false;
      claimedClients := false;
    }

    /**
     * The install handler, one promise step after the other; `skipWaiting`
     * runs only when every step before it succeeded.
     */
    method Install(net: string -> NetResult, parse: string -> Option<seq<string>>) returns (outcome: Outcome<InstallError>)
      requires Valid()
      modifies this
      ensures Valid()
      ensures Caches() == InstallEffect(old(Caches()), cacheName, net, parse).storage
      ensures outcome == InstallEffect(old(Caches()), cacheName, net, parse).outcome
      ensures skippedWaiting == (old(skippedWaiting) || outcome.Pass?)
      ensures claimedClients == old(claimedClients)
    {
      InstallKeepsValid(Caches(), cacheName, net, parse);
      // caches.open(CACHE_NAME)
      if cacheName !in buckets {
        names := names + [cacheName];
        buckets := buckets[cacheName := map[]];
      }
      // fetch('tribe-files-to-cache.json')
      var manifest := net(ManifestUrl);
      if manifest.NetworkError? {
        return Fail(ManifestFetchError);
      }
      // response.json()
      var files := parse(manifest.response.body);
      if files.None? {
        return Fail(ManifestParseError);
      }
      // cache.addAll(files)
      var added := AddAll(buckets[cacheName], files.value, net);
      if added.None? {
        return Fail(CacheAddAllError);
      }
      buckets := buckets[cacheName := added.value];
      // self.skipWaiting()
      skippedWaiting := true;
      outcome := Pass;
    }

    /** The fetch handler: reads the storage and changes nothing. */
    method HandleFetch(request: Request, net: Request -> NetResult) returns (r: NetResult)
      ensures r == Respond(Caches(), request, net)
    {
      var cached := CachesMatch(Caches(), request);
      if cached.Some? {
        r := Fetched(cached.value);
      } else {
        r := net(request);
      }
    }

    /** The activate handler: claims the open pages and touches no bucket. */
    method Activate()
      modifies this
      ensures claimedClients
      ensures Caches() == old(Caches()) && skippedWaiting == old(skippedWaiting)
    {
      claimedClients := true;
    }
  }
}
