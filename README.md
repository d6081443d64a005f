# Service worker extension for The Events Calendar — a Dafny model

The extension gives a WordPress site an offline cache. On every page load the
PHP side (`localize_assets` in `index.php`) collects the site's tribe scripts
and styles, publishes them as a JSON list of root-relative paths, and writes
a cache version into the service-worker script as a `CACHE_NAME` line. Three
transients decide what must be redone: the modified-time hash (the version),
the version last written into the script, and the hash of the file list. In
the browser, `js/tribe-sw.js` fills the bucket `CACHE_NAME` from the list on
install. It answers every GET request from any bucket, ignoring the query string,
and falls back to the network on a miss.

The project models both halves.

- `php_strings.dfy` (`PhpStrings`): `strpos` as a substring test, and `str_replace` with one search string.
- `assets.dfy` (`Assets`): `get_assets`. Its two nested loops are a method, proved against a specification function. Lemmas describe the result.
- `paths.dfy` (`Paths`): `to_path`, `modified_time`, the filtered modification times, and the PHP arrays given to `to_hash`.
- `publisher.dfy` (`Publisher`): `localize_assets`. It is a method of a class that holds the transients, the files and a log of the paths written. The method is proved equal to a function of the state before it runs. Lemmas on that function cover reuse, invalidation, the writes and idempotence.
- `script_header.dfy` (`ScriptHeader`): the `CACHE_NAME` line, and the value the variable ends up with in the browser (see Findings).
- `sequences.dfy` (`Sequences`): the "no element twice" predicate both halves state about their lists.
- `service_worker.dfy` (`ServiceWorker`): cache storage is modelled on sections 5.4 "Cache" and 5.5 "CacheStorage" of the W3C Service Workers specification. It has named buckets in creation order, each a map from a query-stripped URL to a response. On top of it sit the install sequence, the fetch rule and activation.
- `manifest_duplicates.dfy` (`ManifestDuplicates`): the two halves together. A list `get_assets` builds with the same file twice makes every install fail (see Findings).

Platform calls are parameters:
- `md5(maybe_serialize(…))` is the field `Config.hash`, a function on PHP arrays.
- `json_encode` is `Config.json`.
- `response.json()` is `parse`, which yields a list of strings or `None`.
- `fetch` is `net`. During install it maps the URL of a GET to a response or a network error. In the fetch handler it maps the whole request.
- `filemtime` and `file_exists` read a map from full path to file.
- The current time is the argument `now`.

## Model

| member | source | states |
|---|---|---|
| PhpStrings.ReplaceAbsent | index.php:248 | `str_replace` returns its subject unchanged when the search string does not occur in it |
| PhpStrings.ReplacePresent | index.php:248 | when the search string occurs and differs from its replacement, the subject does not come back unchanged |
| Assets.GetAssets | index.php:215-235 | the two nested loops return exactly the own sources followed by the truthy dependency sources in first-key order (`AssetsOf`) |
| Assets.TribeOnlyMembers | index.php:220-221 | a handle is selected exactly when it is queued and its name contains `tribe` |
| Assets.OwnSourcesAreTribeSources | index.php:220-222 | `$assets` holds one source per tribe handle, in queue order, and does not filter them |
| Assets.OwnSourcesFirst | index.php:220-222 | the result begins with the tribe handles' own sources, in queue order, falsy ones included |
| Assets.NonTribeHandlesIgnored | index.php:220-229 | removing every handle without `tribe` from the queue leaves the result unchanged |
| Assets.AddKeysSpec | index.php:225-227 | keyed writes into `$dependencies` keep the keys distinct, keep the old keys in front, and add exactly the listed handles |
| Assets.DepOrderNoDuplicates | index.php:224-227 | a dependency shared by several tribe assets appears once among the dependency keys |
| Assets.DepOrderMembers | index.php:223-228 | a handle is a dependency key exactly when a queued tribe asset whose `deps` is an array lists it |
| Assets.TruthySourcesSpec | index.php:225-232 | the kept dependency sources are exactly the sources of the keys whose source is truthy, one entry per such key, in key order; with distinct keys no key is listed twice |
| Assets.DependencySourcesFollow | index.php:232-234 | after the own sources comes one truthy source per dependency key whose source is truthy, in first-key order, no key twice |
| Assets.TruthyKeysAppend | index.php:232 | the truthy keys of two joined key lists are the truthy keys of the first followed by those of the second, so the filter keeps the key order |
| Assets.ValuesOf | index.php:232 | `array_values` lists the value of each key, in key order |
| Assets.FilterTruthy | index.php:232 | `array_filter` keeps a value exactly when it is truthy and present in its input |
| Assets.FilterTruthyAppend | index.php:232 | filtering two joined lists is filtering each and joining the results, so `array_filter` keeps the order |
| Paths.ToPathUnchangedIff | index.php:247-249 | `to_path` returns a URL unchanged exactly when the base URL does not occur in it |
| Paths.ToPathOfSiteUrl | index.php:247-249 | a URL made of the base URL followed by a path becomes `/` followed by that path |
| Paths.ToPathRoot | index.php:174-175 | `to_path` leaves `/` as `/` whatever the base |
| Paths.ModifiedTime | index.php:273-280 | `''` for `/`; otherwise the file's modification time when the file exists under ABSPATH, with `/wp-content` made relative; otherwise `''` |
| Paths.StampsSpec | index.php:182-184 | the filtered times are exactly the truthy times, each kept under its file's index, in index order |
| Paths.ListArrayInjective | index.php:176 | the array hashed for the list determines the list: reordering, adding or dropping a file changes the hash input |
| Paths.StampArrayInjective | index.php:182-184 | the array of filtered times, each under its file's index, determines those times and indexes |
| Publisher.ManifestShape | index.php:174-175 | the list begins with `/`, then one path per script asset and one per style asset, each through `to_path` |
| Publisher.VersionReused | index.php:178-180 | with the modified-hash transient present, its value is reused, left unchanged and recorded as the written version |
| Publisher.VersionRecomputed | index.php:180-186 | with it absent, the version is the hash of the filtered modification times; it is stored and recorded |
| Publisher.FilesHashRecorded | index.php:203-204 | afterwards the stored files hash is the hash of the current list |
| Publisher.WritesExactly | index.php:188-207 | the script and its root copy are written exactly when the version differs from the stored one and the script exists; the JSON list is written exactly when the files hash differs |
| Publisher.OnlyTargetsChange | index.php:188-207 | no other file is touched, and a run that writes nothing changes no file |
| Publisher.ListIsNoScript | index.php:190-206 | the JSON list file is neither the plugin's script nor its root copy, whatever the directories, so writing one never overwrites another |
| Publisher.ManifestWritten | index.php:202-207 | when the files hash changed, the JSON list on disk is the JSON encoding of the current list, written at `now`; otherwise the list file is as it was |
| Publisher.ScriptContentsAfter | index.php:188-198 | afterwards the plugin's script holds its old contents, or the header followed by them after a version change |
| Publisher.ScriptRewritten | index.php:190-197 | a version change prepends exactly `var CACHE_NAME = 'tribe_<version>';\n\n` to all the old contents, and the root copy is the same text |
| Publisher.LocalizeIdempotent | index.php:178-207 | a second run with the same registries and no expired transient changes nothing and writes nothing |
| Publisher.NothingChangedNothingWritten | index.php:178-207 | when the three transients agree with the inputs, the run leaves the whole state as it was |
| Publisher.PublishedCacheNameNeverChanges | index.php:190-197 | once the script holds a header, no later run changes the value `CACHE_NAME` ends up with |
| Publisher.ServiceWorkerPublisher.LocalizeAssets | index.php:169-208 | the method's updates to the transients, files and write log equal `Localize` of the old state |
| Publisher.ServiceWorkerPublisher.RefreshVersion | index.php:178-186 | the version returned is the transient's, or the fresh hash of the filtered times stored under it when it is absent (`VersionStep`) |
| Publisher.ServiceWorkerPublisher.RewriteScript | index.php:188-200 | the script, its root copy, the write log and the version transient change as `ScriptStep` says |
| Publisher.ServiceWorkerPublisher.PublishList | index.php:202-207 | the files-hash transient, the JSON list and the write log change as `ManifestStep` says |
| ScriptHeader.Prepend | index.php:192-194 | the rewrite grows the file by the header length and keeps all the old contents after the header |
| ScriptHeader.SplitHeaderOfHeader | index.php:192 | a header line reads back as its version, with the rest of the script after it |
| ScriptHeader.PrependOnBareScript | index.php:192-194 | the first rewrite of a script without a header sets `CACHE_NAME` to `tribe_<version>` |
| ScriptHeader.PrependKeepsName | index.php:192-194 | a later rewrite does not change the value `CACHE_NAME` ends up with |
| ScriptHeader.StaleCacheName | index.php:192-194 | after rewrites for `v1` and then `v2 != v1`, `CACHE_NAME` is still `tribe_<v1>` |
| ScriptHeader.ReplaceHeaderNames | index.php:192-194 | the corrected rewrite sets `CACHE_NAME` to the new version's bucket name |
| ScriptHeader.ReplaceHeaderNoGrowth | index.php:192-194 | the corrected rewrite for `v1` and then `v2` gives the same text as the rewrite for `v2` alone |
| ServiceWorker.StripQuery | js/tribe-sw.js:21-22 | the stripped URL is the part of the URL before its first `?`: a prefix with no `?`, followed in the URL by `?` or by nothing |
| ServiceWorker.StripQueryOf | js/tribe-sw.js:21-22 | a path followed by any query strips to the path |
| ServiceWorker.MatchByStrippedUrl | js/tribe-sw.js:21-22 | two URLs with the same stripped form get the same answer from `caches.match` |
| ServiceWorker.QueryIgnored | js/tribe-sw.js:21-22 | `/a?x=1`, `/a?x=2` and `/a` all get the same answer from the cache |
| ServiceWorker.StorageMatchSpec | js/tribe-sw.js:21-22 | the search for a URL goes through every bucket in creation order, answers from the first that holds the URL, and answers nothing exactly when no bucket holds it |
| ServiceWorker.CachesMatchSpec | js/tribe-sw.js:21-22 | `caches.match` answers a GET from the first bucket that holds its URL, and answers nothing exactly when the method is not GET or no bucket holds the URL |
| ServiceWorker.Open | js/tribe-sw.js:5 | after `caches.open(name)` the bucket exists |
| ServiceWorker.PutAllKeys | js/tribe-sw.js:11 | after `addAll` the bucket's keys are its old keys plus the stripped URLs of the list |
| ServiceWorker.PutAllUntouched | js/tribe-sw.js:11 | entries whose key the list does not write keep their responses |
| ServiceWorker.PutAllWritten | js/tribe-sw.js:11 | each key the list writes holds the response of a listed URL with that stripped form |
| ServiceWorker.PutAllSameWritten | js/tribe-sw.js:11 | the responses written do not depend on what the bucket held before |
| ServiceWorker.PutAllTwice | js/tribe-sw.js:11 | adding the same list twice leaves what adding it once leaves |
| ServiceWorker.InstallSucceedsIff | js/tribe-sw.js:3-17 | install succeeds exactly when the list is fetched and parses, holds no URL twice, and every entry fetches with a status `addAll` accepts (200 to 299 except 206) |
| ServiceWorker.InstalledEntriesMatch | js/tribe-sw.js:5-12 | after a successful install, the bucket `CACHE_NAME` answers every entry of the parsed list |
| ServiceWorker.FailedInstallStoresNothing | js/tribe-sw.js:4-15 | a failed install leaves every bucket as it was; a newly opened bucket stays empty |
| ServiceWorker.InstallIsolatesVersions | js/tribe-sw.js:5 | install never deletes or alters another bucket and at most appends its own name |
| ServiceWorker.InstallKeepsValid | js/tribe-sw.js:3-17 | install keeps the bucket names distinct and in step with the buckets |
| ServiceWorker.InstallIdempotent | js/tribe-sw.js:3-17 | installing twice with the same list and network gives the same storage and outcome as installing once |
| ServiceWorker.OlderBucketShadowsNew | js/tribe-sw.js:21 | an older bucket that already holds a URL keeps answering for it after a new version's bucket is filled |
| ServiceWorker.HitIgnoresNetwork | js/tribe-sw.js:21-24 | on a cache hit the request is a GET and the answer is the cached response, whatever the network does |
| ServiceWorker.MissIsNetwork | js/tribe-sw.js:21-24 | a request that is not a GET, or whose URL no bucket holds, gets exactly `fetch(request)`, a network error included |
| ServiceWorker.Worker.Install | js/tribe-sw.js:3-17 | the handler's storage and outcome are those of `InstallEffect`; `skipWaiting` happens only when every step succeeded |
| ServiceWorker.Worker.HandleFetch | js/tribe-sw.js:19-27 | the handler answers `Respond` of the storage it sees: the cached response on a hit, the network's otherwise; it has no `modifies` clause, so nothing is written back |
| ServiceWorker.Worker.Activate | js/tribe-sw.js:29-31 | activation claims the clients and leaves every bucket and the skip-waiting flag unchanged |
| ManifestDuplicates.SharedDependencyListedTwice | index.php:218-234 | with `tribe-a` and `tribe-b` queued and `tribe-a` depending on `tribe-b`, `get_assets` returns `/b.js` twice |
| ManifestDuplicates.SharedDependencyDuplicatesManifest | index.php:174-175 | the published list for that queue holds the same path twice, whatever the base URL and the styles |
| ManifestDuplicates.SharedDependencyFailsInstall | js/tribe-sw.js:7-11 | a worker that fetches and parses that list fails at `addAll`, whatever the network answers for the files |
| ManifestDuplicates.Unique | index.php:174-175 | the de-duplicated list has no path twice, has the same paths, and leaves a list without duplicates as it is |
| ManifestDuplicates.UniqueListInstalls | js/tribe-sw.js:3-17 | with the de-duplicated list, install succeeds once every file fetches with an accepted status, and the new bucket answers every file of the original list |

## Left out

- WordPress wiring is not modelled: `construct`, `init`, `hooks`, `register_scripts`, `enqueue_scripts`, `plugin_dir_url`, `home_url` and `wp_localize_script`. These are host calls. The base URL, ABSPATH and the plugin directory are fields of `Config`.
- js/tribe-register-sw.js is not part of this model. It only detects the feature, registers the worker and logs the outcome.
- `md5`, `maybe_serialize`, `json_encode` and `response.json()` are abstract functions. Their internals are not modelled, and nothing links `json_encode` to `response.json()`.
- Files are a map from full path to contents and modification time. `file_put_contents` and `copy` give the written file the time `now`. PHP warnings, failed writes and failed `set_transient` calls are not modelled.
- Transient lifetimes (an hour, a week, a month) are not modelled. An expired transient is simply absent from the map.
- Relative URLs are not resolved against the worker's URL: the model treats every URL as already resolved. URL fragments are ignored.
- In the model, a bucket is a map keyed by the query-stripped URL. The W3C request-response list would keep two entries whose URLs differ only in their query, and `match` returns the first of them. The model keeps only the later one.
- `caches.open` is modelled as always succeeding. Quota and security errors are left out.
- `addAll` is modelled as a whole-batch commit: all responses are stored, or none. Its conversion of non-string JSON entries is left out: `parse` yields strings or fails. Response headers are not modelled, so its rejection of a response with `Vary: *` is left out. Two entries count as the same request when their URL strings are equal.
- `skipWaiting` and `clients.claim` are boolean flags. Byte-level update detection, worker termination and concurrent fetch events are left out. One event is handled at a time.
- A non-OK manifest response is no error in itself: the code never reads the status and parses whatever body comes back. Only a network error gives `ManifestFetchError`.
- Old buckets are never deleted, because no handler in the code deletes them.
- Paths.ToPathUnchangedIff: stated only for a base other than `''` and `/`. `trailingslashit(home_url())` never gives `''`. With the base `/`, `to_path` maps every string to itself, so the "only if" half does not hold.
- Publisher.PublishedCacheNameNeverChanges: assumes the version contains no `'`. `md5` output is hexadecimal, so it never does.

## Findings

| source | as written | input that shows it | evidently intended | confidence | as-written member | corrected member |
|---|---|---|---|---|---|---|
| index.php:192-194 | Each version change puts a new `var CACHE_NAME = …` line in front of the old file. The old lines stay, so the line that runs last in the browser is the oldest one. | A script with no header, published for version `1` and then for version `2`. `CACHE_NAME` is then `tribe_1`, so the new worker fills and serves the old bucket. | `CACHE_NAME` names the current version's bucket, and the file does not grow with each version. | high; not executed | ScriptHeader.StaleCacheName | ScriptHeader.ReplaceHeaderNames |
| index.php:232-234 | `get_assets` joins the own sources and the dependency sources without removing duplicates. A tribe asset that is queued and also a dependency of another queued tribe asset is listed twice, and so is its path in the published list. `cache.addAll` rejects a batch that holds the same request twice, so the install fails every time. | Queue `tribe-a`, `tribe-b`, where `tribe-a` depends on `tribe-b`, with sources `/a.js` and `/b.js`. The list is `/`, `/a.js`, `/b.js`, `/b.js`. | Each file is cached once and the install succeeds. | medium (relies on the browser's duplicate check in `addAll`); not executed | ManifestDuplicates.SharedDependencyFailsInstall | ManifestDuplicates.UniqueListInstalls |

`Publisher` keeps the prepend exactly as written, because it models the code. `ScriptHeader.ReplaceHeader` replaces the old header lines instead of keeping them. `ScriptHeader.ReplaceHeaderNames` proves that the name is then always the current one. `ScriptHeader.ReplaceHeaderNoGrowth` proves that the file does not grow.

In the same way, `Publisher` publishes the list as `get_assets` builds it. `ManifestDuplicates.Unique` is the list with each path kept once, at its first position. In PHP that is `array_values(array_unique($files))`: `array_unique` alone keeps the original keys, so `json_encode` would write an object, which `addAll` does not accept. `ManifestDuplicates.UniqueListInstalls` proves that the worker's install then succeeds as soon as every file fetches with a status `addAll` accepts.
