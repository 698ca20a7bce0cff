# WURFL Microservice client, modelled in Dafny

This project models the Go client of the WURFL Microservice device-detection
server (`scientiamobile/wmclient`). A `WmClient` holds several things:

- the server's capability registry (static and virtual capability names, sorted once by `Create`);
- the capability lists a caller asks for;
- the important header names the server declared;
- two optional LRU caches of device records: one keyed by a digest of the important headers, one keyed by device id;
- five auxiliary tables: makes and models, OSes and versions;
- the server load-time token `clientLtime`.

When a response carries a new token, every cache and table is invalidated.

The model runs sequentially. Every exchange with the server is a method
parameter of type `Exchange<T>`: `Answered(value)` is the decoded answer the
server gives if it is asked, and `Failed(cause)` is a transport or decoding
failure. Each lookup also returns `posted`, the POST the client would send,
or `None` when it answered from its cache. md5 is a function given to
`Create`.

Modules:

- `Wrappers`: `Option`.
- `Records`: the JSON records of `model.go`.
- `Text`: Go's byte-wise string order, ASCII lower-casing, and hex encoding.
- `Registry`: `sort.Strings`, the binary search behind `sliceHasValue`, and the filter the capability setters build.
- `Lru`: the cache, as a value.
- `Headers`: header selection and the cache key.
- `Tables`: the fold of the bulk listings and the removal of empty versions.
- `ClientState`: the client's state as a value, each operation as a transition, and the invariant `Coherent`, with lemmas.
- `Client`: class `WmClient`, whose methods update its fields in place and are each proved against a `ClientState` transition, plus `Create`.

`Coherent` is the invariant every method keeps. It requires:

- both capability lists are sorted, and every requested name is in its registry;
- the caches respect their limits;
- every cached record has an empty `Error`, and its `Ltime` is empty or equal to `clientLtime`;
- each table's key list and map are both nil or both present, with the same distinct keys;
- `mkModels` is always nil.

## Model

| member | source | states |
|---|---|---|
| Registry.Search | scientiamobile/wmclient/wmclient.go:271 | halving keeps every name below the bounds smaller than the value and none from the upper bound on smaller |
| Registry.SearchStrings | scientiamobile/wmclient/wmclient.go:271 | the index is the first position whose name is not below the searched one |
| Registry.SliceHasValue | scientiamobile/wmclient/wmclient.go:266-275 | on a sorted list, true exactly when the value occurs; so false on a nil or empty list |
| Registry.SortStrings | scientiamobile/wmclient/wmclient.go:125-126 | the result is sorted and a permutation of the input |
| Registry.SortStringsMembers | scientiamobile/wmclient/wmclient.go:125-126 | sorting neither adds nor loses a name |
| Registry.KnownExceptSnoc | scientiamobile/wmclient/wmclient.go:141-146 | one more input name extends the filtered list by at most that name |
| Registry.KnownExceptAppend | scientiamobile/wmclient/wmclient.go:141-146 | filtering distributes over concatenation, so input order is kept |
| Registry.KnownExceptCount | scientiamobile/wmclient/wmclient.go:183-190 | a name is kept exactly as often as it is given when it is in the registry and not excluded, otherwise never |
| Registry.KnownExceptMember | scientiamobile/wmclient/wmclient.go:183-190 | a name is in the filtered list iff it is given, in the registry and not excluded |
| Registry.KnownInRegistry | scientiamobile/wmclient/wmclient.go:141-146 | every kept name is a given name and a registry member, and is not excluded |
| Text.Lower | scientiamobile/wmclient/wmclient.go:331-337 | lower-casing keeps the length, leaves no upper-case ASCII letter, and leaves a name without upper-case letters as it is |
| Text.LowerEqualIffSameUpToCase | scientiamobile/wmclient/wmclient.go:331-337 | two names have the same lower case exactly when they have the same length and agree character by character up to ASCII letter case |
| Text.HexEncode | scientiamobile/wmclient/wmclient.go:581 | two lower-case hex digits per byte |
| Text.HexEncodeInjective | scientiamobile/wmclient/wmclient.go:581 | different byte strings never share an encoding |
| Lru.New | scientiamobile/wmclient/wmclient.go:198-201 | a new cache is empty, valid and has the given limit |
| Lru.Cache.Cleared | scientiamobile/wmclient/wmclient.go:207-216 | clearing empties the cache and keeps its limit |
| Lru.Cache.LenZeroIsCleared | scientiamobile/wmclient/wmclient.go:207-216 | a cache of length 0 is already clear, so skipping `Clear` on it changes nothing |
| Lru.Add | scientiamobile/wmclient/wmclient.go:313-317 | the cache stays within its limit; with room the key is set and nothing else changes; when full, exactly one other entry leaves; a non-negative limit makes the new entry readable |
| Lru.AddedToEmpty | scientiamobile/wmclient/wmclient.go:313-317 | an addition to an empty cache leaves exactly that entry |
| Headers.LowerKeys | scientiamobile/wmclient/wmclient.go:329-333 | the loop builds the map from lower-cased names to values |
| Headers.LowerKeyedFinds | scientiamobile/wmclient/wmclient.go:336-337 | a lookup by lower-cased name in that map finds the value of the header with that name up to case, or "" |
| Headers.SelectionSnoc | scientiamobile/wmclient/wmclient.go:335-341 | one more important name adds at most that name, with its non-empty value |
| Headers.SelectLowered | scientiamobile/wmclient/wmclient.go:335-341 | the copy loop of `LookupHeaders` builds exactly the selection |
| Headers.FirstValuesCaseDistinct | scientiamobile/wmclient/wmclient.go:285 | reading first values keeps header names distinct up to case |
| Headers.Canonical | scientiamobile/wmclient/wmclient.go:285 | the canonical spelling keeps the length and changes only letter case; a name outside the token set is kept |
| Headers.CanonicalIdempotent | scientiamobile/wmclient/wmclient.go:285 | a canonical name is its own canonical spelling |
| Headers.CanonicalOfSameLower | scientiamobile/wmclient/wmclient.go:285 | token names that agree up to case share their canonical spelling |
| Headers.HeaderGet | scientiamobile/wmclient/wmclient.go:285 | `Header.Get` gives "" when no stored name matches up to case; a non-empty result is the first value stored under the canonical spelling |
| Headers.HeaderGetOnCanonicalKeys | scientiamobile/wmclient/wmclient.go:285 | when stored names are canonical and distinct up to case, `Get` of a token name finds the first value of the header with that name up to case |
| Headers.HeaderGetMissesOtherSpelling | scientiamobile/wmclient/wmclient.go:285 | a value stored under `user-agent` is not found by `Get("User-Agent")`, though the names match up to case |
| Headers.RequestSelectionSnoc | scientiamobile/wmclient/wmclient.go:282-289 | one more important name adds at most that name, with its non-empty `Get` value |
| Headers.SelectFromHeader | scientiamobile/wmclient/wmclient.go:282-289 | the copy loop of `LookupRequest` builds exactly the request selection |
| Headers.RequestSelectionMeaning | scientiamobile/wmclient/wmclient.go:282-289 | selected names are important names with the non-empty first value of a header matching up to case; every important name whose canonical key holds a non-empty first value is selected |
| Headers.RequestSelectionOnCanonicalKeys | scientiamobile/wmclient/wmclient.go:282-289 | with canonical stored names distinct up to case and token important names, the request selection equals the up-to-case selection of the first values |
| Headers.SelectionMeaning | scientiamobile/wmclient/wmclient.go:327-342 | selected names are important names with the non-empty value of a matching header; every important name with such a header is selected |
| Headers.SelectionIgnoresCase | scientiamobile/wmclient/wmclient.go:327-342 | respelling the caller's header names in another case gives the same selection |
| Headers.SelectionIgnoresExtras | scientiamobile/wmclient/wmclient.go:335-341 | headers that match no important name change nothing |
| Headers.KeyMaterialReadsImportantOnly | scientiamobile/wmclient/wmclient.go:574-579 | the key material reads the headers only at the important names, absent ones as "" |
| Headers.KeyMaterialIgnoresExtras | scientiamobile/wmclient/wmclient.go:574-579 | extra headers never change the key material |
| Headers.KeyMaterialJoinsWithoutSeparator | scientiamobile/wmclient/wmclient.go:576-579 | two different selections can yield the same material |
| Headers.CacheKey | scientiamobile/wmclient/wmclient.go:574-582 | the key is 32 lower-case hex digits |
| Headers.CacheKeyIgnoresExtras | scientiamobile/wmclient/wmclient.go:574-582 | extra headers never change the key |
| Headers.CacheKeySameDigest | scientiamobile/wmclient/wmclient.go:580-581 | two keys are equal exactly when the digests of their material are |
| Tables.FoldRows | scientiamobile/wmclient/wmclient.go:671-681 | the loop computes the fold of all rows |
| Tables.FoldKeys | scientiamobile/wmclient/wmclient.go:671-681 | the key list is duplicate-free, it has the same keys as the map, and these are exactly the keys of the rows |
| Tables.FoldGroups | scientiamobile/wmclient/wmclient.go:671-681 | each key maps to the values of all its rows, in row order, empty values included |
| Tables.FoldFirstSeen | scientiamobile/wmclient/wmclient.go:671-681 | keys come in the order of their first row |
| Tables.FirstIndex | scientiamobile/wmclient/wmclient.go:676-678 | the index of the first row with a key |
| Tables.RemoveEmpty | scientiamobile/wmclient/wmclient.go:633-639 | the loop drops exactly the empty versions |
| Tables.NonEmpty | scientiamobile/wmclient/wmclient.go:633-639 | never longer than its input; holds only non-empty versions of the input |
| Tables.NonEmptyCount | scientiamobile/wmclient/wmclient.go:633-639 | every non-empty version stays as often as it occurs; "" never does |
| Tables.NonEmptyAppend | scientiamobile/wmclient/wmclient.go:633-639 | removing empties keeps the order |
| ClientState.ClearedCache | scientiamobile/wmclient/wmclient.go:207-216 | a cache stays present or absent, keeps its limit and ends empty |
| ClientState.Cleared | scientiamobile/wmclient/wmclient.go:204-231 | sizes are (0, 0) afterwards, all five tables are nil, settings and token are untouched |
| ClientState.LtimeChecked | scientiamobile/wmclient/wmclient.go:760-766 | settings never change; a non-empty token becomes the client token; an empty or equal token changes nothing; a token change always empties both caches and nils every table |
| ClientState.ClearCachesIfNeededCases | scientiamobile/wmclient/wmclient.go:760-766 | a non-empty new token replaces the old one and empties everything; any other token changes nothing; repeating a call changes nothing |
| ClientState.WithCacheSize | scientiamobile/wmclient/wmclient.go:198-201 | both caches are fresh and empty, the header cache with the given limit and the device cache with 20000; nothing else changes |
| ClientState.WithRequestedStatic | scientiamobile/wmclient/wmclient.go:131-151 | registry, headers, token, timeouts and the virtual list stay; nil resets the static list; any change clears caches and tables; a newly committed list holds only given static capabilities |
| ClientState.SetRequestedStaticCases | scientiamobile/wmclient/wmclient.go:131-151 | nil resets the list and clears; otherwise the static names, in order and with repeats, are committed with a clear when one exists; when none exists the state is unchanged |
| ClientState.WithRequestedVirtual | scientiamobile/wmclient/wmclient.go:154-172 | the same for the virtual list, which holds only given virtual capabilities |
| ClientState.SetRequestedVirtualCases | scientiamobile/wmclient/wmclient.go:154-172 | the same three cases for the virtual list |
| ClientState.WithRequested | scientiamobile/wmclient/wmclient.go:175-195 | registry, headers, token and timeouts stay; caches and tables are cleared; both lists are nil exactly for a nil argument and otherwise hold only given names of their registry |
| ClientState.SetRequestedSplits | scientiamobile/wmclient/wmclient.go:175-195 | nil resets both lists; otherwise static names go to the static list, other virtual names to the virtual list, no name lands in both, and both lists are committed even when empty; either way caches and tables are cleared while registry, headers, token and timeouts stay |
| ClientState.Wrap64 | scientiamobile/wmclient/wmclient.go:598 | an `int64` product is the integer product modulo 2^64, and exact when it fits |
| ClientState.TimeoutOf | scientiamobile/wmclient/wmclient.go:594-604 | a non-positive count gives the default; a positive count gives its nanoseconds modulo 2^64 |
| ClientState.TimeoutOfCases | scientiamobile/wmclient/wmclient.go:592-604 | a non-positive count gives the default; a positive count that fits gives that many seconds in nanoseconds; overflow wraps to a negative duration |
| ClientState.WithHTTPTimeout | scientiamobile/wmclient/wmclient.go:592-604 | only the two durations change; each is its default for a non-positive count and exactly that many seconds when it fits |
| ClientState.InternalLookup | scientiamobile/wmclient/wmclient.go:560-567 | a failed exchange gives no record and its cause; a server error gives the record with `Error` blanked and the prefixed message; otherwise the record and no error |
| ClientState.LookedUp | scientiamobile/wmclient/wmclient.go:292-321 | the server is asked exactly when the key is not cached or there is no cache; settings never change; an error leaves the state as it was |
| ClientState.LookupOutcomes | scientiamobile/wmclient/wmclient.go:292-321 | a hit returns the cached record without a fetch; without a cache every call fetches; an error changes nothing; after a successful fetch into a present cache whose limit is non-negative the key is a hit; settings never change |
| ClientState.LookupWithNewLtime | scientiamobile/wmclient/wmclient.go:308-318 | a successful miss with a new token leaves exactly that entry in the used cache, the other cache empty and the tables nil |
| ClientState.FillThenReset | scientiamobile/wmclient/wmclient_test.go:172-206 | with fresh caches, a successful header lookup gives sizes (0, 1), and setting the requested capabilities gives (0, 0) |
| ClientState.Initial | scientiamobile/wmclient/wmclient.go:102-127 | both registries are sorted permutations of the declared lists; no requested list, cache or table; the declared important headers and load time |
| ClientState.InitialCoherent | scientiamobile/wmclient/wmclient.go:121-127 | a created client is coherent with empty caches; its registries are permutations of the server's lists; the registry answers exactly the declared names |
| ClientState.ClearedCoherent | scientiamobile/wmclient/wmclient.go:204-231 | clearing keeps the client coherent |
| ClientState.LtimeCheckedCoherent | scientiamobile/wmclient/wmclient.go:760-766 | the load-time check keeps the client coherent |
| ClientState.SettersCoherent | scientiamobile/wmclient/wmclient.go:131-201 | every setter keeps the client coherent |
| ClientState.LookedUpCoherent | scientiamobile/wmclient/wmclient.go:308-318 | a lookup only caches error-free records of the current token |
| ClientState.LoadedCoherent | scientiamobile/wmclient/wmclient.go:650-688 | loading a table keeps its key list and map in agreement |
| ClientState.OsesLoaded | scientiamobile/wmclient/wmclient.go:650-688 | only the OS table changes; an error exactly when a needed load fails, and then nothing changes; a fresh load holds the distinct OS names of the rows, the same in list and map |
| ClientState.MakesLoaded | scientiamobile/wmclient/wmclient.go:720-757 | the same for brands |
| ClientState.AllOSes | scientiamobile/wmclient/wmclient.go:610-622 | never an error, and the result is the OS list the client holds afterwards |
| ClientState.AllDeviceMakes | scientiamobile/wmclient/wmclient.go:691-700 | never an error, and the result is the brand list the client holds afterwards |
| ClientState.AllOSesCases | scientiamobile/wmclient/wmclient.go:610-622 | never an error; a loaded list is returned without a fetch; a failed load returns a nil or empty list; a fresh load returns the distinct OS names in first-seen order |
| ClientState.AllDeviceMakesCases | scientiamobile/wmclient/wmclient.go:691-700 | the same for brand names |
| ClientState.VersionsForOS | scientiamobile/wmclient/wmclient.go:625-648 | exactly one of a version list and an error; the list is the held table's versions of that OS with empties removed; the error is "does not exist", exactly when the held table lacks the OS |
| ClientState.VersionsForOSCases | scientiamobile/wmclient/wmclient.go:625-648 | after a fresh load, a named OS gets its non-empty versions in row order; an unknown OS, or a failed load, gets the "does not exist" error |
| ClientState.VersionsForOSAgain | scientiamobile/wmclient/wmclient.go:625-648 | after a load has filled the table, a later call fetches nothing and changes nothing; a named OS gets its non-empty versions in row order, any other name "does not exist" |
| ClientState.DevicesForMake | scientiamobile/wmclient/wmclient.go:703-718 | exactly one of a model list and an error; the list is the held table's models of that brand; the error is "does not exist", exactly when the held table lacks the brand |
| ClientState.DevicesForMakeCases | scientiamobile/wmclient/wmclient.go:703-718 | after a fresh load, a named brand gets its models in row order; an unknown brand, or a failed load, gets the "does not exist" error |
| ClientState.DevicesForMakeAgain | scientiamobile/wmclient/wmclient.go:703-718 | after a load has filled the table, a later call fetches nothing and changes nothing; a named brand gets its models in row order, any other name "does not exist" |
| Client.WmClientUserAgent | scientiamobile/wmclient/wmclient.go:570-572 | the caller's agent followed by `go-wmclient-api-2.1.3` |
| Client.GetAPIVersion | scientiamobile/wmclient/wmclient.go:77-79 | the library version is 2.1.3 |
| Client.CheckData | scientiamobile/wmclient/wmclient.go:584-588 | accepted data has all three version strings, and the client it creates has at least one capability in its registry |
| Client.SchemeOrDefault | scientiamobile/wmclient/wmclient.go:104-108 | a given scheme is kept, and an empty one becomes "http" |
| Client.Create | scientiamobile/wmclient/wmclient.go:102-128 | a failed or unchecked handshake gives its error and no client; otherwise a fresh coherent client with sorted registries, the declared important headers, no cache and the server's token |
| Client.WmClient.constructor | scientiamobile/wmclient/wmclient.go:103-113 | the connection settings are kept; every list is nil, there is no cache and no token |
| Client.WmClient.CreateURL | scientiamobile/wmclient/wmclient.go:492-503 | the URL is scheme, `://` and host, then `:` and the port when one is set, then `/` and the base URI when one is set, then the path |
| Client.WmClient.HasStaticCapability | scientiamobile/wmclient/wmclient.go:256-258 | true exactly for static capability names |
| Client.WmClient.HasVirtualCapability | scientiamobile/wmclient/wmclient.go:261-263 | true exactly for virtual capability names |
| Client.WmClient.ClearCache | scientiamobile/wmclient/wmclient.go:204-231 | the new state is the cleared old state |
| Client.WmClient.ClearCachesIfNeeded | scientiamobile/wmclient/wmclient.go:760-766 | the new state is the old state after the load-time check |
| Client.WmClient.GetActualCacheSizes | scientiamobile/wmclient/wmclient.go:235-253 | the two entry counts, 0 for a missing cache |
| Client.WmClient.SetCacheSize | scientiamobile/wmclient/wmclient.go:198-201 | a new header cache with the given limit and a new device cache of 20000 |
| Client.WmClient.SetHTTPTimeout | scientiamobile/wmclient/wmclient.go:592-607 | both duration fields follow the seconds-or-default rule |
| Client.WmClient.DestroyConnection | scientiamobile/wmclient/wmclient.go:482-490 | the new state is the cleared old state |
| Client.WmClient.Filter | scientiamobile/wmclient/wmclient.go:140-146 | the append loop keeps the given names that are in the registry and not excluded |
| Client.WmClient.SetRequestedStaticCapabilities | scientiamobile/wmclient/wmclient.go:131-151 | the new state is the static-setter transition of the old one |
| Client.WmClient.SetRequestedVirtualCapabilities | scientiamobile/wmclient/wmclient.go:154-172 | the new state is the virtual-setter transition of the old one |
| Client.WmClient.SetRequestedCapabilities | scientiamobile/wmclient/wmclient.go:175-195 | the new state is the combined-setter transition of the old one |
| Client.WmClient.GetUserAgentCacheKey | scientiamobile/wmclient/wmclient.go:574-582 | the loop computes the key of the important headers' values: 32 lower-case hex digits |
| Client.WmClient.CachedLookup | scientiamobile/wmclient/wmclient.go:292-321 | probe, fetch, check, insert as `LookedUp` describes; a fetch posts the request with the requested lists and this library's user agent |
| Client.WmClient.LookupHeaders | scientiamobile/wmclient/wmclient.go:325-375 | the selection of the important headers up to case keys the header cache and is the posted header map |
| Client.WmClient.LookupRequest | scientiamobile/wmclient/wmclient.go:278-322 | the same flow for any request header: the request selection, read with `Header.Get`, keys the header cache and is the posted header map |
| Client.WmClient.LookupUserAgent | scientiamobile/wmclient/wmclient.go:378-416 | the key and posted header map come from the single `User-Agent` header |
| Client.WmClient.LookupDeviceID | scientiamobile/wmclient/wmclient.go:419-454 | the device cache is keyed by the id, and the id is posted with no header map |
| Client.WmClient.GetInfo | scientiamobile/wmclient/wmclient.go:457-479 | a failed or unchecked answer is an error and changes nothing; a checked one runs the load-time check |
| Client.WmClient.LoadDeviceOsesData | scientiamobile/wmclient/wmclient.go:650-688 | the server is asked exactly when the OS list is nil or empty; the new state and error follow `OsesLoaded` |
| Client.WmClient.LoadDeviceMakesData | scientiamobile/wmclient/wmclient.go:720-757 | the same for makes |
| Client.WmClient.GetAllOSes | scientiamobile/wmclient/wmclient.go:610-622 | result and new state follow `AllOSes` |
| Client.WmClient.GetAllVersionsForOS | scientiamobile/wmclient/wmclient.go:625-648 | result and new state follow `VersionsForOS` |
| Client.WmClient.GetAllDeviceMakes | scientiamobile/wmclient/wmclient.go:691-700 | result and new state follow `AllDeviceMakes` |
| Client.WmClient.GetAllDevicesForMake | scientiamobile/wmclient/wmclient.go:703-718 | result and new state follow `DevicesForMake` |

## Left out

- HTTP plumbing is not modelled: `createHTTPClient`, `internalGet`, building and sending the request in `internalLookup`, reading the body, and rebuilding the HTTP client in `SetHTTPTimeout`. Each answer is a parameter, and each lookup returns the POST it would send.
- JSON encoding and decoding are not modelled. A decoding failure is a `Failed` exchange. `JSONDeviceDataTyped` is not used by the client and is not modelled.
- md5 is a function parameter of `Create`, so nothing is proved about digest collisions. `[]byte(key)` is folded into that function.
- The eviction order of the groupcache LRU is not modelled. A full cache drops some other entry, and no property depends on which one.
- Locks, goroutines and `context` cancellation are not modelled; the model runs one call at a time.
- `strings.ToLower` is ASCII lower-casing.
- `Headers.Canonical` follows the rule of Go's `textproto.CanonicalMIMEHeaderKey`, whose source is not part of this model. It works on characters; Go works on bytes, and a non-ASCII character, like a non-ASCII byte, leaves the name unchanged.
- `Client.WmClient.LookupHeaders` requires input header names that are distinct up to case. It ranges over the map, and Go's map iteration order would otherwise pick among names that collide.
- `Client.WmClient.SetHTTPTimeout` takes `int64` seconds, the width of Go's `int` on 64-bit platforms.
- Nil and empty capability registries are both the empty sequence. `sliceHasValue` treats them the same.
- `DestroyConnection` dropping the HTTP client, and setting the receiver to nil, are not modelled. A call on a destroyed client is not modelled.
- The `JSONDeviceData` records are values. Go shares a pointer between the cache and the caller, and the model does not.
- The lists `GetAllOSes`, `GetAllDeviceMakes` and `GetAllDevicesForMake` return are values too. Go hands the caller the client's own slices, so a caller that writes into them changes the client's tables, and the model does not capture that aliasing.
- Records whose `ltime` is empty are cached too, so the invariant allows a cached `Ltime` that is empty or equal to `clientLtime`.
- A failed load leaves the list nil or empty, so `GetAllOSes` and `GetAllDeviceMakes` never return an error (`ClientState.AllOSes`, `ClientState.AllOSesCases`). `GetAllVersionsForOS` and `GetAllDevicesForMake` then report "does not exist".
