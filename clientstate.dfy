/**
 * The observable state of a `WmClient`, as a value, and what each operation
 * does to it. The class in module Client keeps the same state in fields and
 * proves each of its methods against the transition functions here; the
 * lemmas of this module state what the transitions promise.
 */
module ClientState {
  import opened Wrappers
  import opened Records
  import opened Text
  import opened Registry
  import opened Lru
  import opened Tables

  /** The entry limit `SetCacheSize` gives the device-id cache. */
  const DeviceDefaultCacheSize: int := 20000

  newtype int64 = x: int | -0x8000_0000_0000_0000 <= x < 0x8000_0000_0000_0000

  /** Nanoseconds per second: a `time.Duration` counts nanoseconds. */
  const Second: int := 1_000_000_000

  const DefaultConnTimeout: int64 := 10_000_000_000
  const DefaultTransferTimeout: int64 := 60_000_000_000

  /**
   * Every field of `WmClient` that the client logic reads or writes. The
   * capability lists and the requested lists are never shared with the HTTP
   * layer; the HTTP client itself is not part of the model.
   */
  datatype State = State(
    staticCaps: seq<string>,
    virtualCaps: seq<string>,
    requestedStaticCaps: Option<seq<string>>,
    requestedVirtualCaps: Option<seq<string>>,
    importantHeaders: seq<string>,
    deviceCache: Option<Cache<JSONDeviceData>>,
    userAgentCache: Option<Cache<JSONDeviceData>>,
    connTimeout: int64,
    transferTimeout: int64,
    mkModels: Option<seq<JSONMakeModel>>,
    deviceMakes: Option<seq<string>>,
    deviceMakesMap: Option<map<string, seq<JSONModelMktName>>>,
    deviceOses: Option<seq<string>>,
    deviceOsVerMap: Option<map<string, seq<string>>>,
    clientLtime: string)

  /** The client right after `Create` has received `info`. */
  function Initial(info: JSONInfoData): (s: State)
    ensures Sorted(s.staticCaps) && multiset(s.staticCaps) == multiset(info.StaticCaps)
    ensures Sorted(s.virtualCaps) && multiset(s.virtualCaps) == multiset(info.VirtualCaps)
    ensures s.requestedStaticCaps == None && s.requestedVirtualCaps == None
    ensures s.deviceCache == None && s.userAgentCache == None && TablesCleared(s)
    ensures s.importantHeaders == info.ImportantHeaders && s.clientLtime == info.Ltime
  {
    State(SortStrings(info.StaticCaps), SortStrings(info.VirtualCaps), None, None,
          info.ImportantHeaders, None, None, 0, 0, None, None, None, None, None, info.Ltime)
  }

  /** The five auxiliary-table fields are all nil. */
  predicate TablesCleared(s: State) {
    && s.mkModels == None && s.deviceMakes == None && s.deviceMakesMap == None
    && s.deviceOses == None && s.deviceOsVerMap == None
  }

  /** The fields no capability setter changes: registry, important headers, token, timeouts. */
  predicate SameFixed(s: State, t: State) {
    && s.staticCaps == t.staticCaps && s.virtualCaps == t.virtualCaps
    && s.importantHeaders == t.importantHeaders && s.clientLtime == t.clientLtime
    && s.connTimeout == t.connTimeout && s.transferTimeout == t.transferTimeout
  }

  /** The fields no cache operation changes: registry, requested lists, important headers, timeouts. */
  predicate SameSettings(s: State, t: State) {
    && s.staticCaps == t.staticCaps && s.virtualCaps == t.virtualCaps
    && s.requestedStaticCaps == t.requestedStaticCaps && s.requestedVirtualCaps == t.requestedVirtualCaps
    && s.importantHeaders == t.importantHeaders
    && s.connTimeout == t.connTimeout && s.transferTimeout == t.transferTimeout
  }

  // --------------------------------------------------------------- caches

  function CacheLen(c: Option<Cache<JSONDeviceData>>): nat {
    if c.Some? then c.value.Len() else 0
  }

  function ClearedCache(c: Option<Cache<JSONDeviceData>>): (r: Option<Cache<JSONDeviceData>>)
    ensures r.Some? == c.Some? && CacheLen(r) == 0
    ensures r.Some? ==> r.value.maxEntries == c.value.maxEntries
  {
    if c.Some? then Some(c.value.Cleared()) else None
  }

  /** `GetActualCacheSizes`: the device-id cache size, then the header cache size; 0 for a missing cache. */
  function Sizes(s: State): (int, int) {
    (CacheLen(s.deviceCache), CacheLen(s.userAgentCache))
  }

  /** `clearCache`: both caches emptied (their limits kept) and every auxiliary table nil. */
  function Cleared(s: State): (r: State)
    ensures Sizes(r) == (0, 0) && TablesCleared(r)
    ensures SameSettings(s, r) && r.clientLtime == s.clientLtime
    ensures r.deviceCache.Some? == s.deviceCache.Some? && r.userAgentCache.Some? == s.userAgentCache.Some?
  {
    s.(deviceCache := ClearedCache(s.deviceCache), userAgentCache := ClearedCache(s.userAgentCache),
       mkModels := None, deviceMakes := None, deviceMakesMap := None,
       deviceOses := None, deviceOsVerMap := None)
  }

  /** `clearCachesIfNeeded`: a new, non-empty server load time replaces the token and clears everything. */
  function LtimeChecked(s: State, ltime: string): (r: State)
    ensures SameSettings(s, r)
    ensures r.clientLtime == if ltime != "" then ltime else s.clientLtime
    ensures ltime == "" || ltime == s.clientLtime ==> r == s
    ensures r.clientLtime != s.clientLtime ==> Sizes(r) == (0, 0) && TablesCleared(r)
  {
    if |ltime| > 0 && s.clientLtime != ltime then Cleared(s).(clientLtime := ltime) else s
  }

  /** The two cases of `clearCachesIfNeeded`, and a repeat with the same time changes nothing. */
  lemma ClearCachesIfNeededCases(s: State, ltime: string)
    ensures var r := LtimeChecked(s, ltime);
      && SameSettings(s, r)
      && (if ltime != "" && ltime != s.clientLtime
          then r.clientLtime == ltime && Sizes(r) == (0, 0) && TablesCleared(r)
          else r == s)
      && LtimeChecked(r, ltime) == r
  {
  }

  /** `SetCacheSize`: a fresh header cache with the given limit, a fresh device cache of 20000. */
  function WithCacheSize(s: State, uaMaxEntries: int): (r: State)
    ensures Sizes(r) == (0, 0)
    ensures r.userAgentCache.Some? && r.userAgentCache.value.Valid() && r.userAgentCache.value.maxEntries == uaMaxEntries
    ensures r.deviceCache.Some? && r.deviceCache.value.Valid() && r.deviceCache.value.maxEntries == DeviceDefaultCacheSize
    ensures r.(userAgentCache := s.userAgentCache, deviceCache := s.deviceCache) == s
  {
    s.(userAgentCache := Some(New(uaMaxEntries)), deviceCache := Some(New(DeviceDefaultCacheSize)))
  }

  // ---------------------------------------------------- requested lists

  /** `SetRequestedStaticCapabilities`. */
  function WithRequestedStatic(s: State, capsList: Option<seq<string>>): (r: State)
    ensures SameFixed(s, r) && r.requestedVirtualCaps == s.requestedVirtualCaps
    ensures capsList.None? ==> r.requestedStaticCaps == None
    ensures r != s ==> Sizes(r) == (0, 0) && TablesCleared(r)
    ensures r.requestedStaticCaps != s.requestedStaticCaps && r.requestedStaticCaps.Some? ==>
      capsList.Some? && forall x :: x in r.requestedStaticCaps.value ==> x in capsList.value && x in s.staticCaps
  {
    match capsList
    case None => Cleared(s.(requestedStaticCaps := None))
    case Some(names) =>
      KnownInRegistry(names, s.staticCaps, []);
      var kept := Known(names, s.staticCaps);
      if |kept| > 0 then Cleared(s.(requestedStaticCaps := Some(kept))) else s
  }

  /** `SetRequestedVirtualCapabilities`. */
  function WithRequestedVirtual(s: State, capsList: Option<seq<string>>): (r: State)
    ensures SameFixed(s, r) && r.requestedStaticCaps == s.requestedStaticCaps
    ensures capsList.None? ==> r.requestedVirtualCaps == None
    ensures r != s ==> Sizes(r) == (0, 0) && TablesCleared(r)
    ensures r.requestedVirtualCaps != s.requestedVirtualCaps && r.requestedVirtualCaps.Some? ==>
      capsList.Some? && forall x :: x in r.requestedVirtualCaps.value ==> x in capsList.value && x in s.virtualCaps
  {
    match capsList
    case None => Cleared(s.(requestedVirtualCaps := None))
    case Some(names) =>
      KnownInRegistry(names, s.virtualCaps, []);
      var kept := Known(names, s.virtualCaps);
      if |kept| > 0 then Cleared(s.(requestedVirtualCaps := Some(kept))) else s
  }

  /** `SetRequestedCapabilities`: static names first, the remaining virtual ones second. */
  function WithRequested(s: State, capsList: Option<seq<string>>): (r: State)
    ensures SameFixed(s, r) && Sizes(r) == (0, 0) && TablesCleared(r)
    ensures r.requestedStaticCaps.Some? == capsList.Some? && r.requestedVirtualCaps.Some? == capsList.Some?
    ensures r.requestedStaticCaps.Some? ==>
      forall x :: x in r.requestedStaticCaps.value ==> x in capsList.value && x in s.staticCaps
    ensures r.requestedVirtualCaps.Some? ==>
      forall x :: x in r.requestedVirtualCaps.value ==> x in capsList.value && x in s.virtualCaps
  {
    match capsList
    case None => Cleared(s.(requestedStaticCaps := None, requestedVirtualCaps := None))
    case Some(names) =>
      KnownInRegistry(names, s.staticCaps, []);
      KnownInRegistry(names, s.virtualCaps, s.staticCaps);
      Cleared(s.(requestedStaticCaps := Some(Known(names, s.staticCaps)),
                 requestedVirtualCaps := Some(KnownExcept(names, s.virtualCaps, s.staticCaps))))
  }

  /**
   * The three cases of `SetRequestedStaticCapabilities`: nil resets the list
   * and clears; otherwise the names that are static capabilities, in input
   * order and as often as given, are committed with a clear when there is at
   * least one; when there is none nothing changes at all.
   */
  lemma {:induction false} SetRequestedStaticCases(s: State, capsList: Option<seq<string>>)
    ensures var r := WithRequestedStatic(s, capsList);
      && r.staticCaps == s.staticCaps && r.virtualCaps == s.virtualCaps
      && r.requestedVirtualCaps == s.requestedVirtualCaps && r.importantHeaders == s.importantHeaders
      && r.clientLtime == s.clientLtime
      && match capsList
         case None => r.requestedStaticCaps == None && Sizes(r) == (0, 0) && TablesCleared(r)
         case Some(names) =>
           if exists x :: x in names && x in s.staticCaps then
             && r.requestedStaticCaps == Some(Known(names, s.staticCaps)) && Sizes(r) == (0, 0) && TablesCleared(r)
             && (forall x :: multiset(r.requestedStaticCaps.value)[x]
                              == if x in s.staticCaps then multiset(names)[x] else 0)
           else r == s
  {
    if capsList.Some? {
      var names := capsList.value;
      var kept := Known(names, s.staticCaps);
      forall x ensures multiset(kept)[x] == if x in s.staticCaps then multiset(names)[x] else 0 {
        KnownExceptCount(names, s.staticCaps, [], x);
      }
      if exists x :: x in names && x in s.staticCaps {
        var x :| x in names && x in s.staticCaps;
        KnownExceptMember(names, s.staticCaps, [], x);
      } else if |kept| > 0 {
        KnownExceptMember(names, s.staticCaps, [], kept[0]);
      }
    }
  }

  /** The same three cases for `SetRequestedVirtualCapabilities`. */
  lemma {:induction false} SetRequestedVirtualCases(s: State, capsList: Option<seq<string>>)
    ensures var r := WithRequestedVirtual(s, capsList);
      && r.staticCaps == s.staticCaps && r.virtualCaps == s.virtualCaps
      && r.requestedStaticCaps == s.requestedStaticCaps && r.importantHeaders == s.importantHeaders
      && r.clientLtime == s.clientLtime
      && match capsList
         case None => r.requestedVirtualCaps == None && Sizes(r) == (0, 0) && TablesCleared(r)
         case Some(names) =>
           if exists x :: x in names && x in s.virtualCaps then
             && r.requestedVirtualCaps == Some(Known(names, s.virtualCaps)) && Sizes(r) == (0, 0) && TablesCleared(r)
             && (forall x :: multiset(r.requestedVirtualCaps.value)[x]
                              == if x in s.virtualCaps then multiset(names)[x] else 0)
           else r == s
  {
    if capsList.Some? {
      var names := capsList.value;
      var kept := Known(names, s.virtualCaps);
      forall x ensures multiset(kept)[x] == if x in s.virtualCaps then multiset(names)[x] else 0 {
        KnownExceptCount(names, s.virtualCaps, [], x);
      }
      if exists x :: x in names && x in s.virtualCaps {
        var x :| x in names && x in s.virtualCaps;
        KnownExceptMember(names, s.virtualCaps, [], x);
      } else if |kept| > 0 {
        KnownExceptMember(names, s.virtualCaps, [], kept[0]);
      }
    }
  }

  /**
   * `SetRequestedCapabilities`: nil resets both lists; a list sends each
   * static capability to the static list, each other virtual one to the
   * virtual list, and drops anything else, so no name lands in both; both
   * lists are committed, even empty. Either way the caches and tables are
   * cleared and the registry, important headers, token and timeouts stay.
   */
  lemma SetRequestedSplits(s: State, capsList: Option<seq<string>>)
    ensures var r := WithRequested(s, capsList);
      && SameFixed(s, r) && Sizes(r) == (0, 0) && TablesCleared(r)
      && match capsList
         case None => r.requestedStaticCaps == None && r.requestedVirtualCaps == None
         case Some(names) =>
           && r.requestedStaticCaps.Some? && r.requestedVirtualCaps.Some?
           && (forall x :: x in r.requestedStaticCaps.value <==> x in names && x in s.staticCaps)
           && (forall x :: x in r.requestedVirtualCaps.value <==> x in names && x !in s.staticCaps && x in s.virtualCaps)
           && (forall x :: !(x in r.requestedStaticCaps.value && x in r.requestedVirtualCaps.value))
  {
    if capsList.Some? {
      var names := capsList.value;
      forall x ensures x in Known(names, s.staticCaps) <==> x in names && x in s.staticCaps {
        KnownExceptMember(names, s.staticCaps, [], x);
      }
      forall x ensures x in KnownExcept(names, s.virtualCaps, s.staticCaps)
                       <==> x in names && x !in s.staticCaps && x in s.virtualCaps {
        KnownExceptMember(names, s.virtualCaps, s.staticCaps, x);
      }
    }
  }

  // ------------------------------------------------------------ timeouts

  /** A Go `int64` product: the integer result reduced to 64 bits, two's complement. */
  function Wrap64(x: int): (r: int64)
    ensures (r as int - x) % 0x1_0000_0000_0000_0000 == 0
    ensures -0x8000_0000_0000_0000 <= x < 0x8000_0000_0000_0000 ==> r as int == x
  {
    var m := x % 0x1_0000_0000_0000_0000;
    if m < 0x8000_0000_0000_0000 then m as int64 else (m - 0x1_0000_0000_0000_0000) as int64
  }

  /** One timeout of `SetHTTPTimeout`: the default when not positive, else that many seconds. */
  function TimeoutOf(seconds: int64, fallback: int64): (r: int64)
    ensures seconds <= 0 ==> r == fallback
    ensures seconds > 0 ==> (r as int - seconds as int * Second) % 0x1_0000_0000_0000_0000 == 0
  {
    if seconds <= 0 then fallback else Wrap64(seconds as int * Second)
  }

  /**
   * A positive count of seconds becomes exactly that many nanoseconds as long
   * as it fits in a `time.Duration`; a count that does not fit wraps around
   * (9223372037 seconds gives a negative duration); a non-positive one gives
   * the default.
   */
  lemma TimeoutOfCases(seconds: int64, fallback: int64)
    ensures seconds <= 0 ==> TimeoutOf(seconds, fallback) == fallback
    ensures 0 < seconds <= 9223372036 ==> TimeoutOf(seconds, fallback) as int == seconds as int * Second > 0
    ensures TimeoutOf(9223372037, fallback) < 0
  {
    assert 9223372037 * Second == 9223372037000000000;
  }

  /** `SetHTTPTimeout`'s effect on the two duration fields (10 s and 60 s by default). */
  function WithHTTPTimeout(s: State, connection: int64, transfer: int64): (r: State)
    ensures r.(connTimeout := s.connTimeout, transferTimeout := s.transferTimeout) == s
    ensures connection <= 0 ==> r.connTimeout == DefaultConnTimeout
    ensures transfer <= 0 ==> r.transferTimeout == DefaultTransferTimeout
    ensures 0 < connection <= 9223372036 ==> r.connTimeout as int == connection as int * Second
    ensures 0 < transfer <= 9223372036 ==> r.transferTimeout as int == transfer as int * Second
  {
    TimeoutOfCases(connection, DefaultConnTimeout);
    TimeoutOfCases(transfer, DefaultTransferTimeout);
    s.(connTimeout := TimeoutOf(connection, DefaultConnTimeout),
       transferTimeout := TimeoutOf(transfer, DefaultTransferTimeout))
  }

  // -------------------------------------------------------------- lookups

  /** Which cache a lookup uses: the header-keyed one or the device-id one. */
  datatype Tier = HeaderTier | DeviceTier

  function CacheOf(s: State, tier: Tier): Option<Cache<JSONDeviceData>> {
    match tier
    case HeaderTier => s.userAgentCache
    case DeviceTier => s.deviceCache
  }

  function WithCache(s: State, tier: Tier, c: Cache<JSONDeviceData>): State {
    match tier
    case HeaderTier => s.(userAgentCache := Some(c))
    case DeviceTier => s.(deviceCache := Some(c))
  }

  const ServerErrorPrefix: string := "Received error from WM server: "

  /**
   * The end of `internalLookup`: a failed exchange gives no record; a record
   * that reports an error comes back with `Error` blanked together with that
   * error; any other record comes back as it is.
   */
  function InternalLookup(reply: Exchange<JSONDeviceData>): (r: (Option<JSONDeviceData>, Option<string>))
    ensures r.0.Some? <==> reply.Answered?
    ensures r.0.Some? ==> r.0.value == reply.value.(Error := "")
    ensures r.1.None? <==> reply.Answered? && reply.value.Error == ""
    ensures reply.Failed? ==> r.1 == Some(reply.cause)
    ensures reply.Answered? && reply.value.Error != "" ==> r.1 == Some(ServerErrorPrefix + reply.value.Error)
  {
    match reply
    case Failed(cause) => (None, Some(cause))
    case Answered(d) =>
      if |d.Error| > 0 then (Some(d.(Error := "")), Some(ServerErrorPrefix + d.Error))
      else (Some(d), None)
  }

  /**
   * One lookup under cache key `key`: a hit returns the stored record and
   * fetches nothing; a miss (or a missing cache) fetches `reply`; an error
   * leaves the state as it was; a success first runs the load-time check
   * and then adds the record under `key` to that tier's cache, if there is
   * one. `fetched` says whether the server was asked.
   */
  ghost predicate LookedUp(s: State, tier: Tier, key: string, reply: Exchange<JSONDeviceData>,
                           s': State, data: Option<JSONDeviceData>, err: Option<string>, fetched: bool)
    ensures LookedUp(s, tier, key, reply, s', data, err, fetched) ==>
      && (fetched <==> CacheOf(s, tier).None? || key !in CacheOf(s, tier).value.entries)
      && SameSettings(s, s')
      && (err.Some? ==> s' == s)
  {
    var cache := CacheOf(s, tier);
    if cache.Some? && cache.value.Get(key).Some? then
      s' == s && data == cache.value.Get(key) && err == None && !fetched
    else
      && fetched
      && (data, err) == InternalLookup(reply)
      && if err.Some? then s' == s
         else
           var s1 := LtimeChecked(s, data.value.Ltime);
           if CacheOf(s1, tier).None? then s' == s1
           else
             && CacheOf(s', tier).Some?
             && Added(CacheOf(s1, tier).value, key, data.value, CacheOf(s', tier).value)
             && s' == WithCache(s1, tier, CacheOf(s', tier).value)
  }

  /**
   * What a lookup promises: a hit needs no fetch; without a cache every call
   * fetches; an error changes nothing and its record carries no `Error`; a
   * successful fetch is afterwards a hit for the same key, unless the limit
   * is negative.
   */
  lemma LookupOutcomes(s: State, tier: Tier, key: string, reply: Exchange<JSONDeviceData>,
                       s': State, data: Option<JSONDeviceData>, err: Option<string>, fetched: bool)
    requires LookedUp(s, tier, key, reply, s', data, err, fetched)
    ensures CacheOf(s, tier).Some? && key in CacheOf(s, tier).value.entries ==>
      !fetched && s' == s && err == None && data == Some(CacheOf(s, tier).value.entries[key])
    ensures CacheOf(s, tier).None? ==> fetched
    ensures err.Some? ==> s' == s && (data.Some? ==> data.value.Error == "")
    ensures fetched && err.None? && CacheOf(s, tier).Some? && CacheOf(s, tier).value.maxEntries >= 0 ==>
      CacheOf(s', tier).Some? && CacheOf(s', tier).value.Get(key) == data
    ensures SameSettings(s, s')
  {
    if fetched && err.None? {
      var s1 := LtimeChecked(s, data.value.Ltime);
      if CacheOf(s1, tier).Some? {
        var c, c' := CacheOf(s1, tier).value, CacheOf(s', tier).value;
        assert c.maxEntries == CacheOf(s, tier).value.maxEntries;
        assert c.maxEntries >= 0 ==> key in c'.entries && c'.entries[key] == data.value;
      }
    }
  }

  /**
   * A successful miss that brings a new load time leaves the used cache with
   * exactly that one entry, the other cache empty and every table nil.
   */
  lemma LookupWithNewLtime(s: State, tier: Tier, key: string, reply: Exchange<JSONDeviceData>,
                           s': State, data: Option<JSONDeviceData>, err: Option<string>, fetched: bool)
    requires LookedUp(s, tier, key, reply, s', data, err, fetched)
    requires fetched && err.None?
    requires data.value.Ltime != "" && data.value.Ltime != s.clientLtime
    requires CacheOf(s, tier).Some? && CacheOf(s, tier).value.maxEntries >= 0
    ensures s'.clientLtime == data.value.Ltime && TablesCleared(s')
    ensures CacheOf(s', tier).Some? && CacheOf(s', tier).value.entries == map[key := data.value]
    ensures CacheLen(CacheOf(s', if tier == HeaderTier then DeviceTier else HeaderTier)) == 0
  {
    var s1 := LtimeChecked(s, data.value.Ltime);
    assert s1 == Cleared(s).(clientLtime := data.value.Ltime);
    var c := CacheOf(s1, tier).value;
    assert c.entries == map[];
    AddedToEmpty(c, key, data.value, CacheOf(s', tier).value);
  }

  /**
   * Fresh caches: a successful header lookup leaves one header entry and no
   * device entry, and setting the requested capabilities then empties both.
   */
  lemma FillThenReset(s: State, uaMaxEntries: int, key: string, reply: Exchange<JSONDeviceData>,
                      s': State, data: Option<JSONDeviceData>, err: Option<string>, fetched: bool,
                      caps: Option<seq<string>>)
    requires uaMaxEntries > 0
    requires LookedUp(WithCacheSize(s, uaMaxEntries), HeaderTier, key, reply, s', data, err, fetched)
    requires reply.Answered? && reply.value.Error == ""
    ensures fetched && err == None && data == Some(reply.value)
    ensures Sizes(s') == (0, 1)
    ensures Sizes(WithRequested(s', caps)) == (0, 0)
  {
    var s0 := WithCacheSize(s, uaMaxEntries);
    var s1 := LtimeChecked(s0, reply.value.Ltime);
    assert CacheOf(s1, HeaderTier).value.entries == map[];
    AddedToEmpty(CacheOf(s1, HeaderTier).value, key, reply.value, CacheOf(s', HeaderTier).value);
  }

  // ---------------------------------------------------- auxiliary tables

  /** `loadDeviceOsesData` only asks the server when the OS list is nil or empty. */
  predicate NeedsOses(s: State) {
    s.deviceOses.None? || |s.deviceOses.value| == 0
  }

  predicate NeedsMakes(s: State) {
    s.deviceMakes.None? || |s.deviceMakes.value| == 0
  }

  /** `loadDeviceOsesData`: the state afterwards and the error it returns. */
  function OsesLoaded(s: State, fetched: Exchange<seq<JSONDeviceOsVersions>>): (r: (State, Option<string>))
    ensures r.0.(deviceOses := s.deviceOses, deviceOsVerMap := s.deviceOsVerMap) == s
    ensures r.1.Some? <==> NeedsOses(s) && fetched.Failed?
    ensures r.1.Some? || !NeedsOses(s) ==> r.0 == s
    ensures NeedsOses(s) && fetched.Answered? ==>
      && r.0.deviceOses.Some? && r.0.deviceOsVerMap.Some? && Distinct(r.0.deviceOses.value)
      && forall k :: k in r.0.deviceOses.value <==> k in r.0.deviceOsVerMap.value && Occurs(fetched.value, OsNameOf, k)
  {
    if !NeedsOses(s) then (s, None)
    else match fetched
      case Failed(cause) => (s, Some(cause))
      case Answered(rows) =>
        FoldKeys(rows, OsNameOf, OsVersionOf);
        var f := Fold(rows, OsNameOf, OsVersionOf);
        (s.(deviceOsVerMap := Some(f.1), deviceOses := Some(f.0)), None)
  }

  /** `loadDeviceMakesData`: the state afterwards and the error it returns. */
  function MakesLoaded(s: State, fetched: Exchange<seq<JSONMakeModel>>): (r: (State, Option<string>))
    ensures r.0.(deviceMakes := s.deviceMakes, deviceMakesMap := s.deviceMakesMap) == s
    ensures r.1.Some? <==> NeedsMakes(s) && fetched.Failed?
    ensures r.1.Some? || !NeedsMakes(s) ==> r.0 == s
    ensures NeedsMakes(s) && fetched.Answered? ==>
      && r.0.deviceMakes.Some? && r.0.deviceMakesMap.Some? && Distinct(r.0.deviceMakes.value)
      && forall k :: k in r.0.deviceMakes.value <==> k in r.0.deviceMakesMap.value && Occurs(fetched.value, BrandOf, k)
  {
    if !NeedsMakes(s) then (s, None)
    else match fetched
      case Failed(cause) => (s, Some(cause))
      case Answered(rows) =>
        FoldKeys(rows, BrandOf, ModelMktNameOf);
        var f := Fold(rows, BrandOf, ModelMktNameOf);
        (s.(deviceMakesMap := Some(f.1), deviceMakes := Some(f.0)), None)
  }

  /** The length of a possibly nil list, as Go's `len`. */
  function Len<T>(l: Option<seq<T>>): nat {
    if l.Some? then |l.value| else 0
  }

  /**
   * `GetAllOSes`, with its check as written: the load error is returned only
   * when the OS list is non-empty afterwards.
   */
  function AllOSes(s: State, fetched: Exchange<seq<JSONDeviceOsVersions>>): (r: (State, Option<seq<string>>, Option<string>))
    ensures r.2 == None && r.1 == r.0.deviceOses
  {
    var (s1, err) := OsesLoaded(s, fetched);
    if err.Some? && Len(s1.deviceOses) > 0 then (s1, None, err) else (s1, s1.deviceOses, None)
  }

  /** `GetAllDeviceMakes`, with the same check. */
  function AllDeviceMakes(s: State, fetched: Exchange<seq<JSONMakeModel>>): (r: (State, Option<seq<string>>, Option<string>))
    ensures r.2 == None && r.1 == r.0.deviceMakes
  {
    var (s1, err) := MakesLoaded(s, fetched);
    if err.Some? && Len(s1.deviceMakes) > 0 then (s1, None, err) else (s1, s1.deviceMakes, None)
  }

  function NotFound(name: string): string {
    "Error getting data from WM server: " + name + " does not exist"
  }

  /** `GetAllVersionsForOS`: the versions of `osName` without empty ones, or a not-found error. */
  function VersionsForOS(s: State, fetched: Exchange<seq<JSONDeviceOsVersions>>, osName: string)
    : (r: (State, Option<seq<string>>, Option<string>))
    ensures r.1.Some? <==> r.2.None?
    ensures r.1.Some? ==> forall v :: v in r.1.value ==> v != ""
    ensures r.2.Some? ==> r.2 == Some(NotFound(osName))
    ensures r.2.Some? <==> r.0.deviceOsVerMap.None? || osName !in r.0.deviceOsVerMap.value
    ensures r.1.Some? ==> r.1.value == NonEmpty(r.0.deviceOsVerMap.value[osName])
  {
    var (s1, err) := OsesLoaded(s, fetched);
    if err.Some? && Len(s1.deviceOses) > 0 then (s1, None, err)
    else if s1.deviceOsVerMap.Some? && osName in s1.deviceOsVerMap.value then
      (s1, Some(NonEmpty(s1.deviceOsVerMap.value[osName])), None)
    else (s1, None, Some(NotFound(osName)))
  }

  /** `GetAllDevicesForMake`: the models of `brandName`, or a not-found error. */
  function DevicesForMake(s: State, fetched: Exchange<seq<JSONMakeModel>>, brandName: string)
    : (r: (State, Option<seq<JSONModelMktName>>, Option<string>))
    ensures r.1.Some? <==> r.2.None?
    ensures r.1.Some? ==> r.0.deviceMakesMap.Some? && brandName in r.0.deviceMakesMap.value
    ensures r.2.Some? ==> r.2 == Some(NotFound(brandName))
    ensures r.2.Some? <==> r.0.deviceMakesMap.None? || brandName !in r.0.deviceMakesMap.value
    ensures r.1.Some? ==> r.1.value == r.0.deviceMakesMap.value[brandName]
  {
    var (s1, err) := MakesLoaded(s, fetched);
    if err.Some? && Len(s1.deviceMakes) > 0 then (s1, None, err)
    else if s1.deviceMakesMap.Some? && brandName in s1.deviceMakesMap.value then
      (s1, Some(s1.deviceMakesMap.value[brandName]), None)
    else (s1, None, Some(NotFound(brandName)))
  }

  // ------------------------------------------------------------ coherence

  /** Every cached record is error-free and carries the client's load time or none. */
  ghost predicate CacheCoherent(c: Option<Cache<JSONDeviceData>>, ltime: string) {
    c.Some? ==>
      && c.value.Valid()
      && forall k :: k in c.value.entries ==>
           c.value.entries[k].Error == "" && (c.value.entries[k].Ltime == "" || c.value.entries[k].Ltime == ltime)
  }

  /** A key list and its map are nil together, and when present they hold the same, distinct keys. */
  ghost predicate TableCoherent<V>(keys: Option<seq<string>>, groups: Option<map<string, V>>) {
    && keys.Some? == groups.Some?
    && (keys.Some? ==> Distinct(keys.value) && forall k :: k in keys.value <==> k in groups.value)
  }

  /** What holds of every client between operations. */
  ghost predicate Coherent(s: State) {
    && Sorted(s.staticCaps) && Sorted(s.virtualCaps)
    && (s.requestedStaticCaps.Some? ==> forall x :: x in s.requestedStaticCaps.value ==> x in s.staticCaps)
    && (s.requestedVirtualCaps.Some? ==> forall x :: x in s.requestedVirtualCaps.value ==> x in s.virtualCaps)
    && CacheCoherent(s.deviceCache, s.clientLtime) && CacheCoherent(s.userAgentCache, s.clientLtime)
    && s.mkModels == None
    && TableCoherent(s.deviceOses, s.deviceOsVerMap)
    && TableCoherent(s.deviceMakes, s.deviceMakesMap)
  }

  /**
   * A new client is coherent, with empty caches, both capability lists sorted
   * permutations of what the server sent, so that the registry answers
   * exactly the names the server declared.
   */
  lemma InitialCoherent(info: JSONInfoData)
    ensures var s := Initial(info);
      && Coherent(s) && Sizes(s) == (0, 0)
      && multiset(s.staticCaps) == multiset(info.StaticCaps)
      && multiset(s.virtualCaps) == multiset(info.VirtualCaps)
      && (forall x :: SliceHasValue(s.staticCaps, x) <==> x in info.StaticCaps)
      && (forall x :: SliceHasValue(s.virtualCaps, x) <==> x in info.VirtualCaps)
  {
    var s := Initial(info);
    forall x ensures SliceHasValue(s.staticCaps, x) <==> x in info.StaticCaps {
      SortStringsMembers(info.StaticCaps, x);
    }
    forall x ensures SliceHasValue(s.virtualCaps, x) <==> x in info.VirtualCaps {
      SortStringsMembers(info.VirtualCaps, x);
    }
  }

  lemma ClearedCoherent(s: State)
    requires Coherent(s)
    ensures Coherent(Cleared(s))
  {
  }

  lemma LtimeCheckedCoherent(s: State, ltime: string)
    requires Coherent(s)
    ensures Coherent(LtimeChecked(s, ltime))
  {
  }

  /** Every setter and size change keeps the client coherent. */
  lemma SettersCoherent(s: State, capsList: Option<seq<string>>, uaMaxEntries: int, connection: int64, transfer: int64)
    requires Coherent(s)
    ensures Coherent(WithRequestedStatic(s, capsList))
    ensures Coherent(WithRequestedVirtual(s, capsList))
    ensures Coherent(WithRequested(s, capsList))
    ensures Coherent(WithCacheSize(s, uaMaxEntries))
    ensures Coherent(WithHTTPTimeout(s, connection, transfer))
  {
    if capsList.Some? {
      KnownInRegistry(capsList.value, s.staticCaps, []);
      KnownInRegistry(capsList.value, s.virtualCaps, []);
      KnownInRegistry(capsList.value, s.virtualCaps, s.staticCaps);
    }
  }

  /** A lookup keeps the client coherent: it only ever caches error-free records of the current load time. */
  lemma LookedUpCoherent(s: State, tier: Tier, key: string, reply: Exchange<JSONDeviceData>,
                         s': State, data: Option<JSONDeviceData>, err: Option<string>, fetched: bool)
    requires Coherent(s)
    requires LookedUp(s, tier, key, reply, s', data, err, fetched)
    ensures Coherent(s')
  {
    if fetched && err.None? {
      var s1 := LtimeChecked(s, data.value.Ltime);
      LtimeCheckedCoherent(s, data.value.Ltime);
      assert data.value.Ltime == "" || data.value.Ltime == s1.clientLtime;
      if CacheOf(s1, tier).Some? {
        var c, c' := CacheOf(s1, tier).value, CacheOf(s', tier).value;
        assert c'.Valid();
        forall k | k in c'.entries
          ensures c'.entries[k].Error == "" && (c'.entries[k].Ltime == "" || c'.entries[k].Ltime == s'.clientLtime)
        {
          if k != key {
            assert k in c.entries;
          }
        }
      }
    }
  }

  /**
   * The fold keeps the tables coherent; the loaded OS list names exactly the
   * OSes of the rows, in first-seen order.
   */
  lemma {:induction false} LoadedCoherent(s: State, oses: Exchange<seq<JSONDeviceOsVersions>>, makes: Exchange<seq<JSONMakeModel>>)
    requires Coherent(s)
    ensures Coherent(OsesLoaded(s, oses).0) && Coherent(MakesLoaded(s, makes).0)
  {
    if oses.Answered? {
      FoldKeys(oses.value, OsNameOf, OsVersionOf);
    }
    if makes.Answered? {
      FoldKeys(makes.value, BrandOf, ModelMktNameOf);
    }
  }

  // ------------------------------------------------ table properties

  /**
   * `GetAllOSes` never reports an error: a failed load leaves the list nil or
   * empty, so the check is always false. A fresh load returns the OS names
   * of the rows, distinct and in first-seen order; a loaded list is returned
   * without asking again.
   */
  lemma AllOSesCases(s: State, fetched: Exchange<seq<JSONDeviceOsVersions>>)
    ensures var (s', oses, err) := AllOSes(s, fetched);
      && err == None
      && (!NeedsOses(s) ==> s' == s && oses == s.deviceOses)
      && (NeedsOses(s) && fetched.Failed? ==> s' == s && Len(oses) == 0)
      && (NeedsOses(s) && fetched.Answered? ==>
            && oses.Some? && Distinct(oses.value)
            && (forall k :: k in oses.value <==> Occurs(fetched.value, OsNameOf, k))
            && FirstSeenOrder(fetched.value, OsNameOf, oses.value))
  {
    if NeedsOses(s) && fetched.Answered? {
      FoldKeys(fetched.value, OsNameOf, OsVersionOf);
      FoldFirstSeen(fetched.value, OsNameOf, OsVersionOf);
    }
  }

  /** The same for `GetAllDeviceMakes`. */
  lemma AllDeviceMakesCases(s: State, fetched: Exchange<seq<JSONMakeModel>>)
    ensures var (s', makes, err) := AllDeviceMakes(s, fetched);
      && err == None
      && (!NeedsMakes(s) ==> s' == s && makes == s.deviceMakes)
      && (NeedsMakes(s) && fetched.Failed? ==> s' == s && Len(makes) == 0)
      && (NeedsMakes(s) && fetched.Answered? ==>
            && makes.Some? && Distinct(makes.value)
            && (forall k :: k in makes.value <==> Occurs(fetched.value, BrandOf, k))
            && FirstSeenOrder(fetched.value, BrandOf, makes.value))
  {
    if NeedsMakes(s) && fetched.Answered? {
      FoldKeys(fetched.value, BrandOf, ModelMktNameOf);
      FoldFirstSeen(fetched.value, BrandOf, ModelMktNameOf);
    }
  }

  /**
   * `GetAllVersionsForOS` after a fresh load: the non-empty versions of the
   * rows naming `osName`, in row order, when some row names it; the
   * not-found error otherwise. A failed load is reported as not found too.
   */
  lemma VersionsForOSCases(s: State, fetched: Exchange<seq<JSONDeviceOsVersions>>, osName: string)
    requires Coherent(s) && NeedsOses(s)
    ensures var (s', versions, err) := VersionsForOS(s, fetched, osName);
      && (fetched.Failed? ==> s' == s && versions == None && err == Some(NotFound(osName)))
      && (fetched.Answered? ==>
            if Occurs(fetched.value, OsNameOf, osName) then
              && err == None
              && versions == Some(NonEmpty(ValuesOf(fetched.value, OsNameOf, OsVersionOf, osName)))
            else versions == None && err == Some(NotFound(osName)))
  {
    if fetched.Answered? {
      FoldKeys(fetched.value, OsNameOf, OsVersionOf);
      FoldGroups(fetched.value, OsNameOf, OsVersionOf);
    }
  }

  /** `GetAllDevicesForMake` after a fresh load: the models of the brand's rows, in row order. */
  lemma DevicesForMakeCases(s: State, fetched: Exchange<seq<JSONMakeModel>>, brandName: string)
    requires Coherent(s) && NeedsMakes(s)
    ensures var (s', models, err) := DevicesForMake(s, fetched, brandName);
      && (fetched.Failed? ==> s' == s && models == None && err == Some(NotFound(brandName)))
      && (fetched.Answered? ==>
            if Occurs(fetched.value, BrandOf, brandName) then
              && err == None
              && models == Some(ValuesOf(fetched.value, BrandOf, ModelMktNameOf, brandName))
            else models == None && err == Some(NotFound(brandName)))
  {
    if fetched.Answered? {
      FoldKeys(fetched.value, BrandOf, ModelMktNameOf);
      FoldGroups(fetched.value, BrandOf, ModelMktNameOf);
    }
  }

  /**
   * Once a load has filled the OS table, every later `GetAllVersionsForOS`
   * asks nothing and changes nothing: a named OS gets its non-empty versions
   * in row order, and any other name the not-found error.
   */
  lemma VersionsForOSAgain(s: State, rows: seq<JSONDeviceOsVersions>, first: string,
                           again: Exchange<seq<JSONDeviceOsVersions>>, osName: string)
    requires NeedsOses(s) && |rows| > 0
    ensures var s1 := VersionsForOS(s, Answered(rows), first).0;
      var (s2, versions, err) := VersionsForOS(s1, again, osName);
      && s2 == s1
      && if Occurs(rows, OsNameOf, osName) then
           versions == Some(NonEmpty(ValuesOf(rows, OsNameOf, OsVersionOf, osName))) && err == None
         else versions == None && err == Some(NotFound(osName))
  {
    var f := Fold(rows, OsNameOf, OsVersionOf);
    FoldKeys(rows, OsNameOf, OsVersionOf);
    FoldGroups(rows, OsNameOf, OsVersionOf);
    assert Occurs(rows, OsNameOf, OsNameOf(rows[0]));
    var s1 := OsesLoaded(s, Answered(rows)).0;
    assert s1 == s.(deviceOsVerMap := Some(f.1), deviceOses := Some(f.0));
    assert VersionsForOS(s, Answered(rows), first).0 == s1;
    assert |f.0| > 0 && !NeedsOses(s1);
    var r := VersionsForOS(s1, again, osName);
    assert r.0 == s1;
    if Occurs(rows, OsNameOf, osName) {
      assert osName in f.1 && f.1[osName] == ValuesOf(rows, OsNameOf, OsVersionOf, osName);
    } else {
      assert osName !in f.1;
    }
  }

  /**
   * Once a load has filled the brand table, every later
   * `GetAllDevicesForMake` asks nothing and changes nothing: a named brand
   * gets its models in row order, and any other name the not-found error.
   */
  lemma DevicesForMakeAgain(s: State, rows: seq<JSONMakeModel>, first: string,
                            again: Exchange<seq<JSONMakeModel>>, brandName: string)
    requires NeedsMakes(s) && |rows| > 0
    ensures var s1 := DevicesForMake(s, Answered(rows), first).0;
      var (s2, models, err) := DevicesForMake(s1, again, brandName);
      && s2 == s1
      && if Occurs(rows, BrandOf, brandName) then
           models == Some(ValuesOf(rows, BrandOf, ModelMktNameOf, brandName)) && err == None
         else models == None && err == Some(NotFound(brandName))
  {
    var f := Fold(rows, BrandOf, ModelMktNameOf);
    FoldKeys(rows, BrandOf, ModelMktNameOf);
    FoldGroups(rows, BrandOf, ModelMktNameOf);
    assert Occurs(rows, BrandOf, BrandOf(rows[0]));
    var s1 := MakesLoaded(s, Answered(rows)).0;
    assert s1 == s.(deviceMakesMap := Some(f.1), deviceMakes := Some(f.0));
    assert DevicesForMake(s, Answered(rows), first).0 == s1;
    assert |f.0| > 0 && !NeedsMakes(s1);
    assert MakesLoaded(s1, again) == (s1, None);
  }
}
