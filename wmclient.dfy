/**
 * The `WmClient` object: connection settings fixed by `Create`, and the
 * fields its methods update in place. Every exchange with the server is a
 * parameter (the answer the server gives if it is asked), and every method
 * that changes the client is proved against the matching transition of
 * module ClientState.
 */
module Client {
  import opened Wrappers
  import opened Records
  import opened Text
  import opened Registry
  import opened Lru
  import opened Headers
  import opened Tables
  import opened ClientState

  const UserAgentHeader: string := "User-Agent"
  const EmptyDataError: string := "server returned empty data or a wrong json format"

  /** `GetAPIVersion`: the version of this library. */
  function GetAPIVersion(): (v: string)
    ensures v == "2.1.3"
  {
    "2.1.3"
  }

  /** `getWmClientUserAgent`: the caller's agent followed by this library's token. */
  function WmClientUserAgent(userAgent: string): (r: string)
    ensures |r| == |userAgent| + 21
    ensures r[..|userAgent|] == userAgent && r[|userAgent|..] == "go-wmclient-api-2.1.3"
  {
    userAgent + "go-wmclient-api-" + GetAPIVersion()
  }

  /** `checkData`: the three version strings are set and some capability is declared. */
  predicate CheckData(info: JSONInfoData)
    ensures CheckData(info) ==> info.WmVersion != "" && info.WurflAPIVersion != "" && info.WurflInfo != ""
    ensures CheckData(info) ==> |Initial(info).staticCaps| + |Initial(info).virtualCaps| > 0
  {
    && |info.WmVersion| > 0 && |info.WurflAPIVersion| > 0 && |info.WurflInfo| > 0
    && (|info.StaticCaps| > 0 || |info.VirtualCaps| > 0)
  }

  /** The scheme `Create` keeps: the given one, or "http" when it is empty. */
  function SchemeOrDefault(scheme: string): (r: string)
    ensures |r| > 0
    ensures |scheme| > 0 ==> r == scheme
    ensures |scheme| == 0 ==> r == "http"
  {
    if |scheme| > 0 then scheme else "http"
  }

  class WmClient {
    const scheme: string
    const host: string
    const port: string
    const baseURI: string
    /** `md5.Sum` on the bytes of a string; a foreign function, given to `Create`. */
    const md5: string -> Md5Digest

    var StaticCaps: seq<string>
    var VirtualCaps: seq<string>
    var requestedStaticCaps: Option<seq<string>>
    var requestedVirtualCaps: Option<seq<string>>
    var ImportantHeaders: seq<string>
    var deviceCache: Option<Cache<JSONDeviceData>>
    var userAgentCache: Option<Cache<JSONDeviceData>>
    var connTimeout: int64
    var transferTimeout: int64
    var mkModels: Option<seq<JSONMakeModel>>
    var deviceMakes: Option<seq<string>>
    var deviceMakesMap: Option<map<string, seq<JSONModelMktName>>>
    var deviceOses: Option<seq<string>>
    var deviceOsVerMap: Option<map<string, seq<string>>>
    var clientLtime: string

    /** The fields as a ClientState value. */
    function Snapshot(): State
      reads this
    {
      State(StaticCaps, VirtualCaps, requestedStaticCaps, requestedVirtualCaps, ImportantHeaders,
            deviceCache, userAgentCache, connTimeout, transferTimeout, mkModels,
            deviceMakes, deviceMakesMap, deviceOses, deviceOsVerMap, clientLtime)
    }

    ghost predicate Valid()
      reads this
    {
      Coherent(Snapshot())
    }

    /** `&WmClient{}` with the connection settings filled in: every list nil, no cache, no token. */
    constructor (scheme: string, host: string, port: string, baseURI: string, md5: string -> Md5Digest)
      ensures this.scheme == scheme && this.host == host && this.port == port
      ensures this.baseURI == baseURI && this.md5 == md5
      ensures Valid()
      ensures Snapshot() == State([], [], None, None, [], None, None, 0, 0, None, None, None, None, None, "")
    {
      this.scheme, this.host, this.port, this.baseURI, this.md5 := scheme, host, port, baseURI, md5;
      StaticCaps, VirtualCaps := [], [];
      requestedStaticCaps, requestedVirtualCaps := None, None;
      ImportantHeaders := [];
      deviceCache, userAgentCache := None, None;
      connTimeout, transferTimeout := 0, 0;
      mkModels := None;
      deviceMakes, deviceMakesMap := None, None;
      deviceOses, deviceOsVerMap := None, None;
      clientLtime := "";
    }

    /** `createURL`: scheme, host, optional port, optional base URI, then the path. */
    function CreateURL(path: string): (url: string)
      ensures |url| == |scheme| + 3 + |host| + (if |port| > 0 then 1 + |port| else 0)
                       + (if |baseURI| > 0 then 1 + |baseURI| else 0) + |path|
      ensures url[..|scheme| + 3 + |host|] == scheme + "://" + host
      ensures url[|url| - |path|..] == path
      ensures url[|scheme| + 3 + |host|..|url| - |path|]
           == (if |port| > 0 then ":" + port else "") + (if |baseURI| > 0 then "/" + baseURI else "")
    {
      var url := scheme + "://" + host + (if |port| > 0 then ":" + port else "");
      if |baseURI| > 0 then url + "/" + baseURI + path else url + path
    }

    // ------------------------------------------------------------ registry

    /** `HasStaticCapability`. */
    function HasStaticCapability(capName: string): (r: bool)
      reads this
      requires Sorted(StaticCaps)
      ensures r <==> capName in StaticCaps
    {
      SliceHasValue(StaticCaps, capName)
    }

    /** `HasVirtualCapability`. */
    function HasVirtualCapability(capName: string): (r: bool)
      reads this
      requires Sorted(VirtualCaps)
      ensures r <==> capName in VirtualCaps
    {
      SliceHasValue(VirtualCaps, capName)
    }

    // ------------------------------------------------------- invalidation

    /** `clearCache`. */
    method ClearCache()
      modifies this
      ensures Snapshot() == Cleared(old(Snapshot()))
    {
      ghost var target := Cleared(Snapshot());
      var ua, dev := userAgentCache, deviceCache;
      if ua.Some? && ua.value.Len() > 0 {
        ua := Some(ua.value.Cleared());
      } else if ua.Some? {
        ua.value.LenZeroIsCleared();
      }
      if dev.Some? && dev.value.Len() > 0 {
        dev := Some(dev.value.Cleared());
      } else if dev.Some? {
        dev.value.LenZeroIsCleared();
      }
      assert ua == target.userAgentCache && dev == target.deviceCache;
      userAgentCache, deviceCache := ua, dev;
      mkModels := None;
      deviceMakes, deviceMakesMap := None, None;
      deviceOses, deviceOsVerMap := None, None;
    }

    /** `clearCachesIfNeeded`. */
    method ClearCachesIfNeeded(ltime: string)
      requires Valid()
      modifies this
      ensures Valid()
      ensures Snapshot() == LtimeChecked(old(Snapshot()), ltime)
    {
      if |ltime| > 0 && clientLtime != ltime {
        clientLtime := ltime;
        ClearCache();
      }
      LtimeCheckedCoherent(old(Snapshot()), ltime);
    }

    /** `GetActualCacheSizes`: the device-id cache size, then the header cache size. */
    method GetActualCacheSizes() returns (dSize: int, uaSize: int)
      ensures dSize == (if deviceCache.Some? then |deviceCache.value.entries| else 0)
      ensures uaSize == (if userAgentCache.Some? then |userAgentCache.value.entries| else 0)
      ensures (dSize, uaSize) == Sizes(Snapshot())
    {
      dSize, uaSize := 0, 0;
      if deviceCache.Some? {
        dSize := deviceCache.value.Len();
      }
      if userAgentCache.Some? {
        uaSize := userAgentCache.value.Len();
      }
    }

    /** `SetCacheSize`. */
    method SetCacheSize(uaMaxEntries: int)
      requires Valid()
      modifies this
      ensures Valid()
      ensures Snapshot() == WithCacheSize(old(Snapshot()), uaMaxEntries)
    {
      userAgentCache := Some(New(uaMaxEntries));
      deviceCache := Some(New(DeviceDefaultCacheSize));
      SettersCoherent(old(Snapshot()), None, uaMaxEntries, 0, 0);
    }

    /** `SetHTTPTimeout`: only the two duration fields; the HTTP client is not modelled. */
    method SetHTTPTimeout(connection: int64, transfer: int64)
      requires Valid()
      modifies this
      ensures Valid()
      ensures Snapshot() == WithHTTPTimeout(old(Snapshot()), connection, transfer)
    {
      if connection <= 0 {
        connTimeout := DefaultConnTimeout;
      } else {
        connTimeout := Wrap64(connection as int * Second);
      }
      if transfer <= 0 {
        transferTimeout := DefaultTransferTimeout;
      } else {
        transferTimeout := Wrap64(transfer as int * Second);
      }
      SettersCoherent(old(Snapshot()), None, 0, connection, transfer);
    }

    /** `DestroyConnection`: everything cleared; dropping the HTTP client is not modelled. */
    method DestroyConnection()
      requires Valid()
      modifies this
      ensures Valid()
      ensures Snapshot() == Cleared(old(Snapshot()))
    {
      ClearCache();
      mkModels := None;
    }

    // ---------------------------------------------------- requested lists

    /** The append loop shared by the setters: the names of `capsList` in `registry`, not in `excluded`. */
    static method Filter(capsList: seq<string>, registry: seq<string>, excluded: seq<string>)
      returns (names: seq<string>)
      requires Sorted(registry) && Sorted(excluded)
      ensures names == KnownExcept(capsList, registry, excluded)
    {
      names := [];
      var i := 0;
      while i < |capsList|
        invariant 0 <= i <= |capsList|
        invariant names == KnownExcept(capsList[..i], registry, excluded)
      {
        var name := capsList[i];
        if !SliceHasValue(excluded, name) && SliceHasValue(registry, name) {
          names := names + [name];
        }
        KnownExceptSnoc(capsList[..i], name, registry, excluded);
        assert capsList[..i + 1] == capsList[..i] + [name];
        i := i + 1;
      }
      assert capsList[..i] == capsList;
    }

    /** `SetRequestedStaticCapabilities`. */
    method SetRequestedStaticCapabilities(capsList: Option<seq<string>>)
      requires Valid()
      modifies this
      ensures Valid()
      ensures Snapshot() == WithRequestedStatic(old(Snapshot()), capsList)
    {
      SettersCoherent(Snapshot(), capsList, 0, 0, 0);
      if capsList.None? {
        requestedStaticCaps := None;
        ClearCache();
        return;
      }
      var capNames := Filter(capsList.value, StaticCaps, []);
      if |capNames| > 0 {
        requestedStaticCaps := Some(capNames);
        ClearCache();
      }
    }

    /** `SetRequestedVirtualCapabilities`. */
    method SetRequestedVirtualCapabilities(capsList: Option<seq<string>>)
      requires Valid()
      modifies this
      ensures Valid()
      ensures Snapshot() == WithRequestedVirtual(old(Snapshot()), capsList)
    {
      SettersCoherent(Snapshot(), capsList, 0, 0, 0);
      if capsList.None? {
        requestedVirtualCaps := None;
        ClearCache();
        return;
      }
      var vcapNames := Filter(capsList.value, VirtualCaps, []);
      if |vcapNames| > 0 {
        requestedVirtualCaps := Some(vcapNames);
        ClearCache();
      }
    }

    /** `SetRequestedCapabilities`: one pass sorting each name into the static or the virtual list. */
    method SetRequestedCapabilities(capsList: Option<seq<string>>)
      requires Valid()
      modifies this
      ensures Valid()
      ensures Snapshot() == WithRequested(old(Snapshot()), capsList)
    {
      SettersCoherent(Snapshot(), capsList, 0, 0, 0);
      if capsList.None? {
        requestedVirtualCaps := None;
        requestedStaticCaps := None;
        ClearCache();
        return;
      }
      var names := capsList.value;
      var capNames, vcapNames := [], [];
      var i := 0;
      while i < |names|
        invariant 0 <= i <= |names|
        invariant Snapshot() == old(Snapshot())
        invariant capNames == Known(names[..i], StaticCaps)
        invariant vcapNames == KnownExcept(names[..i], VirtualCaps, StaticCaps)
      {
        var name := names[i];
        if HasStaticCapability(name) {
          capNames := capNames + [name];
        } else if HasVirtualCapability(name) {
          vcapNames := vcapNames + [name];
        }
        KnownExceptSnoc(names[..i], name, StaticCaps, []);
        KnownExceptSnoc(names[..i], name, VirtualCaps, StaticCaps);
        assert names[..i + 1] == names[..i] + [name];
        i := i + 1;
      }
      assert names[..i] == names;
      requestedStaticCaps := Some(capNames);
      requestedVirtualCaps := Some(vcapNames);
      ClearCache();
    }

    // ------------------------------------------------------------- lookups

    /** `getUserAgentCacheKey`: the values under the important names, concatenated, digested, hex-encoded. */
    method GetUserAgentCacheKey(headers: map<string, string>) returns (key: string)
      ensures key == CacheKey(md5, ImportantHeaders, headers)
      ensures |key| == 32 && IsLowerHex(key)
    {
      var material := "";
      var i := 0;
      while i < |ImportantHeaders|
        invariant 0 <= i <= |ImportantHeaders|
        invariant material == KeyMaterial(ImportantHeaders[..i], headers)
      {
        var hname := ImportantHeaders[i];
        material := material + (if hname in headers then headers[hname] else "");
        assert ImportantHeaders[..i + 1][..i] == ImportantHeaders[..i];
        i := i + 1;
      }
      assert ImportantHeaders[..i] == ImportantHeaders;
      key := HexEncode(md5(material));
    }

    /**
     * The flow every lookup shares: probe the tier's cache under `key`; on a
     * miss post `request` with the requested lists to `path` and take
     * `reply` as the server's answer; on success run the load-time check and
     * cache the record.
     */
    method CachedLookup(tier: Tier, key: string, request: Request, path: string, reply: Exchange<JSONDeviceData>)
      returns (data: Option<JSONDeviceData>, err: Option<string>, posted: Option<Post>)
      requires Valid()
      modifies this
      ensures Valid()
      ensures LookedUp(old(Snapshot()), tier, key, reply, Snapshot(), data, err, posted.Some?)
      ensures posted.Some? ==> posted.value == Post(CreateURL(path), WmClientUserAgent(""),
        request.(RequestedCaps := old(requestedStaticCaps), RequestedVCaps := old(requestedVirtualCaps)))
    {
      var cache := if tier == HeaderTier then userAgentCache else deviceCache;
      if cache.Some? {
        var hit := cache.value.Get(key);
        if hit.Some? {
          return hit, None, None;
        }
      }
      var body := request.(RequestedCaps := requestedStaticCaps, RequestedVCaps := requestedVirtualCaps);
      posted := Some(Post(CreateURL(path), WmClientUserAgent(""), body));
      var r := InternalLookup(reply);
      data, err := r.0, r.1;
      if err.None? {
        ClearCachesIfNeeded(data.value.Ltime);
        if tier == HeaderTier && userAgentCache.Some? {
          var c := Add(userAgentCache.value, key, data.value);
          userAgentCache := Some(c);
        } else if tier == DeviceTier && deviceCache.Some? {
          var c := Add(deviceCache.value, key, data.value);
          deviceCache := Some(c);
        }
      }
      LookedUpCoherent(old(Snapshot()), tier, key, reply, Snapshot(), data, err, posted.Some?);
    }

    /**
     * `LookupHeaders`: the important headers found in `headers` up to case,
     * under their important spelling, key the header cache.
     */
    method LookupHeaders(headers: map<string, string>, reply: Exchange<JSONDeviceData>)
      returns (data: Option<JSONDeviceData>, err: Option<string>, posted: Option<Post>)
      requires Valid() && CaseDistinct(headers)
      modifies this
      ensures Valid()
      ensures var selected := Selection(old(ImportantHeaders), headers);
        && LookedUp(old(Snapshot()), HeaderTier, CacheKey(md5, old(ImportantHeaders), selected), reply,
                    Snapshot(), data, err, posted.Some?)
        && (posted.Some? ==> posted.value == Post(CreateURL("/v2/lookuprequest/json"), WmClientUserAgent(""),
              Request(Some(selected), old(requestedStaticCaps), old(requestedVirtualCaps), "", "")))
    {
      var lowerKeyMap := LowerKeys(headers);
      var selected := SelectLowered(ImportantHeaders, headers, lowerKeyMap);
      var key := GetUserAgentCacheKey(selected);
      data, err, posted := CachedLookup(HeaderTier, key, Request(Some(selected), None, None, "", ""),
                                        "/v2/lookuprequest/json", reply);
    }

    /**
     * `LookupRequest`: as `LookupHeaders`, reading each important header of
     * the request with `Header.Get`.
     */
    method LookupRequest(header: map<string, seq<string>>, reply: Exchange<JSONDeviceData>)
      returns (data: Option<JSONDeviceData>, err: Option<string>, posted: Option<Post>)
      requires Valid()
      modifies this
      ensures Valid()
      ensures var selected := RequestSelection(old(ImportantHeaders), header);
        && LookedUp(old(Snapshot()), HeaderTier, CacheKey(md5, old(ImportantHeaders), selected), reply,
                    Snapshot(), data, err, posted.Some?)
        && (posted.Some? ==> posted.value == Post(CreateURL("/v2/lookuprequest/json"), WmClientUserAgent(""),
              Request(Some(selected), old(requestedStaticCaps), old(requestedVirtualCaps), "", "")))
    {
      var selected := SelectFromHeader(ImportantHeaders, header);
      var key := GetUserAgentCacheKey(selected);
      data, err, posted := CachedLookup(HeaderTier, key, Request(Some(selected), None, None, "", ""),
                                        "/v2/lookuprequest/json", reply);
    }

    /** `LookupUserAgent`: the header cache keyed as if `User-Agent` were the only header. */
    method LookupUserAgent(userAgent: string, reply: Exchange<JSONDeviceData>)
      returns (data: Option<JSONDeviceData>, err: Option<string>, posted: Option<Post>)
      requires Valid()
      modifies this
      ensures Valid()
      ensures var headers := map[UserAgentHeader := userAgent];
        && LookedUp(old(Snapshot()), HeaderTier, CacheKey(md5, old(ImportantHeaders), headers), reply,
                    Snapshot(), data, err, posted.Some?)
        && (posted.Some? ==> posted.value == Post(CreateURL("/v2/lookupuseragent/json"), WmClientUserAgent(""),
              Request(Some(headers), old(requestedStaticCaps), old(requestedVirtualCaps), "", "")))
    {
      var headers := map[UserAgentHeader := userAgent];
      var key := GetUserAgentCacheKey(headers);
      data, err, posted := CachedLookup(HeaderTier, key, Request(Some(headers), None, None, "", ""),
                                        "/v2/lookupuseragent/json", reply);
    }

    /** `LookupDeviceID`: the device cache keyed by the WURFL id. */
    method LookupDeviceID(deviceID: string, reply: Exchange<JSONDeviceData>)
      returns (data: Option<JSONDeviceData>, err: Option<string>, posted: Option<Post>)
      requires Valid()
      modifies this
      ensures Valid()
      ensures LookedUp(old(Snapshot()), DeviceTier, deviceID, reply, Snapshot(), data, err, posted.Some?)
      ensures posted.Some? ==> posted.value == Post(CreateURL("/v2/lookupdeviceid/json"), WmClientUserAgent(""),
        Request(None, old(requestedStaticCaps), old(requestedVirtualCaps), deviceID, ""))
    {
      data, err, posted := CachedLookup(DeviceTier, deviceID, Request(None, None, None, deviceID, ""),
                                        "/v2/lookupdeviceid/json", reply);
    }

    /** `GetInfo`: a checked answer runs the load-time check; anything else is an error and changes nothing. */
    method GetInfo(reply: Exchange<JSONInfoData>) returns (info: Option<JSONInfoData>, err: Option<string>)
      requires Valid()
      modifies this
      ensures Valid()
      ensures reply.Failed? ==> info == None && err == Some(reply.cause)
      ensures reply.Answered? && !CheckData(reply.value) ==> info == None && err == Some(EmptyDataError)
      ensures info.Some? <==> err.None?
      ensures info.Some? ==> reply == Answered(info.value) && CheckData(info.value)
      ensures Snapshot() == if info.Some? then LtimeChecked(old(Snapshot()), info.value.Ltime) else old(Snapshot())
    {
      if reply.Failed? {
        return None, Some(reply.cause);
      }
      if !CheckData(reply.value) {
        return None, Some(EmptyDataError);
      }
      ClearCachesIfNeeded(reply.value.Ltime);
      info, err := Some(reply.value), None;
    }

    // ---------------------------------------------------- auxiliary tables

    /** `loadDeviceOsesData`; `asked` tells whether the server was asked for the listing. */
    method LoadDeviceOsesData(fetched: Exchange<seq<JSONDeviceOsVersions>>) returns (err: Option<string>, asked: bool)
      requires Valid()
      modifies this
      ensures Valid()
      ensures asked == NeedsOses(old(Snapshot()))
      ensures (Snapshot(), err) == OsesLoaded(old(Snapshot()), fetched)
    {
      LoadedCoherent(Snapshot(), fetched, Failed(""));
      if deviceOses.Some? && |deviceOses.value| > 0 {
        return None, false;
      }
      asked := true;
      if fetched.Failed? {
        return Some(fetched.cause), asked;
      }
      var ov, ovMap := FoldRows(fetched.value, OsNameOf, OsVersionOf);
      deviceOsVerMap := Some(ovMap);
      deviceOses := Some(ov);
      err := None;
    }

    /** `loadDeviceMakesData`; `asked` tells whether the server was asked for the listing. */
    method LoadDeviceMakesData(fetched: Exchange<seq<JSONMakeModel>>) returns (err: Option<string>, asked: bool)
      requires Valid()
      modifies this
      ensures Valid()
      ensures asked == NeedsMakes(old(Snapshot()))
      ensures (Snapshot(), err) == MakesLoaded(old(Snapshot()), fetched)
    {
      LoadedCoherent(Snapshot(), Failed(""), fetched);
      if deviceMakes.Some? && |deviceMakes.value| > 0 {
        return None, false;
      }
      asked := true;
      if fetched.Failed? {
        return Some(fetched.cause), asked;
      }
      var dm, dmMap := FoldRows(fetched.value, BrandOf, ModelMktNameOf);
      deviceMakesMap := Some(dmMap);
      deviceMakes := Some(dm);
      err := None;
    }

    /** `GetAllOSes`. */
    method GetAllOSes(fetched: Exchange<seq<JSONDeviceOsVersions>>) returns (oses: Option<seq<string>>, err: Option<string>)
      requires Valid()
      modifies this
      ensures Valid()
      ensures (Snapshot(), oses, err) == AllOSes(old(Snapshot()), fetched)
    {
      var loadErr, _ := LoadDeviceOsesData(fetched);
      if loadErr.Some? && Len(deviceOses) > 0 {
        return None, loadErr;
      }
      oses, err := deviceOses, None;
    }

    /** `GetAllVersionsForOS`. */
    method GetAllVersionsForOS(osName: string, fetched: Exchange<seq<JSONDeviceOsVersions>>)
      returns (versions: Option<seq<string>>, err: Option<string>)
      requires Valid()
      modifies this
      ensures Valid()
      ensures (Snapshot(), versions, err) == VersionsForOS(old(Snapshot()), fetched, osName)
    {
      var loadErr, _ := LoadDeviceOsesData(fetched);
      if loadErr.Some? && Len(deviceOses) > 0 {
        return None, loadErr;
      }
      if deviceOsVerMap.Some? && osName in deviceOsVerMap.value {
        var osval := RemoveEmpty(deviceOsVerMap.value[osName]);
        return Some(osval), None;
      }
      return None, Some(NotFound(osName));
    }

    /** `GetAllDeviceMakes`. */
    method GetAllDeviceMakes(fetched: Exchange<seq<JSONMakeModel>>) returns (makes: Option<seq<string>>, err: Option<string>)
      requires Valid()
      modifies this
      ensures Valid()
      ensures (Snapshot(), makes, err) == AllDeviceMakes(old(Snapshot()), fetched)
    {
      var loadErr, _ := LoadDeviceMakesData(fetched);
      if loadErr.Some? && Len(deviceMakes) > 0 {
        return None, loadErr;
      }
      makes, err := deviceMakes, None;
    }

    /** `GetAllDevicesForMake`. */
    method GetAllDevicesForMake(brandName: string, fetched: Exchange<seq<JSONMakeModel>>)
      returns (models: Option<seq<JSONModelMktName>>, err: Option<string>)
      requires Valid()
      modifies this
      ensures Valid()
      ensures (Snapshot(), models, err) == DevicesForMake(old(Snapshot()), fetched, brandName)
    {
      var loadErr, _ := LoadDeviceMakesData(fetched);
      if loadErr.Some? && Len(deviceMakes) > 0 {
        return None, loadErr;
      }
      if deviceMakesMap.Some? && brandName in deviceMakesMap.value {
        return Some(deviceMakesMap.value[brandName]), None;
      }
      return None, Some(NotFound(brandName));
    }
  }

  /**
   * `Create`: the scheme defaults to "http"; the handshake answer is checked
   * by `GetInfo`; on success the client keeps the important headers and
   * both capability lists sorted, and starts with no cache.
   */
  method Create(scheme: string, host: string, port: string, baseURI: string,
                md5: string -> Md5Digest, handshake: Exchange<JSONInfoData>)
    returns (client: WmClient?, err: Option<string>)
    ensures client == null <==> err.Some?
    ensures handshake.Failed? ==> err == Some(handshake.cause)
    ensures handshake.Answered? && !CheckData(handshake.value) ==> err == Some(EmptyDataError)
    ensures client != null ==>
      && fresh(client) && client.Valid()
      && handshake.Answered? && CheckData(handshake.value)
      && client.scheme == SchemeOrDefault(scheme) && client.host == host && client.port == port
      && client.baseURI == baseURI && client.md5 == md5
      && client.Snapshot() == Initial(handshake.value)
  {
    var c := new WmClient(SchemeOrDefault(scheme), host, port, baseURI, md5);
    var data, e := c.GetInfo(handshake);
    if e.Some? {
      return null, e;
    }
    c.ImportantHeaders := data.value.ImportantHeaders;
    c.StaticCaps := SortStrings(data.value.StaticCaps);
    c.VirtualCaps := SortStrings(data.value.VirtualCaps);
    InitialCoherent(data.value);
    client, err := c, None;
  }
}
