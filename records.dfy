/**
 * The records exchanged with the device-detection server (the JSON shapes of
 * model.go), and the two shapes of an exchange with the server: the request
 * the client posts and the answer it gets back.
 */
module Records {
  import opened Wrappers

  /** Server and API information returned by the info endpoint. */
  datatype JSONInfoData = JSONInfoData(
    WurflAPIVersion: string,
    WurflInfo: string,
    WmVersion: string,
    ImportantHeaders: seq<string>,
    StaticCaps: seq<string>,
    VirtualCaps: seq<string>,
    Ltime: string)

  /**
   * The body of a lookup request. `LookupHeaders` is None for a device-id
   * lookup (the Go map is left nil there); the requested lists are None when
   * the client's lists are nil.
   */
  datatype Request = Request(
    LookupHeaders: Option<map<string, string>>,
    RequestedCaps: Option<seq<string>>,
    RequestedVCaps: Option<seq<string>>,
    WurflID: string,
    TacCode: string)

  /** Device data as strings; `Error` is non-empty when the server reports a failure. */
  datatype JSONDeviceData = JSONDeviceData(
    APIVersion: string,
    Capabilities: map<string, string>,
    Error: string,
    Mtime: int,
    Ltime: string)

  /** One row of the all-devices listing. */
  datatype JSONMakeModel = JSONMakeModel(BrandName: string, ModelName: string, MarketingName: string)

  /** Model and marketing name of one device of a brand. */
  datatype JSONModelMktName = JSONModelMktName(ModelName: string, MarketingName: string)

  /** One row of the all-OS-versions listing. */
  datatype JSONDeviceOsVersions = JSONDeviceOsVersions(OsName: string, OsVersion: string)

  /**
   * The outcome of one HTTP exchange after decoding: the decoded body, or the
   * cause of a failure that happened before a body could be decoded
   * (connection, transport, read or JSON error).
   */
  datatype Exchange<T> = Answered(value: T) | Failed(cause: string)

  /** A POST the client sends: target URL, its User-Agent header and the JSON body. */
  datatype Post = Post(url: string, userAgent: string, body: Request)

  function OsNameOf(e: JSONDeviceOsVersions): string { e.OsName }
  function OsVersionOf(e: JSONDeviceOsVersions): string { e.OsVersion }
  function BrandOf(e: JSONMakeModel): string { e.BrandName }
  function ModelMktNameOf(e: JSONMakeModel): JSONModelMktName { JSONModelMktName(e.ModelName, e.MarketingName) }
}
