/** The HTTP entry point for candle history: the ordered chain of checks a
    request goes through before the candles manager is asked, and the
    mapping of the manager's candles into the response body. */
module HistoryController {

  import opened Wrappers
  import opened Calendar
  import opened TimeIntervals
  import opened Candles
  import CandlesManager

  /** The route parameters of one request; the two moments are taken as
      already being UTC instants. */
  datatype Request = Request(
    assetPairId: string,
    priceType: PriceType,
    interval: TimeInterval,
    from: Instant,
    to: Instant)

  /** What the controller consults: the shutdown flags, the asset pairs that
      have a configured connection string, the asset-pair directory (true
      for a pair that is present and enabled) and the candles manager. */
  datatype Server = Server(
    shuttingDown: bool,
    shutDown: bool,
    connections: set<string>,
    enabledPair: string -> bool,
    candles: (string, PriceType, TimeInterval, Instant, Instant) -> seq<Candle>)

  /** An error body: a message, optionally attached to a parameter name. */
  datatype ErrorResponse = ErrorResponse(field: Option<string>, message: string)

  /** One element of the history in the response body. */
  datatype HistoryCandle = HistoryCandle(dateTime: Instant, open: Price, close: Price, high: Price, low: Price)

  datatype Response =
    | Ok(history: seq<HistoryCandle>)
    | BadRequest(error: ErrorResponse)
    | ServiceUnavailable(error: ErrorResponse)

  function StatusCode(r: Response): (code: int)
    ensures code in {200, 400, 503}
  {
    match r
    case Ok(_) => 200
    case BadRequest(_) => 400
    case ServiceUnavailable(_) => 503
  }

  /** Invariant-culture upper-casing, on the ASCII letters. */
  function UpperChar(c: char): (u: char)
    ensures !('a' <= u <= 'z')
    ensures 'A' <= c <= 'Z' || !('a' <= c <= 'z') ==> u == c
    ensures 'a' <= c <= 'z' ==> 'A' <= u <= 'Z' && u as int - c as int == 'A' as int - 'a' as int
  {
    if 'a' <= c <= 'z' then (c as int - 'a' as int + 'A' as int) as char else c
  }

  function Upper(s: string): (u: string)
    ensures |u| == |s|
    ensures forall k :: 0 <= k < |s| ==> u[k] == UpperChar(s[k])
  {
    seq(|s|, k requires 0 <= k < |s| => UpperChar(s[k]))
  }

  /** Upper-casing twice is upper-casing once. */
  lemma UpperIdempotent(s: string)
    ensures Upper(Upper(s)) == Upper(s)
  {
    assert forall k :: 0 <= k < |s| ==> UpperChar(UpperChar(s[k])) == UpperChar(s[k]);
  }

  /** The Latin-1 white-space characters: space, tab to carriage return,
      next line and no-break space. */
  predicate IsWhiteSpace(c: char) {
    c == ' ' || '\t' <= c <= '\r' || c as int == 0x85 || c as int == 0xA0
  }

  /** string.IsNullOrWhiteSpace on a present string, scanning it from the
      front: true for the empty string, and otherwise when it is white
      space character by character. */
  function Blank(s: string): (b: bool)
    ensures b <==> forall k :: 0 <= k < |s| ==> IsWhiteSpace(s[k])
    ensures !b <==> exists k :: 0 <= k < |s| && !IsWhiteSpace(s[k])
  {
    if s == [] then true
    else IsWhiteSpace(s[0]) && Blank(s[1..])
  }

  /** Upper-casing neither creates nor removes white space. */
  lemma UpperKeepsBlank(s: string)
    ensures Blank(Upper(s)) <==> Blank(s)
  {
    forall k | 0 <= k < |s|
      ensures IsWhiteSpace(Upper(s)[k]) <==> IsWhiteSpace(s[k])
    {
      assert Upper(s)[k] == UpperChar(s[k]);
    }
  }

  const ShuttingDownMessage := "Service is shutting down"
  const ShutDownMessage := "Service is shutted down"
  const PairRequiredMessage := "Asset pair is required"
  const PriceTypeMessage := "Price type should not be Unspecified"
  const IntervalMessage := "Time interval should not be " + Name(TimeInterval.Unspecified)
  const OrderMessage := "From date should be early than To date"
  const NoConnectionMessage := "Connection string for asset pair not configured"
  const NotInDirectoryMessage := "Asset pair not found in dictionary or disabled"

  /** The candles of the manager as history elements, one for one, in order. */
  function ToHistory(cs: seq<Candle>): (h: seq<HistoryCandle>)
    ensures |h| == |cs|
    ensures forall k :: 0 <= k < |cs| ==>
      && h[k].dateTime == cs[k].timestamp
      && h[k].open == cs[k].open && h[k].close == cs[k].close
      && h[k].high == cs[k].high && h[k].low == cs[k].low
  {
    seq(|cs|, k requires 0 <= k < |cs| =>
      HistoryCandle(cs[k].timestamp, cs[k].open, cs[k].close, cs[k].high, cs[k].low))
  }

  /** The checks in their order, the price-type error being attached to the
      parameter name `priceTypeField`. */
  function Respond(server: Server, req: Request, priceTypeField: string): (r: Response)
    ensures r.ServiceUnavailable? <==> server.shuttingDown || server.shutDown
    ensures r.Ok? <==>
      && !server.shuttingDown && !server.shutDown
      && !Blank(req.assetPairId)
      && req.priceType != PriceType.Unspecified && req.interval != TimeInterval.Unspecified
      && req.from < req.to
      && Upper(req.assetPairId) in server.connections
      && server.enabledPair(Upper(req.assetPairId))
    ensures r.Ok? ==>
      r.history == ToHistory(server.candles(Upper(req.assetPairId), req.priceType, req.interval, req.from, req.to))
  {
    var id := Upper(req.assetPairId);
    UpperKeepsBlank(req.assetPairId);
    if server.shuttingDown then ServiceUnavailable(ErrorResponse(None, ShuttingDownMessage))
    else if server.shutDown then ServiceUnavailable(ErrorResponse(None, ShutDownMessage))
    else if Blank(id) then BadRequest(ErrorResponse(Some("assetPairId"), PairRequiredMessage))
    else if req.priceType == PriceType.Unspecified then BadRequest(ErrorResponse(Some(priceTypeField), PriceTypeMessage))
    else if req.interval == TimeInterval.Unspecified then BadRequest(ErrorResponse(Some("timeInterval"), IntervalMessage))
    else if req.from >= req.to then BadRequest(ErrorResponse(None, OrderMessage))
    else if id !in server.connections then BadRequest(ErrorResponse(Some("assetPairId"), NoConnectionMessage))
    else if !server.enabledPair(id) then BadRequest(ErrorResponse(Some("assetPairId"), NotInDirectoryMessage))
    else Ok(ToHistory(server.candles(id, req.priceType, req.interval, req.from, req.to)))
  }

  /** An error body blames the right parameter: a parameter it names holds
      an invalid value. */
  predicate BlamesRightParameter(server: Server, req: Request, r: Response) {
    var id := Upper(req.assetPairId);
    r.BadRequest? && r.error.field.Some? ==>
      && (r.error.field.value == "assetPairId" ==> Blank(id) || id !in server.connections || !server.enabledPair(id))
      && (r.error.field.value == "priceType" ==> req.priceType == PriceType.Unspecified)
      && (r.error.field.value == "timeInterval" ==> req.interval == TimeInterval.Unspecified)
  }

  /** GetCandlesHistory as the controller is written: the price-type error
      names the `timeInterval` parameter. */
  function GetCandlesHistoryAsWritten(server: Server, req: Request): (r: Response)
    ensures !server.shuttingDown && !server.shutDown && !Blank(req.assetPairId) && req.priceType == PriceType.Unspecified ==>
      r == BadRequest(ErrorResponse(Some("timeInterval"), PriceTypeMessage))
  {
    Respond(server, req, "timeInterval")
  }

  /** A request whose only fault is its price type is told its time interval
      is wrong. */
  lemma PriceTypeErrorBlamesInterval(server: Server)
    requires !server.shuttingDown && !server.shutDown
    ensures var req := Request("EURUSD", PriceType.Unspecified, Minute, 0, 60 * TicksPerSecond);
      && req.interval != TimeInterval.Unspecified
      && !BlamesRightParameter(server, req, GetCandlesHistoryAsWritten(server, req))
  {
    var req := Request("EURUSD", PriceType.Unspecified, Minute, 0, 60 * TicksPerSecond);
    assert !IsWhiteSpace(req.assetPairId[0]);
  }

  /** GetCandlesHistory with every parameter error attached to the parameter
      it is about. */
  function GetCandlesHistory(server: Server, req: Request): (r: Response)
    ensures BlamesRightParameter(server, req, r)
    ensures r.Ok? <==> GetCandlesHistoryAsWritten(server, req).Ok?
    ensures r.Ok? ==> r == GetCandlesHistoryAsWritten(server, req)
  {
    UpperKeepsBlank(req.assetPairId);
    Respond(server, req, "priceType")
  }

  /** Nothing but the shutdown flags decides the response while the service
      is going down. */
  lemma ShutdownComesFirst(server: Server, other: Server, req: Request, otherReq: Request)
    requires server.shuttingDown || server.shutDown
    requires other.shuttingDown == server.shuttingDown && other.shutDown == server.shutDown
    ensures GetCandlesHistory(server, req) == GetCandlesHistory(other, otherReq)
    ensures StatusCode(GetCandlesHistory(server, req)) == 503
  {
  }

  /** The asset pair is upper-cased before any check or lookup: requests that
      differ only in the case of its letters get the same response. */
  lemma CaseInsensitivePair(server: Server, req: Request, other: string)
    requires Upper(other) == Upper(req.assetPairId)
    ensures GetCandlesHistory(server, req) == GetCandlesHistory(server, req.(assetPairId := other))
  {
    UpperKeepsBlank(other);
    UpperKeepsBlank(req.assetPairId);
  }

  /** Each check runs only when the ones before it passed, and yields its own
      error. */
  lemma ChecksInOrder(server: Server, req: Request)
    ensures var r := GetCandlesHistory(server, req);
      var id := Upper(req.assetPairId);
      var up := !server.shuttingDown && !server.shutDown;
      var named := up && !Blank(req.assetPairId);
      var typed := named && req.priceType != PriceType.Unspecified;
      var timed := typed && req.interval != TimeInterval.Unspecified;
      var ordered := timed && req.from < req.to;
      var connected := ordered && id in server.connections;
      && (r == ServiceUnavailable(ErrorResponse(None, ShuttingDownMessage)) <==> server.shuttingDown)
      && (r == ServiceUnavailable(ErrorResponse(None, ShutDownMessage)) <==> !server.shuttingDown && server.shutDown)
      && (r == BadRequest(ErrorResponse(Some("assetPairId"), PairRequiredMessage)) <==> up && Blank(req.assetPairId))
      && (r == BadRequest(ErrorResponse(Some("priceType"), PriceTypeMessage)) <==> named && req.priceType == PriceType.Unspecified)
      && (r == BadRequest(ErrorResponse(Some("timeInterval"), IntervalMessage)) <==> typed && req.interval == TimeInterval.Unspecified)
      && (r == BadRequest(ErrorResponse(None, OrderMessage)) <==> timed && req.from >= req.to)
      && (r == BadRequest(ErrorResponse(Some("assetPairId"), NoConnectionMessage)) <==> ordered && id !in server.connections)
      && (r == BadRequest(ErrorResponse(Some("assetPairId"), NotInDirectoryMessage)) <==> connected && !server.enabledPair(id))
  {
    UpperKeepsBlank(req.assetPairId);
  }

  /** The directory is not consulted for a pair without a connection string. */
  lemma ConnectionBeforeDirectory(server: Server, req: Request, directory: string -> bool)
    requires Upper(req.assetPairId) !in server.connections
    ensures GetCandlesHistory(server, req) == GetCandlesHistory(server.(enabledPair := directory), req)
    ensures !GetCandlesHistory(server, req).Ok?
  {
  }

  /** Wired to the candles manager, whose repository stores every pair with
      a connection string, a request the controller lets through is never
      rejected by the manager. */
  lemma ValidatedRequestsReachManager(server: Server, env: CandlesManager.Env, req: Request)
    requires InRange(req.from) && InRange(req.to)
    requires forall a :: a in server.connections ==> env.canStore(a)
    requires GetCandlesHistory(server, req).Ok?
    ensures CandlesManager.GetCandles(env, Upper(req.assetPairId), req.priceType, req.interval, req.from, req.to).Success?
  {
  }
}
