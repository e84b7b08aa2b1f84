/** The bid/ask feed history table: one row per asset pair and second,
    partitioned by asset pair and keyed by the date in the sortable pattern,
    holding the ask and bid one-second items of that second. */
module FeedBidAskHistory {

  import opened Wrappers
  import opened Calendar
  import opened TimeIntervals
  import opened Candles
  import opened SortableFormat
  import opened FeedHistory
  import opened Seqs

  /** The stored row. The asset pair is read back from the partition key. */
  datatype FeedBidAskHistoryEntity = FeedBidAskHistoryEntity(
    partitionKey: string,
    rowKey: string,
    bidCandles: seq<FeedHistoryItem>,
    askCandles: seq<FeedHistoryItem>)

  /** The decoded row handed to readers. */
  datatype FeedBidAskHistory = FeedBidAskHistory(
    assetPair: string,
    dateTime: Instant,
    askCandles: seq<Candle>,
    bidCandles: seq<Candle>)

  /** A row as the table's constructor leaves it: no items on either side. */
  function EmptyEntity(partitionKey: string, rowKey: string): FeedBidAskHistoryEntity {
    FeedBidAskHistoryEntity(partitionKey, rowKey, [], [])
  }

  function GeneratePartitionKey(assetPair: string): string {
    assetPair
  }

  /** The row key of a date: its sortable spelling, to the second. */
  function GenerateRowKey(date: Instant): (k: string)
    requires InRange(date)
    ensures |k| == 19
    ensures Parse(k).Some? && FromParts(Parse(k).value) == TruncateToSecond(date)
  {
    ParseFormat(ToParts(date));
    FromPartsToParts(date);
    Format(ToParts(date))
  }

  /** The entity's DateTime: the date its row key spells, or the default
      date (tick 0) when the row key is empty or not in the pattern. */
  function RowDate(rowKey: string): (t: Instant)
    ensures InRange(t) && t % TicksPerSecond == 0
    ensures rowKey != [] && Parse(rowKey).Some? ==> GenerateRowKey(t) == rowKey
    ensures rowKey == [] || Parse(rowKey).None? ==> t == 0
  {
    if rowKey == [] then 0
    else
      match Parse(rowKey)
      case None => 0
      case Some(p) =>
        ToPartsFromParts(p);
        FormatParse(rowKey);
        FromParts(p)
  }

  /** Converts the candles of one side with ToItem(Sec); a missing or empty
      list gives no items. */
  function ToItems(candles: Option<seq<Candle>>, toItem: (Candle, TimeInterval) -> FeedHistoryItem): (items: seq<FeedHistoryItem>)
    ensures candles.None? ==> items == []
    ensures candles.Some? ==> |items| == |candles.value|
    ensures candles.Some? ==> forall k :: 0 <= k < |items| ==> items[k] == toItem(candles.value[k], Sec)
  {
    match candles
    case None => []
    case Some(cs) => seq(|cs|, k requires 0 <= k < |cs| => toItem(cs[k], Sec))
  }

  /** FeedBidAskHistoryEntity.Create. How a candle becomes an item is the
      item type's business and is a parameter here. */
  function Create(assetPair: string, date: Instant, askCandles: Option<seq<Candle>>, bidCandles: Option<seq<Candle>>,
                  toItem: (Candle, TimeInterval) -> FeedHistoryItem): (e: FeedBidAskHistoryEntity)
    requires InRange(date)
    ensures e.partitionKey == assetPair && e.rowKey == GenerateRowKey(date)
    ensures RowDate(e.rowKey) == TruncateToSecond(date)
    ensures e.askCandles == ToItems(askCandles, toItem) && e.bidCandles == ToItems(bidCandles, toItem)
  {
    RowKeyRoundTrip(date);
    EmptyEntity(GeneratePartitionKey(assetPair), GenerateRowKey(date))
      .(askCandles := ToItems(askCandles, toItem), bidCandles := ToItems(bidCandles, toItem))
  }

  /** FeedBidAskHistoryEntity.ToDomain: ask items become Ask candles and bid
      items Bid candles, one-second each, stamped from the row's date. */
  function ToDomain(e: FeedBidAskHistoryEntity): (r: Result<FeedBidAskHistory, DateError>)
    ensures r.Success? <==>
      && ToCandles(e.askCandles, e.partitionKey, Ask, RowDate(e.rowKey)).Success?
      && ToCandles(e.bidCandles, e.partitionKey, Bid, RowDate(e.rowKey)).Success?
    ensures r.Success? ==> r.value.assetPair == e.partitionKey && r.value.dateTime == RowDate(e.rowKey)
  {
    var date := RowDate(e.rowKey);
    var ask :- ToCandles(e.askCandles, e.partitionKey, Ask, date);
    var bid :- ToCandles(e.bidCandles, e.partitionKey, Bid, date);
    Success(FeedBidAskHistory(e.partitionKey, date, ask, bid))
  }

  /** The table's property bag: a property holds a string or null. */
  type Properties = map<string, Option<string>>

  function HasText(props: Properties, name: string): bool {
    name in props && props[name].Some? && props[name].value != []
  }

  /** ReadEntity: each side is replaced by the deserialized JSON of its
      property when that property is present and not null or empty, and is
      left as it was otherwise. */
  function ReadEntity(e: FeedBidAskHistoryEntity, props: Properties, deserialize: string -> seq<FeedHistoryItem>): (r: FeedBidAskHistoryEntity)
    ensures r.partitionKey == e.partitionKey && r.rowKey == e.rowKey
    ensures HasText(props, "AskCandles") ==> r.askCandles == deserialize(props["AskCandles"].value)
    ensures !HasText(props, "AskCandles") ==> r.askCandles == e.askCandles
    ensures HasText(props, "BidCandles") ==> r.bidCandles == deserialize(props["BidCandles"].value)
    ensures !HasText(props, "BidCandles") ==> r.bidCandles == e.bidCandles
  {
    var withAsk := if HasText(props, "AskCandles") then e.(askCandles := deserialize(props["AskCandles"].value)) else e;
    if HasText(props, "BidCandles") then withAsk.(bidCandles := deserialize(props["BidCandles"].value)) else withAsk
  }

  /** WriteEntity: both sides, serialized to JSON, and nothing else. */
  function WriteEntity(e: FeedBidAskHistoryEntity, serialize: seq<FeedHistoryItem> -> string): (props: Properties)
    ensures props.Keys == {"AskCandles", "BidCandles"}
    ensures props["AskCandles"] == Some(serialize(e.askCandles))
    ensures props["BidCandles"] == Some(serialize(e.bidCandles))
  {
    map["AskCandles" := Some(serialize(e.askCandles)), "BidCandles" := Some(serialize(e.bidCandles))]
  }

  /** AddHistoryItemAsync: insert-or-replace of the created row in a table
      indexed by (partition key, row key). */
  function AddHistoryItem(table: map<(string, string), FeedBidAskHistoryEntity>, assetPair: string, date: Instant,
                          askCandles: Option<seq<Candle>>, bidCandles: Option<seq<Candle>>,
                          toItem: (Candle, TimeInterval) -> FeedHistoryItem): (r: map<(string, string), FeedBidAskHistoryEntity>)
    requires InRange(date)
    ensures var e := Create(assetPair, date, askCandles, bidCandles, toItem);
      && (forall key :: key in r <==> key in table || key == (assetPair, e.rowKey))
      && (assetPair, e.rowKey) in r && r[(assetPair, e.rowKey)] == e
      && (forall key :: key in table && key != (assetPair, e.rowKey) ==> r[key] == table[key])
  {
    var e := Create(assetPair, date, askCandles, bidCandles, toItem);
    table[(e.partitionKey, e.rowKey) := e]
  }

  // ---------------------------------------------------------------------
  // Reading the history chunk by chunk

  predicate InWindow(e: FeedBidAskHistoryEntity, startDate: Instant, endDate: Instant) {
    startDate <= RowDate(e.rowKey) <= endDate
  }

  /** The chunk filter of GetHistoryByChunkAsync. */
  function Window(startDate: Instant, endDate: Instant): FeedBidAskHistoryEntity -> bool {
    e => InWindow(e, startDate, endDate)
  }

  /** GetHistoryByChunkAsync over the partition's rows as the storage pages
      them: each page keeps the rows dated within [startDate, endDate], both
      ends included, and the callback sees the decoded rows of a page only
      when there is at least one. A row that cannot be decoded ends the run;
      the callbacks made before it stay made. */
  function GetHistoryByChunk(pages: seq<seq<FeedBidAskHistoryEntity>>, startDate: Instant, endDate: Instant): (r: Run<FeedBidAskHistory, DateError>)
    ensures forall k :: 0 <= k < |r.calls| ==> r.calls[k] != []
    ensures Every(r.calls, (h: FeedBidAskHistory) => startDate <= h.dateTime <= endDate)
    ensures r.error.None? <==> MapAll(Filter(Flatten(pages), Window(startDate, endDate)), ToDomain).Success?
    ensures r.error.None? ==> Flatten(r.calls) == MapAll(Filter(Flatten(pages), Window(startDate, endDate)), ToDomain).value
  {
    ChunkedMapKeeps(pages, Window(startDate, endDate), ToDomain, (h: FeedBidAskHistory) => startDate <= h.dateTime <= endDate);
    ChunkedMap(pages, Window(startDate, endDate), ToDomain)
  }

  // ---------------------------------------------------------------------
  // Lemmas

  /** The sortable row key round-trips to the date, truncated to the second;
      whole-second dates come back unchanged. */
  lemma RowKeyRoundTrip(date: Instant)
    requires InRange(date)
    ensures RowDate(GenerateRowKey(date)) == TruncateToSecond(date)
    ensures date % TicksPerSecond == 0 ==> RowDate(GenerateRowKey(date)) == date
  {}

  /** Two dates share a row exactly when they fall in the same second. */
  lemma RowKeySameSecond(a: Instant, b: Instant)
    requires InRange(a) && InRange(b)
    ensures GenerateRowKey(a) == GenerateRowKey(b) <==> TruncateToSecond(a) == TruncateToSecond(b)
  {
    RowKeyRoundTrip(a);
    RowKeyRoundTrip(b);
    FromPartsToParts(a);
    FromPartsToParts(b);
  }

  /** ToDomain tags every ask item Ask and every bid item Bid, all of them
      one-second candles of the row's asset pair stamped `tick` seconds after
      the row's date, and keeps both sides' lengths and order. */
  lemma ToDomainTagsSides(e: FeedBidAskHistoryEntity)
    requires ToDomain(e).Success?
    ensures var h := ToDomain(e).value;
      |h.askCandles| == |e.askCandles| && |h.bidCandles| == |e.bidCandles|
    ensures var h := ToDomain(e).value;
      forall k :: 0 <= k < |h.askCandles| ==>
        && h.askCandles[k].priceType == Ask && h.askCandles[k].timeInterval == Sec
        && h.askCandles[k].assetPairId == e.partitionKey
        && h.askCandles[k].timestamp == h.dateTime + e.askCandles[k].tick * TicksPerSecond
        && h.askCandles[k].open == e.askCandles[k].open && h.askCandles[k].close == e.askCandles[k].close
        && h.askCandles[k].high == e.askCandles[k].high && h.askCandles[k].low == e.askCandles[k].low
    ensures var h := ToDomain(e).value;
      forall k :: 0 <= k < |h.bidCandles| ==>
        && h.bidCandles[k].priceType == Bid && h.bidCandles[k].timeInterval == Sec
        && h.bidCandles[k].assetPairId == e.partitionKey
        && h.bidCandles[k].timestamp == h.dateTime + e.bidCandles[k].tick * TicksPerSecond
        && h.bidCandles[k].open == e.bidCandles[k].open && h.bidCandles[k].close == e.bidCandles[k].close
        && h.bidCandles[k].high == e.bidCandles[k].high && h.bidCandles[k].low == e.bidCandles[k].low
  {}

  /** The partition key is the asset pair, and reading it back gives the
      asset pair unchanged. */
  lemma PartitionKeyIsAssetPair(assetPair: string, date: Instant, askCandles: Option<seq<Candle>>, bidCandles: Option<seq<Candle>>,
                                toItem: (Candle, TimeInterval) -> FeedHistoryItem)
    requires InRange(date)
    ensures Create(assetPair, date, askCandles, bidCandles, toItem).partitionKey == assetPair
    ensures ToDomain(Create(assetPair, date, askCandles, bidCandles, toItem)).Success? ==>
      ToDomain(Create(assetPair, date, askCandles, bidCandles, toItem)).value.assetPair == assetPair
  {}

  /** An item conversion that keeps the prices and stores the offset in
      seconds from `date` of a candle dated within the calendar. */
  predicate FaithfulItem(toItem: (Candle, TimeInterval) -> FeedHistoryItem, c: Candle, date: Instant) {
    var item := toItem(c, Sec);
    && item.open == c.open && item.close == c.close
    && item.high == c.high && item.low == c.low
    && date + item.tick * TicksPerSecond == c.timestamp
    && InRange(c.timestamp)
  }

  /** One side of the round trip: decoding the items of candles converted
      faithfully gives the candles back. */
  lemma SideRoundTrip(assetPair: string, priceType: PriceType, date: Instant, cs: seq<Candle>,
                      toItem: (Candle, TimeInterval) -> FeedHistoryItem)
    requires InRange(date)
    requires forall c :: c in cs ==>
      c.assetPairId == assetPair && c.priceType == priceType && c.timeInterval == Sec && FaithfulItem(toItem, c, date)
    ensures ToCandles(ToItems(Some(cs), toItem), assetPair, priceType, date) == Success(cs)
  {
    var items := ToItems(Some(cs), toItem);
    forall k | 0 <= k < |items|
      ensures ToCandle(items[k], assetPair, priceType, date) == Success(cs[k])
    {
      assert cs[k] in cs;
    }
    var r := ToCandles(items, assetPair, priceType, date);
    assert r.Success?;
    assert |r.value| == |items| == |cs|;
    assert forall k :: 0 <= k < |cs| ==> r.value[k] == cs[k];
    assert r.value == cs;
  }

  /** With an item conversion that stores prices and the offset in seconds
      from the row's second, decoding a created row gives back the candles it
      was created from. */
  lemma CreateToDomainRoundTrip(assetPair: string, date: Instant, ask: seq<Candle>, bid: seq<Candle>,
                                toItem: (Candle, TimeInterval) -> FeedHistoryItem)
    requires InRange(date) && date % TicksPerSecond == 0
    requires forall c :: c in ask ==>
      c.assetPairId == assetPair && c.priceType == Ask && c.timeInterval == Sec && FaithfulItem(toItem, c, date)
    requires forall c :: c in bid ==>
      c.assetPairId == assetPair && c.priceType == Bid && c.timeInterval == Sec && FaithfulItem(toItem, c, date)
    ensures var r := ToDomain(Create(assetPair, date, Some(ask), Some(bid), toItem));
      r.Success? && r.value == FeedBidAskHistory(assetPair, date, ask, bid)
  {
    SideRoundTrip(assetPair, Ask, date, ask, toItem);
    SideRoundTrip(assetPair, Bid, date, bid, toItem);
  }

  /** With a JSON codec that reads back what it writes and never writes an
      empty string, writing a row's properties and reading them into any row
      restores both sides. */
  lemma WriteReadRoundTrip(e: FeedBidAskHistoryEntity, target: FeedBidAskHistoryEntity,
                           serialize: seq<FeedHistoryItem> -> string, deserialize: string -> seq<FeedHistoryItem>)
    requires forall items :: deserialize(serialize(items)) == items
    requires forall items :: serialize(items) != []
    ensures var r := ReadEntity(target, WriteEntity(e, serialize), deserialize);
      r == target.(askCandles := e.askCandles, bidCandles := e.bidCandles)
  {
    assert deserialize(serialize(e.askCandles)) == e.askCandles;
    assert deserialize(serialize(e.bidCandles)) == e.bidCandles;
    assert serialize(e.askCandles) != [] && serialize(e.bidCandles) != [];
  }

  /** A property bag without either side's text leaves the row as it was. */
  lemma ReadEntityKeepsMissing(e: FeedBidAskHistoryEntity, props: Properties, deserialize: string -> seq<FeedHistoryItem>)
    requires !HasText(props, "AskCandles") && !HasText(props, "BidCandles")
    ensures ReadEntity(e, props, deserialize) == e
  {}
}
