/** Items of the one-second feed history: OHLC prices plus a tick, the number
    of seconds since the base time of the row that holds the item. */
module FeedHistory {

  import opened Wrappers
  import opened Calendar
  import opened TimeIntervals
  import opened Candles

  /** A C# `int`. */
  type Int32 = x: int | -0x8000_0000 <= x < 0x8000_0000

  datatype FeedHistoryItem = FeedHistoryItem(open: Price, close: Price, high: Price, low: Price, tick: Int32)

  /** The only failure of decoding: DateTime arithmetic that leaves the
      representable range (ArgumentOutOfRangeException). */
  datatype DateError = DateOutOfRange

  /** The five-argument constructor. */
  function NewFeedHistoryItem(open: Price, close: Price, high: Price, low: Price, tick: Int32): (item: FeedHistoryItem)
    ensures item.open == open && item.close == close
    ensures item.high == high && item.low == low
    ensures item.tick == tick
  {
    FeedHistoryItem(open, close, high, low, tick)
  }

  /** FeedHistoryItem.ToCandle: a one-second candle stamped `tick` seconds
      after `baseTime`; adding ticks of the Sec interval adds seconds. */
  function ToCandle(item: FeedHistoryItem, assetPairId: string, priceType: PriceType, baseTime: Instant): (r: Result<Candle, DateError>)
    requires InRange(baseTime)
    ensures r.Success? <==> InRange(baseTime + item.tick * TicksPerSecond)
    ensures r.Success? ==>
      && r.value.open == item.open && r.value.close == item.close
      && r.value.high == item.high && r.value.low == item.low
      && r.value.assetPairId == assetPairId && r.value.priceType == priceType
      && r.value.timeInterval == Sec
      && r.value.timestamp - baseTime == item.tick * TicksPerSecond
  {
    match AddSeconds(baseTime, item.tick)
    case None => Failure(DateOutOfRange)
    case Some(timestamp) =>
      Success(Candle(
        open := item.open,
        close := item.close,
        high := item.high,
        low := item.low,
        assetPairId := assetPairId,
        priceType := priceType,
        timeInterval := Sec,
        timestamp := timestamp))
  }

  /** Decodes a run of items against one base time, failing on the first
      item whose timestamp leaves the range. */
  function ToCandles(items: seq<FeedHistoryItem>, assetPairId: string, priceType: PriceType, baseTime: Instant): (r: Result<seq<Candle>, DateError>)
    requires InRange(baseTime)
    ensures r.Success? <==> forall k :: 0 <= k < |items| ==> ToCandle(items[k], assetPairId, priceType, baseTime).Success?
    ensures r.Success? ==> |r.value| == |items|
    ensures r.Success? ==> forall k :: 0 <= k < |items| ==> r.value[k] == ToCandle(items[k], assetPairId, priceType, baseTime).value
  {
    if items == [] then Success([])
    else
      match ToCandle(items[0], assetPairId, priceType, baseTime)
      case Failure(e) => Failure(e)
      case Success(c) =>
        match ToCandles(items[1..], assetPairId, priceType, baseTime)
        case Failure(e) => Failure(e)
        case Success(cs) => Success([c] + cs)
  }

  // ---------------------------------------------------------------------
  // Lemmas

  /** Later ticks decode to later timestamps, so distinct ticks never share
      a timestamp. */
  lemma ToCandleStrictlyMonotone(a: FeedHistoryItem, b: FeedHistoryItem, assetPairId: string, priceType: PriceType, baseTime: Instant)
    requires InRange(baseTime)
    requires ToCandle(a, assetPairId, priceType, baseTime).Success?
    requires ToCandle(b, assetPairId, priceType, baseTime).Success?
    ensures a.tick < b.tick <==>
      ToCandle(a, assetPairId, priceType, baseTime).value.timestamp < ToCandle(b, assetPairId, priceType, baseTime).value.timestamp
    ensures a.tick == b.tick <==>
      ToCandle(a, assetPairId, priceType, baseTime).value.timestamp == ToCandle(b, assetPairId, priceType, baseTime).value.timestamp
  {}

  /** Against a whole-second base time every decoded candle starts a second,
      and the tick is recovered from the timestamp. */
  lemma ToCandleAligned(item: FeedHistoryItem, assetPairId: string, priceType: PriceType, baseTime: Instant)
    requires InRange(baseTime) && baseTime % TicksPerSecond == 0
    requires ToCandle(item, assetPairId, priceType, baseTime).Success?
    ensures var c := ToCandle(item, assetPairId, priceType, baseTime).value;
      IsAligned(c.timestamp, Sec) && (c.timestamp - baseTime) / TicksPerSecond == item.tick
  {}
}
