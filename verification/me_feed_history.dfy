/** Items of the matching engine's feed history. They have the shape of the
    migration feed items but decode to the candle contract of the candles
    producer, which also carries a trading volume. */
module MeFeedHistory {

  import opened Wrappers
  import opened Calendar
  import opened TimeIntervals
  import opened Candles
  import opened FeedHistory

  /** A candle of the producer contract: the candle plus its trading volume. */
  datatype ProducedCandle = ProducedCandle(candle: Candle, tradingVolume: Price)

  /** MeFeedHistory FeedHistoryItem.ToCandle: a one-second candle stamped
      `tick` seconds after `baseTime`, with no trading volume. */
  function ToProducedCandle(item: FeedHistoryItem, assetPairId: string, priceType: PriceType, baseTime: Instant): (r: Result<ProducedCandle, DateError>)
    requires InRange(baseTime)
    ensures r.Success? <==> InRange(baseTime + item.tick * TicksPerSecond)
    ensures r.Success? ==>
      && r.value.candle.open == item.open && r.value.candle.close == item.close
      && r.value.candle.high == item.high && r.value.candle.low == item.low
      && r.value.candle.assetPairId == assetPairId && r.value.candle.priceType == priceType
      && r.value.candle.timeInterval == Sec
      && r.value.candle.timestamp - baseTime == item.tick * TicksPerSecond
      && r.value.tradingVolume == 0.0
  {
    match AddSeconds(baseTime, item.tick)
    case None => Failure(DateOutOfRange)
    case Some(timestamp) =>
      Success(ProducedCandle(
        Candle(
          open := item.open,
          close := item.close,
          high := item.high,
          low := item.low,
          assetPairId := assetPairId,
          priceType := priceType,
          timeInterval := Sec,
          timestamp := timestamp),
        tradingVolume := 0.0))
  }

  /** Both feeds decode an item to the same candle; the matching engine's
      feed only adds a zero volume. */
  lemma SameCandleAsMigrationFeed(item: FeedHistoryItem, assetPairId: string, priceType: PriceType, baseTime: Instant)
    requires InRange(baseTime)
    ensures ToProducedCandle(item, assetPairId, priceType, baseTime).Success?
        <==> ToCandle(item, assetPairId, priceType, baseTime).Success?
    ensures ToProducedCandle(item, assetPairId, priceType, baseTime).Success? ==>
      ToProducedCandle(item, assetPairId, priceType, baseTime).value
        == ProducedCandle(ToCandle(item, assetPairId, priceType, baseTime).value, 0.0)
  {}
}
