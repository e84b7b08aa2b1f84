/** Merging candles of a stored interval into candles of a longer interval:
    an ascending run of candles is cut into consecutive buckets of the
    longer interval, and each bucket becomes one candle that opens with the
    bucket's first open, closes with its last close, and spans its highest
    high and lowest low, stamped with the bucket's start. */
module CandleAggregation {

  import opened Calendar
  import opened TimeIntervals
  import opened Candles
  import opened Seqs
  import opened Grouping

  /** Strictly ascending timestamps, hence no two candles at one time. */
  predicate Ascending(cs: seq<Candle>) {
    forall i, j :: 0 <= i < j < |cs| ==> cs[i].timestamp < cs[j].timestamp
  }

  predicate AllInRange(cs: seq<Candle>) {
    forall k :: 0 <= k < |cs| ==> InRange(cs[k].timestamp)
  }

  /** The highest high of a run. */
  function MaxHigh(run: seq<Candle>): Price
    requires run != []
  {
    if |run| == 1 then run[0].high
    else
      var rest := MaxHigh(run[1..]);
      if run[0].high >= rest then run[0].high else rest
  }

  /** The lowest low of a run. */
  function MinLow(run: seq<Candle>): Price
    requires run != []
  {
    if |run| == 1 then run[0].low
    else
      var rest := MinLow(run[1..]);
      if run[0].low <= rest then run[0].low else rest
  }

  /** The highest high bounds every high and is one of them. */
  lemma {:induction false} MaxHighIsMaximum(run: seq<Candle>)
    requires run != []
    ensures forall k :: 0 <= k < |run| ==> run[k].high <= MaxHigh(run)
    ensures exists k :: 0 <= k < |run| && run[k].high == MaxHigh(run)
  {
    if |run| > 1 {
      MaxHighIsMaximum(run[1..]);
      assert forall k :: 0 <= k < |run[1..]| ==> run[1..][k] == run[k + 1];
      if run[0].high < MaxHigh(run[1..]) {
        var k :| 0 <= k < |run[1..]| && run[1..][k].high == MaxHigh(run[1..]);
        assert run[k + 1].high == MaxHigh(run);
      } else {
        assert run[0].high == MaxHigh(run);
      }
    } else {
      assert run[0].high == MaxHigh(run);
    }
  }

  /** The lowest low bounds every low and is one of them. */
  lemma {:induction false} MinLowIsMinimum(run: seq<Candle>)
    requires run != []
    ensures forall k :: 0 <= k < |run| ==> MinLow(run) <= run[k].low
    ensures exists k :: 0 <= k < |run| && run[k].low == MinLow(run)
  {
    if |run| > 1 {
      MinLowIsMinimum(run[1..]);
      assert forall k :: 0 <= k < |run[1..]| ==> run[1..][k] == run[k + 1];
      if MinLow(run[1..]) < run[0].low {
        var k :| 0 <= k < |run[1..]| && run[1..][k].low == MinLow(run[1..]);
        assert run[k + 1].low == MinLow(run);
      } else {
        assert run[0].low == MinLow(run);
      }
    } else {
      assert run[0].low == MinLow(run);
    }
  }

  /** The candle of one bucket. */
  function MergeRun(run: seq<Candle>, interval: TimeInterval, bucket: Instant): (c: Candle)
    requires run != []
    ensures c.timestamp == bucket && c.timeInterval == interval
    ensures c.assetPairId == run[0].assetPairId && c.priceType == run[0].priceType
    ensures c.open == run[0].open && c.close == run[|run| - 1].close
  {
    Candle(
      assetPairId := run[0].assetPairId,
      priceType := run[0].priceType,
      timeInterval := interval,
      timestamp := bucket,
      open := run[0].open,
      close := run[|run| - 1].close,
      high := MaxHigh(run),
      low := MinLow(run))
  }

  /** A merged candle spans exactly the range of its run: its high is the
      highest high and its low the lowest low. */
  lemma MergeRunSpans(run: seq<Candle>, interval: TimeInterval, bucket: Instant)
    requires run != []
    ensures var c := MergeRun(run, interval, bucket);
      && (forall k :: 0 <= k < |run| ==> c.low <= run[k].low && run[k].high <= c.high)
      && (exists k :: 0 <= k < |run| && run[k].high == c.high)
      && (exists k :: 0 <= k < |run| && run[k].low == c.low)
  {
    MaxHighIsMaximum(run);
    MinLowIsMinimum(run);
  }

  /** The start of the bucket of `interval` that a candle falls in; a
      candle outside the calendar falls in none and is marked -1. */
  function BucketKey(interval: TimeInterval): Candle -> int
    requires interval != TimeInterval.Unspecified
  {
    (c: Candle) => if InRange(c.timestamp) then AlignDown(c.timestamp, interval) else -1
  }

  /** The candles of a run cut into buckets: maximal runs of consecutive
      candles with the same bucket start. */
  function Buckets(cs: seq<Candle>, interval: TimeInterval): seq<seq<Candle>>
    requires interval != TimeInterval.Unspecified
  {
    Groups(cs, BucketKey(interval))
  }

  /** The candles of `interval` that the candles `cs` make up: one merged
      candle per bucket, stamped with the bucket's start. */
  function Aggregate(cs: seq<Candle>, interval: TimeInterval): (r: seq<Candle>)
    requires interval != TimeInterval.Unspecified
    ensures |r| <= |cs|
    ensures cs == [] <==> r == []
  {
    var gs := Buckets(cs, interval);
    AllGroupsNonEmpty(cs, BucketKey(interval));
    seq(|gs|, k requires 0 <= k < |gs| => MergeRun(gs[k], interval, BucketKey(interval)(gs[k][0])))
  }

  /** Output candle `k` is the merge of bucket `k`. */
  lemma AggregateAt(cs: seq<Candle>, interval: TimeInterval, k: nat)
    requires interval != TimeInterval.Unspecified
    requires k < |Aggregate(cs, interval)|
    ensures k < |Buckets(cs, interval)| && 0 < |Buckets(cs, interval)[k]|
    ensures var g := Buckets(cs, interval)[k];
      Aggregate(cs, interval)[k] == MergeRun(g, interval, BucketKey(interval)(g[0]))
  {
    GroupNonEmpty(cs, BucketKey(interval), k);
  }

  /** In a run in the calendar, the first candle of bucket `k` is in the
      calendar, so the bucket's key is its aligned timestamp. */
  lemma BucketStart(cs: seq<Candle>, interval: TimeInterval, k: nat)
    requires interval != TimeInterval.Unspecified && AllInRange(cs)
    requires k < |Buckets(cs, interval)|
    ensures 0 < |Buckets(cs, interval)[k]|
    ensures var c := Buckets(cs, interval)[k][0];
      InRange(c.timestamp) && BucketKey(interval)(c) == AlignDown(c.timestamp, interval)
  {
    GroupNonEmpty(cs, BucketKey(interval), k);
    GroupMember(cs, BucketKey(interval), k, 0);
  }

  /** Candles of `interval`, each stamped with the start of its bucket. */
  predicate Aligned(r: seq<Candle>, interval: TimeInterval)
    requires interval != TimeInterval.Unspecified
  {
    forall k :: 0 <= k < |r| ==>
      && r[k].timeInterval == interval && InRange(r[k].timestamp)
      && AlignDown(r[k].timestamp, interval) == r[k].timestamp
  }

  lemma AggregateAlignedAt(cs: seq<Candle>, interval: TimeInterval, k: nat)
    requires interval != TimeInterval.Unspecified && AllInRange(cs)
    requires k < |Aggregate(cs, interval)|
    ensures var c := Aggregate(cs, interval)[k];
      && c.timeInterval == interval && InRange(c.timestamp)
      && AlignDown(c.timestamp, interval) == c.timestamp
  {
    AggregateAt(cs, interval, k);
    BucketStart(cs, interval, k);
    AlignDownIdempotent(Buckets(cs, interval)[k][0].timestamp, interval);
  }

  /** Every output candle has the requested interval and is stamped with
      the start of its bucket. */
  lemma AggregateAligned(cs: seq<Candle>, interval: TimeInterval)
    requires interval != TimeInterval.Unspecified && AllInRange(cs)
    ensures Aligned(Aggregate(cs, interval), interval)
  {
    forall k | 0 <= k < |Aggregate(cs, interval)|
      ensures var c := Aggregate(cs, interval)[k];
        && c.timeInterval == interval && InRange(c.timestamp)
        && AlignDown(c.timestamp, interval) == c.timestamp
    {
      AggregateAlignedAt(cs, interval, k);
    }
  }

  /** On an ascending run in the calendar, bucket starts never decrease. */
  lemma BucketKeysSorted(cs: seq<Candle>, interval: TimeInterval)
    requires interval != TimeInterval.Unspecified && AllInRange(cs) && Ascending(cs)
    ensures KeysSorted(cs, BucketKey(interval))
  {
    forall i, j | 0 <= i < j < |cs|
      ensures BucketKey(interval)(cs[i]) <= BucketKey(interval)(cs[j])
    {
      AlignDownMonotone(cs[i].timestamp, cs[j].timestamp, interval);
    }
  }

  /** Aggregating an ascending run gives an ascending run: no two output
      candles share a bucket. */
  lemma AggregateAscending(cs: seq<Candle>, interval: TimeInterval)
    requires interval != TimeInterval.Unspecified && AllInRange(cs) && Ascending(cs)
    ensures Ascending(Aggregate(cs, interval))
  {
    var r := Aggregate(cs, interval);
    BucketKeysSorted(cs, interval);
    forall i, j | 0 <= i < j < |r|
      ensures r[i].timestamp < r[j].timestamp
    {
      AggregateAt(cs, interval, i);
      AggregateAt(cs, interval, j);
      GroupKeysAscend(cs, BucketKey(interval), i, j);
    }
  }

  // ---------------------------------------------------------------------
  // The bucket description

  /** The input candles that fall in the bucket starting at `bucket`. */
  function BucketOf(cs: seq<Candle>, interval: TimeInterval, bucket: Instant): (run: seq<Candle>)
    requires interval != TimeInterval.Unspecified
    ensures bucket >= 0 ==> forall k :: 0 <= k < |run| ==>
      InRange(run[k].timestamp) && AlignDown(run[k].timestamp, interval) == bucket
  {
    Filter(cs, HasKey(BucketKey(interval), bucket))
  }

  /** Whether `c` is the merge of all the candles of `cs` in its bucket. */
  predicate MergesItsBucket(cs: seq<Candle>, interval: TimeInterval, c: Candle)
    requires interval != TimeInterval.Unspecified
  {
    var run := BucketOf(cs, interval, c.timestamp);
    run != [] && c == MergeRun(run, interval, c.timestamp)
  }

  lemma AggregateBucketAt(cs: seq<Candle>, interval: TimeInterval, k: nat)
    requires interval != TimeInterval.Unspecified && AllInRange(cs) && Ascending(cs)
    requires k < |Aggregate(cs, interval)|
    ensures MergesItsBucket(cs, interval, Aggregate(cs, interval)[k])
  {
    AggregateAt(cs, interval, k);
    BucketKeysSorted(cs, interval);
    GroupIsFilter(cs, BucketKey(interval), k);
  }

  /** The independent description of aggregation: on an ascending run, the
      output candle of each bucket is exactly the merge of all the input
      candles in that bucket. */
  lemma AggregateByBucket(cs: seq<Candle>, interval: TimeInterval)
    requires interval != TimeInterval.Unspecified && AllInRange(cs) && Ascending(cs)
    ensures forall k :: 0 <= k < |Aggregate(cs, interval)| ==> MergesItsBucket(cs, interval, Aggregate(cs, interval)[k])
  {
    forall k | 0 <= k < |Aggregate(cs, interval)|
      ensures MergesItsBucket(cs, interval, Aggregate(cs, interval)[k])
    {
      AggregateBucketAt(cs, interval, k);
    }
  }

  /** Whether some candle of `r` is stamped `t`. */
  predicate HasCandleAt(r: seq<Candle>, t: Instant) {
    exists k :: 0 <= k < |r| && r[k].timestamp == t
  }

  lemma AggregateCoversAt(cs: seq<Candle>, interval: TimeInterval, j: nat)
    requires interval != TimeInterval.Unspecified && AllInRange(cs) && j < |cs|
    ensures HasCandleAt(Aggregate(cs, interval), AlignDown(cs[j].timestamp, interval))
  {
    var key := BucketKey(interval);
    GroupsCover(cs, key, j);
    var k :| 0 <= k < |Groups(cs, key)| && 0 < |Groups(cs, key)[k]| && key(Groups(cs, key)[k][0]) == key(cs[j]);
    AggregateAt(cs, interval, k);
    assert Aggregate(cs, interval)[k].timestamp == AlignDown(cs[j].timestamp, interval);
  }

  /** Every input candle's bucket has an output candle. */
  lemma AggregateCovers(cs: seq<Candle>, interval: TimeInterval)
    requires interval != TimeInterval.Unspecified && AllInRange(cs)
    ensures forall j :: 0 <= j < |cs| ==> HasCandleAt(Aggregate(cs, interval), AlignDown(cs[j].timestamp, interval))
  {
    forall j | 0 <= j < |cs|
      ensures HasCandleAt(Aggregate(cs, interval), AlignDown(cs[j].timestamp, interval))
    {
      AggregateCoversAt(cs, interval, j);
    }
  }
}
