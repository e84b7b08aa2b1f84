/** The durable candles table of one asset pair and one stored interval.
    The table is a map from (partition key, row key) to the row's item list.
    How a price type becomes a partition key, how a timestamp becomes a row
    key, how candles are merged into a row and how an item decodes to a
    candle belong to the row entity, whose code is not part of this model:
    they are the fields of a `RowCodec`, left uninterpreted. */
module CandlesRepository {

  import opened Wrappers
  import opened Calendar
  import opened TimeIntervals
  import opened Candles
  import opened Seqs
  import opened StringOrder

  type Table<Item> = map<(string, string), seq<Item>>

  /** The row entity's collaborators. The row's price type and date are read
      back from its partition and row keys. */
  datatype RowCodec<!Item> = RowCodec(
    partitionKey: PriceType -> string,
    rowKey: (Instant, TimeInterval) -> string,
    merge: (seq<Item>, seq<Candle>, TimeInterval) -> seq<Item>,
    rowPriceType: string -> PriceType,
    rowDate: string -> Instant,
    toCandle: (Item, string, PriceType, Instant, TimeInterval) -> Candle)

  /** The repository's constructor arguments. */
  datatype Repository = Repository(assetPairId: string, timeInterval: TimeInterval)

  /** ArgumentException with the offending candle, or with the price type. */
  datatype ArgumentError =
    | InvalidAssetPairId(candle: Candle)
    | InvalidTimeInterval(candle: Candle)
    | InvalidPriceType(candle: Candle)
    | UnspecifiedPriceType

  // ---------------------------------------------------------------------
  // Writing

  /** The checks of one candle, in the order they are made. */
  function CheckCandle(repo: Repository, priceType: PriceType, c: Candle): (r: Option<ArgumentError>)
    ensures r.None? <==> c.assetPairId == repo.assetPairId && c.timeInterval == repo.timeInterval && c.priceType == priceType
    ensures r == Some(InvalidAssetPairId(c)) <==> c.assetPairId != repo.assetPairId
    ensures r == Some(InvalidTimeInterval(c)) <==> c.assetPairId == repo.assetPairId && c.timeInterval != repo.timeInterval
    ensures r == Some(InvalidPriceType(c)) <==>
      c.assetPairId == repo.assetPairId && c.timeInterval == repo.timeInterval && c.priceType != priceType
  {
    if c.assetPairId != repo.assetPairId then Some(InvalidAssetPairId(c))
    else if c.timeInterval != repo.timeInterval then Some(InvalidTimeInterval(c))
    else if c.priceType != priceType then Some(InvalidPriceType(c))
    else None
  }

  /** The validation loop: the error of the first candle that fails. */
  function Validate(repo: Repository, priceType: PriceType, candles: seq<Candle>): (r: Option<ArgumentError>)
    ensures r.None? <==> forall k :: 0 <= k < |candles| ==> CheckCandle(repo, priceType, candles[k]).None?
    ensures r.Some? ==> exists k :: 0 <= k < |candles| && r == CheckCandle(repo, priceType, candles[k])
                                 && forall j :: 0 <= j < k ==> CheckCandle(repo, priceType, candles[j]).None?
  {
    if candles == [] then None
    else
      match CheckCandle(repo, priceType, candles[0])
      case Some(e) => Some(e)
      case None =>
        var r := Validate(repo, priceType, candles[1..]);
        assert forall k :: 0 <= k < |candles[1..]| ==> candles[1..][k] == candles[k + 1];
        r
  }

  function CandleRowKey<Item>(repo: Repository, codec: RowCodec<Item>, c: Candle): string {
    codec.rowKey(c.timestamp, repo.timeInterval)
  }

  /** The distinct row keys of a batch. */
  function RowKeys<Item>(repo: Repository, codec: RowCodec<Item>, candles: seq<Candle>): set<string> {
    set c | c in candles :: CandleRowKey(repo, codec, c)
  }

  /** The group of one row key, in batch order. */
  function Group<Item>(repo: Repository, codec: RowCodec<Item>, candles: seq<Candle>, rowKey: string): (g: seq<Candle>)
    ensures forall c :: c in g <==> c in candles && CandleRowKey(repo, codec, c) == rowKey
  {
    Filter(candles, HasRowKey(repo, codec, rowKey))
  }

  function HasRowKey<Item>(repo: Repository, codec: RowCodec<Item>, rowKey: string): Candle -> bool {
    (c: Candle) => CandleRowKey(repo, codec, c) == rowKey
  }

  /** A group holds each candle of its row key as many times as the batch
      does, and no other candle. */
  lemma GroupCounts<Item>(repo: Repository, codec: RowCodec<Item>, candles: seq<Candle>, rowKey: string)
    ensures var g := Group(repo, codec, candles, rowKey);
      forall c :: multiset(g)[c] == if CandleRowKey(repo, codec, c) == rowKey then multiset(candles)[c] else 0
  {
    FilterMultiplicities(candles, HasRowKey(repo, codec, rowKey));
  }

  /** A group keeps the batch order: a candle appended to the batch is
      appended to its own group and to no other. */
  lemma GroupAppend<Item>(repo: Repository, codec: RowCodec<Item>, candles: seq<Candle>, c: Candle, rowKey: string)
    ensures Group(repo, codec, [], rowKey) == []
    ensures Group(repo, codec, candles + [c], rowKey)
      == Group(repo, codec, candles, rowKey) + (if CandleRowKey(repo, codec, c) == rowKey then [c] else [])
  {
    var p := HasRowKey(repo, codec, rowKey);
    FilterConcat(candles, [c], p);
    assert [c][1..] == [];
    assert Filter([c], p) == (if p(c) then [c] else []) + Filter([], p);
  }

  /** The outcome of a successful InsertOrMergeAsync: the row keys that were
      read back as existing rows, the row keys created as new rows, and the
      table after the batch write. */
  datatype Write<Item> = Write(existing: set<string>, created: set<string>, table: Table<Item>)

  /** The rows a batch writes: every row key of the batch, merged from its
      stored items, or from none when it is not stored yet. */
  function MergedRows<Item>(repo: Repository, codec: RowCodec<Item>, table: Table<Item>, candles: seq<Candle>, pk: string): (rows: map<string, seq<Item>>)
    ensures rows.Keys == RowKeys(repo, codec, candles)
    ensures forall rk :: rk in rows ==>
      rows[rk] == codec.merge(if (pk, rk) in table then table[(pk, rk)] else [], Group(repo, codec, candles, rk), repo.timeInterval)
  {
    map rk | rk in RowKeys(repo, codec, candles) ::
      codec.merge(if (pk, rk) in table then table[(pk, rk)] else [], Group(repo, codec, candles, rk), repo.timeInterval)
  }

  /** The insert-or-replace batch: the given rows of one partition replace
      or join the table's rows. */
  function ReplaceRows<Item>(table: Table<Item>, pk: string, rows: map<string, seq<Item>>): (r: Table<Item>)
    ensures forall key :: key in r <==> key in table || (key.0 == pk && key.1 in rows)
    ensures forall rk :: rk in rows ==> r[(pk, rk)] == rows[rk]
    ensures forall key :: key in table && (key.0 != pk || key.1 !in rows) ==> r[key] == table[key]
  {
    map key | key in table.Keys + (set rk | rk in rows :: (pk, rk)) ::
      if key.0 == pk && key.1 in rows then rows[key.1] else table[key]
  }

  /** The write half of InsertOrMergeAsync: the batch's distinct row keys
      split into rows read back from the partition and rows created empty,
      and the merged rows are written back together. */
  function MergeBatch<Item>(repo: Repository, codec: RowCodec<Item>, table: Table<Item>, candles: seq<Candle>, priceType: PriceType): (w: Write<Item>)
    ensures forall rk :: rk in w.existing <==> rk in RowKeys(repo, codec, candles) && (codec.partitionKey(priceType), rk) in table
    ensures forall rk :: rk in w.created <==> rk in RowKeys(repo, codec, candles) && (codec.partitionKey(priceType), rk) !in table
  {
    var pk := codec.partitionKey(priceType);
    var keys := RowKeys(repo, codec, candles);
    var existing := set rk | rk in keys && (pk, rk) in table;
    Write(existing, keys - existing, ReplaceRows(table, pk, MergedRows(repo, codec, table, candles, pk)))
  }

  /** The table after a batch: each row key of the batch holds its stored
      items merged with exactly its own group, and every other row is left
      as it was. */
  lemma MergeBatchTable<Item>(repo: Repository, codec: RowCodec<Item>, table: Table<Item>, candles: seq<Candle>, priceType: PriceType)
    ensures var w := MergeBatch(repo, codec, table, candles, priceType);
      var pk := codec.partitionKey(priceType);
      var keys := RowKeys(repo, codec, candles);
      && (forall key :: key in w.table <==> key in table || (key.0 == pk && key.1 in keys))
      && (forall rk :: rk in keys ==>
            w.table[(pk, rk)] == codec.merge(
              if (pk, rk) in table then table[(pk, rk)] else [],
              Group(repo, codec, candles, rk), repo.timeInterval))
      && (forall key :: key in table && (key.0 != pk || key.1 !in keys) ==> w.table[key] == table[key])
  {
    var pk := codec.partitionKey(priceType);
    var rows := MergedRows(repo, codec, table, candles, pk);
    assert MergeBatch(repo, codec, table, candles, priceType).table == ReplaceRows(table, pk, rows);
  }

  /** InsertOrMergeAsync: validates the whole batch before anything else and
      rejects it with the first offending candle's error; a valid batch is
      merged and written. */
  function InsertOrMerge<Item>(repo: Repository, codec: RowCodec<Item>, table: Table<Item>, candles: seq<Candle>, priceType: PriceType): (r: Result<Write<Item>, ArgumentError>)
    ensures r.Failure? <==> exists k :: 0 <= k < |candles| && CheckCandle(repo, priceType, candles[k]).Some?
    ensures r.Failure? ==> Some(r.error) == Validate(repo, priceType, candles)
    ensures r.Success? ==> r.value == MergeBatch(repo, codec, table, candles, priceType)
  {
    match Validate(repo, priceType, candles)
    case Some(e) => Failure(e)
    case None => Success(MergeBatch(repo, codec, table, candles, priceType))
  }

  // ---------------------------------------------------------------------
  // Reading

  /** The row keys of the partition. */
  function PartitionRows<Item>(table: Table<Item>, pk: string): (rows: set<string>)
    ensures forall rk :: rk in rows <==> (pk, rk) in table
  {
    var rows := set key | key in table && key.0 == pk :: key.1;
    assert forall rk :: (pk, rk) in table ==> rk in rows by {
      forall rk | (pk, rk) in table
        ensures rk in rows
      {
        var key := (pk, rk);
        assert key in table && key.0 == pk;
      }
    }
    rows
  }

  /** The candles of one row, in item order, decoded with the row's own
      price type and date. */
  function DecodeRow<Item>(repo: Repository, codec: RowCodec<Item>, table: Table<Item>, pk: string, rk: string, interval: TimeInterval): (cs: seq<Candle>)
    requires (pk, rk) in table
    ensures |cs| == |table[(pk, rk)]|
  {
    var items := table[(pk, rk)];
    seq(|items|, k requires 0 <= k < |items| =>
      codec.toCandle(items[k], repo.assetPairId, codec.rowPriceType(pk), codec.rowDate(rk), interval))
  }

  function DecodeRows<Item>(repo: Repository, codec: RowCodec<Item>, table: Table<Item>, pk: string, rows: seq<string>, interval: TimeInterval): seq<Candle>
    requires forall k :: 0 <= k < |rows| ==> (pk, rows[k]) in table
  {
    Flatten(seq(|rows|, k requires 0 <= k < |rows| => DecodeRow(repo, codec, table, pk, rows[k], interval)))
  }

  function HalfOpen(from: Instant, to: Instant): Candle -> bool {
    (c: Candle) => from <= c.timestamp < to
  }

  /** GetCandlesAsync. Besides the candles it returns the row keys it
      scanned: the partition's rows from the row key of `from` to the row key
      of `to`, both included, in ascending row-key order. The candles are
      those rows' items, decoded and kept when from <= timestamp < to. */
  method GetCandles<Item>(repo: Repository, codec: RowCodec<Item>, table: Table<Item>, priceType: PriceType, interval: TimeInterval, from: Instant, to: Instant)
    returns (r: Result<seq<Candle>, ArgumentError>, scanned: seq<string>)
    ensures priceType == PriceType.Unspecified <==> r == Failure(UnspecifiedPriceType)
    ensures r.Failure? ==> scanned == []
    ensures Ascending(scanned)
    ensures r.Success? ==> forall rk :: rk in scanned <==>
      && (codec.partitionKey(priceType), rk) in table
      && AtMost(codec.rowKey(from, interval), rk)
      && AtMost(rk, codec.rowKey(to, interval))
    ensures r.Success? ==> forall k :: 0 <= k < |r.value| ==> from <= r.value[k].timestamp < to
    ensures r.Success? ==>
      && (forall k :: 0 <= k < |scanned| ==> (codec.partitionKey(priceType), scanned[k]) in table)
      && r.value == Filter(DecodeRows(repo, codec, table, codec.partitionKey(priceType), scanned, interval), HalfOpen(from, to))
  {
    if priceType == PriceType.Unspecified {
      return Failure(UnspecifiedPriceType), [];
    }
    var pk := codec.partitionKey(priceType);
    var rowKeyFrom := codec.rowKey(from, interval);
    var rowKeyTo := codec.rowKey(to, interval);
    var inRange := set rk | rk in PartitionRows(table, pk) && AtMost(rowKeyFrom, rk) && AtMost(rk, rowKeyTo);
    scanned := SortKeys(inRange);
    assert forall k :: 0 <= k < |scanned| ==> scanned[k] in inRange;
    r := Success(Filter(DecodeRows(repo, codec, table, pk, scanned, interval), HalfOpen(from, to)));
  }

  /** The first row of a partition: the least row key. */
  predicate IsTop<Item>(table: Table<Item>, pk: string, rk: string) {
    (pk, rk) in table && forall other :: other in PartitionRows(table, pk) ==> AtMost(rk, other)
  }

  /** First() of an empty row's items: InvalidOperationException. */
  datatype FirstError = EmptyRow

  /** TryGetFirstCandleAsync: nothing for an empty partition; otherwise the
      first item of the partition's first row, decoded with the requested
      price type and interval and the row's date. */
  method TryGetFirstCandle<Item>(repo: Repository, codec: RowCodec<Item>, table: Table<Item>, priceType: PriceType, timeInterval: TimeInterval)
    returns (r: Result<Option<Candle>, FirstError>)
    ensures r == Success(None) <==> PartitionRows(table, codec.partitionKey(priceType)) == {}
    ensures r.Failure? <==> exists top :: IsTop(table, codec.partitionKey(priceType), top) && table[(codec.partitionKey(priceType), top)] == []
    ensures r.Success? && r.value.Some? ==> exists top :: IsTop(table, codec.partitionKey(priceType), top)
                                                   && table[(codec.partitionKey(priceType), top)] != []
                                                   && r.value.value == codec.toCandle(table[(codec.partitionKey(priceType), top)][0], repo.assetPairId, priceType, codec.rowDate(top), timeInterval)
  {
    var pk := codec.partitionKey(priceType);
    var rows := PartitionRows(table, pk);
    if rows == {} {
      return Success(None);
    }
    var top := MinKey(rows);
    assert IsTop(table, pk, top);
    forall other | IsTop(table, pk, other)
      ensures other == top
    {
      TopUnique(table, pk, top, other);
    }
    var items := table[(pk, top)];
    if items == [] {
      return Failure(EmptyRow);
    }
    return Success(Some(codec.toCandle(items[0], repo.assetPairId, priceType, codec.rowDate(top), timeInterval)));
  }

  // ---------------------------------------------------------------------
  // Lemmas

  /** A partition has at most one first row. */
  lemma TopUnique<Item>(table: Table<Item>, pk: string, a: string, b: string)
    requires IsTop(table, pk, a) && IsTop(table, pk, b)
    ensures a == b
  {
    assert a in PartitionRows(table, pk) && b in PartitionRows(table, pk);
    BelowTrichotomy(a, b);
  }

  /** Every candle of a batch lands in the group of its own row key and in
      no other, so the groups partition the batch. */
  lemma GroupsPartitionBatch<Item>(repo: Repository, codec: RowCodec<Item>, candles: seq<Candle>)
    ensures forall c :: c in candles ==>
      CandleRowKey(repo, codec, c) in RowKeys(repo, codec, candles) && c in Group(repo, codec, candles, CandleRowKey(repo, codec, c))
    ensures forall c, rk :: c in Group(repo, codec, candles, rk) ==> CandleRowKey(repo, codec, c) == rk
    ensures forall rk :: rk in RowKeys(repo, codec, candles) ==> Group(repo, codec, candles, rk) != []
  {
    forall rk | rk in RowKeys(repo, codec, candles)
      ensures Group(repo, codec, candles, rk) != []
    {
      var c :| c in candles && CandleRowKey(repo, codec, c) == rk;
      assert c in Group(repo, codec, candles, rk);
    }
  }

  /** A batch that passes validation consists of candles of the repository's
      asset pair and interval and of the requested price type. */
  lemma ValidBatchIsUniform<Item>(repo: Repository, codec: RowCodec<Item>, table: Table<Item>, candles: seq<Candle>, priceType: PriceType)
    requires InsertOrMerge(repo, codec, table, candles, priceType).Success?
    ensures forall c :: c in candles ==>
      c.assetPairId == repo.assetPairId && c.timeInterval == repo.timeInterval && c.priceType == priceType
  {
    forall c | c in candles
      ensures c.assetPairId == repo.assetPairId && c.timeInterval == repo.timeInterval && c.priceType == priceType
    {
      var k :| 0 <= k < |candles| && candles[k] == c;
      assert CheckCandle(repo, priceType, candles[k]).None?;
    }
  }

  /** Writing the empty batch changes no row. */
  lemma EmptyBatchWritesNothing<Item>(repo: Repository, codec: RowCodec<Item>, table: Table<Item>, priceType: PriceType)
    ensures InsertOrMerge(repo, codec, table, [], priceType).Success?
    ensures InsertOrMerge(repo, codec, table, [], priceType).value.table == table
  {
    var keys := RowKeys(repo, codec, []);
    assert keys == {};
    assert (set rk | rk in keys :: (codec.partitionKey(priceType), rk)) == {};
  }
}
