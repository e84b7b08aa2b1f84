# Candles history service, modelled in Dafny

This project models the core of the Lykke candles history service. The
service stores OHLC candles (open, close, high, low) of asset pairs per
price type (Bid, Ask, Mid) and time interval, and answers history requests
over HTTP. The model covers:

- the `TimeInterval` enumeration, its serialized names, and the bucket
  alignment of instants (`AlignDown`), with the .NET calendar behind Day,
  Week and Month;
- `Candle.Create` and `CandleSnapshotEntity.Create` with its eight one-letter
  JSON keys;
- the two feed-history item decoders (`FeedHistoryItem.ToCandle`, migration
  feed and matching-engine feed);
- the bid/ask feed history table row (`FeedBidAskHistoryEntity`): partition
  key, the sortable `yyyy-MM-ddTHH:mm:ss` row key and its parser, `Create`,
  `ToDomain`, `ReadEntity`, `WriteEntity`, and the repository's
  `AddHistoryItemAsync` and `GetHistoryByChunkAsync`;
- `AssetPairCandlesHistoryRepository`: batch validation, grouping by row key,
  the merge into existing and new rows, the range read and the first-candle
  read, over a table modelled as a map from (partition key, row key) to the
  row's items;
- the candles manager (ingestion into cache and persistence queue, and the
  read path that combines cache and repository and merges candles into a
  longer interval). The manager's own source file is not part of this model:
  its behaviour is taken from `CandlesManagerTests.cs`;
- the HTTP controller's ordered validation chain and its response mapping;
- the snapshot serializer's save/restore protocol.

Instants are `int` counts of 100 ns ticks since 0001-01-01T00:00:00, as .NET
`DateTime.Ticks`, valid from 0 up to the end of year 9999. Prices are `real`.
Collaborators the code only calls (the cache, the table storage's transport,
the asset directory, JSON codecs, the row entity of the candles table) are
function parameters.

Files: `wrappers.dfy` (Option/Result), `seqs.dfy` (filter, flatten, paging),
`grouping.dfy` (runs of equal keys), `string_order.dfy` (ordinal string
order), `calendar.dfy` (the .NET calendar), `sortable_format.dfy` (the "s"
date pattern), `time_interval.dfy`, `candle.dfy`, `feed_history.dfy`,
`me_feed_history.dfy`, `feed_bid_ask.dfy`, `candles_repository.dfy`,
`candle_aggregation.dfy`, `candles_manager.dfy`, `controller.dfy`,
`snapshot.dfy`.

## Model

| member | source | states |
|---|---|---|
| TimeIntervals.AllIntervalsInOrder | client/Lykke.Service.CandlesHistory.Client/Models/TimeInterval.cs:15-43 | The enumeration has exactly thirteen members, and each member's position in declaration order is its numeric value. |
| TimeIntervals.DefaultIsUnspecified | client/Lykke.Service.CandlesHistory.Client/Models/TimeInterval.cs:17-18 | Unspecified is the first member, and the default (numeric value 0) interval is Unspecified. |
| TimeIntervals.FromOrdinal | client/Lykke.Service.CandlesHistory.Client/Models/TimeInterval.cs:15-43 | A numeric value names a member exactly when it is between 0 and 12, and that member's value is the number. |
| TimeIntervals.OrdinalRoundTrip | client/Lykke.Service.CandlesHistory.Client/Models/TimeInterval.cs:15-43 | Converting a member to its numeric value and back gives the member. |
| TimeIntervals.NamesDistinct | client/Lykke.Service.CandlesHistory.Client/Models/TimeInterval.cs:17-42 | Two members with the same serialized name are the same member. |
| TimeIntervals.FindByName | client/Lykke.Service.CandlesHistory.Client/Models/TimeInterval.cs:15-42 | The exact, case-sensitive search over the declared `EnumMember` values returns a candidate whose value is the string, or none when no candidate has it. |
| TimeIntervals.NameRoundTrip | client/Lykke.Service.CandlesHistory.Client/Models/TimeInterval.cs:15-42 | Parsing a member's `EnumMember` value gives the member back, and a string the exact-name parser accepts is the value of the member it yields. |
| TimeIntervals.NearestStored | tests/Lykke.Service.CandlesHistory.Tests/CandlesManagerTests.cs:21-30 | The interval read for a request is stored, not longer than the requested one, and the longest stored interval that is not longer. |
| TimeIntervals.StoredIntervalsAreStored | tests/Lykke.Service.CandlesHistory.Tests/CandlesManagerTests.cs:21-30 | The stored intervals are exactly Sec, Minute, Min30, Hour, Day, Week and Month. |
| TimeIntervals.NearestStoredTable | tests/Lykke.Service.CandlesHistory.Tests/CandlesManagerTests.cs:181-226 | Min5 and Min15 are read as Minute; Hour4, Hour6 and Hour12 as Hour; stored intervals as themselves; nothing else is ever read. |
| TimeIntervals.NearestStoredIdempotent | tests/Lykke.Service.CandlesHistory.Tests/CandlesManagerTests.cs:150-179 | An interval is read as itself exactly when it is stored, so the mapping is idempotent. |
| TimeIntervals.StoredFactor | tests/Lykke.Service.CandlesHistory.Tests/CandlesManagerTests.cs:181-226 | Every fixed-length interval is a whole multiple of the stored interval it is read as. |
| TimeIntervals.AlignDown | tests/Lykke.Service.CandlesHistory.Tests/CandlesManagerTests.cs:130-147 | The bucket start is a valid instant not after the given one; for fixed lengths it is a multiple of the length less than one length earlier. |
| TimeIntervals.AlignDownPartition | tests/Lykke.Service.CandlesHistory.Tests/CandlesManagerTests.cs:229-250 | Every instant between a bucket start and a later instant of that bucket has the same bucket start. |
| TimeIntervals.AlignDownMonotone | tests/Lykke.Service.CandlesHistory.Tests/CandlesManagerTests.cs:130-147 | Alignment keeps the order of instants. |
| TimeIntervals.AlignDownIdempotent | tests/Lykke.Service.CandlesHistory.Tests/CandlesManagerTests.cs:130-147 | A bucket start is its own bucket start. |
| TimeIntervals.StoredBoundariesRefine | tests/Lykke.Service.CandlesHistory.Tests/CandlesManagerTests.cs:181-250 | Every bucket of a requested interval starts on a bucket boundary of its stored interval, and aligning to the stored interval first changes nothing. |
| TimeIntervals.DayAlignsToMidnight | tests/Lykke.Service.CandlesHistory.Tests/CandlesManagerTests.cs:130-147 | Aligning any time of a day to Day gives that day's midnight. |
| Calendar.FromParts | src/Lykke.Service.CandleHistory.Repositories/FeedBidAskHistoryRepository.cs:41-44 | A valid date and time denotes a valid whole-second instant. |
| Calendar.ToParts | src/Lykke.Service.CandleHistory.Repositories/FeedBidAskHistoryRepository.cs:25-33 | Every valid instant has a valid date and time. |
| Calendar.ToPartsFromParts | src/Lykke.Service.CandleHistory.Repositories/FeedBidAskHistoryRepository.cs:25-44 | Reading the date and time of the instant they denote gives them back. |
| Calendar.FromPartsToParts | src/Lykke.Service.CandleHistory.Repositories/FeedBidAskHistoryRepository.cs:25-44 | The instant denoted by an instant's date and time is that instant truncated to the second. |
| Calendar.TruncateToSecond | src/Lykke.Service.CandleHistory.Repositories/FeedBidAskHistoryRepository.cs:41-44 | The truncation is a whole second, within one second before the instant. |
| Calendar.AddSeconds | src/Lykke.Service.CandlesHistory.Core/Domain/HistoryMigration/FeedHistoryItem.cs:36 | Adding seconds succeeds exactly when the result is a valid instant, and moves it by exactly that many seconds. |
| Candles.CreateCandle | src/Lykke.Service.CandlesHistory.Core/Domain/Candles/Candle.cs:17-30 | Every field is copied unchanged; Low goes to Low and High to High. |
| Candles.CreateCandleIdempotent | src/Lykke.Service.CandlesHistory.Core/Domain/Candles/Candle.cs:17-30 | Copying twice equals copying once, and a copy equals its source. |
| Candles.CreateSnapshotEntity | src/Lykke.Service.CandleHistory.Repositories/CandleSnapshotEntity.cs:34-47 | Every candle field is copied to the matching entity field. |
| Candles.ToJson | src/Lykke.Service.CandleHistory.Repositories/CandleSnapshotEntity.cs:10-31 | The JSON object has exactly the keys a, p, i, t, o, c, h, l. |
| Candles.FromJson | src/Lykke.Service.CandleHistory.Repositories/CandleSnapshotEntity.cs:10-31 | Reading succeeds exactly when every one of the eight keys that is present holds a value of its field's kind; missing keys do not fail the read. |
| Candles.FromJsonFields | src/Lykke.Service.CandleHistory.Repositories/CandleSnapshotEntity.cs:10-31 | A successful read holds, under every present key, the value written there, and under every missing key the value a fresh entity holds. |
| Candles.OnlyPairGiven | src/Lykke.Service.CandleHistory.Repositories/CandleSnapshotEntity.cs:10-31 | An object holding only `a` reads as a fresh entity with that asset pair: Unspecified price type and interval, the default date, zero prices. |
| Candles.JsonKeysDistinct | src/Lykke.Service.CandleHistory.Repositories/CandleSnapshotEntity.cs:10-31 | The eight JSON keys are pairwise distinct. |
| Candles.JsonRoundTrip | src/Lykke.Service.CandleHistory.Repositories/CandleSnapshotEntity.cs:10-31 | Reading back the JSON of an entity gives the entity: every field has its own key. |
| Candles.SnapshotCopyRoundTrip | src/Lykke.Service.CandleHistory.Repositories/CandleSnapshotEntity.cs:34-47 | A candle copied into a snapshot entity and back through Candle.Create equals the original. |
| Candles.SnapshotJsonRoundTrip | src/Lykke.Service.CandleHistory.Repositories/CandleSnapshotEntity.cs:10-47 | The whole path through the entity and its JSON restores the candle. |
| FeedHistory.NewFeedHistoryItem | src/Lykke.Service.CandlesHistory.Core/Domain/HistoryMigration/FeedHistoryItem.cs:17-24 | The five-argument constructor stores open, close, high, low and tick exactly. |
| FeedHistory.ToCandle | src/Lykke.Service.CandlesHistory.Core/Domain/HistoryMigration/FeedHistoryItem.cs:26-37 | Decoding succeeds exactly when base time plus tick seconds is valid; prices, pair and price type pass through, the interval is Sec, the timestamp is tick seconds after the base. |
| FeedHistory.ToCandles | src/Lykke.Service.CandleHistory.Repositories/FeedBidAskHistoryRepository.cs:69-70 | Decoding a run succeeds exactly when every item decodes, keeping length and order. |
| FeedHistory.ToCandleStrictlyMonotone | src/Lykke.Service.CandlesHistory.Core/Domain/HistoryMigration/FeedHistoryItem.cs:36 | A later tick gives a later timestamp and equal ticks give equal timestamps, in both directions. |
| FeedHistory.ToCandleAligned | src/Lykke.Service.CandlesHistory.Core/Domain/HistoryMigration/FeedHistoryItem.cs:36 | Against a whole-second base every decoded candle starts a whole second. |
| MeFeedHistory.ToProducedCandle | src/Lykke.Service.CandlesHistory.Core/Domain/HistoryMigration/HistoryProviders/MeFeedHistory/FeedHistoryItem.cs:15-27 | As the migration decoder, with interval Sec and a trading volume of 0. |
| MeFeedHistory.SameCandleAsMigrationFeed | src/Lykke.Service.CandlesHistory.Core/Domain/HistoryMigration/HistoryProviders/MeFeedHistory/FeedHistoryItem.cs:15-27 | Both feeds decode an item to the same candle, the matching-engine feed adding only a zero volume. |
| SortableFormat.Format | src/Lykke.Service.CandleHistory.Repositories/FeedBidAskHistoryRepository.cs:41-44 | The "s" spelling of a date is 19 characters long. |
| SortableFormat.FormatFields | src/Lykke.Service.CandleHistory.Repositories/FeedBidAskHistoryRepository.cs:41-44 | Year, month, day, hour, minute and second sit zero-padded at fixed places between fixed separators. |
| SortableFormat.Parse | src/Lykke.Service.CandleHistory.Repositories/FeedBidAskHistoryRepository.cs:25-33 | Whatever parses is a valid date and time. |
| SortableFormat.ParseFormat | src/Lykke.Service.CandleHistory.Repositories/FeedBidAskHistoryRepository.cs:29-43 | Parsing the spelling of a date gives the date back. |
| SortableFormat.FormatParse | src/Lykke.Service.CandleHistory.Repositories/FeedBidAskHistoryRepository.cs:29-43 | Only canonical spellings parse: a parsed string is the spelling of its date. |
| FeedBidAskHistory.GenerateRowKey | src/Lykke.Service.CandleHistory.Repositories/FeedBidAskHistoryRepository.cs:41-44 | The row key is 19 characters and parses to the date truncated to the second. |
| FeedBidAskHistory.RowDate | src/Lykke.Service.CandleHistory.Repositories/FeedBidAskHistoryRepository.cs:25-33 | A parsable row key gives the date it spells; an empty or unparsable one gives the default date. |
| FeedBidAskHistory.ToItems | src/Lykke.Service.CandleHistory.Repositories/FeedBidAskHistoryRepository.cs:54-58 | A missing list gives no items; a list is converted item by item with interval Sec, keeping length and order. |
| FeedBidAskHistory.Create | src/Lykke.Service.CandleHistory.Repositories/FeedBidAskHistoryRepository.cs:46-61 | The row is keyed by the asset pair and the date's row key, which reads back as the date to the second, and holds the converted ask and bid lists. |
| FeedBidAskHistory.ToDomain | src/Lykke.Service.CandleHistory.Repositories/FeedBidAskHistoryRepository.cs:63-72 | Decoding succeeds exactly when every item of both sides decodes; the pair is the partition key and the date the row key's date. |
| FeedBidAskHistory.ToDomainTagsSides | src/Lykke.Service.CandleHistory.Repositories/FeedBidAskHistoryRepository.cs:69-70 | Every ask item becomes an Ask candle and every bid item a Bid candle, all of interval Sec, keeping both lengths. |
| FeedBidAskHistory.PartitionKeyIsAssetPair | src/Lykke.Service.CandleHistory.Repositories/FeedBidAskHistoryRepository.cs:21-39 | The partition key is the asset pair, and the decoded row reads it back unchanged. |
| FeedBidAskHistory.RowKeyRoundTrip | src/Lykke.Service.CandleHistory.Repositories/FeedBidAskHistoryRepository.cs:25-44 | Reading a row key back gives its date truncated to the second, the date itself when it is a whole second. |
| FeedBidAskHistory.RowKeySameSecond | src/Lykke.Service.CandleHistory.Repositories/FeedBidAskHistoryRepository.cs:41-44 | Two dates share a row key exactly when they fall in the same second. |
| FeedBidAskHistory.SideRoundTrip | src/Lykke.Service.CandleHistory.Repositories/FeedBidAskHistoryRepository.cs:54-70 | With a price- and offset-keeping item conversion, one side's candles decode back to themselves. |
| FeedBidAskHistory.CreateToDomainRoundTrip | src/Lykke.Service.CandleHistory.Repositories/FeedBidAskHistoryRepository.cs:46-72 | Creating a row and decoding it gives back the pair, the date and both sides' candles. |
| FeedBidAskHistory.ReadEntity | src/Lykke.Service.CandleHistory.Repositories/FeedBidAskHistoryRepository.cs:74-95 | A side with non-empty text is replaced by its deserialized items; a missing or empty one is left as it was; the keys never change. |
| FeedBidAskHistory.ReadEntityKeepsMissing | src/Lykke.Service.CandleHistory.Repositories/FeedBidAskHistoryRepository.cs:78-94 | A property bag with neither side's text leaves the row unchanged. |
| FeedBidAskHistory.WriteEntity | src/Lykke.Service.CandleHistory.Repositories/FeedBidAskHistoryRepository.cs:97-109 | The property bag holds exactly the two sides, each serialized. |
| FeedBidAskHistory.WriteReadRoundTrip | src/Lykke.Service.CandleHistory.Repositories/FeedBidAskHistoryRepository.cs:74-109 | With a codec that reads back what it writes, reading a written row restores both sides. |
| FeedBidAskHistory.AddHistoryItem | src/Lykke.Service.CandleHistory.Repositories/FeedBidAskHistoryRepository.cs:121-124 | The created row is inserted or replaces the row with its keys; every other row is unchanged. |
| FeedBidAskHistory.GetHistoryByChunk | src/Lykke.Service.CandleHistory.Repositories/FeedBidAskHistoryRepository.cs:126-143 | The callback never gets an empty chunk, only rows dated within both inclusive bounds, and in all exactly the decoded rows of the window in storage order. |
| CandlesRepository.CheckCandle | src/Lykke.Service.CandleHistory.Repositories/Candles/AssetPairCandlesHistoryRepository.cs:34-48 | A candle passes exactly when its pair, interval and price type are the expected ones. The checks run pair, then interval, then price type, and the error is the first one that fails: a wrong price type is reported exactly when pair and interval are right. |
| CandlesRepository.Validate | src/Lykke.Service.CandleHistory.Repositories/Candles/AssetPairCandlesHistoryRepository.cs:34-48 | A batch passes exactly when every candle does; otherwise the error is that of one of its candles. |
| CandlesRepository.ValidBatchIsUniform | src/Lykke.Service.CandleHistory.Repositories/Candles/AssetPairCandlesHistoryRepository.cs:29-48 | Every candle of an accepted batch has the repository's pair and interval and the given price type. |
| CandlesRepository.Group | src/Lykke.Service.CandleHistory.Repositories/Candles/AssetPairCandlesHistoryRepository.cs:52-54 | A row's group holds exactly the batch's candles with that row key. |
| CandlesRepository.GroupCounts | src/Lykke.Service.CandleHistory.Repositories/Candles/AssetPairCandlesHistoryRepository.cs:52-54 | A group holds each candle of its row key as many times as the batch does, and no other candle. |
| CandlesRepository.GroupAppend | src/Lykke.Service.CandleHistory.Repositories/Candles/AssetPairCandlesHistoryRepository.cs:52-54 | Groups keep batch order. The empty batch has empty groups. A candle appended to the batch is appended to the group of its own row key, and every other group is unchanged. |
| CandlesRepository.GroupsPartitionBatch | src/Lykke.Service.CandleHistory.Repositories/Candles/AssetPairCandlesHistoryRepository.cs:52-54 | Every candle lands in the group of its own row key and in no other, and no group is empty. |
| CandlesRepository.MergedRows | src/Lykke.Service.CandleHistory.Repositories/Candles/AssetPairCandlesHistoryRepository.cs:56-73 | Every row key of the batch gets a row, merged from the stored row or from an empty new row with exactly that key's group. |
| CandlesRepository.ReplaceRows | src/Lykke.Service.CandleHistory.Repositories/Candles/AssetPairCandlesHistoryRepository.cs:75-77 | The written rows replace or add rows of the partition; every other row is unchanged. |
| CandlesRepository.MergeBatch | src/Lykke.Service.CandleHistory.Repositories/Candles/AssetPairCandlesHistoryRepository.cs:58-77 | The existing rows are the batch's row keys present in storage and the created rows those absent: disjoint, and together all of the batch's keys. |
| CandlesRepository.MergeBatchTable | src/Lykke.Service.CandleHistory.Repositories/Candles/AssetPairCandlesHistoryRepository.cs:52-77 | After the write every row key of the batch holds its merged row, under the price type's partition key; no other row changes. |
| CandlesRepository.InsertOrMerge | src/Lykke.Service.CandleHistory.Repositories/Candles/AssetPairCandlesHistoryRepository.cs:32-78 | A batch with any invalid candle is rejected with the validation error before storage is touched; otherwise the merge is written. |
| CandlesRepository.EmptyBatchWritesNothing | src/Lykke.Service.CandleHistory.Repositories/Candles/AssetPairCandlesHistoryRepository.cs:52-77 | The empty batch is accepted and changes no row. |
| CandlesRepository.DecodeRow | src/Lykke.Service.CandleHistory.Repositories/Candles/AssetPairCandlesHistoryRepository.cs:99-100 | A row decodes to one candle per item. |
| CandlesRepository.GetCandles | src/Lykke.Service.CandleHistory.Repositories/Candles/AssetPairCandlesHistoryRepository.cs:80-105 | Unspecified price type fails; otherwise exactly the partition's rows with row keys between the two bounds, both included, are scanned in key order, and only candles with from <= timestamp < to are returned. |
| CandlesRepository.TryGetFirstCandle | src/Lykke.Service.CandleHistory.Repositories/Candles/AssetPairCandlesHistoryRepository.cs:107-115 | Nothing for an empty partition; a failure when the first row has no items; otherwise the first row's first item. |
| CandlesRepository.TopUnique | src/Lykke.Service.CandleHistory.Repositories/Candles/AssetPairCandlesHistoryRepository.cs:109 | A partition has at most one first row. |
| StringOrder.MinKey | src/Lykke.Service.CandleHistory.Repositories/Candles/AssetPairCandlesHistoryRepository.cs:109 | The least row key of a non-empty set is in the set and at most every member. |
| StringOrder.SortKeys | src/Lykke.Service.CandleHistory.Repositories/Candles/AssetPairCandlesHistoryRepository.cs:88-97 | The rows of a range are listed in strictly ascending ordinal key order, each exactly once. |
| CandleAggregation.MergeRun | tests/Lykke.Service.CandlesHistory.Tests/CandlesManagerTests.cs:229-250 | A bucket's candle has the bucket's start and the requested interval, the first candle's open and the last candle's close. |
| CandleAggregation.MergeRunSpans | tests/Lykke.Service.CandlesHistory.Tests/CandlesManagerTests.cs:229-250 | Its high is the highest high of the bucket and its low the lowest low, each reached by some candle. |
| CandleAggregation.Aggregate | tests/Lykke.Service.CandlesHistory.Tests/CandlesManagerTests.cs:229-250 | Merging never yields more candles than it reads, and yields none only from none. |
| CandleAggregation.AggregateAt | tests/Lykke.Service.CandlesHistory.Tests/CandlesManagerTests.cs:229-250 | Output candle k is the merge of the k-th maximal run of candles in one bucket. |
| CandleAggregation.AggregateAligned | tests/Lykke.Service.CandlesHistory.Tests/CandlesManagerTests.cs:229-250 | Every output candle has the requested interval and is stamped with the start of its bucket. |
| CandleAggregation.AggregateAscending | tests/Lykke.Service.CandlesHistory.Tests/CandlesManagerTests.cs:229-250 | Merging an ascending run gives an ascending run, so no two output candles share a bucket. |
| CandleAggregation.AggregateByBucket | tests/Lykke.Service.CandlesHistory.Tests/CandlesManagerTests.cs:229-250 | On an ascending run each output candle is the merge of exactly the input candles of its bucket. |
| CandleAggregation.AggregateCovers | tests/Lykke.Service.CandlesHistory.Tests/CandlesManagerTests.cs:229-250 | Every input candle's bucket has an output candle. |
| CandlesManager.ProcessCandle | tests/Lykke.Service.CandlesHistory.Tests/CandlesManagerTests.cs:76-93 | A candle of a pair with a store is cached and enqueued exactly once; any other candle is neither. |
| CandlesManager.ProcessAll | tests/Lykke.Service.CandlesHistory.Tests/CandlesManagerTests.cs:76-93 | Cache and queue each receive exactly the storable candles of the stream, in stream order, each once. |
| CandlesManager.Stitch | tests/Lykke.Service.CandlesHistory.Tests/CandlesManagerTests.cs:384-433 | The result is the repository's candles strictly before the horizon, all of them and no other, followed by the whole cache answer. |
| CandlesManager.CacheWinsAtBoundary | tests/Lykke.Service.CandlesHistory.Tests/CandlesManagerTests.cs:384-433 | Holds for a stored interval with sorted collaborators and a non-empty cache answer. The result is strictly ascending. A returned candle is a cached one exactly when it is not older than the oldest cached candle. Every other returned candle comes from the repository's answer. |
| CandlesManager.StitchSorted | tests/Lykke.Service.CandlesHistory.Tests/CandlesManagerTests.cs:384-433 | Stitching sorted answers gives a strictly ascending run. |
| CandlesManager.Finish | tests/Lykke.Service.CandlesHistory.Tests/CandlesManagerTests.cs:229-250 | Every returned candle lies in the aligned range [from, to). For a stored interval the result holds exactly the run's candles in that range. For any other interval, each returned candle of a sorted run is the merge of every run candle in its bucket, and every run bucket that starts in the range has a returned candle. |
| CandlesManager.Combined | tests/Lykke.Service.CandlesHistory.Tests/CandlesManagerTests.cs:357-433 | When the repository was not asked, the run is the cache answer alone. Otherwise every run candle is either a cached candle or a repository candle before the end of the repository query. The run contains every cached candle and every such repository candle. |
| CandlesManager.FinishKeeps | tests/Lykke.Service.CandlesHistory.Tests/CandlesManagerTests.cs:150-179 | Candles of a stored interval inside the range come back unchanged. |
| CandlesManager.GetCandles | tests/Lykke.Service.CandlesHistory.Tests/CandlesManagerTests.cs:101-354 | Invalid arguments and pairs without a store fail; the cache is read for the stored interval with from and to aligned; the repository is read only when the cache does not reach back to from, up to the oldest cached timestamp or to to; all results lie in [from, to); on success the candles are the combined run finished over the aligned range. |
| CandlesManager.QueriesUseStoredInterval | tests/Lykke.Service.CandlesHistory.Tests/CandlesManagerTests.cs:108-226 | Both reads pass the asset pair and price type through and use a stored interval. |
| CandlesManager.CombinedSorted | tests/Lykke.Service.CandlesHistory.Tests/CandlesManagerTests.cs:384-433 | With sorted collaborators, and a repository query that ends at the oldest cached candle, the combined run is strictly ascending. |
| CandlesManager.StoredAnswer | tests/Lykke.Service.CandlesHistory.Tests/CandlesManagerTests.cs:357-433 | For a stored interval, a candle is returned exactly when it lies in the aligned range and is either a cached candle or a repository candle before the end of the repository query. |
| CandlesManager.StoredRun | tests/Lykke.Service.CandlesHistory.Tests/CandlesManagerTests.cs:357-433 | For any read of a stored interval, the finished run holds a candle exactly when it lies in the cache query's range and is either cached or a repository candle before the end of the repository query. |
| CandlesManager.CacheOnlyRun | tests/Lykke.Service.CandlesHistory.Tests/CandlesManagerTests.cs:229-250 | When the repository has nothing before the first cached candle, the combined run is the cache answer itself. |
| CandlesManager.AggregatedAnswer | tests/Lykke.Service.CandlesHistory.Tests/CandlesManagerTests.cs:229-250 | For an interval that is not stored, with sorted collaborators, every returned candle is the merge of all combined candles in its bucket. Every bucket of the combined run that starts in the aligned range has a returned candle. |
| CandlesManager.ResultSorted | tests/Lykke.Service.CandlesHistory.Tests/CandlesManagerTests.cs:384-433 | With sorted collaborators the result is strictly ascending, so no two candles share a timestamp. |
| CandlesManager.EmptyCacheReturnsRepository | tests/Lykke.Service.CandlesHistory.Tests/CandlesManagerTests.cs:357-381 | With an empty cache and a stored interval, the repository is read up to the aligned to, and all its candles in range are returned unchanged. |
| CandlesManager.QuarterHourRead | tests/Lykke.Service.CandlesHistory.Tests/CandlesManagerTests.cs:229-250 | For a Min15 request over a range containing the hour, when the cache answers hh:13 to hh:17: the repository is asked for the aligned start up to hh:13. If it has nothing there, the answer is the cache's candles merged into quarter hours. |
| CandlesManager.QuarterHourExample | tests/Lykke.Service.CandlesHistory.Tests/CandlesManagerTests.cs:229-250 | The cache answers minute candles at hh:13 to hh:17 and the repository holds nothing. A Min15 request over a range containing the hour then succeeds with exactly two candles, stamped hh:00 and hh:15. |
| CandlesManager.RepositoryThenCache | tests/Lykke.Service.CandlesHistory.Tests/CandlesManagerTests.cs:384-433 | Take a Minute request from hh-1:13:xx whose cache answer starts at hh:13. The repository is asked for exactly hh-1:13 to hh:13. The answer is the repository's first three candles (those before hh:13) followed by the five cached ones. |
| CandlesManager.RepositoryThenCacheExample | tests/Lykke.Service.CandlesHistory.Tests/CandlesManagerTests.cs:384-433 | The cache answers hh:13 to hh:17 with open 2. The repository answers exactly the hh-1:13 to hh:13 query with hh:10 to hh:13, open 1. The request gets eight candles, hh:10 to hh:17: the three before hh:13 open at 1 and the five cached ones at 2, so the repository's own hh:13 candle is dropped. |
| HistoryController.Upper | src/Lykke.Service.CandlesHistory/Controllers/CandlesHistoryController.cs:66 | Upper-casing keeps the length and maps every character on its own, leaving no lower-case ASCII letter. |
| HistoryController.UpperIdempotent | src/Lykke.Service.CandlesHistory/Controllers/CandlesHistoryController.cs:66 | Upper-casing twice is upper-casing once. |
| HistoryController.Blank | src/Lykke.Service.CandlesHistory/Controllers/CandlesHistoryController.cs:68 | A present id is blank exactly when every character is white space, so the empty id is blank. It is not blank exactly when some character is not white space. |
| HistoryController.UpperKeepsBlank | src/Lykke.Service.CandlesHistory/Controllers/CandlesHistoryController.cs:66-71 | An id is blank after upper-casing exactly when it was blank before. |
| HistoryController.ToHistory | src/Lykke.Service.CandlesHistory/Controllers/CandlesHistoryController.cs:95-105 | Each candle maps to one history element with its timestamp, open, close, high and low, in order. |
| HistoryController.Respond | src/Lykke.Service.CandlesHistory/Controllers/CandlesHistoryController.cs:52-106 | 503 exactly while going down; Ok exactly when every check passes, with the manager's candles for the upper-cased pair. |
| HistoryController.GetCandlesHistoryAsWritten | src/Lykke.Service.CandlesHistory/Controllers/CandlesHistoryController.cs:72-75 | A request whose price type is Unspecified gets an error attached to `timeInterval`. |
| HistoryController.PriceTypeErrorBlamesInterval | src/Lykke.Service.CandlesHistory/Controllers/CandlesHistoryController.cs:72-79 | A request with a valid interval and an Unspecified price type is told that `timeInterval` is wrong. |
| HistoryController.GetCandlesHistory | src/Lykke.Service.CandlesHistory/Controllers/CandlesHistoryController.cs:52-106 | Every error attached to a parameter names a parameter with an invalid value; successes are those of the controller as written. |
| HistoryController.ChecksInOrder | src/Lykke.Service.CandlesHistory/Controllers/CandlesHistoryController.cs:54-91 | Each error occurs exactly when the checks before it passed and its own fails. |
| HistoryController.ShutdownComesFirst | src/Lykke.Service.CandlesHistory/Controllers/CandlesHistoryController.cs:54-62 | While going down the response is 503 whatever the request and the rest of the server. |
| HistoryController.CaseInsensitivePair | src/Lykke.Service.CandlesHistory/Controllers/CandlesHistoryController.cs:64-71 | Requests whose pairs differ only in letter case get the same response. |
| HistoryController.ConnectionBeforeDirectory | src/Lykke.Service.CandlesHistory/Controllers/CandlesHistoryController.cs:84-91 | Without a connection string the request fails whatever the directory says. |
| HistoryController.ValidatedRequestsReachManager | src/Lykke.Service.CandlesHistory/Controllers/CandlesHistoryController.cs:72-93 | Wired to the manager, a request the controller lets through is never rejected by the manager. |
| Snapshots.Serialize | src/Lykke.Service.CandlesHistory.Services/SnapshotSerializer.cs:27-38 | With a faithful repository, the saved snapshot is the holder's current state. |
| Snapshots.Deserialize | src/Lykke.Service.CandlesHistory.Services/SnapshotSerializer.cs:40-61 | True exactly when a snapshot exists; without one the holder is untouched; with one the holder's state becomes it. |
| Snapshots.RoundTrip | src/Lykke.Service.CandlesHistory.Services/SnapshotSerializer.cs:31-56 | Serializing one holder and deserializing into another installs the first holder's state. |
| Snapshots.DeserializeTwice | src/Lykke.Service.CandlesHistory.Services/SnapshotSerializer.cs:44-60 | Restoring the same snapshot twice gives the state that restoring it once gives. |

## Left out

- The candles manager's source file is not part of this model. Its behaviour follows its tests. When the cache is consulted, its horizon is the timestamp of the first candle of the cache's answer. The persistence queue's batching, retries, metrics and shutdown flush are not modelled; enqueuing is a list append.
- How candles of a stored interval are merged into a longer interval is not visible in the source files. `CandleAggregation.MergeRun` uses the usual OHLC rule: first open, last close, highest high, lowest low, stamped with the bucket start.
- The Week and Month bucket helpers are not part of this model. A Week bucket starts every seven days from 0001-01-01, which is a Monday. A Month bucket starts on the first of its month in the proleptic Gregorian calendar .NET uses.
- The candles table's row entity (`CandleHistoryEntity`: partition and row key generation, `MergeCandles`, its items and their `ToCandle`) is not part of this model. It is a parameter of the repository model.
- `CandlesRepository.GetCandles` and `CandlesRepository.TryGetFirstCandle` read the table in ascending ordinal row-key order, which is the table service's documented order. The table transport, batching limits and paging of `WhereAsync` are left out.
- JSON serialization and deserialization of the bid/ask items are parameters. The round trip is proved for any codec that reads back what it writes.
- `DateTime.ToUniversalTime` in the controller is left out. Instants are taken to be UTC already.
- TimeIntervals.FindByName: only the exact, case-sensitive `EnumMember` value is matched. The JSON converter named at TimeInterval.cs:14 (`StringEnumConverter`, a library) also accepts other letter cases and numeric values such as `"2"`, including numbers no member has; that reading is not modelled.
- TimeIntervals.NameRoundTrip: the second clause is about the exact-name parser `TimeIntervals.ParseName`. It does not hold for the library converter, which reads `"minute"` and `"2"` as Minute.
- TimeIntervals.ParseName: parses only the exact, case-sensitive names; the converter's case-insensitive and numeric reading is not modelled.
- Candles.FromJson: a missing `a` key leaves the asset pair id null in .NET; the model has no null string and reads it as the empty string. A value of the wrong JSON kind fails the read, where the serializer may convert some kinds (a number into a string, say); those conversions are not modelled.
- FeedBidAskHistory.ToDomain: the bid/ask row holds `CandleHistoryItem`s, decoded with `ToCandle(pair, side, date, TimeInterval.Sec)` (FeedBidAskHistoryRepository.cs:22-23 and 69-70). That class is not part of this model. The model decodes its items as the migration feed's `FeedHistoryItem` (`FeedHistory.ToCandle`): prices copied, interval Sec, stamped tick seconds after the row's date. `FeedBidAskHistory.ToItems` takes the reverse `ToItem(Sec)` conversion as a parameter.
- FeedHistory.ToCandle: the `AddIntervalTicks(Tick, TimeInterval.Sec)` extension (FeedHistoryItem.cs:36) is not part of this model. It is read as adding `Tick` one-second intervals, i.e. as `AddSeconds(Tick)`, which fails outside the calendar. `MeFeedHistory.SameCandleAsMigrationFeed` rests on this reading, since the matching-engine feed calls `AddSeconds(Tick)` directly.
- HistoryController.Upper: only the ASCII letters are upper-cased. Invariant-culture upper-casing of other letters is left out.
- HistoryController.IsWhiteSpace: only the Latin-1 white-space characters count as white space. The other Unicode space separators are left out.
- A null asset pair id is not modelled. A route parameter is always present.
- Logging, `DescribeState` and the async plumbing of the snapshot serializer are left out. They do not affect the state.
- Prices are `real`s, so double rounding is not modelled. The doubles are only copied, compared and passed on.
- The controller's responses are modelled as values. The status code and the error body are modelled; the HTTP framing is not.
- Process wiring, the health controller, the asset directory's remote calls and its retry policy, the snapshot entity's decimal conversion, and the settings classes are outside the core.

## Findings

| source | as written | input that shows it | evidently intended | confidence | as-written member | corrected member |
|---|---|---|---|---|---|---|
| src/Lykke.Service.CandlesHistory/Controllers/CandlesHistoryController.cs:74 | The BadRequest for an Unspecified price type is attached to the parameter name `timeInterval`. | pair "EURUSD", price type Unspecified, interval Minute, from 0001-01-01T00:00:00, to one minute later, service up | The error names `priceType`, the parameter that is wrong. `timeInterval` is what the next check, at line 78, names. | high; not executed | HistoryController.GetCandlesHistoryAsWritten | HistoryController.GetCandlesHistory |
