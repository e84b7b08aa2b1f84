/** The candles manager: ingestion sends a candle to the cache and to the
    persistence queue when its asset pair has a store; retrieval answers a
    request from the cache alone when the cache reaches back far enough, and
    otherwise from the repository up to the oldest cached candle followed by
    the cache, merging candles of a stored interval into the requested one
    when the requested interval is not stored. The cache, the repository and
    the asset-pair configuration are parameters. */
module CandlesManager {

  import opened Wrappers
  import opened Calendar
  import opened TimeIntervals
  import opened Candles
  import opened Seqs
  import opened CandleAggregation
  import opened Grouping

  /** The arguments of a cache or repository read: candles of one asset
      pair, price type and stored interval with from <= timestamp < to. */
  datatype Query = Query(assetPairId: string, priceType: PriceType, interval: TimeInterval, from: Instant, to: Instant)

  /** The collaborators: what the cache and the repository answer to a
      query, and whether an asset pair has a configured store. */
  datatype Env = Env(cache: Query -> seq<Candle>, repository: Query -> seq<Candle>, canStore: string -> bool)

  /** A successful read: the cache query made, the repository query made if
      any, and the candles returned. */
  datatype Read = Read(cacheQuery: Query, repositoryQuery: Option<Query>, candles: seq<Candle>)

  /** InvalidArgument for an unspecified price type or interval or an empty
      range; UnsupportedAssetPair (InvalidOperationException) for an asset
      pair without a store. */
  datatype ManagerError = InvalidArgument | UnsupportedAssetPair

  // ---------------------------------------------------------------------
  // Ingestion

  /** What ProcessCandle does with one candle: the candles it caches and the
      candles it enqueues for persistence. */
  datatype Effects = Effects(cached: seq<Candle>, enqueued: seq<Candle>)

  function Storable(env: Env): Candle -> bool {
    (c: Candle) => env.canStore(c.assetPairId)
  }

  /** ProcessCandle: a candle of an asset pair with a store is cached once
      and enqueued once; any other candle is dropped. */
  function ProcessCandle(env: Env, c: Candle): (e: Effects)
    ensures env.canStore(c.assetPairId) ==> e.cached == [c] && e.enqueued == [c]
    ensures !env.canStore(c.assetPairId) ==> e.cached == [] && e.enqueued == []
  {
    if env.canStore(c.assetPairId) then Effects([c], [c]) else Effects([], [])
  }

  /** ProcessCandle applied to every candle of a stream, in order: the
      cache and the queue each receive exactly the candles of asset pairs
      with a store, in stream order, each once. */
  function ProcessAll(env: Env, stream: seq<Candle>): (e: Effects)
    ensures |e.cached| <= |stream|
    ensures e.cached == Filter(stream, Storable(env))
    ensures e.enqueued == Filter(stream, Storable(env))
  {
    if stream == [] then Effects([], [])
    else
      var first := ProcessCandle(env, stream[0]);
      var rest := ProcessAll(env, stream[1..]);
      Effects(first.cached + rest.cached, first.enqueued + rest.enqueued)
  }

  // ---------------------------------------------------------------------
  // Retrieval

  /** Candles before the cache horizon. */
  function Before(horizon: Instant): Candle -> bool {
    (c: Candle) => c.timestamp < horizon
  }

  /** Candles inside the aligned request range. */
  function InWindow(from: Instant, to: Instant): Candle -> bool {
    (c: Candle) => from <= c.timestamp < to
  }

  /** The repository's candles before the horizon, then the cache's: the
      cache makes up the whole tail of the run, and the part before it holds
      every repository candle older than the horizon and nothing else. */
  function Stitch(stored: seq<Candle>, horizon: Instant, cached: seq<Candle>): (merged: seq<Candle>)
    ensures |cached| <= |merged| <= |stored| + |cached|
    ensures merged[|merged| - |cached|..] == cached
    ensures forall k :: 0 <= k < |merged| - |cached| ==> merged[k] in stored && merged[k].timestamp < horizon
    ensures forall j :: 0 <= j < |stored| && stored[j].timestamp < horizon ==> stored[j] in merged[..|merged| - |cached|]
  {
    var older := Filter(stored, Before(horizon));
    assert (older + cached)[|older|..] == cached;
    assert (older + cached)[..|older|] == older;
    older + cached
  }

  /** Every candle of the window of an aggregated sorted run merges its
      own bucket of the run. */
  lemma WindowMergesBuckets(merged: seq<Candle>, interval: TimeInterval, from: Instant, to: Instant)
    requires interval != TimeInterval.Unspecified && Sorted(merged)
    ensures var r := Filter(Aggregate(merged, interval), InWindow(from, to));
      forall k :: 0 <= k < |r| ==> MergesItsBucket(merged, interval, r[k])
  {
    var out := Aggregate(merged, interval);
    var r := Filter(out, InWindow(from, to));
    AggregateByBucket(merged, interval);
    forall k | 0 <= k < |r|
      ensures MergesItsBucket(merged, interval, r[k])
    {
      var i :| 0 <= i < |out| && out[i] == r[k];
    }
  }

  /** Every bucket of a run that starts inside the window has its candle in
      the window of the aggregated run. */
  lemma WindowCoversBuckets(merged: seq<Candle>, interval: TimeInterval, from: Instant, to: Instant)
    requires interval != TimeInterval.Unspecified && AllInRange(merged)
    ensures var r := Filter(Aggregate(merged, interval), InWindow(from, to));
      forall j :: 0 <= j < |merged| && from <= AlignDown(merged[j].timestamp, interval) < to ==>
        HasCandleAt(r, AlignDown(merged[j].timestamp, interval))
  {
    var out := Aggregate(merged, interval);
    var r := Filter(out, InWindow(from, to));
    AggregateCovers(merged, interval);
    forall j | 0 <= j < |merged| && from <= AlignDown(merged[j].timestamp, interval) < to
      ensures HasCandleAt(r, AlignDown(merged[j].timestamp, interval))
    {
      WindowKeeps(out, from, to, AlignDown(merged[j].timestamp, interval));
    }
  }

  /** A candle at an instant inside the window survives the trim. */
  lemma WindowKeeps(out: seq<Candle>, from: Instant, to: Instant, t: Instant)
    requires HasCandleAt(out, t) && from <= t < to
    ensures HasCandleAt(Filter(out, InWindow(from, to)), t)
  {
    var r := Filter(out, InWindow(from, to));
    var i :| 0 <= i < |out| && out[i].timestamp == t;
    assert InWindow(from, to)(out[i]);
    assert out[i] in r;
    var m :| 0 <= m < |r| && r[m] == out[i];
  }

  /** The candles of the storage interval turned into candles of the
      requested interval, trimmed to the aligned range: for a stored interval
      exactly the run's candles inside the range; otherwise, on a sorted run,
      one candle per bucket of the run that starts inside the range, each the
      merge of its bucket. */
  function Finish(merged: seq<Candle>, interval: TimeInterval, from: Instant, to: Instant): (r: seq<Candle>)
    requires interval != TimeInterval.Unspecified
    ensures forall k :: 0 <= k < |r| ==> from <= r[k].timestamp < to
    ensures IsStored(interval) ==> forall k :: 0 <= k < |r| ==> r[k] in merged
    ensures IsStored(interval) ==> forall j :: 0 <= j < |merged| && from <= merged[j].timestamp < to ==> merged[j] in r
    ensures !IsStored(interval) && Sorted(merged) ==> forall k :: 0 <= k < |r| ==> MergesItsBucket(merged, interval, r[k])
    ensures !IsStored(interval) && AllInRange(merged) ==>
      forall j :: 0 <= j < |merged| && from <= AlignDown(merged[j].timestamp, interval) < to ==>
        HasCandleAt(r, AlignDown(merged[j].timestamp, interval))
  {
    if IsStored(interval) then Filter(merged, InWindow(from, to))
    else
      var r := Filter(Aggregate(merged, interval), InWindow(from, to));
      if !AllInRange(merged) then r
      else
        WindowCoversBuckets(merged, interval, from, to);
        if Ascending(merged) then WindowMergesBuckets(merged, interval, from, to); r else r
  }

  /** The run a read makes its answer from: the cache alone when no
      repository query was made, and otherwise the repository's candles
      before the end of that query followed by the cache. */
  function Combined(env: Env, rd: Read): (run: seq<Candle>)
    ensures forall k :: 0 <= k < |run| ==>
      || run[k] in env.cache(rd.cacheQuery)
      || (rd.repositoryQuery.Some? && run[k] in env.repository(rd.repositoryQuery.value) && run[k].timestamp < rd.repositoryQuery.value.to)
    ensures forall j :: 0 <= j < |env.cache(rd.cacheQuery)| ==> env.cache(rd.cacheQuery)[j] in run
    ensures rd.repositoryQuery.Some? ==>
      var stored := env.repository(rd.repositoryQuery.value);
      forall j :: 0 <= j < |stored| && stored[j].timestamp < rd.repositoryQuery.value.to ==> stored[j] in run
  {
    var cached := env.cache(rd.cacheQuery);
    match rd.repositoryQuery
    case None => cached
    case Some(rq) =>
      var merged := Stitch(env.repository(rq), rq.to, cached);
      assert merged == merged[..|merged| - |cached|] + cached;
      merged
  }

  /** GetCandlesAsync. The cache is asked for the aligned range in the
      stored interval; when its oldest candle is not after the start of the
      range it alone answers, and otherwise the repository is asked for the
      range up to that oldest candle (or the whole range when the cache has
      nothing). */
  function GetCandles(env: Env, assetPairId: string, priceType: PriceType, interval: TimeInterval, from: Instant, to: Instant): (r: Result<Read, ManagerError>)
    requires InRange(from) && InRange(to)
    ensures r == Failure(InvalidArgument) <==>
      priceType == PriceType.Unspecified || interval == TimeInterval.Unspecified || from >= to
    ensures r == Failure(UnsupportedAssetPair) <==>
      priceType != PriceType.Unspecified && interval != TimeInterval.Unspecified && from < to && !env.canStore(assetPairId)
    ensures r.Success? ==>
      var cq := r.value.cacheQuery;
      && cq == Query(assetPairId, priceType, NearestStored(interval), AlignDown(from, interval), AlignDown(to, interval))
      && (r.value.repositoryQuery.None? <==> env.cache(cq) != [] && env.cache(cq)[0].timestamp <= cq.from)
      && (r.value.repositoryQuery.Some? ==>
            r.value.repositoryQuery.value == cq.(to := if env.cache(cq) == [] then cq.to else env.cache(cq)[0].timestamp))
      && (forall k :: 0 <= k < |r.value.candles| ==> cq.from <= r.value.candles[k].timestamp < cq.to)
    ensures r.Success? ==>
      r.value.candles == Finish(Combined(env, r.value), interval, r.value.cacheQuery.from, r.value.cacheQuery.to)
  {
    if priceType == PriceType.Unspecified || interval == TimeInterval.Unspecified || from >= to then
      Failure(InvalidArgument)
    else if !env.canStore(assetPairId) then
      Failure(UnsupportedAssetPair)
    else
      var alignedFrom := AlignDown(from, interval);
      var alignedTo := AlignDown(to, interval);
      var cq := Query(assetPairId, priceType, NearestStored(interval), alignedFrom, alignedTo);
      var cached := env.cache(cq);
      var rq :=
        if cached != [] && cached[0].timestamp <= alignedFrom then None
        else Some(cq.(to := if cached == [] then alignedTo else cached[0].timestamp));
      var rd := Read(cq, rq, []);
      Success(rd.(candles := Finish(Combined(env, rd), interval, alignedFrom, alignedTo)))
  }

  // ---------------------------------------------------------------------
  // Lemmas

  /** Both collaborators only ever read stored intervals, with the asset
      pair and price type of the request. */
  lemma QueriesUseStoredInterval(env: Env, assetPairId: string, priceType: PriceType, interval: TimeInterval, from: Instant, to: Instant)
    requires InRange(from) && InRange(to)
    ensures var r := GetCandles(env, assetPairId, priceType, interval, from, to);
      r.Success? ==>
        && IsStored(r.value.cacheQuery.interval)
        && r.value.cacheQuery.assetPairId == assetPairId && r.value.cacheQuery.priceType == priceType
        && (IsStored(interval) ==> r.value.cacheQuery.interval == interval)
        && (r.value.repositoryQuery.Some? ==>
              && r.value.repositoryQuery.value.interval == r.value.cacheQuery.interval
              && r.value.repositoryQuery.value.assetPairId == assetPairId
              && r.value.repositoryQuery.value.priceType == priceType)
  {
    if interval != TimeInterval.Unspecified {
      NearestStoredIdempotent(interval);
    }
  }

  /** Sorted candles in the calendar: what the cache and the repository
      return. */
  predicate Sorted(cs: seq<Candle>) {
    Ascending(cs) && AllInRange(cs)
  }

  lemma AscendingConcat(a: seq<Candle>, b: seq<Candle>)
    requires Ascending(a) && Ascending(b)
    requires a != [] && b != [] ==> a[|a| - 1].timestamp < b[0].timestamp
    ensures Ascending(a + b)
  {
    forall i, j | 0 <= i < j < |a + b|
      ensures (a + b)[i].timestamp < (a + b)[j].timestamp
    {
      if j < |a| {
      } else if i >= |a| {
        assert (a + b)[i] == b[i - |a|] && (a + b)[j] == b[j - |a|];
      } else {
        assert a[i].timestamp <= a[|a| - 1].timestamp;
        assert b[0].timestamp <= b[j - |a|].timestamp;
      }
    }
  }

  lemma AscendingCons(x: Candle, rest: seq<Candle>)
    requires Ascending(rest)
    requires forall k :: 0 <= k < |rest| ==> x.timestamp < rest[k].timestamp
    ensures Ascending([x] + rest)
  {
    assert forall k :: 1 <= k < |[x] + rest| ==> ([x] + rest)[k] == rest[k - 1];
  }

  /** Filtering keeps an ascending run ascending. */
  lemma {:induction false} FilterAscending(cs: seq<Candle>, p: Candle -> bool)
    requires Ascending(cs)
    ensures Ascending(Filter(cs, p))
  {
    if cs != [] {
      var tail := cs[1..];
      assert forall k :: 0 <= k < |tail| ==> tail[k] == cs[k + 1];
      assert Ascending(tail);
      FilterAscending(tail, p);
      if p(cs[0]) {
        var rest := Filter(tail, p);
        forall k | 0 <= k < |rest|
          ensures cs[0].timestamp < rest[k].timestamp
        {
          assert rest[k] in tail;
        }
        AscendingCons(cs[0], rest);
      }
    }
  }

  /** Filtering keeps a sorted run sorted. */
  lemma FilterSorted(cs: seq<Candle>, p: Candle -> bool)
    requires Sorted(cs)
    ensures Sorted(Filter(cs, p))
  {
    FilterAscending(cs, p);
    var r := Filter(cs, p);
    assert forall k :: 0 <= k < |r| ==> r[k] in cs;
  }

  /** The stitched run is sorted when both sources are: every repository
      candle kept lies before the first cached candle. */
  lemma StitchSorted(stored: seq<Candle>, horizon: Instant, cached: seq<Candle>)
    requires Sorted(stored) && Sorted(cached)
    requires cached != [] ==> horizon == cached[0].timestamp
    ensures Sorted(Stitch(stored, horizon, cached))
  {
    var older := Filter(stored, Before(horizon));
    FilterSorted(stored, Before(horizon));
    AscendingConcat(older, cached);
    assert forall k :: 0 <= k < |older + cached| ==> (older + cached)[k] in older || (older + cached)[k] in cached;
  }

  lemma FinishSorted(merged: seq<Candle>, interval: TimeInterval, from: Instant, to: Instant)
    requires interval != TimeInterval.Unspecified && Sorted(merged)
    ensures Sorted(Finish(merged, interval, from, to))
  {
    var out := if IsStored(interval) then merged else Aggregate(merged, interval);
    if !IsStored(interval) {
      AggregateAscending(merged, interval);
      AggregateAligned(merged, interval);
    }
    FilterSorted(out, InWindow(from, to));
  }

  /** Whether every answer of both collaborators is sorted. */
  ghost predicate SortedAnswers(env: Env) {
    forall q :: Sorted(env.cache(q)) && Sorted(env.repository(q))
  }

  /** With sorted collaborators the run a read combines is sorted, provided
      the repository was read up to the oldest cached candle. */
  lemma CombinedSorted(env: Env, rd: Read)
    requires SortedAnswers(env)
    requires rd.repositoryQuery.Some? && env.cache(rd.cacheQuery) != [] ==>
      rd.repositoryQuery.value.to == env.cache(rd.cacheQuery)[0].timestamp
    ensures Sorted(Combined(env, rd))
  {
    if rd.repositoryQuery.Some? {
      var rq := rd.repositoryQuery.value;
      StitchSorted(env.repository(rq), rq.to, env.cache(rd.cacheQuery));
    }
  }

  /** With sorted collaborators the result is strictly ascending, so it has
      no two candles at the same time. */
  lemma ResultSorted(env: Env, assetPairId: string, priceType: PriceType, interval: TimeInterval, from: Instant, to: Instant)
    requires InRange(from) && InRange(to)
    requires SortedAnswers(env)
    ensures var r := GetCandles(env, assetPairId, priceType, interval, from, to);
      r.Success? ==> Sorted(r.value.candles)
  {
    var r := GetCandles(env, assetPairId, priceType, interval, from, to);
    if r.Success? {
      var cq := r.value.cacheQuery;
      CombinedSorted(env, r.value);
      FinishSorted(Combined(env, r.value), interval, cq.from, cq.to);
      assert r.value.candles == Finish(Combined(env, r.value), interval, cq.from, cq.to);
    }
  }

  /** For a stored interval the answer holds exactly the cached candles and
      the repository's candles older than the end of its query, inside the
      aligned range. */
  lemma StoredAnswer(env: Env, assetPairId: string, priceType: PriceType, interval: TimeInterval, from: Instant, to: Instant)
    requires InRange(from) && InRange(to) && IsStored(interval)
    ensures var r := GetCandles(env, assetPairId, priceType, interval, from, to);
      r.Success? ==>
        var cq := r.value.cacheQuery;
        var rq := r.value.repositoryQuery;
        forall c :: c in r.value.candles <==>
          && cq.from <= c.timestamp < cq.to
          && (c in env.cache(cq) || (rq.Some? && c in env.repository(rq.value) && c.timestamp < rq.value.to))
  {
    var r := GetCandles(env, assetPairId, priceType, interval, from, to);
    if r.Success? {
      StoredRun(env, r.value, interval);
    }
  }

  /** The same for any read: the finished run of a stored interval holds
      exactly the read's candles inside the cache query's range. */
  lemma StoredRun(env: Env, rd: Read, interval: TimeInterval)
    requires interval != TimeInterval.Unspecified && IsStored(interval)
    ensures var cq := rd.cacheQuery;
      var rq := rd.repositoryQuery;
      forall c :: c in Finish(Combined(env, rd), interval, cq.from, cq.to) <==>
        && cq.from <= c.timestamp < cq.to
        && (c in env.cache(cq) || (rq.Some? && c in env.repository(rq.value) && c.timestamp < rq.value.to))
  {
    StoredRunSound(env, rd, interval);
    StoredRunComplete(env, rd, interval);
  }

  lemma StoredRunSound(env: Env, rd: Read, interval: TimeInterval)
    requires interval != TimeInterval.Unspecified && IsStored(interval)
    ensures var cq := rd.cacheQuery;
      var rq := rd.repositoryQuery;
      forall c :: c in Finish(Combined(env, rd), interval, cq.from, cq.to) ==>
        && cq.from <= c.timestamp < cq.to
        && (c in env.cache(cq) || (rq.Some? && c in env.repository(rq.value) && c.timestamp < rq.value.to))
  {
    var cq := rd.cacheQuery;
    var run := Combined(env, rd);
    var r := Finish(run, interval, cq.from, cq.to);
    forall c: Candle | c in r
      ensures && cq.from <= c.timestamp < cq.to
              && (c in env.cache(cq) || (rd.repositoryQuery.Some? && c in env.repository(rd.repositoryQuery.value) && c.timestamp < rd.repositoryQuery.value.to))
    {
      var k :| 0 <= k < |r| && r[k] == c;
      var j :| 0 <= j < |run| && run[j] == c;
    }
  }

  lemma StoredRunComplete(env: Env, rd: Read, interval: TimeInterval)
    requires interval != TimeInterval.Unspecified && IsStored(interval)
    ensures var cq := rd.cacheQuery;
      var rq := rd.repositoryQuery;
      forall c: Candle :: && cq.from <= c.timestamp < cq.to
                  && (c in env.cache(cq) || (rq.Some? && c in env.repository(rq.value) && c.timestamp < rq.value.to))
        ==> c in Finish(Combined(env, rd), interval, cq.from, cq.to)
  {
    var cq := rd.cacheQuery;
    var rq := rd.repositoryQuery;
    var run := Combined(env, rd);
    var r := Finish(run, interval, cq.from, cq.to);
    forall c: Candle | && cq.from <= c.timestamp < cq.to
                       && (c in env.cache(cq) || (rq.Some? && c in env.repository(rq.value) && c.timestamp < rq.value.to))
      ensures c in r
    {
      if c in env.cache(cq) {
        var j :| 0 <= j < |env.cache(cq)| && env.cache(cq)[j] == c;
      } else {
        var j :| 0 <= j < |env.repository(rq.value)| && env.repository(rq.value)[j] == c;
      }
      var i :| 0 <= i < |run| && run[i] == c;
    }
  }


  /** For an interval that is not stored, with sorted collaborators: the
      combined run is sorted, every returned candle is the merge of all the
      combined candles in its bucket, and every bucket of the combined run
      that starts inside the aligned range has its returned candle. */
  lemma AggregatedAnswer(env: Env, assetPairId: string, priceType: PriceType, interval: TimeInterval, from: Instant, to: Instant)
    requires InRange(from) && InRange(to)
    requires SortedAnswers(env) && !IsStored(interval)
    ensures var r := GetCandles(env, assetPairId, priceType, interval, from, to);
      r.Success? ==>
        var run := Combined(env, r.value);
        var cq := r.value.cacheQuery;
        && Sorted(run)
        && (forall k :: 0 <= k < |r.value.candles| ==> MergesItsBucket(run, interval, r.value.candles[k]))
        && (forall j :: 0 <= j < |run| && cq.from <= AlignDown(run[j].timestamp, interval) < cq.to ==>
              HasCandleAt(r.value.candles, AlignDown(run[j].timestamp, interval)))
  {
    var r := GetCandles(env, assetPairId, priceType, interval, from, to);
    if r.Success? {
      CombinedSorted(env, r.value);
    }
  }

  /** In a run drawn from a sorted non-empty cache and from candles older
      than its first one, a candle is a cached one exactly when it is not
      older than the first cached candle. */
  lemma CacheFromItsFirstCandle(cs: seq<Candle>, cached: seq<Candle>, stored: seq<Candle>)
    requires Sorted(cached) && cached != []
    requires forall k :: 0 <= k < |cs| ==> cs[k] in cached || (cs[k] in stored && cs[k].timestamp < cached[0].timestamp)
    ensures forall k :: 0 <= k < |cs| ==> (cs[k] in cached <==> cached[0].timestamp <= cs[k].timestamp)
  {
    forall k | 0 <= k < |cs|
      ensures cs[k] in cached <==> cached[0].timestamp <= cs[k].timestamp
    {
      if cs[k] in cached {
        var i :| 0 <= i < |cached| && cached[i] == cs[k];
        assert i == 0 || cached[0].timestamp < cached[i].timestamp;
      }
    }
  }

  /** The boundary rule on one read of a stored interval whose cache answer
      is sorted and not empty, and whose repository query, if any, ends at
      the oldest cached candle. */
  lemma CacheWinsInRead(env: Env, rd: Read, interval: TimeInterval, from: Instant, to: Instant)
    requires IsStored(interval)
    requires Sorted(env.cache(rd.cacheQuery)) && env.cache(rd.cacheQuery) != []
    requires rd.repositoryQuery.Some? ==> rd.repositoryQuery.value.to == env.cache(rd.cacheQuery)[0].timestamp
    requires rd.candles == Finish(Combined(env, rd), interval, from, to)
    ensures var cached := env.cache(rd.cacheQuery);
      && (forall k :: 0 <= k < |rd.candles| ==> (rd.candles[k] in cached <==> cached[0].timestamp <= rd.candles[k].timestamp))
      && (forall k :: 0 <= k < |rd.candles| && rd.candles[k] !in cached ==>
            rd.repositoryQuery.Some? && rd.candles[k] in env.repository(rd.repositoryQuery.value))
  {
    var cached := env.cache(rd.cacheQuery);
    var stored := if rd.repositoryQuery.Some? then env.repository(rd.repositoryQuery.value) else [];
    var run := Combined(env, rd);
    var cs := rd.candles;
    forall k | 0 <= k < |cs|
      ensures cs[k] in cached || (rd.repositoryQuery.Some? && cs[k] in stored && cs[k].timestamp < cached[0].timestamp)
    {
      assert cs[k] in run;
      var i :| 0 <= i < |run| && run[i] == cs[k];
    }
    CacheFromItsFirstCandle(cs, cached, stored);
  }

  /** At the boundary the cache wins. For a stored interval with sorted
      collaborators and a non-empty cache answer, the result is in time
      order, a returned candle comes from the cache exactly when it is not
      older than the oldest cached candle, and every older one comes from
      the repository, whatever the repository returned for the cached
      timestamps. */
  lemma CacheWinsAtBoundary(env: Env, assetPairId: string, priceType: PriceType, interval: TimeInterval, from: Instant, to: Instant)
    requires InRange(from) && InRange(to)
    requires SortedAnswers(env) && IsStored(interval)
    ensures var r := GetCandles(env, assetPairId, priceType, interval, from, to);
      r.Success? && env.cache(r.value.cacheQuery) != [] ==>
        var cached := env.cache(r.value.cacheQuery);
        var cs := r.value.candles;
        && Sorted(cs)
        && (forall k :: 0 <= k < |cs| ==> (cs[k] in cached <==> cached[0].timestamp <= cs[k].timestamp))
        && (forall k :: 0 <= k < |cs| && cs[k] !in cached ==>
              r.value.repositoryQuery.Some? && cs[k] in env.repository(r.value.repositoryQuery.value))
  {
    var r := GetCandles(env, assetPairId, priceType, interval, from, to);
    if r.Success? && env.cache(r.value.cacheQuery) != [] {
      ResultSorted(env, assetPairId, priceType, interval, from, to);
      var rd := r.value;
      assert Sorted(env.cache(rd.cacheQuery));
      CacheWinsInRead(env, rd, interval, rd.cacheQuery.from, rd.cacheQuery.to);
    }
  }

  /** Candles inside the aligned range of a stored interval come back
      unchanged. */
  lemma FinishKeeps(merged: seq<Candle>, interval: TimeInterval, from: Instant, to: Instant)
    requires interval != TimeInterval.Unspecified && IsStored(interval)
    requires forall k :: 0 <= k < |merged| ==> from <= merged[k].timestamp < to
    ensures Finish(merged, interval, from, to) == merged
  {
    FilterAll(merged, InWindow(from, to));
  }

  /** With an empty cache the repository is read up to the end of the
      range, and for a stored interval every candle it returns in range is
      returned as is. */
  lemma EmptyCacheReturnsRepository(env: Env, assetPairId: string, priceType: PriceType, interval: TimeInterval, from: Instant, to: Instant)
    requires InRange(from) && InRange(to)
    requires priceType != PriceType.Unspecified && interval != TimeInterval.Unspecified && from < to
    requires env.canStore(assetPairId) && IsStored(interval)
    requires env.cache(Query(assetPairId, priceType, interval, AlignDown(from, interval), AlignDown(to, interval))) == []
    ensures var q := Query(assetPairId, priceType, interval, AlignDown(from, interval), AlignDown(to, interval));
      var r := GetCandles(env, assetPairId, priceType, interval, from, to);
      (forall k :: 0 <= k < |env.repository(q)| ==> q.from <= env.repository(q)[k].timestamp < q.to) ==>
        r == Success(Read(q, Some(q), env.repository(q)))
  {
    var q := Query(assetPairId, priceType, interval, AlignDown(from, interval), AlignDown(to, interval));
    NearestStoredIdempotent(interval);
    var stored := env.repository(q);
    if forall k :: 0 <= k < |stored| ==> q.from <= stored[k].timestamp < q.to {
      RepositoryOnlyRun(env, q, interval);
      WholeRangeAnswer(env, assetPairId, priceType, interval, from, to, stored);
    }
  }

  /** With an empty cache and a repository answer inside the range, a stored
      interval finishes to exactly the repository's answer. */
  lemma RepositoryOnlyRun(env: Env, q: Query, interval: TimeInterval)
    requires interval != TimeInterval.Unspecified && IsStored(interval) && env.cache(q) == []
    requires forall k :: 0 <= k < |env.repository(q)| ==> q.from <= env.repository(q)[k].timestamp < q.to
    ensures Finish(Combined(env, Read(q, Some(q), [])), interval, q.from, q.to) == env.repository(q)
  {
    var stored := env.repository(q);
    FilterAll(stored, Before(q.to));
    assert Stitch(stored, q.to, []) == stored;
    assert Combined(env, Read(q, Some(q), [])) == stored;
    FinishKeeps(stored, interval, q.from, q.to);
  }

  /** The answer to a read with an empty cache, once the combined run's
      finish is known: the repository is read over the whole aligned range. */
  lemma WholeRangeAnswer(env: Env, a: string, p: PriceType, interval: TimeInterval, from: Instant, to: Instant, finished: seq<Candle>)
    requires InRange(from) && InRange(to)
    requires p != PriceType.Unspecified && interval != TimeInterval.Unspecified && from < to && env.canStore(a)
    requires var cq := Query(a, p, NearestStored(interval), AlignDown(from, interval), AlignDown(to, interval));
      && env.cache(cq) == []
      && Finish(Combined(env, Read(cq, Some(cq), [])), interval, cq.from, cq.to) == finished
    ensures GetCandles(env, a, p, interval, from, to)
      == Success(Read(Query(a, p, NearestStored(interval), AlignDown(from, interval), AlignDown(to, interval)),
                      Some(Query(a, p, NearestStored(interval), AlignDown(from, interval), AlignDown(to, interval))), finished))
  {
  }

  // ---------------------------------------------------------------------
  // The worked examples of the manager's tests

  /** Collaborators as the tests mock them: a cache answering every query
      with the same candles, the given repository, and a store for every
      asset pair. */
  function MockEnv(cached: seq<Candle>, repository: Query -> seq<Candle>): Env {
    Env((q: Query) => cached, repository, (a: string) => true)
  }

  /** Minute candles stamped `minute` to `minute + n - 1` minutes after
      `base`, all opening at `o`. */
  function Minutes(a: string, p: PriceType, base: Instant, minute: int, n: nat, o: Price): (cs: seq<Candle>)
    ensures |cs| == n
    ensures forall k :: 0 <= k < n ==>
      cs[k] == Candle(a, p, Minute, base + (minute + k) * TicksPerMinute, o, 0.0, 0.0, 0.0)
  {
    seq(n, k requires 0 <= k < n => Candle(a, p, Minute, base + (minute + k) * TicksPerMinute, o, 0.0, 0.0, 0.0))
  }

  /** Candles one minute apart, the first stamped `t`. */
  predicate StampedFrom(s: seq<Candle>, t: Instant)
    decreases |s|
  {
    s == [] || (s[0].timestamp == t && StampedFrom(s[1..], t + TicksPerMinute))
  }

  lemma {:induction false} StampedFromEach(s: seq<Candle>, t: Instant)
    requires StampedFrom(s, t)
    ensures forall k :: 0 <= k < |s| ==> s[k].timestamp == t + k * TicksPerMinute
    decreases |s|
  {
    if s != [] {
      StampedFromEach(s[1..], t + TicksPerMinute);
      forall k | 0 <= k < |s| ensures s[k].timestamp == t + k * TicksPerMinute {
        if k > 0 { assert s[k] == s[1..][k - 1]; }
      }
    }
  }

  /** Consecutive minute candles are stamped one minute apart. */
  lemma {:induction false} MinutesStamped(a: string, p: PriceType, base: Instant, minute: int, n: nat, o: Price)
    ensures StampedFrom(Minutes(a, p, base, minute, n, o), base + minute * TicksPerMinute)
    decreases n
  {
    var cs := Minutes(a, p, base, minute, n, o);
    if n > 0 {
      var rest := Minutes(a, p, base, minute + 1, n - 1, o);
      forall k | 0 <= k < n - 1 ensures cs[1..][k] == rest[k] {
        assert (minute + (k + 1)) * TicksPerMinute == (minute + 1 + k) * TicksPerMinute;
      }
      assert cs[1..] == rest;
      MinutesStamped(a, p, base, minute + 1, n - 1, o);
      assert base + minute * TicksPerMinute + TicksPerMinute == base + (minute + 1) * TicksPerMinute;
    }
  }

  /** A repository with no candles. */
  const EmptyRepository: Query -> seq<Candle> := (q: Query) => []

  /** A repository that answers the query for exactly `from` to `to` with
      `answer`, and any other query with nothing. */
  function AnsweringOnly(from: Instant, to: Instant, answer: seq<Candle>): Query -> seq<Candle> {
    (q: Query) => if q.from == from && q.to == to then answer else []
  }

  /** An instant `m` quarter hours into an hour lies in that quarter. */
  lemma QuarterOf(base: Instant, t: Instant, m: int)
    requires InRange(t) && base % TicksPerHour == 0
    requires base + m * Length(Min15) <= t < base + (m + 1) * Length(Min15)
    ensures AlignDown(t, Min15) == base + m * Length(Min15)
  {
    var len := Length(Min15);
    var q := base / TicksPerHour;
    assert base == len * (4 * q);
    FloorUnique(t, len, 4 * q + m);
  }

  /** Minute candles at hh:13 to hh:17 merged into quarter hours make
      exactly two candles, stamped hh:00 and hh:15. */
  lemma QuarterHourBuckets(base: Instant, cs: seq<Candle>)
    requires InRange(base) && InRange(base + TicksPerHour) && base % TicksPerHour == 0
    requires |cs| == 5 && forall k :: 0 <= k < 5 ==> cs[k].timestamp == base + (13 + k) * TicksPerMinute
    ensures var r := Aggregate(cs, Min15);
      |r| == 2 && r[0].timestamp == base && r[1].timestamp == base + 15 * TicksPerMinute
  {
    var key := BucketKey(Min15);
    forall k | 0 <= k < 5
      ensures key(cs[k]) == if k < 2 then base else base + Length(Min15)
    {
      QuarterOf(base, cs[k].timestamp, if k < 2 then 0 else 1);
    }
    TwoGroups(cs, key, 2);
    AggregateAt(cs, Min15, 0);
    AggregateAt(cs, Min15, 1);
  }

  /** A read that asked the repository combines its answer with the
      cache's. */
  lemma StitchedRead(env: Env, rd: Read)
    requires rd.repositoryQuery.Some?
    ensures Combined(env, rd) == Stitch(env.repository(rd.repositoryQuery.value), rd.repositoryQuery.value.to, env.cache(rd.cacheQuery))
  {
  }

  /** The read GetCandles makes for a valid request of a pair with a store
      whose cache answer starts after the aligned start of the range. */
  lemma ReadsRepositoryUpToCache(env: Env, a: string, p: PriceType, interval: TimeInterval, from: Instant, to: Instant)
    requires InRange(from) && InRange(to)
    requires p != PriceType.Unspecified && interval != TimeInterval.Unspecified && from < to && env.canStore(a)
    ensures var cq := Query(a, p, NearestStored(interval), AlignDown(from, interval), AlignDown(to, interval));
      var cached := env.cache(cq);
      cached != [] && cq.from < cached[0].timestamp ==>
        var rd := Read(cq, Some(cq.(to := cached[0].timestamp)), []);
        GetCandles(env, a, p, interval, from, to) == Success(rd.(candles := Finish(Combined(env, rd), interval, cq.from, cq.to)))
  {
  }

  /** The answer to such a read, once the combined run's finish is known. */
  lemma RepositoryUpToAnswer(env: Env, a: string, p: PriceType, interval: TimeInterval, from: Instant, to: Instant, h: Instant, finished: seq<Candle>)
    requires InRange(from) && InRange(to)
    requires p != PriceType.Unspecified && interval != TimeInterval.Unspecified && from < to && env.canStore(a)
    requires var cq := Query(a, p, NearestStored(interval), AlignDown(from, interval), AlignDown(to, interval));
      && env.cache(cq) != [] && env.cache(cq)[0].timestamp == h && cq.from < h
      && Finish(Combined(env, Read(cq, Some(cq.(to := h)), [])), interval, cq.from, cq.to) == finished
    ensures GetCandles(env, a, p, interval, from, to)
      == Success(Read(Query(a, p, NearestStored(interval), AlignDown(from, interval), AlignDown(to, interval)),
                      Some(Query(a, p, NearestStored(interval), AlignDown(from, interval), h)), finished))
  {
    ReadsRepositoryUpToCache(env, a, p, interval, from, to);
  }

  lemma QuarterHourRange(base: Instant, from: Instant, to: Instant)
    requires base % TicksPerHour == 0 && InRange(from) && InRange(to)
    requires from <= base && base + TicksPerHour <= to
    ensures AlignDown(from, Min15) <= base && base + TicksPerHour <= AlignDown(to, Min15)
  {
    var len := Length(Min15);
    var hours := base / TicksPerHour;
    FloorUnique(base, len, 4 * hours);
    FloorUnique(base + TicksPerHour, len, 4 * hours + 4);
    AlignDownMonotone(from, base, Min15);
    AlignDownMonotone(base + TicksPerHour, to, Min15);
  }

  /** Merging the hh:13 to hh:17 minute candles into quarter hours, in a
      window containing the hour, gives the hh:00 and hh:15 candles. */
  lemma QuarterHourFinish(base: Instant, cs: seq<Candle>, lo: Instant, hi: Instant)
    requires InRange(base) && InRange(base + TicksPerHour) && base % TicksPerHour == 0
    requires |cs| == 5 && forall k :: 0 <= k < 5 ==> cs[k].timestamp == base + (13 + k) * TicksPerMinute
    requires lo <= base && base + TicksPerHour <= hi
    ensures var r := Finish(cs, Min15, lo, hi);
      |r| == 2 && r[0].timestamp == base && r[1].timestamp == base + 15 * TicksPerMinute
  {
    QuarterHourBuckets(base, cs);
    var out := Aggregate(cs, Min15);
    assert InWindow(lo, hi)(out[0]) && InWindow(lo, hi)(out[1]);
    FilterAll(out, InWindow(lo, hi));
    assert Finish(cs, Min15, lo, hi) == Filter(out, InWindow(lo, hi));
  }

  /** The read of a Min15 request over a range containing an hour whose
      cache answer starts at hh:13: the repository is asked for the aligned
      start up to hh:13, and with nothing there the answer is the cache's
      candles merged into quarter hours. */
  lemma QuarterHourRead(env: Env, a: string, p: PriceType, base: Instant, from: Instant, to: Instant, cs: seq<Candle>)
    requires base % TicksPerHour == 0 && InRange(from) && InRange(to)
    requires p != PriceType.Unspecified && env.canStore(a)
    requires from <= base && base + TicksPerHour <= to
    requires |cs| == 5 && StampedFrom(cs, base + 13 * TicksPerMinute)
    requires env.cache(Query(a, p, Minute, AlignDown(from, Min15), AlignDown(to, Min15))) == cs
    requires env.repository(Query(a, p, Minute, AlignDown(from, Min15), base + 13 * TicksPerMinute)) == []
    ensures GetCandles(env, a, p, Min15, from, to)
      == Success(Read(Query(a, p, Minute, AlignDown(from, Min15), AlignDown(to, Min15)),
                      Some(Query(a, p, Minute, AlignDown(from, Min15), base + 13 * TicksPerMinute)),
                      Finish(cs, Min15, AlignDown(from, Min15), AlignDown(to, Min15))))
  {
    var h := base + 13 * TicksPerMinute;
    QuarterHourRange(base, from, to);
    StampedFromEach(cs, h);
    assert NearestStored(Min15) == Minute && cs[0].timestamp == h && AlignDown(from, Min15) < h;
    CacheOnlyRun(env, Query(a, p, Minute, AlignDown(from, Min15), AlignDown(to, Min15)), h);
    RepositoryUpToAnswer(env, a, p, Min15, from, to, h, Finish(cs, Min15, AlignDown(from, Min15), AlignDown(to, Min15)));
  }

  /** With nothing in the repository before the horizon, the combined run
      is the cache's answer. */
  lemma CacheOnlyRun(env: Env, cq: Query, h: Instant)
    requires env.repository(cq.(to := h)) == []
    ensures Combined(env, Read(cq, Some(cq.(to := h)), [])) == env.cache(cq)
  {
    StitchedRead(env, Read(cq, Some(cq.(to := h)), []));
    assert Filter([], Before(h)) == [];
  }



  /** The quarter-hour test: the cache holds minute candles at 17:13 to
      17:17, the repository nothing, and a Min15 request over a range that
      contains that hour gets two candles, stamped 17:00 and 17:15. */
  lemma QuarterHourExample(base: Instant, from: Instant, to: Instant, a: string, p: PriceType)
    requires base % TicksPerHour == 0 && InRange(from) && InRange(to)
    requires p != PriceType.Unspecified
    requires from <= base && base + TicksPerHour <= to
    ensures var env := MockEnv(Minutes(a, p, base, 13, 5, 0.0), EmptyRepository);
      var r := GetCandles(env, a, p, Min15, from, to);
      && r.Success? && |r.value.candles| == 2
      && r.value.candles[0].timestamp == base
      && r.value.candles[1].timestamp == base + 15 * TicksPerMinute
  {
    var cs := Minutes(a, p, base, 13, 5, 0.0);
    var env := MockEnv(cs, EmptyRepository);
    MinutesStamped(a, p, base, 13, 5, 0.0);
    QuarterHourRead(env, a, p, base, from, to, cs);
    QuarterHourRange(base, from, to);
    QuarterHourFinish(base, cs, AlignDown(from, Min15), AlignDown(to, Min15));
  }

  lemma MinuteRange(base: Instant, from: Instant, to: Instant)
    requires base % TicksPerHour == 0 && InRange(from) && InRange(to)
    requires base - 47 * TicksPerMinute <= from < base - 46 * TicksPerMinute
    requires base + 18 * TicksPerMinute <= to
    ensures AlignDown(from, Minute) == base - 47 * TicksPerMinute
    ensures base + 18 * TicksPerMinute <= AlignDown(to, Minute)
  {
    var hours := base / TicksPerHour;
    FloorUnique(from, TicksPerMinute, 60 * hours - 47);
    FloorUnique(base + 18 * TicksPerMinute, TicksPerMinute, 60 * hours + 18);
    AlignDownMonotone(base + 18 * TicksPerMinute, to, Minute);
  }

  /** The repository's hh:10 to hh:13 candles stitched before the cache's
      hh:13 to hh:17 ones, and kept whole in a window that holds them. */
  lemma RepositoryThenCacheRun(base: Instant, stored: seq<Candle>, cached: seq<Candle>, lo: Instant, hi: Instant)
    requires |stored| == 4 && forall k :: 0 <= k < 4 ==> stored[k].timestamp == base + (10 + k) * TicksPerMinute
    requires |cached| == 5 && forall k :: 0 <= k < 5 ==> cached[k].timestamp == base + (13 + k) * TicksPerMinute
    requires lo <= base + 10 * TicksPerMinute && base + 18 * TicksPerMinute <= hi
    ensures Finish(Stitch(stored, base + 13 * TicksPerMinute, cached), Minute, lo, hi) == stored[..3] + cached
  {
    FilterExactPrefix(stored, 3, Before(base + 13 * TicksPerMinute));
    var merged := stored[..3] + cached;
    assert Stitch(stored, base + 13 * TicksPerMinute, cached) == merged;
    assert forall k :: 0 <= k < |merged| ==> merged[k] == if k < 3 then stored[k] else cached[k - 3];
    FilterAll(merged, InWindow(lo, hi));
  }

  /** The read of a Minute request from hh-1:13:xx when the cache starts
      at hh:13: the repository is asked for hh-1:13 to hh:13, and the answer
      is its candles before hh:13 followed by the cache's. */
  lemma RepositoryThenCache(env: Env, a: string, p: PriceType, base: Instant, from: Instant, to: Instant, stored: seq<Candle>, cached: seq<Candle>)
    requires base % TicksPerHour == 0 && InRange(from) && InRange(to)
    requires p != PriceType.Unspecified && env.canStore(a)
    requires base - 47 * TicksPerMinute <= from < base - 46 * TicksPerMinute
    requires base + 18 * TicksPerMinute <= to
    requires |stored| == 4 && StampedFrom(stored, base + 10 * TicksPerMinute)
    requires |cached| == 5 && StampedFrom(cached, base + 13 * TicksPerMinute)
    requires env.cache(Query(a, p, Minute, AlignDown(from, Minute), AlignDown(to, Minute))) == cached
    requires env.repository(Query(a, p, Minute, base - 47 * TicksPerMinute, base + 13 * TicksPerMinute)) == stored
    ensures GetCandles(env, a, p, Minute, from, to)
      == Success(Read(Query(a, p, Minute, AlignDown(from, Minute), AlignDown(to, Minute)),
                      Some(Query(a, p, Minute, AlignDown(from, Minute), base + 13 * TicksPerMinute)),
                      stored[..3] + cached))
  {
    MinuteRange(base, from, to);
    var cq := Query(a, p, Minute, AlignDown(from, Minute), AlignDown(to, Minute));
    var h := base + 13 * TicksPerMinute;
    var rd := Read(cq, Some(cq.(to := h)), []);
    assert Finish(Combined(env, rd), Minute, cq.from, cq.to) == stored[..3] + cached by {
      assert cq.(to := h) == Query(a, p, Minute, base - 47 * TicksPerMinute, h);
      assert env.repository(cq.(to := h)) == stored;
      StitchedRead(env, rd);
      StampedFromEach(stored, base + 10 * TicksPerMinute);
      StampedFromEach(cached, h);
      RepositoryThenCacheRun(base, stored, cached, cq.from, cq.to);
    }
    StampedFromEach(cached, h);
    assert NearestStored(Minute) == Minute && cached[0].timestamp == h && cq.from < h;
    RepositoryUpToAnswer(env, a, p, Minute, from, to, h, stored[..3] + cached);
  }

  /** The test where the cache does not reach back to the start of the
      range: a Minute request from hh-1:13:xx is answered with the
      repository's candles for hh:10 to hh:12 (opening at 1), read for
      exactly hh-1:13 to hh:13, followed by the cache's candles for hh:13 to
      hh:17 (opening at 2); the repository's own hh:13 candle is dropped. */
  lemma RepositoryThenCacheExample(base: Instant, from: Instant, to: Instant, a: string, p: PriceType)
    requires base % TicksPerHour == 0 && InRange(from) && InRange(to)
    requires p != PriceType.Unspecified
    requires base - 47 * TicksPerMinute <= from < base - 46 * TicksPerMinute
    requires base + 18 * TicksPerMinute <= to
    ensures var env := MockEnv(Minutes(a, p, base, 13, 5, 2.0),
        AnsweringOnly(base - 47 * TicksPerMinute, base + 13 * TicksPerMinute, Minutes(a, p, base, 10, 4, 1.0)));
      var r := GetCandles(env, a, p, Minute, from, to);
      && r.Success? && |r.value.candles| == 8
      && (forall k :: 0 <= k < 8 ==> r.value.candles[k].timestamp == base + (10 + k) * TicksPerMinute)
      && (forall k :: 0 <= k < 8 ==> r.value.candles[k].open == if k < 3 then 1.0 else 2.0)
  {
    var stored := Minutes(a, p, base, 10, 4, 1.0);
    var cached := Minutes(a, p, base, 13, 5, 2.0);
    var env := MockEnv(cached, AnsweringOnly(base - 47 * TicksPerMinute, base + 13 * TicksPerMinute, stored));
    MinuteRange(base, from, to);
    var cq := Query(a, p, Minute, AlignDown(from, Minute), AlignDown(to, Minute));
    assert env.cache(cq) == cached;
    assert env.repository(Query(a, p, Minute, base - 47 * TicksPerMinute, base + 13 * TicksPerMinute)) == stored;
    MinutesStamped(a, p, base, 10, 4, 1.0);
    MinutesStamped(a, p, base, 13, 5, 2.0);
    RepositoryThenCache(env, a, p, base, from, to, stored, cached);
    RepositoryThenCacheCandles(a, p, base);
  }

  /** The three repository candles before hh:13 followed by the five cached
      ones: hh:10 to hh:17, opening at 1 and then at 2. */
  lemma RepositoryThenCacheCandles(a: string, p: PriceType, base: Instant)
    ensures var merged := Minutes(a, p, base, 10, 4, 1.0)[..3] + Minutes(a, p, base, 13, 5, 2.0);
      && |merged| == 8
      && (forall k :: 0 <= k < 8 ==> merged[k].timestamp == base + (10 + k) * TicksPerMinute)
      && (forall k :: 0 <= k < 8 ==> merged[k].open == if k < 3 then 1.0 else 2.0)
  {
    var stored := Minutes(a, p, base, 10, 4, 1.0);
    var cached := Minutes(a, p, base, 13, 5, 2.0);
    var merged := stored[..3] + cached;
    forall k | 0 <= k < 8
      ensures merged[k].timestamp == base + (10 + k) * TicksPerMinute
      ensures merged[k].open == if k < 3 then 1.0 else 2.0
    {
      if k < 3 {
        assert merged[k] == stored[k];
      } else {
        assert merged[k] == cached[k - 3];
      }
    }
  }
}
