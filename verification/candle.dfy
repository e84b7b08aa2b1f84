/** The candle record, its field-copy constructor, and the snapshot entity
    that carries a candle under eight one-letter JSON keys. */
module Candles {

  import opened Wrappers
  import opened Calendar
  import opened TimeIntervals

  datatype PriceType = Unspecified | Bid | Ask | Mid

  /** A double-precision price, taken as an exact value: no rounding is
      modelled. */
  type Price = real

  /** One OHLC sample of an asset pair for one price type and interval,
      stamped with the start of its bucket. */
  datatype Candle = Candle(
    assetPairId: string,
    priceType: PriceType,
    timeInterval: TimeInterval,
    timestamp: Instant,
    open: Price,
    close: Price,
    high: Price,
    low: Price)

  /** Candle.Create: a fresh candle holding the eight values that any
      candle-shaped source exposes. */
  function CreateCandle(source: Candle): (c: Candle)
    ensures c.assetPairId == source.assetPairId && c.priceType == source.priceType
    ensures c.timeInterval == source.timeInterval && c.timestamp == source.timestamp
    ensures c.open == source.open && c.close == source.close
    ensures c.low == source.low && c.high == source.high
  {
    Candle(
      assetPairId := source.assetPairId,
      priceType := source.priceType,
      timeInterval := source.timeInterval,
      timestamp := source.timestamp,
      open := source.open,
      close := source.close,
      low := source.low,
      high := source.high)
  }

  /** The snapshot form of a candle; each field is written under its own
      short JSON key. */
  datatype CandleSnapshotEntity = CandleSnapshotEntity(
    a: string,
    p: PriceType,
    i: TimeInterval,
    t: Instant,
    o: Price,
    c: Price,
    h: Price,
    l: Price)

  /** CandleSnapshotEntity.Create. */
  function CreateSnapshotEntity(source: Candle): (e: CandleSnapshotEntity)
    ensures e.a == source.assetPairId && e.p == source.priceType
    ensures e.i == source.timeInterval && e.t == source.timestamp
    ensures e.o == source.open && e.c == source.close
    ensures e.h == source.high && e.l == source.low
  {
    CandleSnapshotEntity(
      a := source.assetPairId,
      p := source.priceType,
      i := source.timeInterval,
      t := source.timestamp,
      o := source.open,
      c := source.close,
      l := source.low,
      h := source.high)
  }

  /** The entity read through the candle interface it implements. */
  function SnapshotAsCandle(e: CandleSnapshotEntity): Candle {
    Candle(e.a, e.p, e.i, e.t, e.o, e.c, e.h, e.l)
  }

  /** A JSON value as the serializer writes one field; how each kind is
      spelled out as text is the serializer's business. */
  datatype JsonValue =
    | JString(s: string)
    | JNumber(n: Price)
    | JPriceType(pt: PriceType)
    | JInterval(ti: TimeInterval)
    | JDate(d: Instant)

  /** The JSON property names, in field order: asset pair, price type,
      interval, timestamp, open, close, high, low. */
  const JsonKeys: seq<string> := ["a", "p", "i", "t", "o", "c", "h", "l"]

  /** The JSON object of a snapshot entity. */
  function ToJson(e: CandleSnapshotEntity): (m: map<string, JsonValue>)
    ensures m.Keys == set k | k in JsonKeys
  {
    map[
      "a" := JString(e.a),
      "p" := JPriceType(e.p),
      "i" := JInterval(e.i),
      "t" := JDate(e.t),
      "o" := JNumber(e.o),
      "c" := JNumber(e.c),
      "h" := JNumber(e.h),
      "l" := JNumber(e.l)]
  }

  /** A freshly constructed entity: the value every field keeps when its
      key is missing from the JSON object. The null asset pair id is taken
      as the empty string. */
  const DefaultEntity := CandleSnapshotEntity(
    a := "", p := PriceType.Unspecified, i := TimeInterval.Unspecified, t := 0,
    o := 0.0, c := 0.0, h := 0.0, l := 0.0)

  /** Whether `v` is the kind of value the field under key `k` is written
      as. */
  predicate FitsKey(k: string, v: JsonValue) {
    if k == "a" then v.JString?
    else if k == "p" then v.JPriceType?
    else if k == "i" then v.JInterval?
    else if k == "t" then v.JDate?
    else v.JNumber?
  }

  /** The value under key `k`, or the default entity's when it is missing. */
  function Field(m: map<string, JsonValue>, k: string): JsonValue
    requires k in JsonKeys
  {
    if k in m then m[k] else ToJson(DefaultEntity)[k]
  }

  /** Reads a snapshot entity back from a JSON object. A missing key leaves
      its field at the default; a key holding the wrong kind of value fails
      the read; keys of no field are ignored. */
  function FromJson(m: map<string, JsonValue>): (r: Option<CandleSnapshotEntity>)
    ensures r.Some? <==> forall k :: k in m && k in JsonKeys ==> FitsKey(k, m[k])
  {
    FitsByKeys(m);
    if && Field(m, "a").JString? && Field(m, "p").JPriceType? && Field(m, "i").JInterval? && Field(m, "t").JDate?
       && Field(m, "o").JNumber? && Field(m, "c").JNumber? && Field(m, "h").JNumber? && Field(m, "l").JNumber?
    then Some(Assemble(m))
    else None
  }

  /** The entity made of the values under the eight keys, defaults filling
      in the missing ones. */
  function Assemble(m: map<string, JsonValue>): CandleSnapshotEntity
    requires && Field(m, "a").JString? && Field(m, "p").JPriceType? && Field(m, "i").JInterval? && Field(m, "t").JDate?
             && Field(m, "o").JNumber? && Field(m, "c").JNumber? && Field(m, "h").JNumber? && Field(m, "l").JNumber?
  {
    CandleSnapshotEntity(
      Field(m, "a").s, Field(m, "p").pt, Field(m, "i").ti, Field(m, "t").d,
      Field(m, "o").n, Field(m, "c").n, Field(m, "h").n, Field(m, "l").n)
  }

  // ---------------------------------------------------------------------
  // Lemmas

  /** Candle.Create changes nothing: applying it twice is applying it once,
      and the copy equals its source. */
  lemma CreateCandleIdempotent(c: Candle)
    ensures CreateCandle(CreateCandle(c)) == CreateCandle(c)
    ensures CreateCandle(c) == c
  {}

  /** The eight JSON keys are pairwise distinct. */
  lemma JsonKeysDistinct()
    ensures |JsonKeys| == 8
    ensures forall j, k :: 0 <= j < k < |JsonKeys| ==> JsonKeys[j] != JsonKeys[k]
  {}

  /** Every field is written under its own key: reading the JSON object
      back yields the same entity. */
  lemma JsonRoundTrip(e: CandleSnapshotEntity)
    ensures FromJson(ToJson(e)) == Some(e)
  {
    var m := ToJson(e);
    assert m["a"] == JString(e.a) && m["p"] == JPriceType(e.p);
    assert m["i"] == JInterval(e.i) && m["t"] == JDate(e.t);
    assert m["o"] == JNumber(e.o) && m["c"] == JNumber(e.c);
    assert m["h"] == JNumber(e.h) && m["l"] == JNumber(e.l);
    assert Field(m, "a") == m["a"] && Field(m, "p") == m["p"] && Field(m, "i") == m["i"] && Field(m, "t") == m["t"];
    assert Field(m, "o") == m["o"] && Field(m, "c") == m["c"] && Field(m, "h") == m["h"] && Field(m, "l") == m["l"];
    assert Assemble(m) == e;
  }

  /** The eight keys, one by one. */
  lemma JsonKeyCases()
    ensures forall k :: k in JsonKeys <==> k in {"a", "p", "i", "t", "o", "c", "h", "l"}
  {
  }

  /** Every field has a value of its kind exactly when every present key
      holds one: the defaults are of the right kind. */
  lemma FitsByKeys(m: map<string, JsonValue>)
    ensures (forall k :: k in m && k in JsonKeys ==> FitsKey(k, m[k])) <==>
      && Field(m, "a").JString? && Field(m, "p").JPriceType? && Field(m, "i").JInterval? && Field(m, "t").JDate?
      && Field(m, "o").JNumber? && Field(m, "c").JNumber? && Field(m, "h").JNumber? && Field(m, "l").JNumber?
  {
    if forall k :: k in m && k in JsonKeys ==> FitsKey(k, m[k]) {
      FieldFits(m, "a");
      FieldFits(m, "p");
      FieldFits(m, "i");
      FieldFits(m, "t");
      FieldFits(m, "o");
      FieldFits(m, "c");
      FieldFits(m, "h");
      FieldFits(m, "l");
    }
    if && Field(m, "a").JString? && Field(m, "p").JPriceType? && Field(m, "i").JInterval? && Field(m, "t").JDate?
       && Field(m, "o").JNumber? && Field(m, "c").JNumber? && Field(m, "h").JNumber? && Field(m, "l").JNumber?
    {
      forall k | k in m && k in JsonKeys
        ensures FitsKey(k, m[k])
      {
        JsonKeyCases();
        assert Field(m, k) == m[k];
      }
    }
  }

  /** A field whose key, when present, holds its kind has that kind: the
      defaults are of the right kind. */
  lemma FieldFits(m: map<string, JsonValue>, k: string)
    requires k in JsonKeys && (k in m ==> FitsKey(k, m[k]))
    ensures FitsKey(k, Field(m, k))
  {
    if k !in m {
      ToJsonValues(DefaultEntity);
      JsonKeyCases();
    }
  }


  /** Each key of the JSON object holds the value of its field. */
  lemma ToJsonValues(e: CandleSnapshotEntity)
    ensures var j := ToJson(e);
      && j["a"] == JString(e.a) && j["p"] == JPriceType(e.p) && j["i"] == JInterval(e.i) && j["t"] == JDate(e.t)
      && j["o"] == JNumber(e.o) && j["c"] == JNumber(e.c) && j["h"] == JNumber(e.h) && j["l"] == JNumber(e.l)
  {
  }

  /** The JSON of an assembled entity holds, under each key, the value
      the entity was assembled from. */
  lemma AssembleFields(m: map<string, JsonValue>)
    requires && Field(m, "a").JString? && Field(m, "p").JPriceType? && Field(m, "i").JInterval? && Field(m, "t").JDate?
             && Field(m, "o").JNumber? && Field(m, "c").JNumber? && Field(m, "h").JNumber? && Field(m, "l").JNumber?
    ensures forall k :: k in JsonKeys ==> ToJson(Assemble(m))[k] == Field(m, k)
  {
    ToJsonValues(Assemble(m));
    JsonKeyCases();
  }

  /** What a successful read holds: every field whose key is present is
      read back as written, and every other field is the default. */
  lemma FromJsonFields(m: map<string, JsonValue>)
    requires FromJson(m).Some?
    ensures var e := FromJson(m).value;
      && (forall k :: k in m && k in JsonKeys ==> ToJson(e)[k] == m[k])
      && (forall k :: k !in m && k in JsonKeys ==> ToJson(e)[k] == ToJson(DefaultEntity)[k])
  {
    FitsByKeys(m);
    AssembleFields(m);
  }

  /** An object holding only the asset pair reads as a fresh entity with
      that pair: every other field keeps its default. */
  lemma OnlyPairGiven(s: string)
    ensures FromJson(map["a" := JString(s)]) == Some(DefaultEntity.(a := s))
  {
    var m := map["a" := JString(s)];
    assert "p" !in m && "i" !in m && "t" !in m && "o" !in m && "c" !in m && "h" !in m && "l" !in m;
  }

  /** A candle copied into a snapshot entity and back through Candle.Create
      keeps all eight fields. */
  lemma SnapshotCopyRoundTrip(c: Candle)
    ensures CreateCandle(SnapshotAsCandle(CreateSnapshotEntity(c))) == c
  {}

  /** The full snapshot path, JSON included, restores the candle. */
  lemma SnapshotJsonRoundTrip(c: Candle)
    ensures FromJson(ToJson(CreateSnapshotEntity(c))).Some?
    ensures CreateCandle(SnapshotAsCandle(FromJson(ToJson(CreateSnapshotEntity(c))).value)) == c
  {
    JsonRoundTrip(CreateSnapshotEntity(c));
  }
}
