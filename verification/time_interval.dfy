/** The candle granularities: the TimeInterval enumeration with its member
    order and serialized names, the subset that is physically cached and
    stored, the mapping of every other interval onto the nearest finer stored
    one, and the alignment of instants to interval boundaries. */
module TimeIntervals {

  import opened Wrappers
  import opened Calendar

  datatype TimeInterval =
    | Unspecified
    | Sec
    | Minute
    | Min5
    | Min15
    | Min30
    | Hour
    | Hour4
    | Hour6
    | Hour12
    | Day
    | Week
    | Month

  /** The members in declaration order. */
  const AllIntervals: seq<TimeInterval> :=
    [Unspecified, Sec, Minute, Min5, Min15, Min30, Hour, Hour4, Hour6, Hour12, Day, Week, Month]

  /** The member's numeric value: its position in the declaration. */
  function Ordinal(i: TimeInterval): nat {
    match i
    case Unspecified => 0
    case Sec => 1
    case Minute => 2
    case Min5 => 3
    case Min15 => 4
    case Min30 => 5
    case Hour => 6
    case Hour4 => 7
    case Hour6 => 8
    case Hour12 => 9
    case Day => 10
    case Week => 11
    case Month => 12
  }

  /** The enumeration value with numeric value `n`, if any. */
  function FromOrdinal(n: int): (r: Option<TimeInterval>)
    ensures r.Some? <==> 0 <= n < |AllIntervals|
    ensures r.Some? ==> Ordinal(r.value) == n
  {
    if 0 <= n < |AllIntervals| then Some(AllIntervals[n]) else None
  }

  /** The value a fresh, unassigned interval holds (C#'s `default`). */
  function DefaultInterval(): (r: TimeInterval)
    ensures Ordinal(r) == 0
  {
    FromOrdinal(0).value
  }

  /** The string an interval is serialized as. */
  function Name(i: TimeInterval): string {
    match i
    case Unspecified => "Unspecified"
    case Sec => "Sec"
    case Minute => "Minute"
    case Min5 => "Min5"
    case Min15 => "Min15"
    case Min30 => "Min30"
    case Hour => "Hour"
    case Hour4 => "Hour4"
    case Hour6 => "Hour6"
    case Hour12 => "Hour12"
    case Day => "Day"
    case Week => "Week"
    case Month => "Month"
  }

  /** The interval serialized as `s`, searching the members in order. */
  function ParseName(s: string): Option<TimeInterval> {
    FindByName(s, AllIntervals)
  }

  function FindByName(s: string, candidates: seq<TimeInterval>): (r: Option<TimeInterval>)
    ensures r.Some? ==> r.value in candidates && Name(r.value) == s
    ensures r.None? ==> forall k :: 0 <= k < |candidates| ==> Name(candidates[k]) != s
  {
    if candidates == [] then None
    else if Name(candidates[0]) == s then Some(candidates[0])
    else FindByName(s, candidates[1..])
  }

  /** Intervals that are cached and persisted as such. */
  predicate IsStored(i: TimeInterval) {
    i in {Sec, Minute, Min30, Hour, Day, Week, Month}
  }

  /** The stored intervals in ascending order of duration. */
  const StoredIntervals: seq<TimeInterval> := [Sec, Minute, Min30, Hour, Day, Week, Month]

  /** The stored interval whose candles are read, and merged if need be, to
      answer a request for interval `i`. */
  function NearestStored(i: TimeInterval): (s: TimeInterval)
    requires i != Unspecified
    ensures IsStored(s)
    ensures Ordinal(s) <= Ordinal(i)
    ensures forall t :: IsStored(t) && Ordinal(t) <= Ordinal(i) ==> Ordinal(t) <= Ordinal(s)
  {
    match i
    case Min5 => Minute
    case Min15 => Minute
    case Hour4 => Hour
    case Hour6 => Hour
    case Hour12 => Hour
    case _ => i
  }

  /** Length in ticks of every interval except the calendar month. */
  function Length(i: TimeInterval): (n: int)
    requires i != Unspecified && i != Month
    ensures n > 0 && n % TicksPerSecond == 0
  {
    match i
    case Sec => TicksPerSecond
    case Minute => TicksPerMinute
    case Min5 => 5 * TicksPerMinute
    case Min15 => 15 * TicksPerMinute
    case Min30 => 30 * TicksPerMinute
    case Hour => TicksPerHour
    case Hour4 => 4 * TicksPerHour
    case Hour6 => 6 * TicksPerHour
    case Hour12 => 12 * TicksPerHour
    case Day => TicksPerDay
    case Week => 7 * TicksPerDay
  }

  /** The start of the bucket of interval `i` that holds `t`. Fixed-length
      buckets are counted from 0001-01-01T00:00:00 (a Monday, so weeks start
      on Mondays); months follow the calendar. */
  function AlignDown(t: Instant, i: TimeInterval): (r: Instant)
    requires InRange(t) && i != Unspecified
    ensures InRange(r)
    ensures r <= t
    ensures i != Month ==> t < r + Length(i) && r % Length(i) == 0
  {
    if i == Month then StartOfMonth(t)
    else
      var len := Length(i);
      DivModUnique(t - t % len, len, t / len, 0);
      t - t % len
  }

  predicate IsAligned(t: Instant, i: TimeInterval)
    requires InRange(t) && i != Unspecified
  {
    AlignDown(t, i) == t
  }

  // ---------------------------------------------------------------------
  // Lemmas

  /** The enumeration has thirteen members; position and value agree. */
  lemma AllIntervalsInOrder()
    ensures |AllIntervals| == 13
    ensures forall i: TimeInterval :: AllIntervals[Ordinal(i)] == i
    ensures forall k :: 0 <= k < |AllIntervals| ==> Ordinal(AllIntervals[k]) == k
  {}

  /** Unspecified is the first member and therefore the default value. */
  lemma DefaultIsUnspecified()
    ensures DefaultInterval() == Unspecified
    ensures AllIntervals[0] == Unspecified
  {
    assert FromOrdinal(0) == Some(Unspecified);
  }

  /** Numeric value and enumeration member convert back and forth. */
  lemma OrdinalRoundTrip(i: TimeInterval)
    ensures FromOrdinal(Ordinal(i)) == Some(i)
  {}

  /** No two members share a serialized name. */
  lemma NamesDistinct(i: TimeInterval, j: TimeInterval)
    requires Name(i) == Name(j)
    ensures i == j
  {
  }

  /** Parsing a printed interval gives the interval back, and only printed
      names parse. */
  lemma NameRoundTrip(i: TimeInterval, s: string)
    ensures ParseName(Name(i)) == Some(i)
    ensures ParseName(s).Some? ==> Name(ParseName(s).value) == s
  {
    var r := ParseName(Name(i));
    assert AllIntervals[Ordinal(i)] == i;
    assert r.Some?;
    NamesDistinct(r.value, i);
  }

  /** The mapping to stored intervals, as the read path uses it. */
  lemma NearestStoredTable()
    ensures NearestStored(Min5) == Minute && NearestStored(Min15) == Minute
    ensures NearestStored(Hour4) == Hour && NearestStored(Hour6) == Hour && NearestStored(Hour12) == Hour
    ensures forall s :: s in StoredIntervals ==> NearestStored(s) == s
    ensures forall i :: i != Unspecified ==> NearestStored(i) in {Sec, Minute, Min30, Hour, Day, Week, Month}
  {}

  /** A stored interval maps to itself, so the mapping is idempotent. */
  lemma NearestStoredIdempotent(i: TimeInterval)
    requires i != Unspecified
    ensures NearestStored(i) != Unspecified
    ensures NearestStored(NearestStored(i)) == NearestStored(i)
    ensures IsStored(i) <==> NearestStored(i) == i
  {}

  lemma StoredIntervalsAreStored()
    ensures forall i :: IsStored(i) <==> i in StoredIntervals
  {}

  /** Floor division by a positive length is pinned down by any bracketing
      multiple. */
  lemma FloorUnique(t: int, len: int, q: int)
    requires len > 0 && len * q <= t < len * q + len
    ensures t - t % len == len * q
  {
    DivModUnique(t, len, q, t - len * q);
  }

  lemma FloorPartition(t1: int, t2: int, len: int)
    requires len > 0
    requires t2 - t2 % len <= t1 <= t2
    ensures t1 - t1 % len == t2 - t2 % len
  {
    var q := t2 / len;
    assert t2 == len * q + t2 % len;
    FloorUnique(t1, len, q);
  }

  /** An instant between a bucket's start and a later instant of the same
      bucket falls into that bucket. */
  lemma AlignDownPartition(t1: Instant, t2: Instant, i: TimeInterval)
    requires InRange(t1) && InRange(t2) && i != Unspecified
    requires AlignDown(t2, i) <= t1 <= t2
    ensures AlignDown(t1, i) == AlignDown(t2, i)
  {
    if i == Month {
      StartOfMonthPartition(t1, t2);
    } else {
      FloorPartition(t1, t2, Length(i));
    }
  }

  /** Alignment preserves the order of instants. */
  lemma AlignDownMonotone(t1: Instant, t2: Instant, i: TimeInterval)
    requires InRange(t1) && InRange(t2) && i != Unspecified
    requires t1 <= t2
    ensures AlignDown(t1, i) <= AlignDown(t2, i)
  {
    if AlignDown(t2, i) <= t1 {
      AlignDownPartition(t1, t2, i);
    }
  }

  /** A bucket start is its own bucket start. */
  lemma AlignDownIdempotent(t: Instant, i: TimeInterval)
    requires InRange(t) && i != Unspecified
    ensures AlignDown(AlignDown(t, i), i) == AlignDown(t, i)
  {
    AlignDownPartition(AlignDown(t, i), t, i);
  }

  lemma FloorMonotone(t1: int, t2: int, len: int)
    requires len > 0 && t1 <= t2
    ensures t1 - t1 % len <= t2 - t2 % len
  {
    if t2 - t2 % len <= t1 {
      FloorPartition(t1, t2, len);
    }
  }

  /** Flooring to a multiple of a length's divisor first does not change
      where flooring to the length lands. */
  lemma FloorRefines(t: int, big: int, small: int, k: int)
    requires small > 0 && k > 0 && big == k * small
    ensures (t - t % big) % small == 0
    ensures var b := t - t % small; b - b % big == t - t % big
  {
    var a := t - t % big;
    var qb := t / big;
    assert a == big * qb;
    assert a == small * (k * qb);
    DivModUnique(a, small, k * qb, 0);
    var b := t - t % small;
    FloorMonotone(a, t, small);
    FloorPartition(b, t, big);
  }

  /** The multiple that relates an interval's length to its stored
      interval's length. */
  function StoredFactor(i: TimeInterval): (k: int)
    requires i != Unspecified && i != Month
    ensures k > 0 && Length(i) == k * Length(NearestStored(i))
  {
    match i
    case Min5 => 5
    case Min15 => 15
    case Hour4 => 4
    case Hour6 => 6
    case Hour12 => 12
    case _ => 1
  }

  /** Every bucket of a requested interval starts on a boundary of its
      stored interval, and a candle of the stored interval falls into the
      bucket its own timestamp's alignment names. */
  lemma StoredBoundariesRefine(t: Instant, i: TimeInterval)
    requires InRange(t) && i != Unspecified
    ensures IsAligned(AlignDown(t, i), NearestStored(i))
    ensures AlignDown(AlignDown(t, NearestStored(i)), i) == AlignDown(t, i)
  {
    if i == Month {
      AlignDownIdempotent(t, i);
    } else {
      var a := AlignDown(t, i);
      FloorRefines(t, Length(i), Length(NearestStored(i)), StoredFactor(i));
      assert a % Length(NearestStored(i)) == 0;
    }
  }

  /** Aligning to Day drops the time of day: 17:18 becomes midnight. */
  lemma DayAlignsToMidnight(p: DateParts)
    requires ValidParts(p)
    ensures AlignDown(FromParts(p), Day) == FromParts(DateParts(p.year, p.month, p.day, 0, 0, 0))
  {
    DayNumberBelowMax(p);
    FloorUnique(FromParts(p), TicksPerDay, DayNumber(p));
  }
}
