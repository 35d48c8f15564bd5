/** Time ranges, buckets and series of backend/app/api/metrics.py. */
module Metrics {
  import opened Prelude
  import opened Calendar

  datatype RangeKey = Hours24 | Days3 | Days7 | Days14 | Month1 | Months3 | Months6 | Year1

  datatype BucketKey = Hour | Day | Week | Month

  datatype RangeSpec = RangeSpec(key: RangeKey, start: DateTime, end: DateTime, bucket: BucketKey, duration: nat)

  function DurationOf(key: RangeKey): nat {
    match key
    case Hours24 => 24 * MICROS_PER_HOUR
    case Days3 => 3 * MICROS_PER_DAY
    case Days7 => 7 * MICROS_PER_DAY
    case Days14 => 14 * MICROS_PER_DAY
    case Month1 => 30 * MICROS_PER_DAY
    case Months3 => 90 * MICROS_PER_DAY
    case Months6 => 180 * MICROS_PER_DAY
    case Year1 => 365 * MICROS_PER_DAY
  }

  function BucketOf(key: RangeKey): BucketKey {
    match key
    case Hours24 => Hour
    case Days3 | Days7 | Days14 | Month1 => Day
    case Months3 | Months6 => Week
    case Year1 => Month
  }

  function ResolveRange(key: RangeKey, now: DateTime): (r: RangeSpec)
    requires Instant(now) >= DurationOf(key) + MICROS_PER_DAY
    ensures r.end == now && r.key == key && r.bucket == BucketOf(key) && r.duration == DurationOf(key)
    ensures Instant(r.end) - Instant(r.start) == DurationOf(key) == Days(key) * 86_400_000_000
  {
    RangeSpec(key, FromInstant(Instant(now) - DurationOf(key)), now, BucketOf(key), DurationOf(key))
  }

  /** The range of the same length that ends where this one starts. */
  function ComparisonRange(r: RangeSpec): (c: RangeSpec)
    requires Instant(r.start) >= r.duration + MICROS_PER_DAY && Instant(r.end) >= r.duration + MICROS_PER_DAY
    ensures Instant(c.end) - Instant(c.start) == Instant(r.end) - Instant(r.start)
    ensures Instant(r.end) - Instant(r.start) == r.duration ==> c.end == r.start
  {
    var start, end := FromInstant(Instant(r.start) - r.duration), FromInstant(Instant(r.end) - r.duration);
    assert Instant(r.end) - Instant(r.start) == r.duration ==> end == r.start by {
      if Instant(r.end) - Instant(r.start) == r.duration {
        InstantIsInjective(end, r.start);
      }
    }
    r.(start := start, end := end)
  }

  // ---- buckets ----------------------------------------------------------------

  /** `_bucket_start`; the week of 1 January of year 1 begins on that day. */
  function BucketStart(t: DateTime, bucket: BucketKey): DateTime {
    match bucket
    case Month => RawDateTime(RawDate(t.date.year, t.date.month, 1), 0)
    case Week => RawDateTime(MondayOf(t.date), 0)
    case Day => RawDateTime(t.date, 0)
    case Hour => RawDateTime(t.date, t.micros - t.micros % MICROS_PER_HOUR)
  }

  function MondayOf(d: Date): (m: Date)
    ensures Ordinal(m) == Ordinal(d) - Weekday(d)
  {
    FromOrdinal(Ordinal(d) - Weekday(d))
  }

  function NextBucket(cursor: DateTime, bucket: BucketKey): DateTime {
    match bucket
    case Hour => FromInstant(Instant(cursor) + MICROS_PER_HOUR)
    case Day => FromInstant(Instant(cursor) + MICROS_PER_DAY)
    case Week => FromInstant(Instant(cursor) + 7 * MICROS_PER_DAY)
    case Month =>
      if cursor.date.month == 12 then cursor.(date := RawDate(cursor.date.year + 1, 1, 1))
      else cursor.(date := RawDate(cursor.date.year, cursor.date.month + 1, 1))
  }

  predicate IsBucket(t: DateTime, bucket: BucketKey) {
    BucketStart(t, bucket) == t
  }

  lemma MidnightOrder(c: DateTime, t: DateTime)
    requires c.micros == 0
    ensures Instant(c) <= Instant(t) <==> Ordinal(c.date) <= Ordinal(t.date)
  {
    hide Ordinal;
  }

  lemma SameDate(t: DateTime, c: DateTime)
    ensures t.date == c.date <==> Ordinal(t.date) == Ordinal(c.date)
  {
    if Ordinal(t.date) == Ordinal(c.date) {
      OrdinalIsInjective(t.date, c.date);
    }
  }

  lemma HourArithmetic(m: nat)
    requires m < MICROS_PER_DAY
    ensures 0 <= m - m % MICROS_PER_HOUR <= MICROS_PER_DAY - MICROS_PER_HOUR
    ensures (m - m % MICROS_PER_HOUR) % MICROS_PER_HOUR == 0
  {
    assert m == MICROS_PER_HOUR * (m / MICROS_PER_HOUR) + m % MICROS_PER_HOUR;
    assert m / MICROS_PER_HOUR <= 23;
  }

  lemma WeekArithmetic(n: int, monday: int)
    requires (monday + 6) % 7 == 0
    ensures n - (n + 6) % 7 == monday <==> monday <= n < monday + 7
    ensures (monday + 7 + 6) % 7 == 0
  {
  }

  lemma MondayArithmetic(n: int)
    ensures (n - (n + 6) % 7 + 6) % 7 == 0
  {
  }

  lemma IsMonday(d: Date)
    ensures MondayOf(d) == d <==> (Ordinal(d) + 6) % 7 == 0
    ensures (Ordinal(MondayOf(d)) + 6) % 7 == 0
  {
    hide Ordinal, FromOrdinal;
    MondayArithmetic(Ordinal(d));
    if (Ordinal(d) + 6) % 7 == 0 {
      OrdinalIsInjective(MondayOf(d), d);
    }
  }

  // ---- each kind of bucket is an interval ------------------------------------------

  lemma HourIsInterval(c: DateTime, t: DateTime)
    requires IsBucket(c, Hour)
    ensures BucketStart(t, Hour) == c <==> Instant(c) <= Instant(t) < Instant(c) + MICROS_PER_HOUR
  {
    hide Ordinal;
    SameDate(t, c);
    HourArithmetic(c.micros);
    HourArithmetic(t.micros);
  }

  lemma DayIsInterval(c: DateTime, t: DateTime)
    requires IsBucket(c, Day)
    ensures BucketStart(t, Day) == c <==> Instant(c) <= Instant(t) < Instant(c) + MICROS_PER_DAY
  {
    hide Ordinal;
    SameDate(t, c);
  }

  lemma WeekIsInterval(c: DateTime, t: DateTime)
    requires IsBucket(c, Week)
    ensures BucketStart(t, Week) == c <==> Instant(c) <= Instant(t) < Instant(c) + 7 * MICROS_PER_DAY
  {
    hide Ordinal, FromOrdinal;
    IsMonday(c.date);
    WeekArithmetic(Ordinal(t.date), Ordinal(c.date));
    SameDate(RawDateTime(MondayOf(t.date), 0), c);
    MidnightOrder(c, t);
  }

  lemma MonthIsInterval(c: DateTime, t: DateTime)
    requires IsBucket(c, Month)
    ensures BucketStart(t, Month) == c <==> Instant(c) <= Instant(t) < Instant(NextBucket(c, Month))
  {
    hide *;
    SameMonth(c, t);
    var next := NextBucket(c, Month);
    NextMonthIsNext(c);
    DateInMonth(c.date);
    DateInMonth(t.date);
    MidnightOrder(c, t);
    MidnightOrder(next, t);
    if MonthStart(MonthIndex(c.date)) <= Ordinal(t.date) < MonthStart(MonthIndex(c.date) + 1) {
      MonthIsUnique(Ordinal(t.date), MonthIndex(c.date), MonthIndex(t.date));
    }
  }

  lemma SameMonth(c: DateTime, t: DateTime)
    requires IsBucket(c, Month)
    ensures BucketStart(t, Month) == c <==> MonthIndex(c.date) == MonthIndex(t.date)
    ensures c.date.day == 1 && c.micros == 0 && NextBucket(c, Month).micros == 0
    ensures IsBucket(NextBucket(c, Month), Month)
  {
    hide Ordinal, Instant;
  }

  lemma NextMonthIsNext(c: DateTime)
    requires c.date.day == 1
    ensures Ordinal(NextBucket(c, Month).date) == MonthStart(MonthIndex(c.date) + 1)
    ensures MonthIndex(NextBucket(c, Month).date) == MonthIndex(c.date) + 1
  {
    var next := NextBucket(c, Month).date;
    assert MonthIndex(next) == MonthIndex(c.date) + 1 && next.day == 1;
    DateInMonth(next);
    hide Ordinal, MonthStart;
  }

  /** A bucket is [c, next): the times whose bucket start is c are those in it. */
  lemma BucketIsInterval(c: DateTime, bucket: BucketKey, t: DateTime)
    requires IsBucket(c, bucket)
    ensures BucketStart(t, bucket) == c <==> Instant(c) <= Instant(t) < Instant(NextBucket(c, bucket))
  {
    hide Instant, BucketStart;
    match bucket {
      case Hour => HourIsInterval(c, t);
      case Day => DayIsInterval(c, t);
      case Week => WeekIsInterval(c, t);
      case Month => MonthIsInterval(c, t);
    }
  }

  lemma NextIsBucket(c: DateTime, bucket: BucketKey)
    requires IsBucket(c, bucket)
    ensures IsBucket(NextBucket(c, bucket), bucket)
    ensures Instant(NextBucket(c, bucket)) > Instant(c)
  {
    match bucket {
      case Hour => NextHourIsBucket(c);
      case Day => NextDayIsBucket(c);
      case Week => NextWeekIsBucket(c);
      case Month => NextMonthIsBucket(c);
    }
  }

  lemma NextDayIsBucket(c: DateTime)
    requires IsBucket(c, Day)
    ensures IsBucket(NextBucket(c, Day), Day) && Instant(NextBucket(c, Day)) > Instant(c)
  {
    hide Ordinal, FromOrdinal;
    InstantParts(c);
    InstantParts(NextBucket(c, Day));
  }

  lemma NextWeekIsBucket(c: DateTime)
    requires IsBucket(c, Week)
    ensures IsBucket(NextBucket(c, Week), Week) && Instant(NextBucket(c, Week)) > Instant(c)
  {
    hide Ordinal, FromOrdinal, MondayOf;
    var next := NextBucket(c, Week);
    InstantParts(c);
    InstantParts(next);
    IsMonday(c.date);
    WeekArithmetic(Ordinal(c.date), Ordinal(c.date));
    assert Ordinal(next.date) == Ordinal(c.date) + 7 && next.micros == 0;
    IsMonday(next.date);
  }

  lemma NextMonthIsBucket(c: DateTime)
    requires IsBucket(c, Month)
    ensures IsBucket(NextBucket(c, Month), Month) && Instant(NextBucket(c, Month)) > Instant(c)
  {
    hide *;
    SameMonth(c, c);
    NextMonthIsNext(c);
    DateInMonth(c.date);
    MidnightOrder(NextBucket(c, Month), c);
  }

  lemma NextHourIsBucket(c: DateTime)
    requires IsBucket(c, Hour)
    ensures IsBucket(NextBucket(c, Hour), Hour) && Instant(NextBucket(c, Hour)) > Instant(c)
  {
    hide Ordinal, FromOrdinal;
    var next := NextBucket(c, Hour);
    InstantParts(c);
    InstantParts(next);
    HourArithmetic(c.micros);
    NextHourArithmetic(c.micros, Ordinal(c.date));
  }

  lemma NextHourArithmetic(m: nat, day: int)
    requires m % MICROS_PER_HOUR == 0
    ensures (day * MICROS_PER_DAY + m + MICROS_PER_HOUR) % MICROS_PER_DAY % MICROS_PER_HOUR == 0
  {
    var k := m / MICROS_PER_HOUR;
    assert day * MICROS_PER_DAY + m + MICROS_PER_HOUR == (day * 24 + k + 1) * MICROS_PER_HOUR;
    MultipleOfHour(day * 24 + k + 1);
  }

  lemma MultipleOfHour(k: int)
    ensures (k * MICROS_PER_HOUR) % MICROS_PER_DAY == (k % 24) * MICROS_PER_HOUR
    ensures (k * MICROS_PER_HOUR) % MICROS_PER_DAY % MICROS_PER_HOUR == 0
  {
    var q, r := k / 24, k % 24;
    assert k * MICROS_PER_HOUR == q * MICROS_PER_DAY + r * MICROS_PER_HOUR;
    assert 0 <= r * MICROS_PER_HOUR < MICROS_PER_DAY;
  }

  /** `_bucket_start` is idempotent and never later than its argument. */
  lemma StartIsBucket(t: DateTime, bucket: BucketKey)
    ensures IsBucket(BucketStart(t, bucket), bucket)
    ensures Instant(BucketStart(t, bucket)) <= Instant(t)
  {
    match bucket {
      case Hour =>
        hide Ordinal;
        HourArithmetic(t.micros);
      case Day =>
        hide Ordinal;
      case Week => WeekStartIsBucket(t);
      case Month => MonthStartIsBucket(t);
    }
  }

  lemma WeekStartIsBucket(t: DateTime)
    ensures IsBucket(BucketStart(t, Week), Week) && Instant(BucketStart(t, Week)) <= Instant(t)
  {
    hide Ordinal, FromOrdinal;
    var c := BucketStart(t, Week);
    IsMonday(t.date);
    IsMonday(c.date);
    MidnightOrder(c, t);
  }

  lemma MonthStartIsBucket(t: DateTime)
    ensures IsBucket(BucketStart(t, Month), Month) && Instant(BucketStart(t, Month)) <= Instant(t)
  {
    var c := BucketStart(t, Month);
    assert IsBucket(c, Month) && MonthIndex(c.date) == MonthIndex(t.date) && c.date.day == 1 && c.micros == 0 by {
      hide Instant;
    }
    hide *;
    DateInMonth(t.date);
    DateInMonth(c.date);
    MidnightOrder(c, t);
  }

  // ---- the list of buckets ------------------------------------------------------

  ghost function Buckets(cursor: DateTime, end: DateTime, bucket: BucketKey): (r: seq<DateTime>)
    requires IsBucket(cursor, bucket)
    decreases Instant(end) - Instant(cursor)
  {
    if Instant(cursor) > Instant(end) then []
    else
      NextIsBucket(cursor, bucket);
      [cursor] + Buckets(NextBucket(cursor, bucket), end, bucket)
  }

  ghost function RangeBuckets(r: RangeSpec): seq<DateTime> {
    StartIsBucket(r.start, r.bucket);
    Buckets(BucketStart(r.start, r.bucket), r.end, r.bucket)
  }

  method BuildBuckets(r: RangeSpec) returns (buckets: seq<DateTime>)
    ensures buckets == RangeBuckets(r)
  {
    hide Instant, BucketStart, NextBucket, IsBucket;
    var cursor := BucketStart(r.start, r.bucket);
    StartIsBucket(r.start, r.bucket);
    buckets := [];
    while Instant(cursor) <= Instant(r.end)
      invariant IsBucket(cursor, r.bucket)
      invariant RangeBuckets(r) == buckets + Buckets(cursor, r.end, r.bucket)
      decreases Instant(r.end) - Instant(cursor)
    {
      NextIsBucket(cursor, r.bucket);
      buckets := buckets + [cursor];
      cursor := NextBucket(cursor, r.bucket);
    }
  }

  ghost predicate Increasing(s: seq<DateTime>) {
    forall i, j :: 0 <= i < j < |s| ==> Instant(s[i]) < Instant(s[j])
  }

  lemma {:induction false} BucketsIncrease(cursor: DateTime, end: DateTime, bucket: BucketKey)
    requires IsBucket(cursor, bucket)
    ensures var r := Buckets(cursor, end, bucket);
      && Increasing(r)
      && (forall b :: b in r ==> IsBucket(b, bucket) && Instant(cursor) <= Instant(b) <= Instant(end))
    decreases Instant(end) - Instant(cursor)
  {
    hide Instant, BucketStart, NextBucket, IsBucket;
    if Instant(cursor) <= Instant(end) {
      NextIsBucket(cursor, bucket);
      var next := NextBucket(cursor, bucket);
      BucketsIncrease(next, end, bucket);
      var rest := Buckets(next, end, bucket);
      assert forall i :: 0 <= i < |rest| ==> rest[i] in rest;
    }
  }

  lemma {:induction false} BucketsCover(cursor: DateTime, end: DateTime, bucket: BucketKey, t: DateTime)
    requires IsBucket(cursor, bucket) && Instant(cursor) <= Instant(t) <= Instant(end)
    ensures BucketStart(t, bucket) in Buckets(cursor, end, bucket)
    decreases Instant(end) - Instant(cursor)
  {
    hide Instant, BucketStart, NextBucket, IsBucket;
    BucketIsInterval(cursor, bucket, t);
    NextIsBucket(cursor, bucket);
    var next := NextBucket(cursor, bucket);
    if Instant(next) <= Instant(t) {
      BucketsCover(next, end, bucket, t);
      assert BucketStart(t, bucket) in Buckets(next, end, bucket);
    }
  }

  /** The buckets of a range are increasing fixed points of `_bucket_start`,
      and the bucket of every time in the range occurs among them exactly once. */
  lemma RangeIsCovered(r: RangeSpec)
    ensures Increasing(RangeBuckets(r)) && Distinct(RangeBuckets(r))
    ensures forall b :: b in RangeBuckets(r) ==> IsBucket(b, r.bucket) && Instant(b) <= Instant(r.end)
    ensures forall t: DateTime :: Instant(r.start) <= Instant(t) <= Instant(r.end) ==>
      BucketStart(t, r.bucket) in RangeBuckets(r)
  {
    hide Instant, BucketStart, NextBucket, IsBucket;
    StartIsBucket(r.start, r.bucket);
    var first := BucketStart(r.start, r.bucket);
    BucketsIncrease(first, r.end, r.bucket);
    forall t: DateTime | Instant(r.start) <= Instant(t) <= Instant(r.end)
      ensures BucketStart(t, r.bucket) in RangeBuckets(r)
    {
      BucketsCover(first, r.end, r.bucket, t);
    }
  }

  // ---- series -----------------------------------------------------------------------

  datatype Point = Point(period: DateTime, value: real)

  function ValueAt(mapping: map<DateTime, real>, b: DateTime): real {
    if b in mapping then mapping[b] else 0.0
  }

  /** One point per bucket, in order, with zero for what the mapping lacks. */
  ghost predicate IsSeries(points: seq<Point>, buckets: seq<DateTime>, mapping: map<DateTime, real>) {
    && |points| == |buckets|
    && forall i :: 0 <= i < |points| ==>
      points[i].period == buckets[i] && points[i].value == ValueAt(mapping, buckets[i])
  }

  method SeriesFromMapping(r: RangeSpec, mapping: map<DateTime, real>) returns (points: seq<Point>)
    ensures IsSeries(points, RangeBuckets(r), mapping) && |points| == |RangeBuckets(r)|
    ensures forall i :: 0 <= i < |points| ==>
      && points[i].period == RangeBuckets(r)[i]
      && points[i].value == if points[i].period in mapping then mapping[points[i].period] else 0.0
  {
    hide Instant, BucketStart, RangeBuckets;
    var buckets := BuildBuckets(r);
    points := [];
    for i := 0 to |buckets|
      invariant |points| == i
      invariant forall k :: 0 <= k < i ==>
        points[k].period == buckets[k] && points[k].value == ValueAt(mapping, buckets[k])
    {
      points := points + [Point(buckets[i], if buckets[i] in mapping then mapping[buckets[i]] else 0.0)];
    }
  }

  datatype WipCounts = WipCounts(inbox: nat, inProgress: nat, review: nat, done: nat)

  datatype WipPoint = WipPoint(period: DateTime, counts: WipCounts)

  const NO_COUNTS: WipCounts := WipCounts(0, 0, 0, 0)

  ghost predicate IsWipSeries(points: seq<WipPoint>, buckets: seq<DateTime>, mapping: map<DateTime, WipCounts>) {
    && |points| == |buckets|
    && forall i :: 0 <= i < |points| ==>
      && points[i].period == buckets[i]
      && points[i].counts == if buckets[i] in mapping then mapping[buckets[i]] else NO_COUNTS
  }

  method WipSeriesFromMapping(r: RangeSpec, mapping: map<DateTime, WipCounts>) returns (points: seq<WipPoint>)
    ensures IsWipSeries(points, RangeBuckets(r), mapping) && |points| == |RangeBuckets(r)|
    ensures forall i :: 0 <= i < |points| ==>
      && points[i].period == RangeBuckets(r)[i]
      && points[i].counts ==
         if points[i].period in mapping then mapping[points[i].period] else WipCounts(0, 0, 0, 0)
  {
    hide Instant, BucketStart, RangeBuckets;
    var buckets := BuildBuckets(r);
    points := [];
    for i := 0 to |buckets|
      invariant |points| == i
      invariant forall k :: 0 <= k < i ==>
        && points[k].period == buckets[k]
        && points[k].counts == if buckets[k] in mapping then mapping[buckets[k]] else NO_COUNTS
    {
      points := points + [WipPoint(buckets[i], if buckets[i] in mapping then mapping[buckets[i]] else NO_COUNTS)];
    }
  }

  /** What a chart of the points adds up to. */
  function PointsTotal(points: seq<Point>): real {
    if points == [] then 0.0 else PointsTotal(points[..|points| - 1]) + points[|points| - 1].value
  }

  /** The same for a number read from the counts of each point. */
  function ColumnTotal(points: seq<WipPoint>, column: WipCounts -> nat): nat {
    if points == [] then 0
    else ColumnTotal(points[..|points| - 1], column) + column(points[|points| - 1].counts)
  }

  lemma {:induction false} PointsAddUp(points: seq<Point>, buckets: seq<DateTime>, mapping: map<DateTime, real>)
    requires IsSeries(points, buckets, mapping)
    ensures PointsTotal(points) == SeriesTotal(buckets, mapping)
  {
    if points != [] {
      PointsAddUp(points[..|points| - 1], buckets[..|buckets| - 1], mapping);
    }
  }

  function SeriesTotal(buckets: seq<DateTime>, mapping: map<DateTime, real>): real {
    if buckets == [] then 0.0
    else SeriesTotal(buckets[..|buckets| - 1], mapping) + ValueAt(mapping, buckets[|buckets| - 1])
  }

  ghost function TotalOver(mapping: map<DateTime, real>, keys: set<DateTime>): real
    requires keys <= mapping.Keys
  {
    if keys == {} then 0.0
    else
      var k :| k in keys;
      mapping[k] + TotalOver(mapping, keys - {k})
  }

  lemma {:induction false} TotalWithout(mapping: map<DateTime, real>, keys: set<DateTime>, x: DateTime)
    requires keys <= mapping.Keys && x in keys
    ensures TotalOver(mapping, keys) == mapping[x] + TotalOver(mapping, keys - {x})
    decreases keys
  {
    var k :| k in keys && TotalOver(mapping, keys) == mapping[k] + TotalOver(mapping, keys - {k});
    if k != x {
      TotalWithout(mapping, keys - {k}, x);
      TotalWithout(mapping, keys - {x}, k);
      assert keys - {k} - {x} == keys - {x} - {k};
    }
  }

  lemma {:induction false} BucketsAddUp(buckets: seq<DateTime>, mapping: map<DateTime, real>)
    requires Distinct(buckets)
    ensures SeriesTotal(buckets, mapping) == TotalOver(mapping, mapping.Keys * Elements(buckets))
  {
    if buckets == [] {
      assert mapping.Keys * Elements(buckets) == {};
    } else {
      var front, last := buckets[..|buckets| - 1], buckets[|buckets| - 1];
      BucketsAddUp(front, mapping);
      assert buckets == front + [last] && last !in front;
      ElementsSnoc(front, last);
      var keys := mapping.Keys * Elements(buckets);
      if last in mapping {
        TotalWithout(mapping, keys, last);
        assert keys - {last} == mapping.Keys * Elements(front);
      } else {
        assert keys == mapping.Keys * Elements(front);
      }
    }
  }

  /** The points of a series add up to the values of the mapping that lie in its buckets. */
  lemma SeriesConserves(points: seq<Point>, buckets: seq<DateTime>, mapping: map<DateTime, real>)
    requires Distinct(buckets) && IsSeries(points, buckets, mapping)
    ensures PointsTotal(points) == TotalOver(mapping, mapping.Keys * Elements(buckets))
  {
    PointsAddUp(points, buckets, mapping);
    BucketsAddUp(buckets, mapping);
  }

  /** A mapping keyed by bucket starts of times in the range. */
  ghost predicate KeyedInRange(r: RangeSpec, keys: set<DateTime>) {
    forall k :: k in keys ==>
      exists t: DateTime :: Instant(r.start) <= Instant(t) <= Instant(r.end) && BucketStart(t, r.bucket) == k
  }

  /** The series of a range loses nothing of such a mapping. */
  lemma RangeSeriesConserves(r: RangeSpec, mapping: map<DateTime, real>, points: seq<Point>)
    requires KeyedInRange(r, mapping.Keys) && IsSeries(points, RangeBuckets(r), mapping)
    ensures PointsTotal(points) == TotalOver(mapping, mapping.Keys)
  {
    hide Instant, BucketStart, IsBucket, Buckets;
    RangeIsCovered(r);
    hide IsSeries;
    SeriesConserves(points, RangeBuckets(r), mapping);
    assert mapping.Keys <= Elements(RangeBuckets(r));
    assert mapping.Keys * Elements(RangeBuckets(r)) == mapping.Keys;
  }

  function ColumnOf(mapping: map<DateTime, WipCounts>, column: WipCounts -> nat): map<DateTime, real> {
    map k | k in mapping :: column(mapping[k]) as real
  }

  lemma {:induction false} ColumnIsSeries(points: seq<WipPoint>, buckets: seq<DateTime>,
      mapping: map<DateTime, WipCounts>, column: WipCounts -> nat) returns (plain: seq<Point>)
    requires IsWipSeries(points, buckets, mapping) && column(NO_COUNTS) == 0
    ensures IsSeries(plain, buckets, ColumnOf(mapping, column))
    ensures PointsTotal(plain) == ColumnTotal(points, column) as real
  {
    if points == [] {
      plain := [];
    } else {
      var n := |points| - 1;
      var front := ColumnIsSeries(points[..n], buckets[..n], mapping, column);
      plain := front + [Point(points[n].period, column(points[n].counts) as real)];
      assert plain[..n] == front;
    }
  }

  /** Nor does the series of work in progress, in any of its counts or sums of them. */
  lemma WipSeriesConserves(r: RangeSpec, mapping: map<DateTime, WipCounts>, points: seq<WipPoint>,
      column: WipCounts -> nat)
    requires KeyedInRange(r, mapping.Keys) && IsWipSeries(points, RangeBuckets(r), mapping)
    requires column(WipCounts(0, 0, 0, 0)) == 0
    ensures ColumnTotal(points, column) as real == TotalOver(ColumnOf(mapping, column), mapping.Keys)
  {
    hide RangeBuckets, KeyedInRange;
    var plain := ColumnIsSeries(points, RangeBuckets(r), mapping, column);
    assert ColumnOf(mapping, column).Keys == mapping.Keys;
    RangeSeriesConserves(r, ColumnOf(mapping, column), plain);
  }

  /** `count(*) ... group by date_trunc(bucket, column)`. */
  function CountByBucket(times: seq<DateTime>, bucket: BucketKey): map<DateTime, real> {
    if times == [] then map[]
    else
      var before := CountByBucket(times[..|times| - 1], bucket);
      var b := BucketStart(times[|times| - 1], bucket);
      before[b := ValueAt(before, b) + 1.0]
  }

  lemma {:induction false} RaisedTotal(buckets: seq<DateTime>, mapping: map<DateTime, real>, b: DateTime, x: real)
    requires Distinct(buckets)
    ensures SeriesTotal(buckets, mapping[b := ValueAt(mapping, b) + x])
         == SeriesTotal(buckets, mapping) + if b in buckets then x else 0.0
  {
    if buckets != [] {
      var front, last := buckets[..|buckets| - 1], buckets[|buckets| - 1];
      RaisedTotal(front, mapping, b, x);
      assert buckets == front + [last] && last !in front;
    }
  }

  lemma {:induction false} EmptyTotal(buckets: seq<DateTime>)
    ensures SeriesTotal(buckets, map[]) == 0.0
  {
    if buckets != [] {
      EmptyTotal(buckets[..|buckets| - 1]);
    }
  }

  lemma {:induction false} CountsTotal(buckets: seq<DateTime>, times: seq<DateTime>, bucket: BucketKey)
    requires Distinct(buckets)
    requires forall t :: t in times ==> BucketStart(t, bucket) in buckets
    ensures SeriesTotal(buckets, CountByBucket(times, bucket)) == |times| as real
  {
    hide SeriesTotal, ValueAt, BucketStart;
    if times == [] {
      EmptyTotal(buckets);
    } else {
      var front, t := times[..|times| - 1], times[|times| - 1];
      CountsTotal(buckets, front, bucket);
      RaisedTotal(buckets, CountByBucket(front, bucket), BucketStart(t, bucket), 1.0);
    }
  }

  /** Every row whose time lies in the range is counted in exactly one point:
      the throughput series adds up to the number of rows. */
  lemma CountsAddUp(r: RangeSpec, times: seq<DateTime>, points: seq<Point>)
    requires forall t :: t in times ==> Instant(r.start) <= Instant(t) <= Instant(r.end)
    requires IsSeries(points, RangeBuckets(r), CountByBucket(times, r.bucket))
    ensures PointsTotal(points) == |times| as real
  {
    hide *;
    RangeIsCovered(r);
    CountsTotal(RangeBuckets(r), times, r.bucket);
    PointsAddUp(points, RangeBuckets(r), CountByBucket(times, r.bucket));
  }

  /** The rows with a time in [from, to). */
  function RowsBetween(times: seq<DateTime>, from: int, to: int): nat {
    if times == [] then 0
    else
      var t := Instant(times[|times| - 1]);
      RowsBetween(times[..|times| - 1], from, to) + if from <= t < to then 1 else 0
  }

  lemma {:induction false} BucketCounts(times: seq<DateTime>, bucket: BucketKey, b: DateTime)
    requires IsBucket(b, bucket)
    ensures ValueAt(CountByBucket(times, bucket), b)
         == RowsBetween(times, Instant(b), Instant(NextBucket(b, bucket))) as real
  {
    hide Instant, BucketStart, NextBucket, IsBucket;
    if times != [] {
      BucketCounts(times[..|times| - 1], bucket, b);
      BucketIsInterval(b, bucket, times[|times| - 1]);
    }
  }

  /** Each point of a throughput series is the number of rows from the start of
      its bucket to the start of the next one. */
  lemma PointCountsRows(r: RangeSpec, times: seq<DateTime>, points: seq<Point>, i: nat)
    requires IsSeries(points, RangeBuckets(r), CountByBucket(times, r.bucket)) && i < |points|
    ensures points[i].value == RowsBetween(times, Instant(points[i].period),
      Instant(NextBucket(points[i].period, r.bucket))) as real
  {
    hide Instant, BucketStart, NextBucket, IsBucket, RangeBuckets, CountByBucket;
    RangeIsCovered(r);
    assert RangeBuckets(r)[i] in RangeBuckets(r);
    BucketCounts(times, r.bucket, RangeBuckets(r)[i]);
  }

  // ---- how many buckets ----------------------------------------------------------------

  /** Buckets of fixed length `step`: the last one starts at or before the end,
      the one after it does not. */
  lemma {:induction false} FixedCount(cursor: DateTime, end: DateTime, bucket: BucketKey, step: nat)
    requires IsBucket(cursor, bucket) && step > 0 && Instant(cursor) <= Instant(end)
    requires forall c: DateTime :: Instant(NextBucket(c, bucket)) == Instant(c) + step
    ensures var n := |Buckets(cursor, end, bucket)|;
      n >= 1 && Instant(cursor) + (n - 1) * step <= Instant(end) < Instant(cursor) + n * step
    decreases Instant(end) - Instant(cursor)
  {
    hide Instant, BucketStart, NextBucket, IsBucket;
    NextIsBucket(cursor, bucket);
    var next := NextBucket(cursor, bucket);
    if Instant(next) <= Instant(end) {
      FixedCount(next, end, bucket, step);
      var n := |Buckets(next, end, bucket)|;
      assert |Buckets(cursor, end, bucket)| == n + 1;
      assert (n - 1) * step + step == n * step && n * step + step == (n + 1) * step;
    } else {
      assert Buckets(next, end, bucket) == [];
      assert 1 * step == step;
    }
  }

  lemma StartIsNear(t: DateTime, bucket: BucketKey)
    ensures var c := BucketStart(t, bucket);
      IsBucket(c, bucket) && Instant(c) <= Instant(t) < Instant(NextBucket(c, bucket))
  {
    hide Instant, BucketStart, NextBucket;
    StartIsBucket(t, bucket);
    BucketIsInterval(BucketStart(t, bucket), bucket, t);
  }

  /** All buckets but months have a fixed length. */
  predicate HasStep(bucket: BucketKey, step: nat) {
    match bucket
    case Hour => step == MICROS_PER_HOUR
    case Day => step == MICROS_PER_DAY
    case Week => step == 7 * MICROS_PER_DAY
    case Month => false
  }

  lemma StepLength(bucket: BucketKey, step: nat)
    requires HasStep(bucket, step)
    ensures forall c: DateTime :: Instant(NextBucket(c, bucket)) == Instant(c) + step
  {
  }

  lemma CountBetween(r: RangeSpec, step: nat)
    requires HasStep(r.bucket, step)
    requires Instant(r.start) <= Instant(r.end)
    ensures var n, c := |RangeBuckets(r)|, BucketStart(r.start, r.bucket);
      && n >= 1 && Instant(c) + (n - 1) * step <= Instant(r.end) < Instant(c) + n * step
      && Instant(c) <= Instant(r.start) < Instant(c) + step
  {
    hide Instant, BucketStart, NextBucket, IsBucket;
    StepLength(r.bucket, step);
    StartIsNear(r.start, r.bucket);
    FixedCount(BucketStart(r.start, r.bucket), r.end, r.bucket, step);
  }

  lemma HourCount(now: DateTime)
    requires Instant(now) >= DurationOf(Hours24) + MICROS_PER_DAY
    ensures |RangeBuckets(ResolveRange(Hours24, now))| == 25
  {
    hide Instant, BucketStart, RangeBuckets;
    CountBetween(ResolveRange(Hours24, now), MICROS_PER_HOUR);
  }

  function Days(key: RangeKey): nat {
    match key
    case Hours24 => 1
    case Days3 => 3
    case Days7 => 7
    case Days14 => 14
    case Month1 => 30
    case Months3 => 90
    case Months6 => 180
    case Year1 => 365
  }

  lemma DayCount(key: RangeKey, now: DateTime)
    requires key == Days3 || key == Days7 || key == Days14 || key == Month1
    requires Instant(now) >= DurationOf(key) + MICROS_PER_DAY
    ensures |RangeBuckets(ResolveRange(key, now))| ==
      match key case Days3 => 4 case Days7 => 8 case Days14 => 15 case _ => 31
  {
    hide Instant, BucketStart, RangeBuckets;
    CountBetween(ResolveRange(key, now), MICROS_PER_DAY);
  }

  lemma WeekOffset(t: DateTime)
    ensures Instant(t) == Instant(BucketStart(t, Week)) + Weekday(t.date) * MICROS_PER_DAY + t.micros
  {
    hide Ordinal, FromOrdinal;
  }

  lemma WeeksTouched(first: int, weekday: int, micros: int, days: int, n: int)
    requires 0 <= micros < MICROS_PER_DAY
    requires first + (n - 1) * (7 * MICROS_PER_DAY) <= first + (weekday + days) * MICROS_PER_DAY + micros < first +
      n * (7 * MICROS_PER_DAY)
    ensures n == (weekday + days) / 7 + 1
  {
    assert 7 * (n - 1) <= weekday + days < 7 * n;
  }

  /** 90 days touch 14 weeks unless they start on a Monday. */
  lemma QuarterWeekCount(now: DateTime)
    requires Instant(now) >= DurationOf(Months3) + MICROS_PER_DAY
    ensures var r := ResolveRange(Months3, now);
      |RangeBuckets(r)| == if Weekday(r.start.date) == 0 then 13 else 14
  {
    WeekCount(Months3, now);
  }

  /** 180 days touch 27 weeks unless they start on a Monday or a Tuesday. */
  lemma HalfYearWeekCount(now: DateTime)
    requires Instant(now) >= DurationOf(Months6) + MICROS_PER_DAY
    ensures var r := ResolveRange(Months6, now);
      |RangeBuckets(r)| == if Weekday(r.start.date) <= 1 then 26 else 27
  {
    WeekCount(Months6, now);
  }

  lemma WeekCount(key: RangeKey, now: DateTime)
    requires BucketOf(key) == Week && Instant(now) >= DurationOf(key) + MICROS_PER_DAY
    ensures var r := ResolveRange(key, now);
      0 <= Weekday(r.start.date) <= 6 && |RangeBuckets(r)| == (Weekday(r.start.date) + Days(key)) / 7 + 1
  {
    hide Instant, BucketStart, RangeBuckets, Weekday;
    var r := ResolveRange(key, now);
    CountBetween(r, 7 * MICROS_PER_DAY);
    WeekOffset(r.start);
    WeekdayRange(r.start.date);
    WeeksTouched(Instant(BucketStart(r.start, Week)), Weekday(r.start.date), r.start.micros, Days(key),
      |RangeBuckets(r)|);
  }

  lemma WeekdayRange(d: Date)
    ensures 0 <= Weekday(d) <= 6
  {
    hide Ordinal;
  }

  lemma {:induction false} MonthCount(cursor: DateTime, end: DateTime)
    requires IsBucket(cursor, Month) && Instant(cursor) <= Instant(end)
    ensures |Buckets(cursor, end, Month)| == MonthIndex(end.date) - MonthIndex(cursor.date) + 1
    decreases Instant(end) - Instant(cursor)
  {
    hide Instant, BucketStart, NextBucket, IsBucket, MonthIndex, Ordinal;
    NextIsBucket(cursor, Month);
    SameMonth(cursor, end);
    NextMonthIsNext(cursor);
    BucketIsInterval(cursor, Month, end);
    var next := NextBucket(cursor, Month);
    if Instant(next) <= Instant(end) {
      MonthCount(next, end);
    } else {
      assert Buckets(next, end, Month) == [];
    }
  }

  lemma YearMonthCount(now: DateTime)
    requires Instant(now) >= DurationOf(Year1) + MICROS_PER_DAY
    ensures var r := ResolveRange(Year1, now);
      && Ordinal(r.start.date) == Ordinal(now.date) - 365
      && |RangeBuckets(r)| == MonthIndex(now.date) - MonthIndex(r.start.date) + 1
  {
    var r := ResolveRange(Year1, now);
    var first := BucketStart(r.start, Month);
    assert Ordinal(r.start.date) == Ordinal(now.date) - 365 by {
      hide Ordinal, FromOrdinal;
      InstantParts(r.start);
      InstantParts(now);
    }
    StartIsBucket(r.start, Month);
    SameMonth(first, r.start);
    hide Instant, BucketStart, IsBucket, MonthIndex, Ordinal, Buckets;
    MonthCount(first, now);
  }

  /** The months that 365 days reach back over, in terms of ordinals. */
  lemma YearReach(upTo: Date, after: Date)
    requires Ordinal(after) == Ordinal(upTo) - 365
    ensures MonthIndex(upTo) - MonthIndex(after) == 11 || MonthIndex(upTo) - MonthIndex(after) == 12
    ensures MonthIndex(upTo) - MonthIndex(after) == 11 <==>
      IsLastOfMonth(upTo) && IsLeap(FebruaryYear(MonthIndex(upTo) - 11))
    ensures MonthIndex(upTo) >= 24
  {
    hide Ordinal, MonthStart, MonthIndex, FebruaryYear, DaysInMonth;
    var m := MonthIndex(upTo);
    DateInMonth(upTo);
    DateInMonth(after);
    AfterFirstYear(upTo, after);
    LastOfMonth(upTo);
    TwelveMonths(m - 12);
    TwelveMonths(m - 11);
    NextMonthStart(m - 12);
    if Ordinal(after) < MonthStart(m - 11) {
      MonthIsUnique(Ordinal(after), MonthIndex(after), m - 12);
    } else {
      MonthStartsGrow(m - 11, m - 10);
      MonthIsUnique(Ordinal(after), MonthIndex(after), m - 11);
    }
  }

  lemma AfterFirstYear(upTo: Date, after: Date)
    requires Ordinal(after) == Ordinal(upTo) - 365
    ensures MonthIndex(upTo) >= 24
  {
    assert MonthStart(24) == 366;
    hide MonthStart, Ordinal, MonthIndex;
    DateInMonth(upTo);
    if MonthIndex(upTo) < 24 {
      MonthStartsGrow(MonthIndex(upTo) + 1, 24);
    }
  }

  lemma LastOfMonth(d: Date)
    ensures MonthIndex(d) >= 12
    ensures IsLastOfMonth(d) <==> Ordinal(d) + 1 == MonthStart(MonthIndex(d) + 1)
  {
    DateInMonth(d);
    NextMonthStart(MonthIndex(d));
    assert MonthIndex(d) / 12 == d.year && MonthIndex(d) % 12 + 1 == d.month;
    hide Ordinal, MonthStart;
  }

  /** A year touches 13 months; it touches 12 if and only if it ends on the last
      day of a month and a 29 February lies in it, after its first day. */
  lemma YearCount(now: DateTime)
    requires Instant(now) >= DurationOf(Year1) + MICROS_PER_DAY
    ensures var r := ResolveRange(Year1, now);
      |RangeBuckets(r)| == if IsLastOfMonth(now.date) && LeapDayWithin(r.start.date, now.date) then 12 else 13
  {
    hide Instant, RangeBuckets, Ordinal, IsLeap, IsLastOfMonth, FebruaryYear;
    var r := ResolveRange(Year1, now);
    YearMonthCount(now);
    YearReach(now.date, r.start.date);
    if IsLastOfMonth(now.date) {
      LeapDayIff(now.date, r.start.date);
    }
  }

  lemma LeapDayIff(upTo: Date, after: Date)
    requires Ordinal(after) == Ordinal(upTo) - 365 && IsLastOfMonth(upTo) && MonthIndex(upTo) >= 24
    ensures IsLeap(FebruaryYear(MonthIndex(upTo) - 11)) <==> LeapDayWithin(after, upTo)
  {
    hide Ordinal, MonthIndex, MonthStart, IsLeap, IsLastOfMonth, FebruaryYear;
    var m := MonthIndex(upTo);
    LastOfMonth(upTo);
    if IsLeap(FebruaryYear(m - 11)) {
      LeapDayIsWithin(m, Ordinal(upTo));
    }
    if LeapDayWithin(after, upTo) {
      var z: int :| z >= 1 && IsLeap(z) && Ordinal(after) < LeapDay(z) <= Ordinal(upTo);
      LeapDayPlace(z);
      LeapDayInRange(m, z, LeapDay(z), Ordinal(upTo));
    }
  }

  lemma LeapDayIsWithin(m: int, upTo: int)
    requires m >= 24 && upTo + 1 == MonthStart(m + 1) && IsLeap(FebruaryYear(m - 11))
    ensures var y := FebruaryYear(m - 11);
      y >= 1 && upTo - 365 < LeapDay(y) <= upTo
  {
    hide MonthStart, IsLeap, LeapDay;
    var y := FebruaryYear(m - 11);
    assert y >= 1 && m - 11 <= y * 12 + 1 <= m;
    TwelveMonths(m - 11);
    LeapDayPlace(y);
    MonthsNested(m - 11, y * 12 + 1, m);
  }

  lemma LeapDayPlace(y: int)
    requires y >= 1 && IsLeap(y)
    ensures LeapDay(y) == MonthStart(y * 12 + 1) + 28
    ensures LeapDay(y) + 1 == MonthStart(y * 12 + 2)
  {
    hide Ordinal, MonthStart, IsLeap;
    var f: Date := RawDate(y, 2, 29);
    DateInMonth(f);
    LastOfMonth(f);
  }

  lemma MonthsNested(a: int, f: int, b: int)
    requires 12 <= a <= f <= b
    ensures MonthStart(a) <= MonthStart(f) && MonthStart(f + 1) <= MonthStart(b + 1)
  {
    hide MonthStart;
    MonthStartsGrow(a, f);
    MonthStartsGrow(f + 1, b + 1);
  }

  /** A leap day in the last 365 days up to the end of month m is the one of
      the February among the months m - 11 to m. */
  lemma LeapDayInRange(m: int, z: int, day: int, upTo: int)
    requires m >= 24 && z >= 1 && IsLeap(z)
    requires day == MonthStart(z * 12 + 1) + 28 && day + 1 == MonthStart(z * 12 + 2) && upTo + 1 == MonthStart(m + 1)
    requires upTo - 365 < day <= upTo
    ensures IsLeap(FebruaryYear(m - 11))
  {
    hide MonthStart;
    var f := z * 12 + 1;
    TwelveMonths(m - 11);
    if f > m {
      MonthStartsGrow(m + 1, f);
      assert false;
    }
    if f < m - 11 {
      MonthStartsGrow(f + 1, m - 11);
      assert false;
    }
    assert z == FebruaryYear(m - 11);
  }
}
