/** Aggregates over the task table: throughput buckets and runtime percentiles.  Timestamps are
    integer microseconds, runtimes are reals. */
module TaskStats {
  import opened Common
  import opened TaskStore

  datatype Range = Range(start: int, end: int)

  function TaskTimestamp(row: Row): Option<int> {
    Or(row.finished, Or(row.started, row.received))
  }

  /** A task happened when it finished, or else when it started, or else when it was received. */
  ghost predicate HappenedAt(row: Row, t: int) {
    || row.finished == Some(t)
    || (row.finished == None && row.started == Some(t))
    || (row.finished == None && row.started == None && row.received == Some(t))
  }

  ghost predicate HappenedWithin(row: Row, first: int, last: int) {
    exists t :: HappenedAt(row, t) && first <= t <= last
  }

  lemma TimestampExact(row: Row, t: int)
    ensures TaskTimestamp(row) == Some(t) <==> HappenedAt(row, t)
  {
  }

  predicate InScope(row: Row, name: Option<string>, range: Option<Range>) {
    && (name.Some? ==> Name in row.fields && row.fields[Name] == name.value)
    && (range.Some? ==>
          TaskTimestamp(row).Some? && range.value.start <= TaskTimestamp(row).value <= range.value.end)
  }

  function FilterTasks(rows: seq<Row>, name: Option<string>, range: Option<Range>): seq<Row> {
    if rows == [] then []
    else FilterTasks(Init(rows), name, range) + if InScope(Last(rows), name, range) then [Last(rows)] else []
  }

  /** A task is selected by its name, if one is asked for, and by when it happened, if a range is. */
  ghost predicate Selected(row: Row, name: Option<string>, range: Option<Range>) {
    && (match name
        case None => true
        case Some(wanted) => Name in row.fields && row.fields[Name] == wanted)
    && (match range
        case None => true
        case Some(Range(start, end)) => HappenedWithin(row, start, end))
  }

  lemma SelectedExactly(row: Row, name: Option<string>, range: Option<Range>)
    ensures InScope(row, name, range) <==> Selected(row, name, range)
  {
    if range.Some? {
      if TaskTimestamp(row).Some? {
        TimestampExact(row, TaskTimestamp(row).value);
        assert HappenedAt(row, TaskTimestamp(row).value);
      }
      if t :| HappenedAt(row, t) && range.value.start <= t <= range.value.end {
        TimestampExact(row, t);
      }
    }
  }

  /** The selected tasks come in the order of the table. */
  lemma {:induction false} FilterTasksConcat(a: seq<Row>, b: seq<Row>, name: Option<string>, range: Option<Range>)
    ensures FilterTasks(a + b, name, range) == FilterTasks(a, name, range) + FilterTasks(b, name, range)
  {
    if b == [] {
      assert a + b == a;
    } else {
      assert Init(a + b) == a + Init(b);
      FilterTasksConcat(a, Init(b), name, range);
    }
  }

  lemma {:induction false} FilterTasksExact(rows: seq<Row>, name: Option<string>, range: Option<Range>, row: Row)
    ensures multiset(FilterTasks(rows, name, range))[row] ==
            if Selected(row, name, range) then multiset(rows)[row] else 0
  {
    SelectedExactly(row, name, range);
    if rows != [] {
      FilterTasksExact(Init(rows), name, range, row);
      MultisetOfLast(rows);
      if InScope(Last(rows), name, range) {
        MultisetOfLast(FilterTasks(Init(rows), name, range) + [Last(rows)]);
        assert Init(FilterTasks(rows, name, range)) == FilterTasks(Init(rows), name, range);
      }
    }
  }

  /******* Throughput *******/

  const MICROS := 1_000_000

  // Whole seconds, cut off towards zero.
  function WholeSeconds(micros: int): int {
    if micros >= 0 then micros / MICROS else -((-micros) / MICROS)
  }

  function BucketStart(start: int, timestamp: int, bucketSeconds: int): int
    requires bucketSeconds > 0
  {
    var index := WholeSeconds(timestamp - start) / bucketSeconds;
    start + (if index > 0 then index else 0) * bucketSeconds * MICROS
  }

  function Boundary(start: int, bucketSeconds: int, i: int): int {
    start + i * bucketSeconds * MICROS
  }

  lemma BoundaryNext(start: int, bucketSeconds: int, i: int)
    ensures Boundary(start, bucketSeconds, i + 1) == Boundary(start, bucketSeconds, i) + bucketSeconds * MICROS
  {
  }

  lemma {:induction false} BoundariesAscend(start: int, bucketSeconds: int, i: int, j: int)
    requires bucketSeconds > 0 && i < j
    ensures Boundary(start, bucketSeconds, i) + bucketSeconds * MICROS <= Boundary(start, bucketSeconds, j)
    decreases j - i
  {
    BoundaryNext(start, bucketSeconds, i);
    if i + 1 < j {
      BoundariesAscend(start, bucketSeconds, i + 1, j);
    }
  }

  /** Cutting to seconds first and dividing then puts a timestamp into the bucket that contains it. */
  lemma BucketContains(start: int, timestamp: int, bucketSeconds: int) returns (i: nat)
    requires bucketSeconds > 0 && start <= timestamp
    ensures BucketStart(start, timestamp, bucketSeconds) == Boundary(start, bucketSeconds, i)
    ensures Boundary(start, bucketSeconds, i) <= timestamp < Boundary(start, bucketSeconds, i) + bucketSeconds * MICROS
  {
    var seconds := WholeSeconds(timestamp - start);
    i := seconds / bucketSeconds;
    assert seconds == i * bucketSeconds + seconds % bucketSeconds;
    assert seconds * MICROS <= timestamp - start < seconds * MICROS + MICROS;
  }

  /** What happened before the start goes to the first bucket. */
  lemma EarlyIsFirst(start: int, timestamp: int, bucketSeconds: int)
    requires bucketSeconds > 0 && timestamp < start
    ensures BucketStart(start, timestamp, bucketSeconds) == start
  {
    var seconds := WholeSeconds(timestamp - start);
    assert seconds <= 0;
    assert seconds / bucketSeconds <= 0;
  }

  /** No other boundary's bucket contains it. */
  lemma BucketUnique(start: int, timestamp: int, bucketSeconds: int, i: int, j: int)
    requires bucketSeconds > 0
    requires Boundary(start, bucketSeconds, i) <= timestamp < Boundary(start, bucketSeconds, i) + bucketSeconds * MICROS
    requires Boundary(start, bucketSeconds, j) <= timestamp < Boundary(start, bucketSeconds, j) + bucketSeconds * MICROS
    ensures i == j
  {
    if i < j {
      BoundariesAscend(start, bucketSeconds, i, j);
    } else if j < i {
      BoundariesAscend(start, bucketSeconds, j, i);
    }
  }

  // The keys, in order, of the dictionary that InitBuckets makes: the boundaries up to the end.
  ghost predicate CoversRange(keys: seq<int>, range: Range, bucketSeconds: int) {
    && (forall i :: 0 <= i < |keys| ==> keys[i] == Boundary(range.start, bucketSeconds, i) <= range.end)
    && range.end < Boundary(range.start, bucketSeconds, |keys|)
  }

  // The loop that makes the buckets ends only for a positive size or an empty range.
  predicate SizeOk(range: Range, bucketSeconds: int) {
    bucketSeconds > 0 || range.end < range.start
  }

  method InitBuckets(range: Range, bucketSeconds: int) returns (keys: seq<int>, buckets: map<int, nat>)
    requires SizeOk(range, bucketSeconds)
    ensures CoversRange(keys, range, bucketSeconds)
    ensures buckets.Keys == (set k | k in keys) && forall k :: k in buckets ==> buckets[k] == 0
  {
    keys, buckets := [], map[];
    var cursor := range.start;
    while cursor <= range.end
      invariant cursor == Boundary(range.start, bucketSeconds, |keys|)
      invariant forall i :: 0 <= i < |keys| ==> keys[i] == Boundary(range.start, bucketSeconds, i) <= range.end
      invariant buckets.Keys == (set k | k in keys) && forall k :: k in buckets ==> buckets[k] == 0
      decreases range.end - cursor
    {
      BoundaryNext(range.start, bucketSeconds, |keys|);
      buckets := buckets[cursor := 0];
      keys := keys + [cursor];
      cursor := cursor + bucketSeconds * MICROS;
    }
  }

  function CountIn(rows: seq<Row>, low: int, high: int): nat {
    if rows == [] then 0
    else
      var timestamp := TaskTimestamp(Last(rows));
      CountIn(Init(rows), low, high) + if timestamp.Some? && low <= timestamp.value < high then 1 else 0
  }

  datatype Bucket = Bucket(start: int, count: nat)

  function Sum(buckets: seq<Bucket>): nat {
    if buckets == [] then 0 else Sum(Init(buckets)) + Last(buckets).count
  }

  ghost predicate Tallied(rows: seq<Row>, keys: seq<int>, buckets: map<int, nat>, width: int) {
    && buckets.Keys == (set k | k in keys)
    && forall k :: k in buckets ==> buckets[k] == CountIn(rows, k, k + width)
  }

  /** Every timestamp in the range falls into one initialised bucket, whose key is computed. */
  lemma KeyFound(range: Range, bucketSeconds: int, keys: seq<int>, timestamp: int)
    requires bucketSeconds > 0 && CoversRange(keys, range, bucketSeconds) && range.start <= timestamp <= range.end
    ensures BucketStart(range.start, timestamp, bucketSeconds) in keys
    ensures forall k :: k in keys ==>
              (k <= timestamp < k + bucketSeconds * MICROS <==> k == BucketStart(range.start, timestamp, bucketSeconds))
  {
    var i := BucketContains(range.start, timestamp, bucketSeconds);
    if |keys| < i {
      BoundariesAscend(range.start, bucketSeconds, |keys|, i);
    }
    assert keys[i] == Boundary(range.start, bucketSeconds, i);
    forall k | k in keys && k <= timestamp < k + bucketSeconds * MICROS
      ensures k == keys[i]
    {
      var j :| 0 <= j < |keys| && keys[j] == k;
      BucketUnique(range.start, timestamp, bucketSeconds, i, j);
    }
  }

  method Tally(rows: seq<Row>, range: Range, bucketSeconds: int, keys: seq<int>, buckets0: map<int, nat>)
    returns (buckets: map<int, nat>)
    requires SizeOk(range, bucketSeconds) && CoversRange(keys, range, bucketSeconds)
    requires buckets0.Keys == (set k | k in keys) && forall k :: k in buckets0 ==> buckets0[k] == 0
    requires forall row :: row in rows ==> InScope(row, None, Some(range))
    ensures Tallied(rows, keys, buckets, bucketSeconds * MICROS)
  {
    buckets := buckets0;
    for i := 0 to |rows|
      invariant Tallied(rows[..i], keys, buckets, bucketSeconds * MICROS)
    {
      assert Init(rows[..i + 1]) == rows[..i];
      assert rows[i] in rows;
      var timestamp := TaskTimestamp(rows[i]);
      if timestamp.None? {
        continue;
      }
      KeyFound(range, bucketSeconds, keys, timestamp.value);
      var bucketStart := BucketStart(range.start, timestamp.value, bucketSeconds);
      if bucketStart in buckets {
        buckets := buckets[bucketStart := buckets[bucketStart] + 1];
      }
    }
    assert rows[..|rows|] == rows;
  }

  // One bucket per key, counting the given tasks.
  function Counted(tasks: seq<Row>, keys: seq<int>, width: int): seq<Bucket> {
    seq(|keys|, i requires 0 <= i < |keys| => Bucket(keys[i], CountIn(tasks, keys[i], keys[i] + width)))
  }

  method EmitBuckets(tasks: seq<Row>, keys: seq<int>, buckets: map<int, nat>, width: int) returns (out: seq<Bucket>)
    requires Tallied(tasks, keys, buckets, width)
    ensures out == Counted(tasks, keys, width)
  {
    out := [];
    for i := 0 to |keys|
      invariant |out| == i
      invariant forall j :: 0 <= j < i ==> out[j] == Bucket(keys[j], CountIn(tasks, keys[j], keys[j] + width))
    {
      assert keys[i] in buckets;
      out := out + [Bucket(keys[i], buckets[keys[i]])];
    }
  }

  function Starts(out: seq<Bucket>): seq<int> {
    seq(|out|, i requires 0 <= i < |out| => out[i].start)
  }

  // The places in the table of the tasks of one bucket.
  ghost function InBucket(rows: seq<Row>, range: Range, low: int, high: int): set<int> {
    set i | 0 <= i < |rows| && HappenedWithin(rows[i], range.start, range.end) && HappenedWithin(rows[i], low, high - 1)
  }

  lemma InBucketOneMore(rows: seq<Row>, range: Range, low: int, high: int)
    requires rows != []
    ensures |InBucket(rows, range, low, high)| == |InBucket(Init(rows), range, low, high)|
          + One(HappenedWithin(Last(rows), range.start, range.end) && HappenedWithin(Last(rows), low, high - 1))
  {
    var last, before := |rows| - 1, InBucket(Init(rows), range, low, high);
    var belongs := HappenedWithin(Last(rows), range.start, range.end) && HappenedWithin(Last(rows), low, high - 1);
    assert InBucket(rows, range, low, high) == if belongs then before + {last} else before;
  }

  lemma CountInOneMore(rows: seq<Row>, range: Range, low: int, high: int)
    requires rows != []
    ensures CountIn(FilterTasks(rows, None, Some(range)), low, high)
         == CountIn(FilterTasks(Init(rows), None, Some(range)), low, high)
          + One(HappenedWithin(Last(rows), range.start, range.end) && HappenedWithin(Last(rows), low, high - 1))
  {
    SelectedExactly(Last(rows), None, Some(range));
    SelectedExactly(Last(rows), None, Some(Range(low, high - 1)));
    var tasks := FilterTasks(Init(rows), None, Some(range));
    assert Init(tasks + [Last(rows)]) == tasks && tasks + [] == tasks;
  }

  lemma {:induction false} CountInExact(rows: seq<Row>, range: Range, low: int, high: int)
    ensures CountIn(FilterTasks(rows, None, Some(range)), low, high) == |InBucket(rows, range, low, high)|
  {
    if rows == [] {
      assert InBucket(rows, range, low, high) == {};
    } else {
      CountInExact(Init(rows), range, low, high);
      InBucketOneMore(rows, range, low, high);
      CountInOneMore(rows, range, low, high);
    }
  }

  /** The i-th bucket starts i sizes after the range and counts the tasks that happened within it. */
  ghost predicate BucketsShow(rows: seq<Row>, range: Range, bucketSeconds: int, out: seq<Bucket>) {
    forall i :: 0 <= i < |out| ==>
      var start := range.start + i * bucketSeconds * 1_000_000;
      && out[i].start == start <= range.end
      && out[i].count == |InBucket(rows, range, start, start + bucketSeconds * 1_000_000)|
  }

  lemma BucketsExact(rows: seq<Row>, range: Range, bucketSeconds: int, out: seq<Bucket>)
    requires CoversRange(Starts(out), range, bucketSeconds)
    requires out == Counted(FilterTasks(rows, None, Some(range)), Starts(out), bucketSeconds * MICROS)
    ensures BucketsShow(rows, range, bucketSeconds, out)
  {
    forall i | 0 <= i < |out|
      ensures var start := range.start + i * bucketSeconds * 1_000_000;
              && out[i].start == start <= range.end
              && out[i].count == |InBucket(rows, range, start, start + bucketSeconds * 1_000_000)|
    {
      assert Starts(out)[i] == Boundary(range.start, bucketSeconds, i);
      CountInExact(rows, range, out[i].start, out[i].start + bucketSeconds * MICROS);
    }
  }

  /** The buckets follow one another through the range, each counts the tasks whose timestamp it
      contains, and together they count every task in the range once. */
  method GetThroughput(rows: seq<Row>, range: Range, bucketSeconds: int) returns (out: seq<Bucket>)
    requires SizeOk(range, bucketSeconds)
    ensures CoversRange(Starts(out), range, bucketSeconds)
    ensures out == Counted(FilterTasks(rows, None, Some(range)), Starts(out), bucketSeconds * MICROS)
    ensures Sum(out) == |FilterTasks(rows, None, Some(range))|
    ensures BucketsShow(rows, range, bucketSeconds, out)
  {
    var keys, buckets := InitBuckets(range, bucketSeconds);
    var tasks := FilterTasks(rows, None, Some(range));
    forall row | row in tasks
      ensures InScope(row, None, Some(range))
    {
      FilterTasksExact(rows, None, Some(range), row);
      SelectedExactly(row, None, Some(range));
      assert row in multiset(tasks);
    }
    buckets := Tally(tasks, range, bucketSeconds, keys, buckets);
    out := EmitBuckets(tasks, keys, buckets, bucketSeconds * MICROS);
    AllCountedOnce(tasks, range, bucketSeconds, keys);
    assert Starts(out) == keys;
    BucketsExact(rows, range, bucketSeconds, out);
  }

  // The last task is counted in its own bucket alone.
  lemma LastCounted(tasks: seq<Row>, range: Range, bucketSeconds: int, keys: seq<int>, k: nat)
    requires tasks != [] && SizeOk(range, bucketSeconds) && CoversRange(keys, range, bucketSeconds)
    requires InScope(Last(tasks), None, Some(range)) && k < |keys|
    requires keys[k] == BucketStart(range.start, TaskTimestamp(Last(tasks)).value, bucketSeconds)
    ensures var width := bucketSeconds * MICROS;
            forall i :: 0 <= i < |keys| ==>
                          CountIn(tasks, keys[i], keys[i] + width)
                          == CountIn(Init(tasks), keys[i], keys[i] + width) + if i == k then 1 else 0
  {
    var width := bucketSeconds * MICROS;
    KeyFound(range, bucketSeconds, keys, TaskTimestamp(Last(tasks)).value);
    forall i | 0 <= i < |keys|
      ensures CountIn(tasks, keys[i], keys[i] + width)
           == CountIn(Init(tasks), keys[i], keys[i] + width) + if i == k then 1 else 0
    {
      assert keys[i] in keys;
      KeysDistinct(keys, range, bucketSeconds, i, k);
    }
  }

  lemma {:induction false} AllCountedOnce(tasks: seq<Row>, range: Range, bucketSeconds: int, keys: seq<int>)
    requires SizeOk(range, bucketSeconds) && CoversRange(keys, range, bucketSeconds)
    requires forall row :: row in tasks ==> InScope(row, None, Some(range))
    ensures Sum(Counted(tasks, keys, bucketSeconds * MICROS)) == |tasks|
  {
    var width := bucketSeconds * MICROS;
    if tasks == [] {
      SumZero(Counted(tasks, keys, width));
    } else {
      assert Last(tasks) in tasks;
      var timestamp := TaskTimestamp(Last(tasks)).value;
      KeyFound(range, bucketSeconds, keys, timestamp);
      AllCountedOnce(Init(tasks), range, bucketSeconds, keys);
      var k :| 0 <= k < |keys| && keys[k] == BucketStart(range.start, timestamp, bucketSeconds);
      LastCounted(tasks, range, bucketSeconds, keys, k);
      SumOneMore(Counted(Init(tasks), keys, width), Counted(tasks, keys, width), k);
    }
  }

  lemma KeysDistinct(keys: seq<int>, range: Range, bucketSeconds: int, i: int, j: int)
    requires bucketSeconds > 0 && CoversRange(keys, range, bucketSeconds) && 0 <= i < |keys| && 0 <= j < |keys|
    ensures keys[i] == keys[j] <==> i == j
  {
  }

  lemma {:induction false} SumZero(buckets: seq<Bucket>)
    requires forall i :: 0 <= i < |buckets| ==> buckets[i].count == 0
    ensures Sum(buckets) == 0
  {
    if buckets != [] {
      SumZero(Init(buckets));
    }
  }

  lemma {:induction false} SumOneMore(a: seq<Bucket>, b: seq<Bucket>, k: int)
    requires |a| == |b| && forall i :: 0 <= i < |a| ==> b[i].count == a[i].count + if i == k then 1 else 0
    ensures Sum(b) == Sum(a) + if 0 <= k < |a| then 1 else 0
  {
    if a != [] {
      SumOneMore(Init(a), Init(b), k);
    }
  }

  /******* Percentiles *******/

  ghost predicate Sorted(values: seq<real>) {
    forall i, j :: 0 <= i <= j < |values| ==> values[i] <= values[j]
  }

  function Percentile(values: seq<real>, pct: real): Option<real> {
    if values == [] then None
    else if pct <= 0.0 then Some(values[0])
    else if pct >= 1.0 then Some(Last(values))
    else
      Some(Interpolated(values, Position(|values| - 1, pct)))
  }

  // The place of a percentage in a list whose last index is n.
  function Position(n: nat, pct: real): (index: real)
    requires 0.0 <= pct <= 1.0
    ensures 0.0 <= index <= n as real
  {
    ScaledInRange(n, pct);
    n as real * pct
  }

  function Interpolated(values: seq<real>, index: real): real
    requires values != [] && 0.0 <= index <= (|values| - 1) as real
  {
    var lower := index.Floor;
    var upper := if lower + 1 < |values| then lower + 1 else |values| - 1;
    if lower == upper then values[lower]
    else values[lower] + (values[upper] - values[lower]) * (index - lower as real)
  }

  lemma Between(a: real, b: real, w: real)
    requires a <= b && 0.0 <= w <= 1.0
    ensures a <= a + (b - a) * w <= b
  {
  }

  lemma WeightedMean(a: real, b: real, w: real)
    ensures (1.0 - w) * a + w * b == a + (b - a) * w
  {
  }

  /** The mean of the values beside a place in the list, weighted by how near they are. */
  ghost predicate IsWeightedMean(values: seq<real>, place: real, mean: real) {
    var lower, weight := place.Floor, place - place.Floor as real;
    && 0 <= lower < |values|
    && var upper := if lower + 1 < |values| then lower + 1 else lower;
       mean == (1.0 - weight) * values[lower] + weight * values[upper]
  }

  lemma InterpolatedMean(values: seq<real>, place: real)
    requires values != [] && 0.0 <= place <= (|values| - 1) as real
    ensures IsWeightedMean(values, place, Interpolated(values, place))
  {
    var lower := place.Floor;
    var upper := if lower + 1 < |values| then lower + 1 else lower;
    WeightedMean(values[lower], values[upper], place - lower as real);
  }

  /** A percentile is such a mean, at the place that divides the list in the given proportion. */
  lemma PercentileExact(values: seq<real>, pct: real)
    requires values != []
    ensures pct <= 0.0 ==> Percentile(values, pct) == Some(values[0])
    ensures pct >= 1.0 ==> Percentile(values, pct) == Some(values[|values| - 1])
    ensures 0.0 < pct < 1.0 ==>
              && Percentile(values, pct).Some?
              && IsWeightedMean(values, (|values| - 1) as real * pct, Percentile(values, pct).value)
  {
    if 0.0 < pct < 1.0 {
      InterpolatedMean(values, Position(|values| - 1, pct));
    }
  }

  lemma BetweenMonotone(a: real, b: real, v: real, w: real)
    requires a <= b && v <= w
    ensures a + (b - a) * v <= a + (b - a) * w
  {
  }

  /** Interpolation stays between the two neighbouring values. */
  lemma InterpolatedBetween(values: seq<real>, index: real)
    requires values != [] && Sorted(values) && 0.0 <= index <= (|values| - 1) as real
    ensures values[index.Floor] <= Interpolated(values, index)
    ensures forall k :: index.Floor < k < |values| ==> Interpolated(values, index) <= values[k]
    ensures index.Floor == |values| - 1 ==> Interpolated(values, index) == Last(values)
  {
    var lower := index.Floor;
    if lower + 1 < |values| {
      Between(values[lower], values[lower + 1], index - lower as real);
    }
  }

  lemma InterpolatedMonotone(values: seq<real>, x: real, y: real)
    requires values != [] && Sorted(values) && 0.0 <= x <= y <= (|values| - 1) as real
    ensures Interpolated(values, x) <= Interpolated(values, y)
  {
    InterpolatedBetween(values, x);
    InterpolatedBetween(values, y);
    if x.Floor == y.Floor && x.Floor + 1 < |values| {
      var lower := x.Floor;
      BetweenMonotone(values[lower], values[lower + 1], x - lower as real, y - lower as real);
    }
  }

  lemma ScaledInRange(n: nat, pct: real)
    requires 0.0 <= pct <= 1.0
    ensures 0.0 <= n as real * pct <= n as real
  {
  }

  lemma PositionMonotone(n: nat, p: real, q: real)
    requires 0.0 <= p <= q <= 1.0
    ensures Position(n, p) <= Position(n, q)
  {
    assert n as real * (q - p) >= 0.0;
  }

  /** On a sorted list percentiles lie between the least and the greatest value. */
  lemma PercentileBounded(values: seq<real>, pct: real)
    requires values != [] && Sorted(values)
    ensures values[0] <= Percentile(values, pct).value <= Last(values)
  {
    if 0.0 < pct < 1.0 {
      InterpolatedBetween(values, Position(|values| - 1, pct));
    }
  }

  /** A greater percentage never gives a smaller value, across all pieces of the interpolation. */
  lemma PercentileMonotone(values: seq<real>, p: real, q: real)
    requires values != [] && Sorted(values) && p <= q
    ensures Percentile(values, p).value <= Percentile(values, q).value
  {
    if 0.0 < p && q < 1.0 {
      PositionMonotone(|values| - 1, p, q);
      InterpolatedMonotone(values, Position(|values| - 1, p), Position(|values| - 1, q));
    } else {
      PercentileBounded(values, p);
      PercentileBounded(values, q);
    }
  }

  /******* Task statistics *******/

  function Insert(x: real, values: seq<real>): seq<real> {
    if values == [] || x <= values[0] then [x] + values else [values[0]] + Insert(x, values[1..])
  }

  function Sort(values: seq<real>): seq<real> {
    if values == [] then [] else Insert(values[0], Sort(values[1..]))
  }

  lemma {:induction false} InsertMembers(x: real, values: seq<real>)
    ensures multiset(Insert(x, values)) == multiset(values) + multiset{x}
  {
    if !(values == [] || x <= values[0]) {
      InsertMembers(x, values[1..]);
      assert values == [values[0]] + values[1..];
    }
  }

  lemma {:induction false} InsertSorts(x: real, values: seq<real>)
    requires Sorted(values)
    ensures Sorted(Insert(x, values))
    ensures forall i :: 0 <= i < |Insert(x, values)| ==> Insert(x, values)[i] == x || Insert(x, values)[i] in values
  {
    if !(values == [] || x <= values[0]) {
      InsertSorts(x, values[1..]);
      forall v | v in values[1..]
        ensures values[0] <= v
      {
        var k :| 0 <= k < |values| - 1 && values[1..][k] == v;
        assert values[k + 1] == v;
      }
    }
  }

  lemma {:induction false} SortSorts(values: seq<real>)
    ensures Sorted(Sort(values)) && multiset(Sort(values)) == multiset(values)
  {
    if values != [] {
      SortSorts(values[1..]);
      InsertSorts(values[0], Sort(values[1..]));
      InsertMembers(values[0], Sort(values[1..]));
      assert values == [values[0]] + values[1..];
    }
  }

  function RuntimesOf(rows: seq<Row>): seq<real> {
    if rows == [] then []
    else RuntimesOf(Init(rows)) + if Last(rows).runtime.Some? then [Last(rows).runtime.value] else []
  }

  ghost function Reporting(rows: seq<Row>, x: real): set<int> {
    set i | 0 <= i < |rows| && rows[i].runtime == Some(x)
  }

  lemma ReportingOneMore(rows: seq<Row>, x: real)
    requires rows != []
    ensures |Reporting(rows, x)| == |Reporting(Init(rows), x)| + One(Last(rows).runtime == Some(x))
  {
    var before := Reporting(Init(rows), x);
    assert Reporting(rows, x) == if Last(rows).runtime == Some(x) then before + {|rows| - 1} else before;
  }

  /** The runtimes are those that the tasks report, each as often as it is reported. */
  lemma {:induction false} RuntimesExact(rows: seq<Row>, x: real)
    ensures multiset(RuntimesOf(rows))[x] == |Reporting(rows, x)|
  {
    if rows == [] {
      assert Reporting(rows, x) == {};
    } else {
      RuntimesExact(Init(rows), x);
      ReportingOneMore(rows, x);
      var values := RuntimesOf(Init(rows));
      if Last(rows).runtime.Some? {
        MultisetOfLast(values + [Last(rows).runtime.value]);
        assert Init(values + [Last(rows).runtime.value]) == values;
      } else {
        assert RuntimesOf(rows) == values;
      }
    }
  }

  /** They come in the order of the tasks. */
  lemma {:induction false} RuntimesConcat(a: seq<Row>, b: seq<Row>)
    ensures RuntimesOf(a + b) == RuntimesOf(a) + RuntimesOf(b)
  {
    if b == [] {
      assert a + b == a;
    } else {
      assert Init(a + b) == a + Init(b);
      RuntimesConcat(a, Init(b));
    }
  }

  function Total(values: seq<real>): real {
    if values == [] then 0.0 else Total(Init(values)) + Last(values)
  }

  lemma {:induction false} TotalBounded(values: seq<real>, low: real, high: real)
    requires forall i :: 0 <= i < |values| ==> low <= values[i] <= high
    ensures low * |values| as real <= Total(values) <= high * |values| as real
  {
    if values != [] {
      TotalBounded(Init(values), low, high);
      assert |values| as real == |Init(values)| as real + 1.0;
    }
  }

  /** A total is the sum of the parts, in whatever order they are listed. */
  lemma {:induction false} TotalConcat(a: seq<real>, b: seq<real>)
    ensures Total(a + b) == Total(a) + Total(b)
  {
    if b == [] {
      assert a + b == a;
    } else {
      assert Init(a + b) == a + Init(b);
      TotalConcat(a, Init(b));
    }
  }

  lemma TotalOne(x: real)
    ensures Total([x]) == x
  {
    assert Init([x]) == [];
  }

  lemma {:induction false} TotalInserted(x: real, values: seq<real>)
    ensures Total(Insert(x, values)) == x + Total(values)
  {
    if values == [] || x <= values[0] {
      TotalConcat([x], values);
      TotalOne(x);
    } else {
      TotalInserted(x, values[1..]);
      TotalConcat([values[0]], Insert(x, values[1..]));
      TotalConcat([values[0]], values[1..]);
      TotalOne(values[0]);
      assert values == [values[0]] + values[1..];
    }
  }

  lemma {:induction false} TotalSorted(values: seq<real>)
    ensures Total(Sort(values)) == Total(values)
  {
    if values != [] {
      TotalSorted(values[1..]);
      TotalInserted(values[0], Sort(values[1..]));
      TotalConcat([values[0]], values[1..]);
      TotalOne(values[0]);
      assert values == [values[0]] + values[1..];
    }
  }

  datatype Runtimes = Runtimes(min: real, max: real, avg: real, p50: real, p95: real, p99: real)

  datatype Stats = Stats(count: nat, runtimes: Option<Runtimes>)

  lemma AverageBounded(total: real, n: real, low: real, high: real)
    requires n > 0.0 && low * n <= total <= high * n
    ensures low <= total / n <= high
  {
  }

  function Average(values: seq<real>): real
    requires values != []
  {
    Total(values) / |values| as real
  }

  lemma AverageBetween(values: seq<real>)
    requires values != [] && Sorted(values)
    ensures values[0] <= Average(values) <= Last(values)
  {
    TotalBounded(values, values[0], Last(values));
    AverageBounded(Total(values), |values| as real, values[0], Last(values));
  }

  ghost predicate IsMean(avg: real, values: seq<real>) {
    avg * |values| as real == Total(values)
  }

  lemma QuotientTimes(total: real, n: real)
    requires n > 0.0
    ensures total / n * n == total
  {
  }

  lemma AverageIsMean(values: seq<real>)
    requires values != [] && Sort(values) != [] && |Sort(values)| == |values|
    ensures IsMean(Average(Sort(values)), values)
  {
    TotalSorted(values);
    QuotientTimes(Total(values), |values| as real);
  }

  ghost predicate Ordered(r: Runtimes) {
    r.min <= r.p50 <= r.p95 <= r.p99 <= r.max && r.min <= r.avg <= r.max
  }

  ghost predicate IsPercentiles(r: Runtimes, values: seq<real>)
    requires values != []
  {
    && Some(r.p50) == Percentile(values, 0.5)
    && Some(r.p95) == Percentile(values, 0.95)
    && Some(r.p99) == Percentile(values, 0.99)
  }

  ghost predicate Extremes(low: real, high: real, values: seq<real>) {
    low in values && high in values && forall x :: x in values ==> low <= x <= high
  }

  method Summarise(runtimes: seq<real>) returns (r: Runtimes)
    requires runtimes != [] && Sorted(runtimes)
    ensures Ordered(r) && r.min == runtimes[0] && r.max == Last(runtimes)
    ensures r.avg == Average(runtimes) && IsPercentiles(r, runtimes)
  {
    PercentileBounded(runtimes, 0.5);
    PercentileMonotone(runtimes, 0.5, 0.95);
    PercentileMonotone(runtimes, 0.95, 0.99);
    PercentileBounded(runtimes, 0.99);
    AverageBetween(runtimes);
    r := Runtimes(
      runtimes[0], Last(runtimes), Average(runtimes),
      Percentile(runtimes, 0.5).value, Percentile(runtimes, 0.95).value, Percentile(runtimes, 0.99).value);
  }

  /** The statistics are ordered: min <= p50 <= p95 <= p99 <= max, and the average lies between min
      and max; min and max are the extreme runtimes themselves, the others the percentiles and the
      average of the sorted runtimes. */
  method GetTaskStats(rows: seq<Row>, name: Option<string>, range: Option<Range>) returns (stats: Stats)
    ensures stats.count == |FilterTasks(rows, name, range)|
    ensures stats.runtimes.None? <==> RuntimesOf(FilterTasks(rows, name, range)) == []
    ensures stats.runtimes.Some? ==>
              var r, all := stats.runtimes.value, RuntimesOf(FilterTasks(rows, name, range));
              && Ordered(r) && Extremes(r.min, r.max, all)
              && r.avg == Average(Sort(all)) && IsPercentiles(r, Sort(all))
              && IsMean(r.avg, all)
  {
    var tasks := FilterTasks(rows, name, range);
    var all := RuntimesOf(tasks);
    var runtimes := Sort(all);
    SortSorts(all);
    SameElements(all, runtimes);
    if runtimes == [] {
      return Stats(|tasks|, None);
    }
    var summary := Summarise(runtimes);
    AverageIsMean(all);
    assert runtimes[0] in runtimes && Last(runtimes) in runtimes;
    stats := Stats(|tasks|, Some(summary));
  }

  lemma SameElements(a: seq<real>, b: seq<real>)
    requires multiset(a) == multiset(b)
    ensures |a| == |b| && forall x :: x in a <==> x in b
  {
    assert |multiset(a)| == |a| && |multiset(b)| == |b|;
    assert forall x :: x in a <==> x in multiset(a);
    assert forall x :: x in b <==> x in multiset(b);
  }
}
