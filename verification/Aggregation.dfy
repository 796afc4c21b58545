/**
 The arithmetic of hourly buckets (retention.rs): the running update of one metric, the
 accumulator a batch builds in memory, and the weighted merge the upsert performs, all
 against the summary read directly off the recorded samples.
 */
module Aggregation {
  import opened Basics

  const METRICS: nat := 9

  type Metrics = m: seq<Option<real>> | |m| == METRICS
    witness [None, None, None, None, None, None, None, None, None]

  /** The part of a raw report the retention worker reads. */
  datatype Sample = Sample(reportId: Uuid, hostId: Uuid, collectedAt: Time, metrics: Metrics)

  // ---- One metric ----

  datatype Scalar = Scalar(count: int, min: Option<real>, max: Option<real>, avg: Option<real>)

  const NO_VALUES := Scalar(0, None, None, None)

  /** The values that are present, in order. */
  function Present(vs: seq<Option<real>>): (ps: seq<real>) {
    if vs == [] then []
    else Present(vs[..|vs| - 1]) + if vs[|vs| - 1].Some? then [vs[|vs| - 1].value] else []
  }

  function Sum(ps: seq<real>): real {
    if ps == [] then 0.0 else Sum(ps[..|ps| - 1]) + ps[|ps| - 1]
  }

  function Lowest(ps: seq<real>): real
    requires ps != []
  {
    if |ps| == 1 then ps[0] else MinReal(Lowest(ps[..|ps| - 1]), ps[|ps| - 1])
  }

  function Highest(ps: seq<real>): real
    requires ps != []
  {
    if |ps| == 1 then ps[0] else MaxReal(Highest(ps[..|ps| - 1]), ps[|ps| - 1])
  }

  lemma {:induction false} LowestIsLeast(ps: seq<real>)
    requires ps != []
    ensures Lowest(ps) in ps && forall i :: 0 <= i < |ps| ==> Lowest(ps) <= ps[i]
  {
    if |ps| > 1 {
      LowestIsLeast(ps[..|ps| - 1]);
    }
  }

  lemma {:induction false} HighestIsGreatest(ps: seq<real>)
    requires ps != []
    ensures Highest(ps) in ps && forall i :: 0 <= i < |ps| ==> ps[i] <= Highest(ps)
  {
    if |ps| > 1 {
      HighestIsGreatest(ps[..|ps| - 1]);
    }
  }

  function Mean(ps: seq<real>): real
    requires ps != []
  {
    Sum(ps) / |ps| as real
  }

  /** Count, minimum, maximum and arithmetic mean of the values, straight from their definitions. */
  function Describe(ps: seq<real>): Scalar {
    if ps == [] then NO_VALUES
    else Scalar(|ps|, Some(Lowest(ps)), Some(Highest(ps)), Some(Mean(ps)))
  }

  /** `ScalarAggregate::record`. */
  function Recorded(s: Scalar, value: Option<real>): Scalar
    requires s.count >= 0
  {
    match value
    case None => s
    case Some(v) =>
      var n := s.count + 1;
      Scalar(n,
             Some(if s.min.Some? then MinReal(s.min.value, v) else v),
             Some(if s.max.Some? then MaxReal(s.max.value, v) else v),
             Some(if s.avg.Some? then s.avg.value + (v - s.avg.value) / n as real else v))
  }

  /** One metric of the `ON CONFLICT ... DO UPDATE` clause. */
  function Merged(current: Scalar, incoming: Scalar): Scalar
    requires current.count >= 0 && incoming.count >= 0
    requires current.count > 0 ==> current.min.Some? && current.max.Some? && current.avg.Some?
    requires incoming.count > 0 ==> incoming.min.Some? && incoming.max.Some? && incoming.avg.Some?
  {
    var count := current.count + incoming.count;
    if current.count == 0 then Scalar(count, incoming.min, incoming.max, incoming.avg)
    else if incoming.count == 0 then Scalar(count, current.min, current.max, current.avg)
    else Scalar(count,
                Some(MinReal(current.min.value, incoming.min.value)),
                Some(MaxReal(current.max.value, incoming.max.value)),
                Some(Blend(current.avg.value, current.count, incoming.avg.value, incoming.count)))
  }

  /** The weighted mean as the upsert computes it. */
  function Blend(current: real, currentCount: int, incoming: real, incomingCount: int): real
    requires currentCount > 0 && incomingCount > 0
  {
    current + (incoming - current) * (incomingCount as real / (currentCount + incomingCount) as real)
  }

  lemma RunningMean(sum: real, n: int, v: real)
    requires n > 0
    ensures sum / n as real + (v - sum / n as real) / (n + 1) as real == (sum + v) / (n + 1) as real
  {
    var a := sum / n as real;
    assert a * n as real == sum;
    var b := (v - a) / (n + 1) as real;
    assert b * (n + 1) as real == v - a;
    assert (a + b) * (n + 1) as real == sum + v;
  }

  lemma WeightedMean(sa: real, a: int, sb: real, b: int)
    requires a > 0 && b > 0
    ensures sa / a as real + (sb / b as real - sa / a as real) * (b as real / (a + b) as real)
            == (sa + sb) / (a + b) as real
  {
    var ma, mb := sa / a as real, sb / b as real;
    assert ma * a as real == sa && mb * b as real == sb;
    var w := b as real / (a + b) as real;
    assert w * (a + b) as real == b as real;
    var r := ma + (mb - ma) * w;
    calc {
      r * (a + b) as real;
      ma * (a + b) as real + (mb - ma) * (w * (a + b) as real);
      ma * (a + b) as real + (mb - ma) * b as real;
      ma * a as real + mb * b as real;
      sa + sb;
    }
  }

  lemma {:induction false} PresentConcat(a: seq<Option<real>>, b: seq<Option<real>>)
    ensures Present(a + b) == Present(a) + Present(b)
  {
    if b == [] {
      assert a + b == a;
    } else {
      var n := |b| - 1;
      assert (a + b)[..|a + b| - 1] == a + b[..n];
      PresentConcat(a, b[..n]);
    }
  }

  lemma {:induction false} SumConcat(a: seq<real>, b: seq<real>)
    ensures Sum(a + b) == Sum(a) + Sum(b)
  {
    if b == [] {
      assert a + b == a;
    } else {
      var n := |b| - 1;
      assert (a + b)[..|a + b| - 1] == a + b[..n];
      SumConcat(a, b[..n]);
    }
  }

  lemma {:induction false} ExtremesConcat(a: seq<real>, b: seq<real>)
    requires a != [] && b != []
    ensures Lowest(a + b) == MinReal(Lowest(a), Lowest(b))
    ensures Highest(a + b) == MaxReal(Highest(a), Highest(b))
  {
    var n := |b| - 1;
    assert (a + b)[..|a + b| - 1] == a + b[..n];
    if n == 0 {
      assert a + b[..n] == a;
    } else {
      ExtremesConcat(a, b[..n]);
    }
  }

  lemma SumOne(v: real)
    ensures Sum([v]) == v
  {
    assert [v][..0] == [];
  }

  lemma RecordFirst(v: real)
    ensures Recorded(NO_VALUES, Some(v)) == Describe([v])
  {
    SumOne(v);
  }

  lemma RecordMean(ps: seq<real>, v: real)
    requires ps != []
    ensures Mean(ps) + (v - Mean(ps)) / (|ps| + 1) as real == Mean(ps + [v])
  {
    SumOne(v);
    SumConcat(ps, [v]);
    RunningMean(Sum(ps), |ps|, v);
  }

  lemma RecordNext(ps: seq<real>, v: real)
    requires ps != []
    ensures Recorded(Describe(ps), Some(v)) == Describe(ps + [v])
  {
    ExtremesConcat(ps, [v]);
    RecordMean(ps, v);
  }

  /** The running update keeps the exact summary of everything recorded so far. */
  lemma RecordIsExact(ps: seq<real>, value: Option<real>)
    ensures Recorded(Describe(ps), value) == Describe(ps + if value.Some? then [value.value] else [])
  {
    match value
    case None => assert ps + [] == ps;
    case Some(v) =>
      if ps == [] {
        RecordFirst(v);
        assert ps + [v] == [v];
      } else {
        RecordNext(ps, v);
      }
  }

  lemma MeanConcat(a: seq<real>, b: seq<real>)
    requires a != [] && b != []
    ensures Blend(Mean(a), |a|, Mean(b), |b|) == Mean(a + b)
  {
    SumConcat(a, b);
    WeightedMean(Sum(a), |a|, Sum(b), |b|);
  }

  /** The weighted merge of two exact summaries is the exact summary of both parts together. */
  lemma MergeIsExact(a: seq<real>, b: seq<real>)
    ensures Merged(Describe(a), Describe(b)) == Describe(a + b)
  {
    if a == [] {
      assert a + b == b;
    } else if b == [] {
      assert a + b == a;
    } else {
      var merged := Merged(Describe(a), Describe(b));
      assert merged.min == Some(Lowest(a + b)) && merged.max == Some(Highest(a + b)) by {
        ExtremesConcat(a, b);
      }
      assert merged.avg == Some(Mean(a + b)) by {
        MeanConcat(a, b);
      }
    }
  }

  lemma {:induction false} SumBounds(ps: seq<real>, low: real, high: real)
    requires forall i :: 0 <= i < |ps| ==> low <= ps[i] <= high
    ensures low * |ps| as real <= Sum(ps) <= high * |ps| as real
  {
    if ps != [] {
      var n := |ps| - 1;
      SumBounds(ps[..n], low, high);
      assert low * |ps| as real == low * n as real + low;
      assert high * |ps| as real == high * n as real + high;
    }
  }

  lemma QuotientBetween(sum: real, n: int, low: real, high: real)
    requires n > 0 && low * n as real <= sum <= high * n as real
    ensures low <= sum / n as real <= high
  {
    var q, d := sum / n as real, n as real;
    assert q * d == sum;
    assert (q - low) * d >= 0.0;
    assert (high - q) * d >= 0.0;
  }

  /** Absent exactly when nothing was recorded; otherwise the mean lies between the extremes. */
  lemma DescribeInOrder(ps: seq<real>)
    ensures var s := Describe(ps);
            && s.count == |ps|
            && (s.count == 0 <==> s.min.None?) && (s.count == 0 <==> s.max.None?) && (s.count == 0 <==> s.avg.None?)
            && (s.count > 0 ==> s.min.value <= s.avg.value <= s.max.value)
  {
    if ps != [] {
      LowestIsLeast(ps);
      HighestIsGreatest(ps);
      SumBounds(ps, Lowest(ps), Highest(ps));
      QuotientBetween(Sum(ps), |ps|, Lowest(ps), Highest(ps));
    }
  }

  // ---- One bucket ----

  datatype Summary = Summary(start: Time, end: Time, samples: int, metrics: seq<Scalar>)

  function Column(rows: seq<Sample>, m: nat): seq<Option<real>>
    requires m < METRICS
  {
    seq(|rows|, i requires 0 <= i < |rows| => rows[i].metrics[m])
  }

  function Earliest(rows: seq<Sample>): (t: Time)
    requires rows != []
    ensures exists i :: 0 <= i < |rows| && rows[i].collectedAt == t
    ensures forall i :: 0 <= i < |rows| ==> t <= rows[i].collectedAt
  {
    if |rows| == 1 then rows[0].collectedAt
    else MinInt(Earliest(rows[..|rows| - 1]), rows[|rows| - 1].collectedAt)
  }

  function Latest(rows: seq<Sample>): (t: Time)
    requires rows != []
    ensures exists i :: 0 <= i < |rows| && rows[i].collectedAt == t
    ensures forall i :: 0 <= i < |rows| ==> rows[i].collectedAt <= t
  {
    if |rows| == 1 then rows[0].collectedAt
    else MaxInt(Latest(rows[..|rows| - 1]), rows[|rows| - 1].collectedAt)
  }

  /** The summary of a non-empty list of samples, straight from its definition. */
  function Direct(rows: seq<Sample>): (s: Summary)
    requires rows != []
    ensures Mergeable(s)
  {
    Summary(Earliest(rows), Latest(rows), |rows|,
            seq(METRICS, m requires 0 <= m < METRICS => Describe(Present(Column(rows, m)))))
  }

  /** `HourlyAggregate::record`. */
  function Extended(s: Summary, row: Sample): Summary
    requires |s.metrics| == METRICS && forall m :: 0 <= m < METRICS ==> s.metrics[m].count >= 0
  {
    Summary(MinInt(s.start, row.collectedAt), MaxInt(s.end, row.collectedAt), s.samples + 1,
            seq(METRICS, m requires 0 <= m < METRICS => Recorded(s.metrics[m], row.metrics[m])))
  }

  predicate Mergeable(s: Summary) {
    |s.metrics| == METRICS &&
    forall m :: 0 <= m < METRICS ==>
      && s.metrics[m].count >= 0
      && (s.metrics[m].count > 0 ==> s.metrics[m].min.Some? && s.metrics[m].max.Some? && s.metrics[m].avg.Some?)
  }

  /** The row `hourly_upsert_sql` leaves behind when the bucket already exists. */
  function Combined(current: Summary, incoming: Summary): (s: Summary)
    requires Mergeable(current) && Mergeable(incoming)
    ensures Mergeable(s)
  {
    Summary(MinInt(current.start, incoming.start), MaxInt(current.end, incoming.end),
            current.samples + incoming.samples,
            seq(METRICS, m requires 0 <= m < METRICS => Merged(current.metrics[m], incoming.metrics[m])))
  }

  lemma ColumnConcat(a: seq<Sample>, b: seq<Sample>, m: nat)
    requires m < METRICS
    ensures Present(Column(a + b, m)) == Present(Column(a, m)) + Present(Column(b, m))
  {
    assert Column(a + b, m) == Column(a, m) + Column(b, m);
    PresentConcat(Column(a, m), Column(b, m));
  }

  lemma SpanConcat(a: seq<Sample>, b: seq<Sample>)
    requires a != [] && b != []
    ensures Earliest(a + b) == MinInt(Earliest(a), Earliest(b))
    ensures Latest(a + b) == MaxInt(Latest(a), Latest(b))
  {
    var e := if Earliest(a) <= Earliest(b) then EarliestSample(a) else EarliestSample(b);
    assert e in a + b;
    EarliestUnique(a + b, e);
    var l := if Latest(a) >= Latest(b) then LatestSample(a) else LatestSample(b);
    assert l in a + b;
    LatestUnique(a + b, l);
  }

  ghost function EarliestSample(rows: seq<Sample>): (r: Sample)
    requires rows != []
    ensures r in rows && r.collectedAt == Earliest(rows)
  {
    var i :| 0 <= i < |rows| && rows[i].collectedAt == Earliest(rows);
    rows[i]
  }

  ghost function LatestSample(rows: seq<Sample>): (r: Sample)
    requires rows != []
    ensures r in rows && r.collectedAt == Latest(rows)
  {
    var i :| 0 <= i < |rows| && rows[i].collectedAt == Latest(rows);
    rows[i]
  }

  lemma EarliestUnique(rows: seq<Sample>, e: Sample)
    requires e in rows && forall r <- rows :: e.collectedAt <= r.collectedAt
    ensures Earliest(rows) == e.collectedAt
  {
  }

  lemma LatestUnique(rows: seq<Sample>, l: Sample)
    requires l in rows && forall r <- rows :: r.collectedAt <= l.collectedAt
    ensures Latest(rows) == l.collectedAt
  {
  }

  /** Splitting the samples of a bucket into two batches and merging loses nothing. */
  lemma CombineIsExact(a: seq<Sample>, b: seq<Sample>)
    requires a != [] && b != []
    ensures Combined(Direct(a), Direct(b)) == Direct(a + b)
  {
    SpanConcat(a, b);
    forall m | 0 <= m < METRICS
      ensures Combined(Direct(a), Direct(b)).metrics[m] == Direct(a + b).metrics[m]
    {
      ColumnConcat(a, b, m);
      MergeIsExact(Present(Column(a, m)), Present(Column(b, m)));
    }
    assert Combined(Direct(a), Direct(b)).metrics == Direct(a + b).metrics;
  }

  lemma CombineThree(a: seq<Sample>, b: seq<Sample>, c: seq<Sample>)
    requires a != [] && b != [] && c != []
    ensures Combined(Combined(Direct(a), Direct(b)), Direct(c)) == Combined(Direct(a), Direct(b + c))
  {
    calc {
      Combined(Combined(Direct(a), Direct(b)), Direct(c));
      { CombineIsExact(a, b); }
      Combined(Direct(a + b), Direct(c));
      { CombineIsExact(a + b, c); }
      Direct(a + b + c);
      { assert a + b + c == a + (b + c); }
      Direct(a + (b + c));
      { CombineIsExact(a, b + c); }
      Combined(Direct(a), Direct(b + c));
    }
  }

  /** Recording one more sample in the accumulator of a batch is exact as well. */
  lemma ExtendIsExact(rows: seq<Sample>, row: Sample)
    requires rows != []
    ensures Extended(Direct(rows), row) == Direct(rows + [row])
  {
    SpanConcat(rows, [row]);
    assert Extended(Direct(rows), row).start == Direct(rows + [row]).start;
    assert Extended(Direct(rows), row).end == Direct(rows + [row]).end;
    forall m | 0 <= m < METRICS
      ensures Recorded(Direct(rows).metrics[m], row.metrics[m]) == Direct(rows + [row]).metrics[m]
    {
      ExtendMetric(rows, row, m);
    }
    assert Extended(Direct(rows), row).metrics == Direct(rows + [row]).metrics;
  }

  lemma ExtendMetric(rows: seq<Sample>, row: Sample, m: nat)
    requires m < METRICS
    ensures Recorded(Describe(Present(Column(rows, m))), row.metrics[m]) == Describe(Present(Column(rows + [row], m)))
  {
    OnePresent(row, m);
    ColumnConcat(rows, [row], m);
    RecordIsExact(Present(Column(rows, m)), row.metrics[m]);
  }

  lemma OnePresent(row: Sample, m: nat)
    requires m < METRICS
    ensures Present(Column([row], m)) == if row.metrics[m].Some? then [row.metrics[m].value] else []
  {
    var c := Column([row], m);
    assert c == [row.metrics[m]];
    assert c[..0] == [];
  }

  // ---- Order of arrival does not matter ----

  lemma {:induction false} SumSplit(a: seq<real>, v: real, b: seq<real>)
    ensures Sum(a + [v] + b) == Sum(a + b) + v
  {
    SumConcat(a + [v], b);
    SumConcat(a, [v]);
    SumConcat(a, b);
    assert [v][..0] == [];
  }

  lemma RemoveAt<T>(s: seq<T>, i: nat)
    requires i < |s|
    ensures s == s[..i] + [s[i]] + s[i + 1..]
    ensures multiset(s[..i] + s[i + 1..]) == multiset(s) - multiset{s[i]}
  {
    assert s == s[..i] + [s[i]] + s[i + 1..];
  }

  /** Some position holds `v`, and what is left without it is the rest of the multiset. */
  lemma TakeOut<T>(s: seq<T>, v: T) returns (front: seq<T>, back: seq<T>)
    requires v in multiset(s)
    ensures s == front + [v] + back && multiset(front + back) == multiset(s) - multiset{v}
  {
    var i :| 0 <= i < |s| && s[i] == v;
    RemoveAt(s, i);
    front, back := s[..i], s[i + 1..];
  }

  lemma SameLength<T>(a: seq<T>, b: seq<T>)
    requires multiset(a) == multiset(b)
    ensures |a| == |b|
  {
    assert |multiset(a)| == |a| && |multiset(b)| == |b|;
  }

  lemma {:induction false} SumPermuted(a: seq<real>, b: seq<real>)
    requires multiset(a) == multiset(b)
    ensures Sum(a) == Sum(b)
    decreases |a|
  {
    SameLength(a, b);
    if a != [] {
      var n := |a| - 1;
      var v := a[n];
      var front, back := TakeOut(b, v);
      assert a == a[..n] + [v];
      assert multiset(a[..n]) == multiset(a) - multiset{v};
      SumPermuted(a[..n], front + back);
      SumSplit(front, v, back);
    }
  }

  lemma LowestPermuted(a: seq<real>, b: seq<real>)
    requires a != [] && b != [] && multiset(a) == multiset(b)
    ensures Lowest(a) == Lowest(b)
  {
    LowestIsLeast(a);
    LowestIsLeast(b);
    assert Lowest(a) in multiset(b) && Lowest(b) in multiset(a);
  }

  lemma HighestPermuted(a: seq<real>, b: seq<real>)
    requires a != [] && b != [] && multiset(a) == multiset(b)
    ensures Highest(a) == Highest(b)
  {
    HighestIsGreatest(a);
    HighestIsGreatest(b);
    assert Highest(a) in multiset(b) && Highest(b) in multiset(a);
  }

  lemma DescribePermuted(a: seq<real>, b: seq<real>)
    requires multiset(a) == multiset(b)
    ensures Describe(a) == Describe(b)
  {
    SameLength(a, b);
    SumPermuted(a, b);
    if a != [] {
      LowestPermuted(a, b);
      HighestPermuted(a, b);
    }
  }

  lemma PresentSplit(front: seq<Sample>, v: Sample, back: seq<Sample>, m: nat)
    requires m < METRICS
    ensures multiset(Present(Column(front + [v] + back, m)))
            == multiset(Present(Column(front + back, m))) + multiset(Present(Column([v], m)))
  {
    ColumnConcat(front + [v], back, m);
    ColumnConcat(front, [v], m);
    ColumnConcat(front, back, m);
  }

  lemma {:induction false} PresentPermuted(a: seq<Sample>, b: seq<Sample>, m: nat)
    requires m < METRICS && multiset(a) == multiset(b)
    ensures multiset(Present(Column(a, m))) == multiset(Present(Column(b, m)))
    decreases |a|
  {
    SameLength(a, b);
    if a != [] {
      var n := |a| - 1;
      var v := a[n];
      var front, back := TakeOut(b, v);
      assert a == a[..n] + [v];
      assert multiset(a[..n]) == multiset(a) - multiset{v};
      PresentPermuted(a[..n], front + back, m);
      ColumnConcat(a[..n], [v], m);
      PresentSplit(front, v, back, m);
    }
  }

  lemma SpanPermuted(a: seq<Sample>, b: seq<Sample>)
    requires a != [] && b != [] && multiset(a) == multiset(b)
    ensures Earliest(a) == Earliest(b) && Latest(a) == Latest(b)
  {
    var ea, eb, la, lb := EarliestSample(a), EarliestSample(b), LatestSample(a), LatestSample(b);
    assert ea in multiset(b) && eb in multiset(a) && la in multiset(b) && lb in multiset(a);
  }

  /** A bucket depends only on which samples were folded into it, never on their order or batching. */
  lemma DirectPermuted(a: seq<Sample>, b: seq<Sample>)
    requires a != [] && multiset(a) == multiset(b)
    ensures b != [] && Direct(a) == Direct(b)
  {
    SameLength(a, b);
    SpanPermuted(a, b);
    forall m | 0 <= m < METRICS
      ensures Direct(a).metrics[m] == Direct(b).metrics[m]
    {
      PresentPermuted(a, b, m);
      DescribePermuted(Present(Column(a, m)), Present(Column(b, m)));
    }
    assert Direct(a).metrics == Direct(b).metrics;
  }

  // ---- The schema's CHECK constraints ----

  /** Every CHECK of client_metric_hourly_aggregates, and the hour the interval must lie in. */
  predicate SchemaAccepts(bucketStart: Time, s: Summary) {
    && bucketStart <= s.start <= s.end < bucketStart + HOUR
    && s.samples > 0
    && |s.metrics| == METRICS
    && forall m :: 0 <= m < METRICS ==> ScalarInOrder(s.metrics[m], s.samples)
  }

  predicate ScalarInOrder(s: Scalar, samples: int) {
    && 0 <= s.count <= samples
    && (s.count == 0 <==> s.min.None?) && (s.count == 0 <==> s.max.None?) && (s.count == 0 <==> s.avg.None?)
    && (s.count > 0 ==> s.min.value <= s.avg.value <= s.max.value)
  }

  lemma {:induction false} PresentShorter(vs: seq<Option<real>>)
    ensures |Present(vs)| <= |vs|
  {
    if vs != [] {
      PresentShorter(vs[..|vs| - 1]);
    }
  }

  lemma DirectAccepted(rows: seq<Sample>, bucketStart: Time)
    requires rows != [] && forall i :: 0 <= i < |rows| ==> HourOf(rows[i].collectedAt) == bucketStart
    ensures SchemaAccepts(bucketStart, Direct(rows))
  {
    var s := Direct(rows);
    forall m | 0 <= m < METRICS
      ensures ScalarInOrder(s.metrics[m], s.samples)
    {
      DescribeInOrder(Present(Column(rows, m)));
      PresentShorter(Column(rows, m));
    }
  }

  // ---- The code, step by step ----

  /** `ScalarAggregate::record`: a Copy value updated field by field. */
  method RecordValue(current: Scalar, value: Option<real>) returns (next: Scalar)
    requires current.count >= 0
    ensures next == Recorded(current, value)
  {
    next := current;
    if value.None? {
      return;
    }
    next := next.(count := next.count + 1);
    next := next.(min := Some(if next.min.Some? then MinReal(next.min.value, value.value) else value.value));
    next := next.(max := Some(if next.max.Some? then MaxReal(next.max.value, value.value) else value.value));
    next := next.(avg := Some(if next.avg.Some?
                              then next.avg.value + (value.value - next.avg.value) / next.count as real
                              else value.value));
  }

  /** The accumulator one batch keeps per host and hour. */
  class HourlyAggregate {
    var intervalStart: Time
    var intervalEnd: Time
    var sampleCount: int
    var metrics: seq<Scalar>
    ghost var rows: seq<Sample>

    /** The fields are the exact summary of the samples recorded so far. */
    ghost predicate Valid()
      reads this
    {
      rows != [] && Value() == Direct(rows)
    }

    function Value(): Summary
      reads this
    {
      Summary(intervalStart, intervalEnd, sampleCount, metrics)
    }

    constructor (row: Sample)
      ensures Valid() && rows == [row]
    {
      intervalStart := row.collectedAt;
      intervalEnd := row.collectedAt;
      sampleCount := 0;
      metrics := seq(METRICS, _ => NO_VALUES);
      rows := [row];
      new;
      RecordFields(row);
      assert metrics == Direct([row]).metrics by {
        forall m | 0 <= m < METRICS
          ensures metrics[m] == Describe(Present(Column([row], m)))
        {
          OnePresent(row, m);
          RecordIsExact([], row.metrics[m]);
          assert Describe([]) == NO_VALUES;
          assert [] + Present(Column([row], m)) == Present(Column([row], m));
        }
      }
    }

    method Record(row: Sample)
      requires Valid()
      modifies this
      ensures Valid() && rows == old(rows) + [row]
    {
      ExtendIsExact(rows, row);
      RecordFields(row);
      rows := rows + [row];
    }

    method RecordFields(row: Sample)
      requires |metrics| == METRICS && forall m :: 0 <= m < METRICS ==> metrics[m].count >= 0
      modifies this
      ensures rows == old(rows)
      ensures Value() == Extended(old(Value()), row)
    {
      intervalStart := MinInt(intervalStart, row.collectedAt);
      intervalEnd := MaxInt(intervalEnd, row.collectedAt);
      sampleCount := sampleCount + 1;
      ghost var before := metrics;
      for m := 0 to METRICS
        invariant |metrics| == METRICS
        invariant forall k :: 0 <= k < m ==> metrics[k] == Recorded(before[k], row.metrics[k])
        invariant forall k :: m <= k < METRICS ==> metrics[k] == before[k]
        invariant intervalStart == MinInt(old(intervalStart), row.collectedAt)
        invariant intervalEnd == MaxInt(old(intervalEnd), row.collectedAt)
        invariant sampleCount == old(sampleCount) + 1 && rows == old(rows)
      {
        var next := RecordValue(metrics[m], row.metrics[m]);
        metrics := metrics[m := next];
      }
    }
  }
}
