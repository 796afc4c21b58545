/** The three retention transactions and the bounded cycle that runs them (retention.rs). */
module Retention {
  import opened Basics
  import opened Aggregation
  import opened Schema

  // ---- Row selection ----

  predicate IsPending(db: Db, id: Uuid, cutoff: Time) {
    id in db.reports && db.reports[id].aggregatedAt.None? && db.reports[id].collectedAt < cutoff
    && !IsLatest(db.hosts, id)
  }

  predicate IsDeletable(db: Db, id: Uuid) {
    id in db.reports && db.reports[id].aggregatedAt.Some? && !IsLatest(db.hosts, id)
  }

  predicate IsExpired(db: Db, k: BucketKey, cutoff: Time) {
    k in db.buckets && db.buckets[k].summary.end < cutoff
  }

  function PendingKeys(db: Db, cutoff: Time): set<OrderKey> {
    set id | id in db.reports && IsPending(db, id, cutoff) :: OrderKey(db.reports[id].collectedAt, id, 0)
  }

  function DeletableKeys(db: Db): set<OrderKey> {
    set id | id in db.reports && IsDeletable(db, id) :: OrderKey(db.reports[id].aggregatedAt.value, id, 0)
  }

  function ExpiredKeys(db: Db, cutoff: Time): set<OrderKey> {
    set k | k in db.buckets && IsExpired(db, k, cutoff) :: OrderKey(db.buckets[k].summary.end, k.hostId, k.start)
  }

  function Ids(q: seq<OrderKey>): (ids: seq<Uuid>)
    ensures |ids| == |q|
  {
    seq(|q|, i requires 0 <= i < |q| => q[i].middle)
  }

  function BucketKeys(q: seq<OrderKey>): set<BucketKey> {
    set k | k in q :: BucketKey(k.middle, k.minor)
  }

  /** The rows `aggregate_raw_batch` fetches, oldest first. */
  function PendingBatch(db: Db, cutoff: Time, limit: nat): (ids: seq<Uuid>)
    ensures forall i :: 0 <= i < |ids| ==> ids[i] in db.reports && IsPending(db, ids[i], cutoff)
    ensures forall i, j :: 0 <= i < j < |ids| ==> ids[i] != ids[j]
  {
    var q := Page(PendingKeys(db, cutoff), limit);
    PageIsFirst(PendingKeys(db, cutoff), limit);
    PendingPage(db, cutoff, q);
    Ids(q)
  }

  lemma PendingPage(db: Db, cutoff: Time, q: seq<OrderKey>)
    requires Ordered(q) && forall k :: k in q ==> k in PendingKeys(db, cutoff)
    ensures forall i :: 0 <= i < |q| ==> IsPending(db, q[i].middle, cutoff) && q[i] == OrderKey(db.reports[q[i].middle].collectedAt, q[i].middle, 0)
    ensures forall i, j :: 0 <= i < j < |q| ==> q[i].middle != q[j].middle
  {
    forall i | 0 <= i < |q|
      ensures IsPending(db, q[i].middle, cutoff) && q[i] == OrderKey(db.reports[q[i].middle].collectedAt, q[i].middle, 0)
    {
      assert q[i] in PendingKeys(db, cutoff);
    }
  }

  /** A batch is as large as the limit allows, and every pending row it leaves is younger than all it takes. */
  lemma PendingBatchIsOldest(db: Db, cutoff: Time, limit: nat)
    ensures var ids := PendingBatch(db, cutoff, limit);
            && |ids| == MinInt(|PendingKeys(db, cutoff)|, limit)
            && forall n, i | 0 <= n < |ids| && IsPending(db, i, cutoff) && i !in ids ::
                 db.reports[ids[n]].collectedAt < db.reports[i].collectedAt
                 || (db.reports[ids[n]].collectedAt == db.reports[i].collectedAt && ids[n] < i)
  {
    var keys := PendingKeys(db, cutoff);
    var q := Page(keys, limit);
    var ids := PendingBatch(db, cutoff, limit);
    PageIsFirst(keys, limit);
    PendingPage(db, cutoff, q);
    forall n, i | 0 <= n < |ids| && IsPending(db, i, cutoff) && i !in ids
      ensures Before(q[n], OrderKey(db.reports[i].collectedAt, i, 0))
    {
      var k := OrderKey(db.reports[i].collectedAt, i, 0);
      assert k in keys;
      assert k !in q by {
        forall m | 0 <= m < |q|
          ensures q[m] != k
        {
          assert ids[m] in ids && ids[m] == q[m].middle;
        }
      }
    }
  }

  // ---- The three transactions ----

  /** Fold one row into its bucket and mark it. */
  function RollRow(db: Db, id: Uuid, now: Time): Db
    requires id in db.reports
  {
    db.(reports := db.reports[id := db.reports[id].(aggregatedAt := Some(now))],
        buckets := Absorb(db.buckets, SampleOf(id, db.reports[id]), now))
  }

  /** Merge a single sample into its bucket. */
  function Absorb(buckets: map<BucketKey, Bucket>, sample: Sample, now: Time): map<BucketKey, Bucket> {
    buckets[BucketOf(sample) := Bucket(Joined(buckets, BucketOf(sample), Direct([sample])), now)]
  }

  function Joined(buckets: map<BucketKey, Bucket>, k: BucketKey, incoming: BucketSummary): BucketSummary {
    if k in buckets then Combined(buckets[k].summary, incoming) else incoming
  }

  /** The simple form of a batch: one row after the other. */
  function RollRows(db: Db, ids: seq<Uuid>, now: Time): (after: Db)
    requires forall i :: 0 <= i < |ids| ==> ids[i] in db.reports
    ensures after.reports.Keys == db.reports.Keys
    ensures after == db.(reports := after.reports, buckets := after.buckets)
    ensures forall i <- db.reports :: SampleOf(i, after.reports[i]) == SampleOf(i, db.reports[i])
  {
    if ids == [] then db else RollRow(RollRows(db, ids[..|ids| - 1], now), ids[|ids| - 1], now)
  }

  function RollUp(db: Db, cutoff: Time, now: Time, limit: nat): (Db, nat) {
    var ids := PendingBatch(db, cutoff, limit);
    (RollRows(db, ids, now), |ids|)
  }

  function DeleteMarked(db: Db, limit: nat): (Db, nat) {
    var q := Page(DeletableKeys(db), limit);
    (db.(reports := db.reports - Elements(Ids(q))), |q|)
  }

  function DeleteExpired(db: Db, cutoff: Time, limit: nat): (Db, nat) {
    var q := Page(ExpiredKeys(db, cutoff), limit);
    (db.(buckets := db.buckets - BucketKeys(q)), |q|)
  }

  lemma DeletedIds(db: Db, limit: nat, i: Uuid)
    requires i in Elements(Ids(Page(DeletableKeys(db), limit)))
    ensures IsDeletable(db, i)
  {
    var q := Page(DeletableKeys(db), limit);
    var n :| 0 <= n < |q| && Ids(q)[n] == i;
    assert q[n] in DeletableKeys(db);
  }

  // ---- A grouped and merged batch is the same as one row at a time ----

  /** The samples folded into each live bucket, in folding order. */
  type Contents = map<BucketKey, seq<Sample>>

  /** Every bucket is the exact summary of the samples folded into it. */
  predicate Exact(buckets: map<BucketKey, Bucket>, folded: Contents) {
    && folded.Keys == buckets.Keys
    && forall k <- buckets :: folded[k] != [] && buckets[k].summary == Direct(folded[k])
  }

  function Samples(db: Db, ids: seq<Uuid>): (r: seq<Sample>)
    requires forall i :: 0 <= i < |ids| ==> ids[i] in db.reports
    ensures |r| == |ids|
  {
    seq(|ids|, i requires 0 <= i < |ids| => SampleOf(ids[i], db.reports[ids[i]]))
  }

  /** The rows of a batch that fall into one bucket, in batch order. */
  function InBucket(rows: seq<Sample>, k: BucketKey): (r: seq<Sample>)
    ensures r != [] <==> exists i :: 0 <= i < |rows| && BucketOf(rows[i]) == k
  {
    if rows == [] then []
    else InBucket(rows[..|rows| - 1], k) + if BucketOf(rows[|rows| - 1]) == k then [rows[|rows| - 1]] else []
  }

  function KeysOf(rows: seq<Sample>): set<BucketKey> {
    set i | 0 <= i < |rows| :: BucketOf(rows[i])
  }

  /** One accumulator per host and hour: what a batch builds in memory before it writes. */
  type Groups = map<BucketKey, BucketSummary>

  function Parts(rows: seq<Sample>): (p: Contents)
    ensures p.Keys == KeysOf(rows)
    ensures forall k <- p :: p[k] != []
  {
    map k | k in KeysOf(rows) :: InBucket(rows, k)
  }

  function Grouped(parts: Contents): (g: Groups)
    requires forall k <- parts :: parts[k] != []
    ensures g.Keys == parts.Keys
  {
    map k | k in parts :: Direct(parts[k])
  }

  /** The bucket table after one upsert per accumulator. */
  function Upserted(buckets: map<BucketKey, Bucket>, groups: Groups, now: Time): (r: map<BucketKey, Bucket>)
    ensures r.Keys == buckets.Keys + groups.Keys
  {
    map k | k in buckets.Keys + groups.Keys ::
      if k in groups then Bucket(Joined(buckets, k, groups[k]), now) else buckets[k]
  }

  function Marked(reports: map<Uuid, Row>, ids: seq<Uuid>, now: Time): map<Uuid, Row> {
    map i | i in reports :: if i in ids then reports[i].(aggregatedAt := Some(now)) else reports[i]
  }

  lemma JoinedAgain(buckets: map<BucketKey, Bucket>, folded: Contents, k: BucketKey, rows: seq<Sample>, row: Sample)
    requires Exact(buckets, folded) && rows != []
    ensures Combined(Joined(buckets, k, Direct(rows)), Direct([row])) == Joined(buckets, k, Direct(rows + [row]))
  {
    if k in buckets {
      CombineThree(folded[k], rows, [row]);
    } else {
      CombineIsExact(rows, [row]);
    }
  }

  lemma InBucketSnoc(rows: seq<Sample>, row: Sample, k: BucketKey)
    ensures InBucket(rows + [row], k) == if BucketOf(row) == k then InBucket(rows, k) + [row] else InBucket(rows, k)
  {
    assert (rows + [row])[..|rows|] == rows;
  }

  lemma PartElsewhere(rows: seq<Sample>, row: Sample, k: BucketKey)
    requires k in KeysOf(rows) && k != BucketOf(row)
    ensures k in Parts(rows + [row]) && Parts(rows + [row])[k] == Parts(rows)[k]
  {
    KeysOfSnoc(rows, row);
    InBucketSnoc(rows, row, k);
  }

  lemma PartHere(rows: seq<Sample>, row: Sample)
    ensures BucketOf(row) in Parts(rows + [row])
    ensures Parts(rows + [row])[BucketOf(row)] == InBucket(rows, BucketOf(row)) + [row]
  {
    KeysOfSnoc(rows, row);
    InBucketSnoc(rows, row, BucketOf(row));
  }

  /** One more row of a batch extends its own part and no other. */
  lemma PartsSnoc(rows: seq<Sample>, row: Sample)
    ensures Parts(rows + [row]) == Parts(rows)[BucketOf(row) := InBucket(rows, BucketOf(row)) + [row]]
  {
    KeysOfSnoc(rows, row);
    PartHere(rows, row);
    forall k | k in Parts(rows) && k != BucketOf(row)
      ensures Parts(rows + [row])[k] == Parts(rows)[k]
    {
      PartElsewhere(rows, row, k);
    }
    MapsAgree(Parts(rows), Parts(rows + [row]), BucketOf(row), InBucket(rows, BucketOf(row)) + [row]);
  }

  lemma GroupedReplace(parts: Contents, k: BucketKey, part: seq<Sample>)
    requires part != [] && forall j <- parts :: parts[j] != []
    ensures Grouped(parts[k := part]) == Grouped(parts)[k := Direct(part)]
  {
  }

  lemma KeysOfSnoc(rows: seq<Sample>, row: Sample)
    ensures KeysOf(rows + [row]) == KeysOf(rows) + {BucketOf(row)}
  {
    var all := rows + [row];
    forall k | k in KeysOf(rows) + {BucketOf(row)}
      ensures k in KeysOf(all)
    {
      if k in KeysOf(rows) {
        var i :| 0 <= i < |rows| && BucketOf(rows[i]) == k;
        assert all[i] == rows[i];
      } else {
        assert all[|rows|] == row;
      }
    }
  }

  lemma UpsertedReplace(buckets: map<BucketKey, Bucket>, groups: Groups, now: Time, k: BucketKey, g: BucketSummary)
    ensures Upserted(buckets, groups[k := g], now) == Upserted(buckets, groups, now)[k := Bucket(Joined(buckets, k, g), now)]
  {
  }

  lemma JoinedSnoc(buckets: map<BucketKey, Bucket>, folded: Contents, rows: seq<Sample>, row: Sample, now: Time)
    requires Exact(buckets, folded)
    ensures Joined(buckets, BucketOf(row), Direct(InBucket(rows, BucketOf(row)) + [row]))
            == Joined(Upserted(buckets, Grouped(Parts(rows)), now), BucketOf(row), Direct([row]))
  {
    var k := BucketOf(row);
    if k in KeysOf(rows) {
      JoinedAgain(buckets, folded, k, InBucket(rows, k), row);
    } else {
      assert InBucket(rows, k) + [row] == [row];
    }
  }

  lemma UpsertedSnoc(buckets: map<BucketKey, Bucket>, folded: Contents, rows: seq<Sample>, row: Sample, now: Time)
    requires Exact(buckets, folded)
    ensures Upserted(buckets, Grouped(Parts(rows + [row])), now)
            == Absorb(Upserted(buckets, Grouped(Parts(rows)), now), row, now)
  {
    var k := BucketOf(row);
    var part := InBucket(rows, k) + [row];
    PartsSnoc(rows, row);
    GroupedReplace(Parts(rows), k, part);
    UpsertedReplace(buckets, Grouped(Parts(rows)), now, k, Direct(part));
    JoinedSnoc(buckets, folded, rows, row, now);
  }

  function AbsorbAll(buckets: map<BucketKey, Bucket>, rows: seq<Sample>, now: Time): map<BucketKey, Bucket> {
    if rows == [] then buckets else Absorb(AbsorbAll(buckets, rows[..|rows| - 1], now), rows[|rows| - 1], now)
  }

  /** Grouping samples by bucket and merging each group once equals merging them one by one. */
  lemma {:induction false} GroupedIsOneByOne(buckets: map<BucketKey, Bucket>, folded: Contents, rows: seq<Sample>, now: Time)
    requires Exact(buckets, folded)
    ensures AbsorbAll(buckets, rows, now) == Upserted(buckets, Grouped(Parts(rows)), now)
  {
    if rows == [] {
      UpsertedNone(buckets, Grouped(Parts(rows)), now);
    } else {
      var n := |rows| - 1;
      calc {
        AbsorbAll(buckets, rows, now);
        Absorb(AbsorbAll(buckets, rows[..n], now), rows[n], now);
        { GroupedIsOneByOne(buckets, folded, rows[..n], now); }
        Absorb(Upserted(buckets, Grouped(Parts(rows[..n])), now), rows[n], now);
        { UpsertedSnoc(buckets, folded, rows[..n], rows[n], now); }
        Upserted(buckets, Grouped(Parts(rows[..n] + [rows[n]])), now);
        { assert rows == rows[..n] + [rows[n]]; }
        Upserted(buckets, Grouped(Parts(rows)), now);
      }
    }
  }

  lemma UpsertedNone(buckets: map<BucketKey, Bucket>, groups: Groups, now: Time)
    requires groups.Keys == {}
    ensures Upserted(buckets, groups, now) == buckets
  {
  }

  lemma MarkedSnoc(reports: map<Uuid, Row>, ids: seq<Uuid>, id: Uuid, now: Time)
    requires id in reports
    ensures Marked(reports, ids + [id], now)
            == Marked(reports, ids, now)[id := Marked(reports, ids, now)[id].(aggregatedAt := Some(now))]
  {
  }

  lemma RollRowsParts(db: Db, ids: seq<Uuid>, now: Time)
    requires forall i :: 0 <= i < |ids| ==> ids[i] in db.reports
    ensures RollRows(db, ids, now).reports == Marked(db.reports, ids, now)
    ensures RollRows(db, ids, now).buckets == AbsorbAll(db.buckets, Samples(db, ids), now)
  {
    RollRowsMark(db, ids, now);
    RollRowsAbsorb(db, ids, now);
  }

  /** The last row of a batch is marked and merged with the sample it had at first. */
  lemma LastRolled(db: Db, front: seq<Uuid>, id: Uuid, now: Time)
    requires id in db.reports && forall i :: 0 <= i < |front| ==> front[i] in db.reports
    ensures var before, after := RollRows(db, front, now), RollRows(db, front + [id], now);
            && after.reports == before.reports[id := before.reports[id].(aggregatedAt := Some(now))]
            && after.buckets == Absorb(before.buckets, SampleOf(id, db.reports[id]), now)
  {
    assert (front + [id])[..|front|] == front;
  }

  lemma {:induction false} RollRowsMark(db: Db, ids: seq<Uuid>, now: Time)
    requires forall i :: 0 <= i < |ids| ==> ids[i] in db.reports
    ensures RollRows(db, ids, now).reports == Marked(db.reports, ids, now)
  {
    if ids != [] {
      var front, id := ids[..|ids| - 1], ids[|ids| - 1];
      assert ids == front + [id];
      RollRowsMark(db, front, now);
      LastRolled(db, front, id, now);
      MarkedSnoc(db.reports, front, id, now);
    }
  }

  lemma SamplesFront(db: Db, ids: seq<Uuid>)
    requires ids != [] && forall i :: 0 <= i < |ids| ==> ids[i] in db.reports
    ensures var n := |ids| - 1;
            Samples(db, ids)[..n] == Samples(db, ids[..n]) && Samples(db, ids)[n] == SampleOf(ids[n], db.reports[ids[n]])
  {
  }

  lemma {:induction false} RollRowsAbsorb(db: Db, ids: seq<Uuid>, now: Time)
    requires forall i :: 0 <= i < |ids| ==> ids[i] in db.reports
    ensures RollRows(db, ids, now).buckets == AbsorbAll(db.buckets, Samples(db, ids), now)
  {
    if ids != [] {
      var front, id := ids[..|ids| - 1], ids[|ids| - 1];
      assert ids == front + [id];
      RollRowsAbsorb(db, front, now);
      LastRolled(db, front, id, now);
      SamplesFront(db, ids);
    }
  }

  /** A grouped and merged batch leaves exactly the tables that folding its rows one by one leaves. */
  lemma BatchIsRowByRow(db: Db, folded: Contents, ids: seq<Uuid>, now: Time)
    requires Exact(db.buckets, folded)
    requires forall i :: 0 <= i < |ids| ==> ids[i] in db.reports
    ensures RollRows(db, ids, now) == db.(reports := Marked(db.reports, ids, now),
                                          buckets := Upserted(db.buckets, Grouped(Parts(Samples(db, ids))), now))
  {
    RollRowsParts(db, ids, now);
    GroupedIsOneByOne(db.buckets, folded, Samples(db, ids), now);
  }

  // ---- How the transactions use up the work there is ----

  /** Rows still to fold, counted three times, plus marked rows and buckets past their retention. */
  function Work(db: Db, rawCutoff: Time, aggregateCutoff: Time): nat {
    3 * |PendingKeys(db, rawCutoff)| + |DeletableKeys(db)| + |ExpiredKeys(db, aggregateCutoff)|
  }

  /** None of the three transactions would find a row. */
  predicate Quiescent(db: Db, rawCutoff: Time, aggregateCutoff: Time) {
    PendingKeys(db, rawCutoff) == {} && DeletableKeys(db) == {} && ExpiredKeys(db, aggregateCutoff) == {}
  }

  lemma AtMostOneMore(s: set<OrderKey>, t: set<OrderKey>, x: OrderKey)
    requires t <= s + {x}
    ensures |t| <= |s| + 1
  {
    SubsetCardinality(t, s + {x});
  }

  lemma RollRowWork(db: Db, id: Uuid, now: Time, rawCutoff: Time, aggregateCutoff: Time)
    requires IsPending(db, id, rawCutoff)
    ensures Work(RollRow(db, id, now), rawCutoff, aggregateCutoff) < Work(db, rawCutoff, aggregateCutoff)
  {
    var after := RollRow(db, id, now);
    var key := OrderKey(db.reports[id].collectedAt, id, 0);
    assert key in PendingKeys(db, rawCutoff);
    assert PendingKeys(after, rawCutoff) <= PendingKeys(db, rawCutoff) - {key};
    SubsetCardinality(PendingKeys(after, rawCutoff), PendingKeys(db, rawCutoff) - {key});
    AtMostOneMore(DeletableKeys(db), DeletableKeys(after), OrderKey(now, id, 0));
    var k := BucketOf(SampleOf(id, db.reports[id]));
    AtMostOneMore(ExpiredKeys(db, aggregateCutoff), ExpiredKeys(after, aggregateCutoff),
                  OrderKey(after.buckets[k].summary.end, k.hostId, k.start));
  }

  lemma {:induction false} RollRowsUntouched(db: Db, ids: seq<Uuid>, now: Time, i: Uuid)
    requires forall j :: 0 <= j < |ids| ==> ids[j] in db.reports && ids[j] != i
    requires i in db.reports
    ensures RollRows(db, ids, now).reports[i] == db.reports[i]
  {
    if ids != [] {
      RollRowsUntouched(db, ids[..|ids| - 1], now, i);
    }
  }

  /** What a batch holds: different rows, each of them pending. */
  predicate Selected(db: Db, ids: seq<Uuid>, cutoff: Time) {
    && (forall i :: 0 <= i < |ids| ==> IsPending(db, ids[i], cutoff))
    && (forall i, j :: 0 <= i < j < |ids| ==> ids[i] != ids[j])
  }

  lemma SelectedPrefix(db: Db, ids: seq<Uuid>, cutoff: Time, n: nat)
    requires Selected(db, ids, cutoff) && n <= |ids|
    ensures Selected(db, ids[..n], cutoff)
  {
  }

  lemma LastStaysSelected(db: Db, ids: seq<Uuid>, now: Time, cutoff: Time)
    requires Selected(db, ids, cutoff) && ids != []
    ensures IsPending(RollRows(db, ids[..|ids| - 1], now), ids[|ids| - 1], cutoff)
  {
    RollRowsUntouched(db, ids[..|ids| - 1], now, ids[|ids| - 1]);
  }

  lemma {:induction false} RollRowsWork(db: Db, ids: seq<Uuid>, now: Time, rawCutoff: Time, aggregateCutoff: Time)
    requires Selected(db, ids, rawCutoff)
    ensures Work(RollRows(db, ids, now), rawCutoff, aggregateCutoff) + |ids| <= Work(db, rawCutoff, aggregateCutoff)
  {
    if ids != [] {
      var n := |ids| - 1;
      SelectedPrefix(db, ids, rawCutoff, n);
      LastStaysSelected(db, ids, now, rawCutoff);
      RollRowsWork(db, ids[..n], now, rawCutoff, aggregateCutoff);
      RollRowWork(RollRows(db, ids[..n], now), ids[n], now, rawCutoff, aggregateCutoff);
    }
  }

  lemma RollUpWork(db: Db, now: Time, limit: nat, rawCutoff: Time, aggregateCutoff: Time)
    ensures var (after, n) := RollUp(db, rawCutoff, now, limit);
            && Work(after, rawCutoff, aggregateCutoff) + n <= Work(db, rawCutoff, aggregateCutoff)
            && (limit > 0 && n == 0 ==> PendingKeys(db, rawCutoff) == {} && after == db)
  {
    RollRowsWork(db, PendingBatch(db, rawCutoff, limit), now, rawCutoff, aggregateCutoff);
  }

  lemma DeleteMarkedWork(db: Db, limit: nat, rawCutoff: Time, aggregateCutoff: Time)
    ensures var (after, n) := DeleteMarked(db, limit);
            && Work(after, rawCutoff, aggregateCutoff) + n <= Work(db, rawCutoff, aggregateCutoff)
            && (limit > 0 && n == 0 ==> DeletableKeys(db) == {} && after == db)
  {
    var q := Page(DeletableKeys(db), limit);
    var after := DeleteMarked(db, limit).0;
    DeletableLeft(db, limit);
    PageRemoves(DeletableKeys(db), limit);
    SubsetCardinality(DeletableKeys(after), DeletableKeys(db) - Elements(q));
    OtherKeysKept(db, after, rawCutoff, aggregateCutoff);
    SubsetCardinality(PendingKeys(after, rawCutoff), PendingKeys(db, rawCutoff));
    if |q| == 0 {
      assert Ids(q) == [];
      assert db.reports - Elements(Ids(q)) == db.reports;
    }
  }

  lemma OtherKeysKept(db: Db, after: Db, rawCutoff: Time, aggregateCutoff: Time)
    requires after == db.(reports := after.reports)
    requires forall i <- after.reports :: i in db.reports && after.reports[i] == db.reports[i]
    ensures PendingKeys(after, rawCutoff) <= PendingKeys(db, rawCutoff)
    ensures ExpiredKeys(after, aggregateCutoff) == ExpiredKeys(db, aggregateCutoff)
  {
    forall id | id in after.reports && IsPending(after, id, rawCutoff)
      ensures IsPending(db, id, rawCutoff)
    {
    }
  }

  lemma DeletableLeft(db: Db, limit: nat)
    ensures DeletableKeys(DeleteMarked(db, limit).0) <= DeletableKeys(db) - Elements(Page(DeletableKeys(db), limit))
  {
    var q := Page(DeletableKeys(db), limit);
    forall k | k in q
      ensures k.middle in Elements(Ids(q))
    {
      var i :| 0 <= i < |q| && q[i] == k;
      assert Ids(q)[i] == k.middle;
    }
  }

  lemma DeleteExpiredWork(db: Db, limit: nat, rawCutoff: Time, aggregateCutoff: Time)
    ensures var (after, n) := DeleteExpired(db, aggregateCutoff, limit);
            && Work(after, rawCutoff, aggregateCutoff) + n <= Work(db, rawCutoff, aggregateCutoff)
            && (limit > 0 && n == 0 ==> ExpiredKeys(db, aggregateCutoff) == {} && after == db)
  {
    var q := Page(ExpiredKeys(db, aggregateCutoff), limit);
    var after := DeleteExpired(db, aggregateCutoff, limit).0;
    ExpiredLeft(db, aggregateCutoff, limit);
    PageRemoves(ExpiredKeys(db, aggregateCutoff), limit);
    SubsetCardinality(ExpiredKeys(after, aggregateCutoff), ExpiredKeys(db, aggregateCutoff) - Elements(q));
    RowsUntouched(db, after, rawCutoff);
    if |q| == 0 {
      assert BucketKeys(q) == {};
      assert db.buckets - BucketKeys(q) == db.buckets;
    }
  }

  lemma RowsUntouched(db: Db, after: Db, rawCutoff: Time)
    requires after == db.(buckets := after.buckets)
    ensures PendingKeys(after, rawCutoff) == PendingKeys(db, rawCutoff)
    ensures DeletableKeys(after) == DeletableKeys(db)
  {
    forall id | id in db.reports
      ensures IsPending(after, id, rawCutoff) == IsPending(db, id, rawCutoff) && IsDeletable(after, id) == IsDeletable(db, id)
    {
    }
  }

  lemma ExpiredLeft(db: Db, cutoff: Time, limit: nat)
    ensures ExpiredKeys(DeleteExpired(db, cutoff, limit).0, cutoff) <= ExpiredKeys(db, cutoff) - Elements(Page(ExpiredKeys(db, cutoff), limit))
  {
    var q := Page(ExpiredKeys(db, cutoff), limit);
    assert forall k :: k in q ==> BucketKey(k.middle, k.minor) in BucketKeys(q);
  }
}
