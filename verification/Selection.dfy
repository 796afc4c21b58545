/** Which rows each retention transaction takes, and what a whole retention run does, in the columns of the tables. */
module Selection {
  import opened Basics
  import opened Aggregation
  import opened Schema
  import opened Retention
  import Cycle

  // ---- Folding ----

  /** Unmarked, older than the cutoff, and no host's latest report. */
  predicate MayFold(db: Db, i: Uuid, cutoff: Time) {
    && i in db.reports && db.reports[i].aggregatedAt.None? && db.reports[i].collectedAt < cutoff
    && forall h <- db.hosts :: db.hosts[h].latestId != Some(i)
  }

  function Foldable(db: Db, cutoff: Time): set<Uuid> {
    set i | i in db.reports && MayFold(db, i, cutoff)
  }

  function CollectedBefore(db: Db, cutoff: Time, i: Uuid): set<Uuid>
    requires i in db.reports
  {
    set j | j in Foldable(db, cutoff)
            && (db.reports[j].collectedAt < db.reports[i].collectedAt
                || (db.reports[j].collectedAt == db.reports[i].collectedAt && j < i))
  }

  /** Among the first `limit` of them in (collected_at, report_id). */
  predicate Folds(db: Db, cutoff: Time, limit: nat, i: Uuid) {
    MayFold(db, i, cutoff) && |CollectedBefore(db, cutoff, i)| < limit
  }

  lemma PendingIsFoldable(db: Db, cutoff: Time, i: Uuid)
    ensures IsPending(db, i, cutoff) <==> MayFold(db, i, cutoff)
  {
  }

  lemma FoldableCount(db: Db, cutoff: Time, i: Uuid)
    requires MayFold(db, i, cutoff)
    ensures |Preceding(PendingKeys(db, cutoff), OrderKey(db.reports[i].collectedAt, i, 0))| == |CollectedBefore(db, cutoff, i)|
  {
    var key := (j: Uuid) => OrderKey(if j in db.reports then db.reports[j].collectedAt else 0, j, 0);
    var keys := Preceding(PendingKeys(db, cutoff), OrderKey(db.reports[i].collectedAt, i, 0));
    forall j | j in CollectedBefore(db, cutoff, i)
      ensures key(j) in keys
    {
      PendingIsFoldable(db, cutoff, j);
    }
    forall k | k in keys
      ensures k.middle in CollectedBefore(db, cutoff, i) && key(k.middle) == k
    {
      PendingIsFoldable(db, cutoff, k.middle);
    }
    KeysCount(CollectedBefore(db, cutoff, i), keys, key, (k: OrderKey) => k.middle);
  }

  /** The batch is exactly the first `limit` rows that may be folded. */
  lemma BatchExactly(db: Db, cutoff: Time, limit: nat, i: Uuid)
    ensures i in PendingBatch(db, cutoff, limit) <==> Folds(db, cutoff, limit, i)
  {
    var q := Page(PendingKeys(db, cutoff), limit);
    PageIsFirst(PendingKeys(db, cutoff), limit);
    PendingPage(db, cutoff, q);
    PendingIsFoldable(db, cutoff, i);
    if MayFold(db, i, cutoff) {
      var k := OrderKey(db.reports[i].collectedAt, i, 0);
      assert k in PendingKeys(db, cutoff);
      PageHolds(PendingKeys(db, cutoff), limit, k);
      FoldableCount(db, cutoff, i);
      InIds(q, k);
    }
  }

  lemma InIds(q: seq<OrderKey>, k: OrderKey)
    requires forall n :: 0 <= n < |q| && q[n].middle == k.middle ==> q[n] == k
    ensures k.middle in Ids(q) <==> k in q
  {
    if k in q {
      var n :| 0 <= n < |q| && q[n] == k;
      assert Ids(q)[n] == k.middle;
    }
    if k.middle in Ids(q) {
      var n :| 0 <= n < |q| && Ids(q)[n] == k.middle;
      assert q[n] == k;
    }
  }
  /** A fold marks exactly the rows it takes, with its own time, and touches no other row. */
  lemma FoldMarksExactly(db: Db, cutoff: Time, now: Time, limit: nat, i: Uuid)
    requires i in db.reports
    ensures var after := RollUp(db, cutoff, now, limit).0;
            && after.reports.Keys == db.reports.Keys && after == db.(reports := after.reports, buckets := after.buckets)
            && after.reports[i] == if Folds(db, cutoff, limit, i) then db.reports[i].(aggregatedAt := Some(now)) else db.reports[i]
  {
    BatchExactly(db, cutoff, limit, i);
    RollRowsParts(db, PendingBatch(db, cutoff, limit), now);
  }

  lemma {:induction false} AbsorbedBuckets(buckets: map<BucketKey, Bucket>, rows: seq<Sample>, now: Time, k: BucketKey)
    ensures var after := AbsorbAll(buckets, rows, now);
            && (k in KeysOf(rows) ==> k in after && after[k].updatedAt == now)
            && (k !in KeysOf(rows) ==> (k in after <==> k in buckets) && (k in buckets ==> after[k] == buckets[k]))
            && (k in buckets ==> k in after && buckets[k].summary.end <= after[k].summary.end)
  {
    if rows != [] {
      var n := |rows| - 1;
      AbsorbedBuckets(buckets, rows[..n], now, k);
      KeysOfSnoc(rows[..n], rows[n]);
      assert rows == rows[..n] + [rows[n]];
    }
  }

  /** The batch has a row of this host and hour. */
  predicate FoldsInto(db: Db, cutoff: Time, limit: nat, k: BucketKey) {
    exists i <- db.reports :: Folds(db, cutoff, limit, i) && k == BucketKey(db.reports[i].hostId, HourOf(db.reports[i].collectedAt))
  }

  /** A fold writes exactly the buckets of the rows it takes. */
  lemma FoldWritesExactly(db: Db, cutoff: Time, now: Time, limit: nat, k: BucketKey)
    ensures var after := RollUp(db, cutoff, now, limit).0;
            && (FoldsInto(db, cutoff, limit, k) ==> k in after.buckets && after.buckets[k].updatedAt == now)
            && (!FoldsInto(db, cutoff, limit, k) ==>
                  (k in after.buckets <==> k in db.buckets) && (k in db.buckets ==> after.buckets[k] == db.buckets[k]))
            && (k in db.buckets ==> k in after.buckets && db.buckets[k].summary.end <= after.buckets[k].summary.end)
  {
    var ids := PendingBatch(db, cutoff, limit);
    RollRowsParts(db, ids, now);
    AbsorbedBuckets(db.buckets, Samples(db, ids), now, k);
    BatchHours(db, cutoff, limit, k);
  }

  lemma BatchHours(db: Db, cutoff: Time, limit: nat, k: BucketKey)
    ensures k in KeysOf(Samples(db, PendingBatch(db, cutoff, limit))) <==> FoldsInto(db, cutoff, limit, k)
  {
    var ids := PendingBatch(db, cutoff, limit);
    var rows := Samples(db, ids);
    if k in KeysOf(rows) {
      var n :| 0 <= n < |rows| && BucketOf(rows[n]) == k;
      assert ids[n] in ids;
      BatchExactly(db, cutoff, limit, ids[n]);
    }
    if FoldsInto(db, cutoff, limit, k) {
      var i :| i in db.reports && Folds(db, cutoff, limit, i) && k == BucketKey(db.reports[i].hostId, HourOf(db.reports[i].collectedAt));
      BatchExactly(db, cutoff, limit, i);
      var n :| 0 <= n < |ids| && ids[n] == i;
      assert BucketOf(rows[n]) == k;
    }
  }

  // ---- Deleting folded rows ----

  predicate MayTrim(db: Db, i: Uuid) {
    i in db.reports && db.reports[i].aggregatedAt.Some? && forall h <- db.hosts :: db.hosts[h].latestId != Some(i)
  }

  function FoldedBefore(db: Db, i: Uuid): set<Uuid>
    requires MayTrim(db, i)
  {
    set j | j in db.reports && MayTrim(db, j)
            && (db.reports[j].aggregatedAt.value < db.reports[i].aggregatedAt.value
                || (db.reports[j].aggregatedAt == db.reports[i].aggregatedAt && j < i))
  }

  lemma TrimmableCount(db: Db, i: Uuid)
    requires MayTrim(db, i)
    ensures |Preceding(DeletableKeys(db), OrderKey(db.reports[i].aggregatedAt.value, i, 0))| == |FoldedBefore(db, i)|
  {
    var key := (j: Uuid) => OrderKey(if j in db.reports && db.reports[j].aggregatedAt.Some? then db.reports[j].aggregatedAt.value else 0, j, 0);
    var keys := Preceding(DeletableKeys(db), OrderKey(db.reports[i].aggregatedAt.value, i, 0));
    forall j | j in FoldedBefore(db, i)
      ensures key(j) in keys
    {
      assert IsDeletable(db, j);
    }
    forall k | k in keys
      ensures k.middle in FoldedBefore(db, i) && key(k.middle) == k
    {
      assert IsDeletable(db, k.middle);
    }
    KeysCount(FoldedBefore(db, i), keys, key, (k: OrderKey) => k.middle);
  }

  /** Exactly the first `limit` folded rows that no host shows go, in (aggregated_at, report_id), and nothing else. */
  lemma DeleteExactly(db: Db, limit: nat, i: Uuid)
    requires i in db.reports
    ensures var after := DeleteMarked(db, limit).0;
            && after == db.(reports := after.reports)
            && (i in after.reports ==> after.reports[i] == db.reports[i])
            && (i !in after.reports <==> MayTrim(db, i) && |FoldedBefore(db, i)| < limit)
  {
    var q := Page(DeletableKeys(db), limit);
    assert IsDeletable(db, i) <==> MayTrim(db, i);
    if MayTrim(db, i) {
      var k := OrderKey(db.reports[i].aggregatedAt.value, i, 0);
      assert k in DeletableKeys(db);
      PageHolds(DeletableKeys(db), limit, k);
      TrimmableCount(db, i);
      forall n | 0 <= n < |q| && q[n].middle == i
        ensures q[n] == k
      {
        assert q[n] in DeletableKeys(db);
      }
      InIds(q, k);
    } else if i in Elements(Ids(q)) {
      DeletedIds(db, limit, i);
    }
  }

  // ---- Deleting expired buckets ----

  function ExpiredBefore(db: Db, cutoff: Time, k: BucketKey): set<BucketKey>
    requires k in db.buckets
  {
    set j | j in db.buckets && db.buckets[j].summary.end < cutoff
            && (db.buckets[j].summary.end < db.buckets[k].summary.end
                || (db.buckets[j].summary.end == db.buckets[k].summary.end
                    && (j.hostId < k.hostId || (j.hostId == k.hostId && j.start < k.start))))
  }

  lemma ExpirableCount(db: Db, cutoff: Time, k: BucketKey)
    requires k in db.buckets
    ensures |Preceding(ExpiredKeys(db, cutoff), OrderKey(db.buckets[k].summary.end, k.hostId, k.start))| == |ExpiredBefore(db, cutoff, k)|
  {
    var key := (j: BucketKey) => OrderKey(if j in db.buckets then db.buckets[j].summary.end else 0, j.hostId, j.start);
    var keys := Preceding(ExpiredKeys(db, cutoff), OrderKey(db.buckets[k].summary.end, k.hostId, k.start));
    forall j | j in ExpiredBefore(db, cutoff, k)
      ensures key(j) in keys
    {
      assert IsExpired(db, j, cutoff);
    }
    KeysCount(ExpiredBefore(db, cutoff, k), keys, key, (x: OrderKey) => BucketKey(x.middle, x.minor));
  }

  /** Exactly the first `limit` buckets that end before the cutoff go, in (interval_end, host_id, bucket_start). */
  lemma ExpireExactly(db: Db, cutoff: Time, limit: nat, k: BucketKey)
    requires k in db.buckets
    ensures var after := DeleteExpired(db, cutoff, limit).0;
            && after == db.(buckets := after.buckets)
            && (k in after.buckets ==> after.buckets[k] == db.buckets[k])
            && (k !in after.buckets <==> db.buckets[k].summary.end < cutoff && |ExpiredBefore(db, cutoff, k)| < limit)
  {
    var q := Page(ExpiredKeys(db, cutoff), limit);
    var x := OrderKey(db.buckets[k].summary.end, k.hostId, k.start);
    forall y | y in q && BucketKey(y.middle, y.minor) == k
      ensures y == x && x in ExpiredKeys(db, cutoff)
    {
      assert y in ExpiredKeys(db, cutoff);
    }
    if db.buckets[k].summary.end < cutoff {
      assert IsExpired(db, k, cutoff);
      PageHolds(ExpiredKeys(db, cutoff), limit, x);
      ExpirableCount(db, cutoff, k);
    }
  }

  lemma DeletableCount(db: Db, limit: nat)
    ensures var page := Elements(Ids(Page(DeletableKeys(db), limit)));
            && |page| == |Page(DeletableKeys(db), limit)|
            && forall i <- page :: IsDeletable(db, i)
  {
    var q := Page(DeletableKeys(db), limit);
    PageIsFirst(DeletableKeys(db), limit);
    forall i, j | 0 <= i < j < |q|
      ensures Ids(q)[i] != Ids(q)[j]
    {
      assert q[i] in DeletableKeys(db) && q[j] in DeletableKeys(db);
    }
    DistinctCardinality(Ids(q));
    forall i | i in Elements(Ids(q))
      ensures IsDeletable(db, i)
    {
      DeletedIds(db, limit, i);
    }
  }

  lemma ExpiredCount(db: Db, cutoff: Time, limit: nat)
    ensures |BucketKeys(Page(ExpiredKeys(db, cutoff), limit))| == |Page(ExpiredKeys(db, cutoff), limit)|
  {
    var q := Page(ExpiredKeys(db, cutoff), limit);
    PageIsFirst(ExpiredKeys(db, cutoff), limit);
    var keys := seq(|q|, i requires 0 <= i < |q| => BucketKey(q[i].middle, q[i].minor));
    forall i, j | 0 <= i < j < |q|
      ensures keys[i] != keys[j]
    {
      assert q[i] in ExpiredKeys(db, cutoff) && q[j] in ExpiredKeys(db, cutoff);
    }
    DistinctCardinality(keys);
    assert Elements(keys) == BucketKeys(q) by {
      forall k | k in BucketKeys(q)
        ensures k in keys
      {
        var i :| 0 <= i < |q| && BucketKey(q[i].middle, q[i].minor) == k;
        assert keys[i] == k;
      }
    }
  }

  // ---- A whole run, in the times of its configuration ----

  predicate NoneLatest(hosts: map<Uuid, Host>, i: Uuid) {
    forall h <- hosts :: hosts[h].latestId != Some(i)
  }

  /** A row stays as it is, is marked now, or goes; for either it is old enough or marked already, and no host shows it. */
  predicate RowAged(before: Db, after: Db, i: Uuid, rawCutoff: Time, now: Time)
    requires i in before.reports
  {
    var row := before.reports[i];
    if i in after.reports && after.reports[i] == row then true
    else
      && NoneLatest(before.hosts, i)
      && (row.aggregatedAt.Some? || row.collectedAt < rawCutoff)
      && (i in after.reports ==> row.aggregatedAt.None? && after.reports[i] == row.(aggregatedAt := Some(now)))
  }

  /** A bucket goes only if it ends before the cutoff; one that stays ends no earlier than it did. */
  predicate BucketAged(before: Db, after: Db, k: BucketKey, aggregateCutoff: Time)
    requires k in before.buckets
  {
    before.buckets[k].summary.end < aggregateCutoff
    || (k in after.buckets && before.buckets[k].summary.end <= after.buckets[k].summary.end)
  }

  predicate Aged(before: Db, after: Db, rawCutoff: Time, aggregateCutoff: Time, now: Time) {
    && after == before.(reports := after.reports, buckets := after.buckets)
    && after.reports.Keys <= before.reports.Keys
    && (forall i <- before.reports :: RowAged(before, after, i, rawCutoff, now))
    && (forall k <- before.buckets :: BucketAged(before, after, k, aggregateCutoff))
  }

  lemma AgedTransitive(a: Db, b: Db, c: Db, rawCutoff: Time, aggregateCutoff: Time, now: Time)
    requires Aged(a, b, rawCutoff, aggregateCutoff, now) && Aged(b, c, rawCutoff, aggregateCutoff, now)
    ensures Aged(a, c, rawCutoff, aggregateCutoff, now)
  {
    forall i | i in a.reports
      ensures RowAged(a, c, i, rawCutoff, now)
    {
      assert RowAged(a, b, i, rawCutoff, now);
      if i in b.reports {
        assert RowAged(b, c, i, rawCutoff, now);
      }
    }
    forall k | k in a.buckets
      ensures BucketAged(a, c, k, aggregateCutoff)
    {
      assert BucketAged(a, b, k, aggregateCutoff);
      if k in b.buckets {
        assert BucketAged(b, c, k, aggregateCutoff);
      }
    }
  }

  lemma FoldAges(db: Db, rawCutoff: Time, aggregateCutoff: Time, now: Time, limit: nat)
    ensures Aged(db, RollUp(db, rawCutoff, now, limit).0, rawCutoff, aggregateCutoff, now)
  {
    var after := RollUp(db, rawCutoff, now, limit).0;
    forall i | i in db.reports
      ensures RowAged(db, after, i, rawCutoff, now)
    {
      FoldMarksExactly(db, rawCutoff, now, limit, i);
    }
    forall k | k in db.buckets
      ensures BucketAged(db, after, k, aggregateCutoff)
    {
      FoldWritesExactly(db, rawCutoff, now, limit, k);
    }
  }

  lemma TrimAges(db: Db, rawCutoff: Time, aggregateCutoff: Time, now: Time, limit: nat)
    ensures Aged(db, DeleteMarked(db, limit).0, rawCutoff, aggregateCutoff, now)
  {
    var after := DeleteMarked(db, limit).0;
    forall i | i in db.reports
      ensures RowAged(db, after, i, rawCutoff, now)
    {
      DeleteExactly(db, limit, i);
    }
  }

  lemma ExpireAges(db: Db, rawCutoff: Time, aggregateCutoff: Time, now: Time, limit: nat)
    ensures Aged(db, DeleteExpired(db, aggregateCutoff, limit).0, rawCutoff, aggregateCutoff, now)
  {
    var after := DeleteExpired(db, aggregateCutoff, limit).0;
    forall k | k in db.buckets
      ensures BucketAged(db, after, k, aggregateCutoff)
    {
      ExpireExactly(db, aggregateCutoff, limit, k);
    }
  }

  lemma PassAges(db: Db, p: Cycle.Plan)
    ensures var r := Cycle.PassOver(db, p);
            && Aged(db, r.folded, p.rawCutoff, p.aggregateCutoff, p.now)
            && Aged(db, r.trimmed, p.rawCutoff, p.aggregateCutoff, p.now)
            && Aged(db, r.after, p.rawCutoff, p.aggregateCutoff, p.now)
  {
    var r := Cycle.PassOver(db, p);
    FoldAges(db, p.rawCutoff, p.aggregateCutoff, p.now, p.batch);
    TrimAges(r.folded, p.rawCutoff, p.aggregateCutoff, p.now, p.batch);
    ExpireAges(r.trimmed, p.rawCutoff, p.aggregateCutoff, p.now, p.batch);
    AgedTransitive(db, r.folded, r.trimmed, p.rawCutoff, p.aggregateCutoff, p.now);
    AgedTransitive(db, r.trimmed, r.after, p.rawCutoff, p.aggregateCutoff, p.now);
  }

  /** What every transaction of a round does to the tables, any number of rounds does. */
  ghost predicate Carries(round: Db -> Cycle.Pass, does: (Db, Db) -> bool) {
    && (forall a :: does(a, a) && does(a, round(a).folded) && does(a, round(a).trimmed) && does(a, round(a).after))
    && forall a, b, c :: does(a, b) && does(b, c) ==> does(a, c)
  }

  lemma {:induction false} RoundsCarry(round: Db -> Cycle.Pass, does: (Db, Db) -> bool, db: Db, left: nat)
    requires Carries(round, does)
    ensures does(db, Cycle.Rounds(round, db, left).0)
    decreases left
  {
    if left >= 3 {
      RoundsCarry(round, does, round(db).after, left - 3);
    }
  }

  function Ages(p: Cycle.Plan): (Db, Db) -> bool {
    (a, b) => Aged(a, b, p.rawCutoff, p.aggregateCutoff, p.now)
  }

  lemma OnePassCarries(p: Cycle.Plan, a: Db)
    ensures var r := Cycle.RoundOf(p)(a);
            Ages(p)(a, a) && Ages(p)(a, r.folded) && Ages(p)(a, r.trimmed) && Ages(p)(a, r.after)
  {
    PassAges(a, p);
    AgedReflexive(a, p.rawCutoff, p.aggregateCutoff, p.now);
  }

  lemma AgedReflexive(a: Db, rawCutoff: Time, aggregateCutoff: Time, now: Time)
    ensures Aged(a, a, rawCutoff, aggregateCutoff, now)
  {
  }

  lemma AgesTransitive(p: Cycle.Plan, a: Db, b: Db, c: Db)
    requires Ages(p)(a, b) && Ages(p)(b, c)
    ensures Ages(p)(a, c)
  {
    AgedTransitive(a, b, c, p.rawCutoff, p.aggregateCutoff, p.now);
  }

  lemma PassesCarry(p: Cycle.Plan)
    ensures Carries(Cycle.RoundOf(p), Ages(p))
  {
    var round, does := Cycle.RoundOf(p), Ages(p);
    forall a: Db
      ensures does(a, a) && does(a, round(a).folded) && does(a, round(a).trimmed) && does(a, round(a).after)
    {
      OnePassCarries(p, a);
    }
    forall a: Db, b: Db, c: Db | does(a, b) && does(b, c)
      ensures does(a, c)
    {
      AgesTransitive(p, a, b, c);
    }
  }

  lemma RoundsAge(db: Db, p: Cycle.Plan, left: nat)
    ensures Aged(db, Cycle.RunCycle(db, p, left).0, p.rawCutoff, p.aggregateCutoff, p.now)
  {
    PassesCarry(p);
    RoundsCarry(Cycle.RoundOf(p), Ages(p), db, left);
    assert Ages(p)(db, Cycle.RunCycle(db, p, left).0);
  }

  /** Every row no host shows is unmarked and young enough, and no bucket is past its retention. */
  predicate NothingDue(db: Db, rawCutoff: Time, aggregateCutoff: Time) {
    && (forall i <- db.reports :: NoneLatest(db.hosts, i) ==> db.reports[i].aggregatedAt.None? && db.reports[i].collectedAt >= rawCutoff)
    && (forall k <- db.buckets :: db.buckets[k].summary.end >= aggregateCutoff)
  }

  /** A row or bucket that is due would be selected. */
  lemma DueRow(db: Db, i: Uuid, rawCutoff: Time)
    requires i in db.reports && NoneLatest(db.hosts, i)
    ensures db.reports[i].aggregatedAt.Some? ==> DeletableKeys(db) != {}
    ensures db.reports[i].aggregatedAt.None? && db.reports[i].collectedAt < rawCutoff ==> PendingKeys(db, rawCutoff) != {}
  {
    if db.reports[i].aggregatedAt.Some? {
      assert OrderKey(db.reports[i].aggregatedAt.value, i, 0) in DeletableKeys(db);
    } else if db.reports[i].collectedAt < rawCutoff {
      assert OrderKey(db.reports[i].collectedAt, i, 0) in PendingKeys(db, rawCutoff);
    }
  }

  lemma DueBucket(db: Db, k: BucketKey, aggregateCutoff: Time)
    requires k in db.buckets && db.buckets[k].summary.end < aggregateCutoff
    ensures ExpiredKeys(db, aggregateCutoff) != {}
  {
    assert OrderKey(db.buckets[k].summary.end, k.hostId, k.start) in ExpiredKeys(db, aggregateCutoff);
  }

  lemma QuietIsNothingDue(db: Db, rawCutoff: Time, aggregateCutoff: Time)
    requires Quiescent(db, rawCutoff, aggregateCutoff)
    ensures NothingDue(db, rawCutoff, aggregateCutoff)
  {
    forall i | i in db.reports && NoneLatest(db.hosts, i)
      ensures db.reports[i].aggregatedAt.None? && db.reports[i].collectedAt >= rawCutoff
    {
      DueRow(db, i, rawCutoff);
    }
    forall k | k in db.buckets
      ensures db.buckets[k].summary.end >= aggregateCutoff
    {
      if db.buckets[k].summary.end < aggregateCutoff {
        DueBucket(db, k, aggregateCutoff);
        assert false;
      }
    }
  }

  // ---- The counters of a run ----

  function UnmarkedRows(db: Db): set<Uuid> {
    set i | i in db.reports && db.reports[i].aggregatedAt.None?
  }

  lemma FoldCount(db: Db, cutoff: Time, now: Time, limit: nat)
    ensures var (after, n) := RollUp(db, cutoff, now, limit);
            |UnmarkedRows(db)| == |UnmarkedRows(after)| + n && after.reports.Keys == db.reports.Keys
  {
    var ids := PendingBatch(db, cutoff, limit);
    var after := RollUp(db, cutoff, now, limit).0;
    RollRowsParts(db, ids, now);
    DistinctCardinality(ids);
    assert UnmarkedRows(db) == UnmarkedRows(after) + Elements(ids);
    assert UnmarkedRows(after) !! Elements(ids);
  }

  lemma TrimCount(db: Db, limit: nat)
    ensures var (after, n) := DeleteMarked(db, limit);
            |db.reports.Keys| == |after.reports.Keys| + n && UnmarkedRows(after) == UnmarkedRows(db)
  {
    var gone := Elements(Ids(Page(DeletableKeys(db), limit)));
    var after := DeleteMarked(db, limit).0;
    DeletableCount(db, limit);
    assert forall i <- gone :: IsDeletable(db, i);
    LessKeys(db.reports, gone);
    MarkedGo(db, after, gone);
  }

  lemma LessKeys<K, V>(m: map<K, V>, gone: set<K>)
    requires gone <= m.Keys
    ensures |m.Keys| == |(m - gone).Keys| + |gone|
  {
    assert m.Keys == (m - gone).Keys + gone && (m - gone).Keys !! gone;
  }

  lemma MarkedGo(db: Db, after: Db, gone: set<Uuid>)
    requires after.reports == db.reports - gone && forall i <- gone :: i in db.reports && db.reports[i].aggregatedAt.Some?
    ensures UnmarkedRows(after) == UnmarkedRows(db)
  {
    forall i
      ensures i in UnmarkedRows(after) <==> i in UnmarkedRows(db)
    {
    }
  }

  lemma ExpireCount(db: Db, cutoff: Time, limit: nat)
    ensures var (after, n) := DeleteExpired(db, cutoff, limit);
            |db.buckets.Keys| == |after.buckets.Keys| + n && after.reports == db.reports
  {
    var gone := BucketKeys(Page(ExpiredKeys(db, cutoff), limit));
    ExpiredCount(db, cutoff, limit);
    forall k | k in gone
      ensures k in db.buckets
    {
      var x :| x in Page(ExpiredKeys(db, cutoff), limit) && BucketKey(x.middle, x.minor) == k;
      assert x in ExpiredKeys(db, cutoff);
    }
    LessKeys(db.buckets, gone);
  }

  /** Folding lowers one measure, deleting rows the other, each by what the round reports. */
  ghost predicate Counts(round: Db -> Cycle.Pass, unmarked: Db -> int, rows: Db -> int) {
    forall db ::
      var r := round(db);
      && unmarked(db) == unmarked(r.folded) + r.aggregated && rows(r.folded) == rows(db)
      && unmarked(r.trimmed) == unmarked(r.folded) && rows(r.folded) == rows(r.trimmed) + r.deletedRaw
      && unmarked(r.after) == unmarked(r.trimmed) && rows(r.after) == rows(r.trimmed)
  }

  lemma {:induction false} RoundsCount(round: Db -> Cycle.Pass, unmarked: Db -> int, rows: Db -> int, db: Db, left: nat)
    requires Counts(round, unmarked, rows)
    ensures var (after, o) := Cycle.Rounds(round, db, left);
            unmarked(db) == unmarked(after) + o.aggregated && rows(db) == rows(after) + o.deletedRaw
    decreases left
  {
    if left >= 3 {
      RoundsCount(round, unmarked, rows, round(db).after, left - 3);
    }
  }

  lemma PassCount(db: Db, p: Cycle.Plan)
    ensures var r := Cycle.PassOver(db, p);
            && |UnmarkedRows(db)| == |UnmarkedRows(r.folded)| + r.aggregated && r.folded.reports.Keys == db.reports.Keys
            && UnmarkedRows(r.trimmed) == UnmarkedRows(r.folded) && |r.folded.reports.Keys| == |r.trimmed.reports.Keys| + r.deletedRaw
            && r.after.reports == r.trimmed.reports
  {
    var r := Cycle.PassOver(db, p);
    FoldCount(db, p.rawCutoff, p.now, p.batch);
    TrimCount(r.folded, p.batch);
    ExpireCount(r.trimmed, p.aggregateCutoff, p.batch);
  }

  /** The counters of a run are the rows it marked and the rows it deleted. */
  lemma RunCounts(db: Db, p: Cycle.Plan, left: nat)
    ensures var (after, o) := Cycle.RunCycle(db, p, left);
            && |UnmarkedRows(db)| == |UnmarkedRows(after)| + o.aggregated
            && |db.reports.Keys| == |after.reports.Keys| + o.deletedRaw
  {
    var unmarked: Db -> int := (d: Db) => |UnmarkedRows(d)|;
    var rows: Db -> int := (d: Db) => |d.reports.Keys|;
    forall d: Db
      ensures var r := Cycle.RoundOf(p)(d);
              && unmarked(d) == unmarked(r.folded) + r.aggregated && rows(r.folded) == rows(d)
              && unmarked(r.trimmed) == unmarked(r.folded) && rows(r.folded) == rows(r.trimmed) + r.deletedRaw
              && unmarked(r.after) == unmarked(r.trimmed) && rows(r.after) == rows(r.trimmed)
    {
      PassCount(d, p);
    }
    RoundsCount(Cycle.RoundOf(p), unmarked, rows, db, left);
  }

  /** The buckets that are there before and not after. */
  function Gone(before: Db, after: Db): set<BucketKey> {
    before.buckets.Keys - after.buckets.Keys
  }

  lemma GoneInTurn(a: Db, b: Db, c: Db)
    ensures |Gone(a, c)| <= |Gone(a, b)| + |Gone(b, c)|
  {
    SubsetCardinality(Gone(a, c), Gone(a, b) + Gone(b, c));
  }

  /** A loss that adds up, and that only the third transaction of a round causes, no more of it than it reports. */
  ghost predicate CountsLoss(round: Db -> Cycle.Pass, loss: (Db, Db) -> int) {
    && (forall a, b, c :: loss(a, c) <= loss(a, b) + loss(b, c))
    && forall a :: loss(a, a) <= 0 && loss(a, round(a).folded) <= 0 && loss(a, round(a).trimmed) <= 0
                   && loss(a, round(a).after) <= round(a).deletedHourly
  }

  lemma {:induction false} RoundsLose(round: Db -> Cycle.Pass, loss: (Db, Db) -> int, db: Db, left: nat)
    requires CountsLoss(round, loss)
    ensures var (after, o) := Cycle.Rounds(round, db, left); loss(db, after) <= o.deletedHourly
    decreases left
  {
    if left >= 3 {
      RoundsLose(round, loss, round(db).after, left - 3);
    }
  }

  lemma FoldKeepsBuckets(db: Db, cutoff: Time, now: Time, limit: nat)
    ensures db.buckets.Keys <= RollUp(db, cutoff, now, limit).0.buckets.Keys
  {
    forall k | k in db.buckets
      ensures k in RollUp(db, cutoff, now, limit).0.buckets
    {
      FoldWritesExactly(db, cutoff, now, limit, k);
    }
  }

  lemma ExpireLoses(db: Db, cutoff: Time, limit: nat)
    ensures var (after, n) := DeleteExpired(db, cutoff, limit); |Gone(db, after)| == n
  {
    var after := DeleteExpired(db, cutoff, limit).0;
    ExpireCount(db, cutoff, limit);
    LessKeys(db.buckets, Gone(db, after));
    assert (db.buckets - Gone(db, after)).Keys == after.buckets.Keys;
  }

  lemma PassLoses(db: Db, p: Cycle.Plan)
    ensures var r := Cycle.PassOver(db, p);
            |Gone(db, r.folded)| == 0 && |Gone(db, r.trimmed)| == 0 && |Gone(db, r.after)| <= r.deletedHourly
  {
    var r := Cycle.PassOver(db, p);
    FoldKeepsBuckets(db, p.rawCutoff, p.now, p.batch);
    assert Gone(db, r.folded) == {} && r.trimmed.buckets == r.folded.buckets;
    ExpireLoses(r.trimmed, p.aggregateCutoff, p.batch);
    SubsetCardinality(Gone(db, r.after), Gone(r.trimmed, r.after));
  }

  function Loss(): (Db, Db) -> int {
    (a, b) => |Gone(a, b)|
  }

  lemma PassesLose(p: Cycle.Plan)
    ensures CountsLoss(Cycle.RoundOf(p), Loss())
  {
    var round, loss := Cycle.RoundOf(p), Loss();
    forall a: Db, b: Db, c: Db
      ensures loss(a, c) <= loss(a, b) + loss(b, c)
    {
      GoneInTurn(a, b, c);
    }
    forall a: Db
      ensures loss(a, a) <= 0 && loss(a, round(a).folded) <= 0 && loss(a, round(a).trimmed) <= 0
              && loss(a, round(a).after) <= round(a).deletedHourly
    {
      PassLoses(a, p);
      assert Gone(a, a) == {};
    }
  }

  /** Every bucket a run deletes is counted. */
  lemma RunCountsBuckets(db: Db, p: Cycle.Plan, left: nat)
    ensures var (after, o) := Cycle.RunCycle(db, p, left); |db.buckets.Keys - after.buckets.Keys| <= o.deletedHourly
  {
    PassesLose(p);
    RoundsLose(Cycle.RoundOf(p), Loss(), db, left);
    assert Loss()(db, Cycle.RunCycle(db, p, left).0) == |Gone(db, Cycle.RunCycle(db, p, left).0)|;
  }

  // ---- A run honours its configuration ----

  /**
   A run folds and deletes only rows older than the raw retention that no host shows, deletes only buckets that end before
   the aggregate retention, and if it stops short of its budget it leaves none of either.
   */
  lemma RunHonoursRetention(c: Cycle.RetentionConfig, db: Db, now: Time)
    ensures var (after, o) := Cycle.RunCycle(db, Cycle.PlanAt(c, now), c.maxTransactions);
            && Aged(db, after, now - c.rawRetention, now - c.aggregateRetention, now)
            && (o.transactions < c.maxTransactions ==> NothingDue(after, now - c.rawRetention, now - c.aggregateRetention))
  {
    var p := Cycle.PlanAt(c, now);
    Cycle.AdmittedBounds(c);
    RoundsAge(db, p, c.maxTransactions);
    ShortRunFinishes(db, p, c.maxTransactions);
  }

  lemma ShortRunFinishes(db: Db, p: Cycle.Plan, left: nat)
    requires p.batch > 0
    ensures var (after, o) := Cycle.RunCycle(db, p, left);
            o.transactions < left ==> NothingDue(after, p.rawCutoff, p.aggregateCutoff)
  {
    Cycle.CycleBounded(db, p, left);
    var (after, o) := Cycle.RunCycle(db, p, left);
    if o.transactions < left {
      QuietIsNothingDue(after, p.rawCutoff, p.aggregateCutoff);
    }
  }
}
