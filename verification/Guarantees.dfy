/** What the invariant means for the buckets, the counters, the acknowledgements and the current view. */
module Guarantees {
  import opened Basics
  import opened Aggregation
  import opened Schema
  import opened Tally
  import Ingest
  import Lifecycle
  import opened Retention
  import opened Runs
  import opened Reachable

  lemma ReachableBuckets(steps: seq<Step>)
    requires Possible(START, steps)
    ensures BucketsSound(Run(START, steps))
  {
    ReachableHolds(steps);
  }

  lemma ReachableConserved(steps: seq<Step>)
    requires Possible(START, steps)
    ensures Conserved(Run(START, steps))
  {
    ReachableHolds(steps);
  }

  // ---- Buckets ----

  /** Every stored bucket satisfies every CHECK. */
  lemma BucketsSatisfySchema(steps: seq<Step>, k: BucketKey)
    requires Possible(START, steps)
    requires k in Run(START, steps).db.buckets
    ensures var w := Run(START, steps);
            && k in w.past.folded && w.past.folded[k] != []
            && w.db.buckets[k].summary == Direct(w.past.folded[k])
            && SchemaAccepts(k.start, w.db.buckets[k].summary)
  {
    ReachableBuckets(steps);
    var w := Run(START, steps);
    FoldedAccepted(w.past.folded, w.db.hosts, k);
  }

  lemma FoldedAccepted(folded: Contents, hosts: map<Uuid, Host>, k: BucketKey)
    requires Placed(folded, hosts) && k in folded && folded[k] != []
    ensures SchemaAccepts(k.start, Direct(folded[k]))
  {
    assert AllIn(folded[k], k);
    DirectAccepted(folded[k], k.start);
  }

  /** So does the row an upsert tries to insert first: what a batch writes for one host and hour passes every CHECK at its own key. */
  lemma GroupsSatisfySchema(db: Db, cutoff: Time, limit: nat, k: BucketKey)
    requires k in KeysOf(Samples(db, PendingBatch(db, cutoff, limit)))
    ensures SchemaAccepts(k.start, Grouped(Parts(Samples(db, PendingBatch(db, cutoff, limit))))[k])
  {
    var rows := Samples(db, PendingBatch(db, cutoff, limit));
    InBucketOnly(rows, k);
    DirectAccepted(Parts(rows)[k], k.start);
  }

  lemma {:induction false} InBucketOnly(rows: seq<Sample>, k: BucketKey)
    ensures AllIn(InBucket(rows, k), k)
  {
    if rows != [] {
      InBucketOnly(rows[..|rows| - 1], k);
    }
  }

  lemma {:induction false} InPool<K, V>(m: map<K, multiset<V>>, v: V)
    requires v in Pool(m)
    ensures exists k :: k in m && v in m[k]
    decreases |m.Keys|
  {
    var k := Pick(m);
    if v !in m[k] {
      Smaller(m, k);
      InPool(m - {k}, v);
    }
  }

  /** The samples of one hour are exactly those its bucket holds. */
  lemma OneHour(folded: Contents, hosts: map<Uuid, Host>, k: BucketKey, s: Sample)
    requires Placed(folded, hosts) && BucketOf(s) == k
    ensures Pool(FoldedOf(folded, k.hostId))[s] == if k in folded then multiset(folded[k])[s] else 0
  {
    var m := FoldedOf(folded, k.hostId);
    if k in m {
      PoolTake(m, k);
    } else {
      assert m - {k} == m;
    }
    forall j | j in m - {k}
      ensures s !in (m - {k})[j]
    {
      assert AllIn(folded[j], j);
    }
    if s in Pool(m - {k}) {
      InPool(m - {k}, s);
    }
  }

  /** The samples folded into one bucket, none if it does not exist. */
  ghost function Part(folded: Contents, k: BucketKey): multiset<Sample> {
    if k in folded then multiset(folded[k]) else multiset{}
  }

  lemma PartInHour(folded: Contents, hosts: map<Uuid, Host>, k: BucketKey, s: Sample)
    requires Placed(folded, hosts)
    ensures Part(folded, k)[s] == if BucketOf(s) == k then Pool(FoldedOf(folded, k.hostId))[s] else 0
  {
    if BucketOf(s) == k {
      OneHour(folded, hosts, k, s);
    } else if k in folded {
      assert AllIn(folded[k], k);
    }
  }

  lemma SameSummary(w: World, v: World, k: BucketKey)
    requires Exact(w.db.buckets, w.past.folded) && Exact(v.db.buckets, v.past.folded)
    requires Part(w.past.folded, k) == Part(v.past.folded, k) && k in w.db.buckets
    ensures k in v.db.buckets && w.db.buckets[k].summary == v.db.buckets[k].summary
  {
    assert w.past.folded[k][0] in Part(w.past.folded, k);
    DirectPermuted(w.past.folded[k], v.past.folded[k]);
  }

  /** Both states accepted a sample equally often, hold it unfolded equally often and expired it equally often. */
  ghost predicate SameFate(w: World, v: World, s: Sample) {
    && s.hostId in w.past.accepted && s.hostId in v.past.accepted
    && s.hostId in w.past.expired && s.hostId in v.past.expired
    && w.past.accepted[s.hostId][s] == v.past.accepted[s.hostId][s]
    && Pool(UnmarkedOf(w.db.reports, s.hostId))[s] == Pool(UnmarkedOf(v.db.reports, s.hostId))[s]
    && w.past.expired[s.hostId][s] == v.past.expired[s.hostId][s]
  }

  /** A bucket holds every sample of its hour as often as it was accepted and is neither unfolded nor expired. */
  lemma HourContents(w: World, k: BucketKey, s: Sample)
    requires Conserved(w) && BucketsSound(w) && k.hostId in w.db.hosts && BucketOf(s) == k
    ensures Part(w.past.folded, k)[s]
            == w.past.accepted[k.hostId][s] - Pool(UnmarkedOf(w.db.reports, k.hostId))[s] - w.past.expired[k.hostId][s]
  {
    assert ConservedFor(w, k.hostId);
    PartInHour(w.past.folded, w.db.hosts, k, s);
  }

  lemma SamePart(w: World, v: World, k: BucketKey)
    requires Conserved(w) && Conserved(v) && BucketsSound(w) && BucketsSound(v)
    requires k.hostId in w.db.hosts && k.hostId in v.db.hosts
    requires forall s: Sample :: BucketOf(s) == k ==> SameFate(w, v, s)
    ensures Part(w.past.folded, k) == Part(v.past.folded, k)
  {
    forall s
      ensures Part(w.past.folded, k)[s] == Part(v.past.folded, k)[s]
    {
      if BucketOf(s) == k {
        HourContents(w, k, s);
        HourContents(v, k, s);
      } else {
        PartInHour(w.past.folded, w.db.hosts, k, s);
        PartInHour(v.past.folded, v.db.hosts, k, s);
      }
    }
  }

  /**
   Whatever the batch sizes, the moments of the transactions and the order of arrival: two histories that
   accepted the same reports of an hour, still hold the same of them unfolded and expired the same, have the same
   summary of that hour, or both have none. What became of the host's other hours is irrelevant.
   */
  lemma ScheduleDoesNotMatter(left: seq<Step>, right: seq<Step>, k: BucketKey)
    requires Possible(START, left) && Possible(START, right)
    requires k.hostId in Run(START, left).db.hosts && k.hostId in Run(START, right).db.hosts
    requires forall s: Sample :: BucketOf(s) == k ==> SameFate(Run(START, left), Run(START, right), s)
    ensures var w, v := Run(START, left), Run(START, right);
            && (k in w.db.buckets <==> k in v.db.buckets)
            && (k in w.db.buckets ==> w.db.buckets[k].summary == v.db.buckets[k].summary)
  {
    var w, v := Run(START, left), Run(START, right);
    ReachableConserved(left);
    ReachableConserved(right);
    ReachableBuckets(left);
    ReachableBuckets(right);
    SamePart(w, v, k);
    if k in w.db.buckets {
      SameSummary(w, v, k);
    }
    if k in v.db.buckets {
      SameSummary(v, w, k);
    }
  }

  /** The same for all hours of a host at once. */
  lemma HostScheduleDoesNotMatter(left: seq<Step>, right: seq<Step>, h: Uuid, k: BucketKey)
    requires Possible(START, left) && Possible(START, right)
    requires var w, v := Run(START, left), Run(START, right);
             && h in w.db.hosts && h in v.db.hosts
             && h in w.past.accepted && h in v.past.accepted && w.past.accepted[h] == v.past.accepted[h]
             && h in w.past.expired && h in v.past.expired && w.past.expired[h] == v.past.expired[h]
             && Pool(UnmarkedOf(w.db.reports, h)) == Pool(UnmarkedOf(v.db.reports, h))
    requires k.hostId == h
    ensures var w, v := Run(START, left), Run(START, right);
            && (k in w.db.buckets <==> k in v.db.buckets)
            && (k in w.db.buckets ==> w.db.buckets[k].summary == v.db.buckets[k].summary)
  {
    ScheduleDoesNotMatter(left, right, k);
  }

  /** No sample of this hour was in a bucket that expired. */
  ghost predicate NeverExpired(w: World, k: BucketKey) {
    k.hostId in w.past.expired && forall s <- w.past.expired[k.hostId] :: BucketOf(s) != k
  }

  /** These are the accepted rows of one hour without those not folded yet. */
  ghost predicate HoldsAccepted(w: World, k: BucketKey, rows: multiset<Sample>) {
    && k.hostId in w.past.accepted
    && (forall s <- rows :: BucketOf(s) == k)
    && forall s: Sample :: BucketOf(s) == k ==>
         rows[s] + Pool(UnmarkedOf(w.db.reports, k.hostId))[s] == w.past.accepted[k.hostId][s]
  }

  /** An hour of which nothing expired: its bucket is the summary of exactly its accepted rows but the unfolded ones. */
  lemma HourIsComplete(steps: seq<Step>, k: BucketKey)
    requires Possible(START, steps)
    requires k.hostId in Run(START, steps).db.hosts && NeverExpired(Run(START, steps), k)
    ensures var w := Run(START, steps);
            && HoldsAccepted(w, k, Part(w.past.folded, k))
            && (k in w.db.buckets <==> Part(w.past.folded, k) != multiset{})
            && (k in w.db.buckets ==>
                  k in w.past.folded && w.past.folded[k] != [] && w.db.buckets[k].summary == Direct(w.past.folded[k]))
  {
    var w := Run(START, steps);
    ReachableConserved(steps);
    ReachableBuckets(steps);
    forall s: Sample | BucketOf(s) == k
      ensures Part(w.past.folded, k)[s] + Pool(UnmarkedOf(w.db.reports, k.hostId))[s] == w.past.accepted[k.hostId][s]
    {
      HourContents(w, k, s);
    }
    forall s | s in Part(w.past.folded, k)
      ensures BucketOf(s) == k
    {
      PartInHour(w.past.folded, w.db.hosts, k, s);
    }
    if k in w.db.buckets {
      assert w.past.folded[k][0] in Part(w.past.folded, k);
    }
  }

  // ---- Counting ----

  /** Sum of sample_count over the buckets of a table. */
  ghost function SampleTotal(buckets: map<BucketKey, Bucket>): int
    decreases |buckets.Keys|
  {
    if buckets.Keys == {} then 0
    else
      var k := Pick(buckets);
      Smaller(buckets, k);
      buckets[k].summary.samples + SampleTotal(buckets - {k})
  }

  ghost function BucketsOf(buckets: map<BucketKey, Bucket>, h: Uuid): map<BucketKey, Bucket> {
    map k | k in buckets && k.hostId == h :: buckets[k]
  }

  lemma {:induction false} TotalIsPool(buckets: map<BucketKey, Bucket>, m: map<BucketKey, multiset<Sample>>)
    requires buckets.Keys == m.Keys && forall k <- m :: buckets[k].summary.samples == |m[k]|
    ensures SampleTotal(buckets) == |Pool(m)|
    decreases |m.Keys|
  {
    if buckets.Keys != {} {
      var k := Pick(buckets);
      Smaller(m, k);
      PoolTake(m, k);
      TotalIsPool(buckets - {k}, m - {k});
    }
  }

  lemma {:induction false} SingletonPool<K, V>(m: map<K, multiset<V>>)
    requires forall k <- m :: |m[k]| == 1
    ensures |Pool(m)| == |m.Keys|
    decreases |m.Keys|
  {
    if m.Keys != {} {
      var k := Pick(m);
      Smaller(m, k);
      SingletonPool(m - {k});
      assert m.Keys == (m - {k}).Keys + {k};
    }
  }

  /** Rows ever accepted = rows not yet folded + sample counts of live buckets + samples of expired ones. */
  lemma CountsBalance(steps: seq<Step>, h: Uuid)
    requires Possible(START, steps)
    requires h in Run(START, steps).db.hosts
    ensures var w := Run(START, steps);
            && h in w.past.accepted && h in w.past.expired
            && |w.past.accepted[h]| == |UnmarkedOf(w.db.reports, h).Keys|
                                       + SampleTotal(BucketsOf(w.db.buckets, h)) + |w.past.expired[h]|
  {
    ReachableConserved(steps);
    ReachableBuckets(steps);
    var w := Run(START, steps);
    assert ConservedFor(w, h);
    SingletonPool(UnmarkedOf(w.db.reports, h));
    TotalIsFolded(w.db.buckets, w.past.folded, h);
  }

  lemma TotalIsFolded(buckets: map<BucketKey, Bucket>, folded: Contents, h: Uuid)
    requires Exact(buckets, folded)
    ensures SampleTotal(BucketsOf(buckets, h)) == |Pool(FoldedOf(folded, h))|
  {
    assert BucketsOf(buckets, h).Keys == FoldedOf(folded, h).Keys;
    TotalIsPool(BucketsOf(buckets, h), FoldedOf(folded, h));
  }

  // ---- The latest report ----

  /** `get_host` shows the report with the greatest (collected_at, report_id) ever accepted for the host. */
  lemma ViewShowsMaximum(steps: seq<Step>, h: Uuid)
    requires Possible(START, steps)
    requires h in Run(START, steps).db.hosts
    ensures var w := Run(START, steps);
            var view := GetHost(w.db, h);
            && view.Some? && h in w.past.accepted
            && (view.value.1.None? <==> w.past.accepted[h] == multiset{})
            && (view.value.1.Some? ==>
                  var r := view.value.1.value;
                  && r.reportId.Some? && r.hostId == Some(h)
                  && Sample(r.reportId.value, h, r.collectedAt, view.value.0.metrics) in w.past.accepted[h]
                  && forall s <- w.past.accepted[h] :: NotAfter(s, r.collectedAt, r.reportId.value))
  {
    ReachableHolds(steps);
    var w := Run(START, steps);
    assert LatestOf(w.db.hosts[h], w.past.accepted[h]);
    assert Lifecycle.BondHolds(w.db, h, w.past.bonds[h]);
    if w.db.hosts[h].latestId.Some? {
      var i := w.db.hosts[h].latestId.value;
      assert w.db.reports[i].payload.Some?;
      LiveRowAccepted(w, h, i);
    }
  }

  /** An unmarked live row is among the accepted samples of its host. */
  lemma LiveRowAccepted(w: World, h: Uuid, i: Uuid)
    requires Conserved(w) && h in w.db.hosts
    requires i in w.db.reports && w.db.reports[i].hostId == h && w.db.reports[i].aggregatedAt.None?
    ensures SampleOf(i, w.db.reports[i]) in w.past.accepted[h]
  {
    assert ConservedFor(w, h);
    PoolTake(UnmarkedOf(w.db.reports, h), i);
    assert SampleOf(i, w.db.reports[i]) in UnmarkedOf(w.db.reports, h)[i];
  }

  /** The row a latest pointer names is live, the host's own and unfolded; the payload is exactly on that row. */
  lemma LatestRowIsPinned(steps: seq<Step>, h: Uuid)
    requires Possible(START, steps)
    requires h in Run(START, steps).db.hosts
    ensures var db := Run(START, steps).db;
            && (db.hosts[h].latestId.Some? ==>
                  var i := db.hosts[h].latestId.value;
                  i in db.reports && db.reports[i].hostId == h && db.reports[i].aggregatedAt.None?)
            && (forall i <- db.reports :: db.reports[i].hostId == h ==>
                  (db.reports[i].payload.Some? <==> db.hosts[h].latestId == Some(i)))
  {
    ReachableHolds(steps);
  }

  // ---- The life of a row ----

  /** A row the step keeps: the same data and times; its mark is only ever added, by the batch that folds it. */
  predicate Survives(db: Db, step: Step, i: Uuid, after: Db)
    requires i in db.reports
  {
    && i in after.reports
    && SampleOf(i, after.reports[i]) == SampleOf(i, db.reports[i])
    && (db.reports[i].aggregatedAt.Some? ==> after.reports[i].aggregatedAt == db.reports[i].aggregatedAt)
    && (db.reports[i].aggregatedAt.None? ==>
          (after.reports[i].aggregatedAt.Some? <==> step.RollUpBatch? && i in PendingBatch(db, step.cutoff, step.limit)))
  }

  /** While its host lives, a row is removed only after it has been folded, and a row once folded is never folded again. */
  lemma RowLife(db: Db, step: Step, i: Uuid)
    requires i in db.reports && db.reports[i].hostId in NextDb(db, step).hosts
    ensures Survives(db, step, i, NextDb(db, step))
            || (step.DeleteRawBatch? && IsDeletable(db, i) && i !in NextDb(db, step).reports)
    ensures step.RollUpBatch? && db.reports[i].aggregatedAt.Some? ==> i !in PendingBatch(db, step.cutoff, step.limit)
  {
    if step.Submit? {
      Ingest.StoreAcknowledges(db, step.s);
    } else if step.RollUpBatch? {
      FoldedLife(db, step.cutoff, step.now, step.limit, i);
    } else if step.DeleteRawBatch? {
      DeletedLife(db, step.limit, i);
    } else {
      OtherLife(db, step, i);
    }
  }

  lemma DeletedLife(db: Db, limit: nat, i: Uuid)
    requires i in db.reports
    ensures Survives(db, DeleteRawBatch(limit), i, DeleteMarked(db, limit).0)
            || (IsDeletable(db, i) && i !in DeleteMarked(db, limit).0.reports)
  {
    if i in Elements(Ids(Page(DeletableKeys(db), limit))) {
      DeletedIds(db, limit, i);
    }
  }

  lemma OtherLife(db: Db, step: Step, i: Uuid)
    requires i in db.reports && db.reports[i].hostId in NextDb(db, step).hosts
    requires !step.Submit? && !step.RollUpBatch? && !step.DeleteRawBatch?
    ensures Survives(db, step, i, NextDb(db, step))
  {
    if step.Remove? {
      assert step.host in db.hosts ==> db.reports[i].hostId != step.host;
    }
  }

  lemma FoldedLife(db: Db, cutoff: Time, now: Time, limit: nat, i: Uuid)
    requires i in db.reports
    ensures Survives(db, RollUpBatch(cutoff, now, limit), i, RollUp(db, cutoff, now, limit).0)
    ensures db.reports[i].aggregatedAt.Some? ==> i !in PendingBatch(db, cutoff, limit)
  {
    var ids := PendingBatch(db, cutoff, limit);
    RollRowsParts(db, ids, now);
    assert forall n :: 0 <= n < |ids| ==> IsPending(db, ids[n], cutoff);
  }

  /** Nothing younger than the cutoff is ever lost: every sample of a bucket that expires is older. */
  lemma ExpiryHonoursCutoff(steps: seq<Step>, cutoff: Time, limit: nat, k: BucketKey)
    requires Possible(START, steps)
    requires k in Run(START, steps).db.buckets && k !in DeleteExpired(Run(START, steps).db, cutoff, limit).0.buckets
    ensures k in Run(START, steps).past.folded
    ensures forall s <- Run(START, steps).past.folded[k] :: s.collectedAt < cutoff
  {
    ReachableBuckets(steps);
    ExpiredAreOld(Run(START, steps).db, Run(START, steps).past.folded, cutoff, limit, k);
  }

  lemma ExpiredAreOld(db: Db, folded: Contents, cutoff: Time, limit: nat, k: BucketKey)
    requires Exact(db.buckets, folded) && k in db.buckets && k !in DeleteExpired(db, cutoff, limit).0.buckets
    ensures k in folded && forall s <- folded[k] :: s.collectedAt < cutoff
  {
    OnlyOldExpire(db, cutoff, limit, k);
    var rows := folded[k];
    assert db.buckets[k].summary == Direct(rows);
    forall s | s in rows
      ensures s.collectedAt < cutoff
    {
      var i :| 0 <= i < |rows| && rows[i] == s;
      assert s.collectedAt <= Latest(rows);
    }
  }

  lemma OnlyOldExpire(db: Db, cutoff: Time, limit: nat, k: BucketKey)
    requires k in db.buckets && k !in DeleteExpired(db, cutoff, limit).0.buckets
    ensures db.buckets[k].summary.end < cutoff
  {
    var q := Page(ExpiredKeys(db, cutoff), limit);
    var x :| x in q && BucketKey(x.middle, x.minor) == k;
    assert x in ExpiredKeys(db, cutoff);
  }

  // ---- Acknowledgements over whole runs ----

  /** The step is a submission of this report id that is answered `accepted`. */
  predicate AcceptsStep(db: Db, step: Step, id: Uuid) {
    step.Submit? && Ingest.AcceptsFor(step.s, Ingest.Store(db, step.s).1, id) == 1
  }

  lemma OthersAddNoRow(db: Db, step: Step, id: Uuid)
    requires !step.Submit? && id in NextDb(db, step).reports
    ensures id in db.reports
  {
    match step
    case RollUpBatch(cutoff, now, limit) =>
    case DeleteRawBatch(limit) =>
    case Remove(h) =>
    case Bind(q, c, cred, now) =>
    case _ =>
  }

  /** Only an accepted submission creates a row, and it always does. */
  lemma RowsComeFromAcceptance(w: World, step: Step, id: Uuid)
    ensures AcceptsStep(w.db, step, id) <==> id !in w.db.reports && id in Next(w, step).db.reports
  {
    if step.Submit? {
      Ingest.StoreAcknowledges(w.db, step.s);
      NewRowIsAccepted(w.db, step.s, id);
    } else if id in Next(w, step).db.reports {
      OthersAddNoRow(w.db, step, id);
    }
  }

  lemma NewRowIsAccepted(db: Db, s: Ingest.Submission, id: Uuid)
    ensures Ingest.AcceptsFor(s, Ingest.Store(db, s).1, id) == 1 <==> id !in db.reports && id in Ingest.Store(db, s).0.reports
  {
  }

  ghost function Acceptances(w: World, steps: seq<Step>, id: Uuid): nat {
    if steps == [] then 0
    else
      var n := |steps| - 1;
      Acceptances(w, steps[..n], id) + if AcceptsStep(Run(w, steps[..n]).db, steps[n], id) then 1 else 0
  }

  ghost function Removals(w: World, steps: seq<Step>, id: Uuid): nat {
    if steps == [] then 0
    else
      var n := |steps| - 1;
      Removals(w, steps[..n], id)
      + if id in Run(w, steps[..n]).db.reports && id !in Run(w, steps).db.reports then 1 else 0
  }

  /** A report id is answered `accepted` once per life of its row: acceptances and removals alternate. */
  lemma {:induction false} AcceptedOncePerLife(steps: seq<Step>, id: Uuid)
    ensures Acceptances(START, steps, id) == Removals(START, steps, id) + if id in Run(START, steps).db.reports then 1 else 0
  {
    if steps != [] {
      var n := |steps| - 1;
      AcceptedOncePerLife(steps[..n], id);
      RowsComeFromAcceptance(Run(START, steps[..n]), steps[n], id);
    }
  }
}
