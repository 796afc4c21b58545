/** The invariant of Runs is kept by every step, so every reachable state satisfies it. */
module Reachable {
  import opened Basics
  import opened Aggregation
  import opened Schema
  import opened Tally
  import Ingest
  import Lifecycle
  import opened Retention
  import opened Runs

  lemma StartHolds()
    ensures Inv(START)
  {
  }

  // ---- Submitting a report ----

  lemma AcceptedOwned(db: Db, w: ReportWrite, h: Uuid, id: Uuid, now: Time)
    requires Owned(db) && LatestLive(db) && h in db.hosts && id !in db.reports
    ensures Owned(Ingest.Accepted(db, w, h, id, now)) && LatestLive(Ingest.Accepted(db, w, h, id, now))
  {
  }

  lemma AcceptedPayloads(db: Db, w: ReportWrite, h: Uuid, id: Uuid, now: Time)
    requires LatestLive(db) && PayloadsLatest(db)
    requires h in db.hosts && id !in db.reports && w.report.hostId == Some(h) && w.report.reportId == Some(id)
    ensures PayloadsLatest(Ingest.Accepted(db, w, h, id, now))
  {
  }

  lemma AcceptedKeepsRows(db: Db, w: ReportWrite, h: Uuid, id: Uuid, now: Time)
    requires Owned(db) && LatestLive(db) && PayloadsLatest(db)
    requires h in db.hosts && id !in db.reports && w.report.hostId == Some(h) && w.report.reportId == Some(id)
    ensures var after := Ingest.Accepted(db, w, h, id, now);
            Owned(after) && LatestLive(after) && PayloadsLatest(after)
  {
    AcceptedOwned(db, w, h, id, now);
    AcceptedPayloads(db, w, h, id, now);
  }

  lemma AcceptedKeepsLatest(host: Host, all: multiset<Sample>, w: ReportWrite, h: Uuid, id: Uuid, now: Time)
    requires LatestOf(host, all) && (host.latestId.Some? <==> host.latestAt.Some?)
    ensures var s := Sample(id, h, w.report.collectedAt, w.metrics);
            var latest := Ingest.BecomesLatest(host, w.report.collectedAt, id);
            LatestOf(if latest then Ingest.Observed(host, w.report, id, now) else host, all + multiset{s})
  {
    var s := Sample(id, h, w.report.collectedAt, w.metrics);
    assert s in all + multiset{s};
    if host.latestId.Some? && !Ingest.BecomesLatest(host, w.report.collectedAt, id) {
      var t :| t in all && t.reportId == host.latestId.value && t.collectedAt == host.latestAt.value;
      assert t in all + multiset{s};
    }
  }

  lemma ClearedUnmarked(reports: map<Uuid, Row>, previous: Option<Uuid>, id: Uuid, g: Uuid)
    ensures UnmarkedOf(Ingest.Cleared(reports, previous, id), g) == UnmarkedOf(reports, g)
  {
    if previous.Some? && previous.value != id && previous.value in reports {
      var p := previous.value;
      assert SampleOf(p, reports[p].(payload := None)) == SampleOf(p, reports[p]);
    }
  }

  lemma InsertedUnmarked(reports: map<Uuid, Row>, id: Uuid, row: Row)
    requires id !in reports && row.aggregatedAt.None?
    ensures UnmarkedOf(reports[id := row], row.hostId) == UnmarkedOf(reports, row.hostId)[id := One(id, row)]
  {
  }

  lemma InsertedElsewhere(reports: map<Uuid, Row>, id: Uuid, row: Row, g: Uuid)
    requires id !in reports && g != row.hostId
    ensures UnmarkedOf(reports[id := row], g) == UnmarkedOf(reports, g)
  {
  }

  lemma AcceptedUnmarked(db: Db, w: ReportWrite, h: Uuid, id: Uuid, now: Time, g: Uuid)
    requires h in db.hosts && id !in db.reports
    ensures var s := Sample(id, h, w.report.collectedAt, w.metrics);
            UnmarkedOf(Ingest.Accepted(db, w, h, id, now).reports, g)
            == if g == h then UnmarkedOf(db.reports, g)[id := multiset{s}] else UnmarkedOf(db.reports, g)
  {
    var latest := Ingest.BecomesLatest(db.hosts[h], w.report.collectedAt, id);
    var row := Ingest.NewRow(w, h, now, latest);
    if g == h {
      InsertedUnmarked(db.reports, id, row);
    } else {
      InsertedElsewhere(db.reports, id, row, g);
    }
    ClearedUnmarked(db.reports[id := row], db.hosts[h].latestId, id, g);
  }

  lemma AddOne(all: multiset<Sample>, u: multiset<Sample>, f: multiset<Sample>, e: multiset<Sample>, s: multiset<Sample>)
    requires all == u + f + e
    ensures all + s == (s + u) + f + e
  {
  }

  lemma AcceptedConserves(w: World, write: ReportWrite, h: Uuid, id: Uuid, now: Time, after: World)
    requires Conserved(w) && h in w.db.hosts && id !in w.db.reports
    requires var s := Sample(id, h, write.report.collectedAt, write.metrics);
             after == World(Ingest.Accepted(w.db, write, h, id, now),
                            w.past.(accepted := w.past.accepted[h := w.past.accepted[h] + multiset{s}]))
    ensures Conserved(after)
  {
    var s := Sample(id, h, write.report.collectedAt, write.metrics);
    forall g | g in after.db.hosts
      ensures ConservedFor(after, g)
    {
      assert ConservedFor(w, g);
      AcceptedUnmarked(w.db, write, h, id, now, g);
      if g == h {
        assert id !in UnmarkedOf(w.db.reports, h);
        PoolPut(UnmarkedOf(w.db.reports, h), id, multiset{s});
        AddOne(w.past.accepted[h], Pool(UnmarkedOf(w.db.reports, h)), Pool(FoldedOf(w.past.folded, h)), w.past.expired[h],
               multiset{s});
      }
    }
  }

  lemma TouchedKeepsBound(db: Db, w: ReportWrite, h: Uuid, id: Uuid, now: Time, bonds: map<Uuid, Lifecycle.Bond>)
    requires h in db.hosts && Lifecycle.Bound(db, bonds)
    ensures Lifecycle.Bound(Ingest.Accepted(db, w, h, id, now), bonds)
  {
    var after := Ingest.Accepted(db, w, h, id, now);
    forall g | g in bonds
      ensures Lifecycle.BondHolds(after, g, bonds[g])
    {
      assert Lifecycle.BondHolds(db, g, bonds[g]);
    }
  }

  lemma AcceptedMaximum(w: World, write: ReportWrite, h: Uuid, id: Uuid, now: Time, after: World)
    requires LatestLive(w.db) && LatestIsMaximum(w) && h in w.db.hosts
    requires var s := Sample(id, h, write.report.collectedAt, write.metrics);
             after == World(Ingest.Accepted(w.db, write, h, id, now),
                            w.past.(accepted := w.past.accepted[h := w.past.accepted[h] + multiset{s}]))
    ensures LatestIsMaximum(after)
  {
    AcceptedKeepsLatest(w.db.hosts[h], w.past.accepted[h], write, h, id, now);
    forall g | g in after.db.hosts
      ensures LatestOf(after.db.hosts[g], after.past.accepted[g])
    {
      assert LatestOf(w.db.hosts[g], w.past.accepted[g]);
    }
  }

  /** Bucket soundness only looks at the buckets, their contents and which hosts exist. */
  lemma BucketsFrame(w: World, after: World)
    requires BucketsSound(w)
    requires after.db.buckets == w.db.buckets && after.past.folded == w.past.folded
    requires w.db.hosts.Keys <= after.db.hosts.Keys
    ensures BucketsSound(after)
  {
  }

  lemma AcceptKeeps(w: World, write: ReportWrite, h: Uuid, id: Uuid, now: Time, after: World)
    requires Inv(w) && h in w.db.hosts && id !in w.db.reports
    requires write.report.hostId == Some(h) && write.report.reportId == Some(id)
    requires var s := Sample(id, h, write.report.collectedAt, write.metrics);
             after == World(Ingest.Accepted(w.db, write, h, id, now),
                            w.past.(accepted := w.past.accepted[h := w.past.accepted[h] + multiset{s}]))
    ensures Inv(after)
  {
    assert Owned(after.db) && LatestLive(after.db) && PayloadsLatest(after.db) by {
      AcceptedKeepsRows(w.db, write, h, id, now);
    }
    assert LatestIsMaximum(after) by {
      AcceptedMaximum(w, write, h, id, now, after);
    }
    assert Conserved(after) by {
      AcceptedConserves(w, write, h, id, now, after);
    }
    assert Lifecycle.Bound(after.db, after.past.bonds) by {
      TouchedKeepsBound(w.db, write, h, id, now, w.past.bonds);
    }
    assert BucketsSound(after) by {
      BucketsFrame(w, after);
    }
  }

  lemma SubmitRefused(db: Db, past: History, s: Ingest.Submission)
    requires !(Ingest.Store(db, s).1.Stored? && Ingest.Store(db, s).1.accepted)
    ensures Ingest.Store(db, s).0 == db && AfterSubmit(db, past, s) == past
  {
  }

  lemma SubmitAccepted(db: Db, past: History, s: Ingest.Submission)
    requires Ingest.Store(db, s).1.Stored? && Ingest.Store(db, s).1.accepted && past.accepted.Keys == db.hosts.Keys
    ensures s.write.report.hostId.Some? && s.write.report.reportId.Some?
    ensures var h, id := s.write.report.hostId.value, s.write.report.reportId.value;
            var sample := Sample(id, h, s.write.report.collectedAt, s.write.metrics);
            && h in db.hosts && id !in db.reports
            && Ingest.Store(db, s).0 == Ingest.Accepted(db, s.write, h, id, s.now)
            && AfterSubmit(db, past, s) == past.(accepted := past.accepted[h := past.accepted[h] + multiset{sample}])
  {
  }

  lemma SubmitKeeps(w: World, s: Ingest.Submission, after: World)
    requires Inv(w) && after == World(Ingest.Store(w.db, s).0, AfterSubmit(w.db, w.past, s))
    ensures Inv(after)
  {
    if Ingest.Store(w.db, s).1.Stored? && Ingest.Store(w.db, s).1.accepted {
      SubmitAccepted(w.db, w.past, s);
      AcceptKeeps(w, s.write, s.write.report.hostId.value, s.write.report.reportId.value, s.now, after);
    } else {
      SubmitRefused(w.db, w.past, s);
    }
  }

  // ---- Folding rows ----

  lemma RolledRows(db: Db, id: Uuid, now: Time)
    requires Owned(db) && LatestLive(db) && PayloadsLatest(db)
    requires id in db.reports && !IsLatest(db.hosts, id)
    ensures var after := RollRow(db, id, now);
            Owned(after) && LatestLive(after) && PayloadsLatest(after)
  {
  }

  lemma AbsorbedExact(buckets: map<BucketKey, Bucket>, folded: Contents, s: Sample, now: Time)
    requires Exact(buckets, folded)
    ensures Exact(Absorb(buckets, s, now), FoldSample(folded, s))
  {
    var k := BucketOf(s);
    if k in folded {
      CombineIsExact(folded[k], [s]);
    } else {
      assert [] + [s] == [s];
    }
  }

  lemma FoldedPlaced(folded: Contents, hosts: map<Uuid, Host>, s: Sample)
    requires Placed(folded, hosts) && s.hostId in hosts
    ensures Placed(FoldSample(folded, s), hosts)
  {
    forall k | k in FoldSample(folded, s)
      ensures k.hostId in hosts && AllIn(FoldSample(folded, s)[k], k)
    {
      if k != BucketOf(s) {
        assert AllIn(folded[k], k);
      } else if k in folded {
        assert AllIn(folded[k], k);
      }
    }
  }

  lemma RolledUnmarked(reports: map<Uuid, Row>, id: Uuid, now: Time)
    requires id in reports && reports[id].aggregatedAt.None?
    ensures UnmarkedOf(reports[id := reports[id].(aggregatedAt := Some(now))], reports[id].hostId)
            == UnmarkedOf(reports, reports[id].hostId) - {id}
  {
    RolledUnmarkedMap(reports, id, reports[id].(aggregatedAt := Some(now)), reports[id].hostId);
  }

  lemma UnmarkedAt(reports: map<Uuid, Row>, h: Uuid, i: Uuid)
    ensures i in UnmarkedOf(reports, h) <==> i in reports && Unmarked(reports[i], h)
    ensures i in UnmarkedOf(reports, h) ==> UnmarkedOf(reports, h)[i] == One(i, reports[i])
  {
  }

  lemma SameMaps<K, V>(a: map<K, V>, b: map<K, V>)
    requires forall k :: k in a <==> k in b
    requires forall k :: k in a ==> a[k] == b[k]
    ensures a == b
  {
  }

  lemma RolledUnmarkedMap(reports: map<Uuid, Row>, id: Uuid, row: Row, h: Uuid)
    requires id in reports && row.aggregatedAt.Some?
    ensures UnmarkedOf(reports[id := row], h) == UnmarkedOf(reports, h) - {id}
  {
    var after, before := UnmarkedOf(reports[id := row], h), UnmarkedOf(reports, h) - {id};
    forall i: Uuid
      ensures i in after <==> i in before
      ensures i in after ==> after[i] == before[i]
    {
      UnmarkedAt(reports, h, i);
      UnmarkedAt(reports[id := row], h, i);
    }
    SameMaps(after, before);
  }

  lemma RolledElsewhere(reports: map<Uuid, Row>, id: Uuid, now: Time, g: Uuid)
    requires id in reports && g != reports[id].hostId
    ensures UnmarkedOf(reports[id := reports[id].(aggregatedAt := Some(now))], g) == UnmarkedOf(reports, g)
  {
  }

  lemma FoldedSame(folded: Contents, s: Sample)
    ensures var k := BucketOf(s);
            FoldedOf(FoldSample(folded, s), s.hostId)
            == FoldedOf(folded, s.hostId)[k := (if k in folded then multiset(folded[k]) else multiset{}) + multiset{s}]
  {
    var k := BucketOf(s);
    var prior := if k in folded then folded[k] else [];
    assert multiset(prior + [s]) == multiset(prior) + multiset{s};
    MapsAgree(FoldedOf(folded, s.hostId), FoldedOf(FoldSample(folded, s), s.hostId), k, multiset(prior + [s]));
  }

  lemma FoldedElsewhere(folded: Contents, s: Sample, g: Uuid)
    requires g != s.hostId
    ensures FoldedOf(FoldSample(folded, s), g) == FoldedOf(folded, g)
  {
  }

  lemma FoldedPool(folded: Contents, s: Sample)
    ensures Pool(FoldedOf(FoldSample(folded, s), s.hostId)) == multiset{s} + Pool(FoldedOf(folded, s.hostId))
  {
    var k := BucketOf(s);
    var m := FoldedOf(folded, s.hostId);
    FoldedSame(folded, s);
    if k in folded {
      PoolPut(m, k, m[k] + multiset{s});
      PoolTake(m, k);
    } else {
      PoolPut(m, k, multiset{} + multiset{s});
    }
  }

  lemma MoveOne(all: multiset<Sample>, u: multiset<Sample>, f: multiset<Sample>, e: multiset<Sample>, s: multiset<Sample>)
    requires all == (s + u) + f + e
    ensures all == u + (s + f) + e
  {
  }

  lemma RolledConserves(w: World, id: Uuid, now: Time, after: World)
    requires Conserved(w) && id in w.db.reports && w.db.reports[id].aggregatedAt.None?
    requires after.db == RollRow(w.db, id, now)
    requires after.past == w.past.(folded := FoldSample(w.past.folded, SampleOf(id, w.db.reports[id])))
    ensures Conserved(after)
  {
    var s := SampleOf(id, w.db.reports[id]);
    forall g | g in after.db.hosts
      ensures ConservedFor(after, g)
    {
      assert ConservedFor(w, g);
      if g == s.hostId {
        RolledUnmarked(w.db.reports, id, now);
        PoolTake(UnmarkedOf(w.db.reports, g), id);
        FoldedPool(w.past.folded, s);
        MoveOne(w.past.accepted[g], Pool(UnmarkedOf(after.db.reports, g)), Pool(FoldedOf(w.past.folded, g)),
                w.past.expired[g], multiset{s});
      } else {
        RolledElsewhere(w.db.reports, id, now, g);
        FoldedElsewhere(w.past.folded, s, g);
      }
    }
  }

  lemma RollRowKeeps(w: World, id: Uuid, now: Time, after: World)
    requires Inv(w)
    requires MayFold(w.db, id)
    requires after.db == RollRow(w.db, id, now)
    requires after.past == w.past.(folded := FoldSample(w.past.folded, SampleOf(id, w.db.reports[id])))
    ensures Inv(after)
  {
    assert Owned(after.db) && LatestLive(after.db) && PayloadsLatest(after.db) by {
      RolledRows(w.db, id, now);
    }
    assert BucketsSound(after) by {
      AbsorbedExact(w.db.buckets, w.past.folded, SampleOf(id, w.db.reports[id]), now);
      FoldedPlaced(w.past.folded, w.db.hosts, SampleOf(id, w.db.reports[id]));
    }
    assert Conserved(after) by {
      RolledConserves(w, id, now, after);
    }
    assert Lifecycle.Bound(after.db, after.past.bonds) by {
      BoundFrame(w.db, after.db, w.past.bonds);
    }
  }

  /** The correspondence only looks at hosts, credentials, invites and pairings. */
  lemma BoundFrame(db: Db, after: Db, bonds: map<Uuid, Lifecycle.Bond>)
    requires Lifecycle.Bound(db, bonds)
    requires after == db.(reports := after.reports, buckets := after.buckets)
    ensures Lifecycle.Bound(after, bonds)
  {
    forall h | h in bonds
      ensures Lifecycle.BondHolds(after, h, bonds[h])
    {
      assert Lifecycle.BondHolds(db, h, bonds[h]);
    }
  }

  lemma FoldSnoc(db: Db, folded: Contents, ids: seq<Uuid>)
    requires ids != [] && forall i :: 0 <= i < |ids| ==> ids[i] in db.reports
    ensures var n := |ids| - 1;
            FoldAll(folded, Samples(db, ids)) == FoldSample(FoldAll(folded, Samples(db, ids[..n])), SampleOf(ids[n], db.reports[ids[n]]))
  {
    var n := |ids| - 1;
    assert Samples(db, ids)[..n] == Samples(db, ids[..n]);
  }

  predicate MayFold(db: Db, id: Uuid) {
    id in db.reports && db.reports[id].aggregatedAt.None? && !IsLatest(db.hosts, id)
  }

  predicate Foldable(db: Db, ids: seq<Uuid>) {
    && (forall i :: 0 <= i < |ids| ==> ids[i] in db.reports && MayFold(db, ids[i]))
    && (forall i, j :: 0 <= i < j < |ids| ==> ids[i] != ids[j])
  }

  lemma FoldablePrefix(db: Db, ids: seq<Uuid>, n: nat)
    requires Foldable(db, ids) && n <= |ids|
    ensures Foldable(db, ids[..n])
  {
  }

  lemma StillFoldable(db: Db, ids: seq<Uuid>, now: Time)
    requires Foldable(db, ids) && ids != []
    ensures var n := |ids| - 1;
            var mid := RollRows(db, ids[..n], now);
            MayFold(mid, ids[n]) && mid.reports[ids[n]] == db.reports[ids[n]]
  {
    RollRowsUntouched(db, ids[..|ids| - 1], now, ids[|ids| - 1]);
  }

  lemma {:induction false} RollRowsKeeps(w: World, ids: seq<Uuid>, now: Time, after: World)
    requires Inv(w) && Foldable(w.db, ids)
    requires after.db == RollRows(w.db, ids, now)
    requires after.past == w.past.(folded := FoldAll(w.past.folded, Samples(w.db, ids)))
    ensures Inv(after)
    decreases |ids|
  {
    if ids == [] {
      assert after == w;
    } else {
      var n := |ids| - 1;
      FoldablePrefix(w.db, ids, n);
      var mid := World(RollRows(w.db, ids[..n], now), w.past.(folded := FoldAll(w.past.folded, Samples(w.db, ids[..n]))));
      RollRowsKeeps(w, ids[..n], now, mid);
      StillFoldable(w.db, ids, now);
      FoldSnoc(w.db, w.past.folded, ids);
      RollRowKeeps(mid, ids[n], now, after);
    }
  }

  // ---- Deleting rows and buckets ----

  lemma DeleteRawKeeps(w: World, limit: nat)
    requires Inv(w)
    ensures Inv(World(DeleteMarked(w.db, limit).0, w.past))
  {
    var after := World(DeleteMarked(w.db, limit).0, w.past);
    forall i | i in w.db.reports && i !in after.db.reports
      ensures w.db.reports[i].aggregatedAt.Some? && !IsLatest(w.db.hosts, i)
    {
      DeletedIds(w.db, limit, i);
    }
    DroppedKeeps(w, after);
  }

  /** Removing marked rows that no host points to disturbs nothing. */
  lemma DroppedKeeps(w: World, after: World)
    requires Inv(w) && after.past == w.past
    requires after.db == w.db.(reports := after.db.reports)
    requires forall i <- after.db.reports :: i in w.db.reports && after.db.reports[i] == w.db.reports[i]
    requires forall i <- w.db.reports :: i !in after.db.reports ==>
               w.db.reports[i].aggregatedAt.Some? && !IsLatest(w.db.hosts, i)
    ensures Inv(after)
  {
    assert LatestLive(after.db) by {
      forall h | h in w.db.hosts && w.db.hosts[h].latestId.Some?
        ensures w.db.hosts[h].latestId.value in after.db.reports
      {
        assert IsLatest(w.db.hosts, w.db.hosts[h].latestId.value);
      }
    }
    assert Conserved(after) by {
      forall g | g in after.db.hosts
        ensures ConservedFor(after, g)
      {
        assert ConservedFor(w, g);
        DroppedUnmarked(w.db.reports, after.db.reports, g);
      }
    }
    assert Lifecycle.Bound(after.db, after.past.bonds) by {
      BoundFrame(w.db, after.db, w.past.bonds);
    }
    assert BucketsSound(after) by {
      BucketsFrame(w, after);
    }
  }

  lemma DroppedUnmarked(reports: map<Uuid, Row>, after: map<Uuid, Row>, g: Uuid)
    requires forall i <- after :: i in reports && after[i] == reports[i]
    requires forall i <- reports :: i !in after ==> reports[i].aggregatedAt.Some?
    ensures UnmarkedOf(after, g) == UnmarkedOf(reports, g)
  {
  }

  lemma ExpiredFolded(folded: Contents, gone: set<BucketKey>, h: Uuid)
    ensures FoldedOf(folded - gone, h) == FoldedOf(folded, h) - gone
  {
  }

  lemma Regrouped(all: multiset<Sample>, u: multiset<Sample>, f: multiset<Sample>, f': multiset<Sample>, x: multiset<Sample>, e: multiset<Sample>)
    requires all == u + f + e && f == f' + x
    ensures all == u + f' + (e + x)
  {
  }

  lemma ExpiryConserves(w: World, gone: set<BucketKey>, after: World)
    requires Conserved(w)
    requires after == World(w.db.(buckets := w.db.buckets - gone), AfterExpiry(w.past, gone))
    ensures Conserved(after)
  {
    forall h | h in after.db.hosts
      ensures ConservedFor(after, h)
    {
      assert ConservedFor(w, h);
      ExpiredFolded(w.past.folded, gone, h);
      PoolSplit(FoldedOf(w.past.folded, h), gone);
      Regrouped(w.past.accepted[h], Pool(UnmarkedOf(w.db.reports, h)), Pool(FoldedOf(w.past.folded, h)),
                Pool(FoldedOf(after.past.folded, h)), Pool(Within(FoldedOf(w.past.folded, h), gone)), w.past.expired[h]);
    }
  }

  lemma ExpiryExact(buckets: map<BucketKey, Bucket>, folded: Contents, hosts: map<Uuid, Host>, gone: set<BucketKey>)
    requires Exact(buckets, folded) && Placed(folded, hosts)
    ensures Exact(buckets - gone, folded - gone) && Placed(folded - gone, hosts)
  {
  }

  /** Dropping buckets leaves everything that is said of hosts and rows alone. */
  lemma ExpiryFrame(w: World, gone: set<BucketKey>, after: World)
    requires Owned(w.db) && LatestLive(w.db) && PayloadsLatest(w.db) && LatestIsMaximum(w)
    requires Lifecycle.Bound(w.db, w.past.bonds)
    requires after == World(w.db.(buckets := w.db.buckets - gone), AfterExpiry(w.past, gone))
    ensures Owned(after.db) && LatestLive(after.db) && PayloadsLatest(after.db) && LatestIsMaximum(after)
    ensures Lifecycle.Bound(after.db, after.past.bonds)
  {
    BoundFrame(w.db, after.db, w.past.bonds);
  }

  lemma DeleteHourlyKeeps(w: World, gone: set<BucketKey>)
    requires Inv(w)
    ensures Inv(World(w.db.(buckets := w.db.buckets - gone), AfterExpiry(w.past, gone)))
  {
    var after := World(w.db.(buckets := w.db.buckets - gone), AfterExpiry(w.past, gone));
    ExpiryFrame(w, gone, after);
    ExpiryConserves(w, gone, after);
    ExpiryExact(w.db.buckets, w.past.folded, w.db.hosts, gone);
  }

  // ---- Invites, pairings, activation, deletion ----

  /** Steps that touch only invites and pairings leave everything about hosts and reports alone. */
  lemma ProtocolFrame(w: World, after: World)
    requires Inv(w) && after.past == w.past
    requires after.db == w.db.(invites := after.db.invites, pairings := after.db.pairings)
    requires Lifecycle.Bound(after.db, after.past.bonds)
    ensures Inv(after)
  {
    forall h | h in after.db.hosts
      ensures ConservedFor(after, h)
    {
      assert ConservedFor(w, h);
    }
    BucketsFrame(w, after);
  }

  predicate NewHost(host: Host) {
    host.latestId.None? && host.latestAt.None?
  }

  lemma NothingYet(w: World, h: Uuid)
    requires Owned(w.db) && BucketsSound(w) && h !in w.db.hosts
    ensures Pool(UnmarkedOf(w.db.reports, h)) == multiset{} && Pool(FoldedOf(w.past.folded, h)) == multiset{}
  {
    PoolEmpty(UnmarkedOf(w.db.reports, h));
    PoolEmpty(FoldedOf(w.past.folded, h));
  }

  lemma AddedConserves(w: World, after: World, h: Uuid)
    requires Owned(w.db) && BucketsSound(w) && Conserved(w) && h !in w.db.hosts
    requires after.db.hosts.Keys == w.db.hosts.Keys + {h} && after.db.reports == w.db.reports
    requires after.past.folded == w.past.folded
    requires after.past.accepted == w.past.accepted[h := multiset{}] && after.past.expired == w.past.expired[h := multiset{}]
    ensures Conserved(after)
  {
    NothingYet(w, h);
    forall g | g in w.db.hosts
      ensures g in after.past.accepted && g in after.past.expired && ConservedFor(after, g)
    {
      KeptConserved(w, after, g);
    }
    NothingConserved(after, h);
  }

  lemma KeptConserved(w: World, after: World, g: Uuid)
    requires Conserved(w) && g in w.db.hosts && after.db.reports == w.db.reports && after.past.folded == w.past.folded
    requires g in after.past.accepted && after.past.accepted[g] == w.past.accepted[g]
    requires g in after.past.expired && after.past.expired[g] == w.past.expired[g]
    ensures ConservedFor(after, g)
  {
    assert ConservedFor(w, g);
  }

  lemma NothingConserved(w: World, h: Uuid)
    requires h in w.past.accepted && h in w.past.expired && w.past.accepted[h] == multiset{} && w.past.expired[h] == multiset{}
    requires Pool(UnmarkedOf(w.db.reports, h)) == multiset{} && Pool(FoldedOf(w.past.folded, h)) == multiset{}
    ensures ConservedFor(w, h)
  {
  }

  lemma AddedMaximum(w: World, after: World, h: Uuid, host: Host)
    requires LatestIsMaximum(w) && h !in w.db.hosts && NewHost(host)
    requires after.db.hosts == w.db.hosts[h := host] && after.past.accepted == w.past.accepted[h := multiset{}]
    ensures LatestIsMaximum(after)
  {
    forall g | g in after.db.hosts
      ensures LatestOf(after.db.hosts[g], after.past.accepted[g])
    {
      if g != h {
        assert LatestOf(w.db.hosts[g], w.past.accepted[g]);
      }
    }
  }

  lemma AddedRows(db: Db, after: Db, h: Uuid, host: Host)
    requires Owned(db) && LatestLive(db) && PayloadsLatest(db) && h !in db.hosts && NewHost(host)
    requires after.hosts == db.hosts[h := host] && after.reports == db.reports
    ensures Owned(after) && LatestLive(after) && PayloadsLatest(after)
  {
  }

  /** A new host starts with no reports, no buckets and an empty history. */
  lemma HostAdded(w: World, after: World, h: Uuid, host: Host)
    requires Inv(w) && h !in w.db.hosts && NewHost(host)
    requires after.db.hosts == w.db.hosts[h := host] && after.db.reports == w.db.reports && after.db.buckets == w.db.buckets
    requires after.past.folded == w.past.folded
    requires after.past.accepted == w.past.accepted[h := multiset{}] && after.past.expired == w.past.expired[h := multiset{}]
    requires Lifecycle.Bound(after.db, after.past.bonds)
    ensures Inv(after)
  {
    assert BucketsSound(after) by {
      BucketsFrame(w, after);
    }
    assert Conserved(after) by {
      AddedConserves(w, after, h);
    }
    assert LatestIsMaximum(after) by {
      AddedMaximum(w, after, h, host);
    }
    assert Owned(after.db) && LatestLive(after.db) && PayloadsLatest(after.db) by {
      AddedRows(w.db, after.db, h, host);
    }
  }

  /** What an activation that changes the tables adds to the history. */
  lemma BindAdds(db: Db, past: History, q: Uuid, c: Digest, cred: Uuid, now: Time)
    requires Lifecycle.Bound(db, past.bonds)
    requires Lifecycle.Activate(db, q, c, cred, now).0 != db
    ensures var after := Lifecycle.Activate(db, q, c, cred, now).0;
            var i := Lifecycle.ByCode(db.invites, c);
            var h := db.invites[i].instanceId;
            var past' := AfterBind(db, past, q, c, cred, now);
            && q in db.pairings && h !in db.hosts
            && after.hosts == db.hosts[h := Lifecycle.NewHost(db.invites[i], db.pairings[q], now)]
            && after.reports == db.reports && after.buckets == db.buckets
            && past'.folded == past.folded && past'.bonds.Keys == past.bonds.Keys + {h}
  {
  }

  lemma HistoryAdded(past: History, past': History, h: Uuid)
    requires h !in past.bonds
    requires var added := past'.bonds.Keys - past.bonds.Keys;
             && past'.accepted == past.accepted + (map g | g in added :: multiset{})
             && past'.expired == past.expired + (map g | g in added :: multiset{})
    requires past'.bonds.Keys == past.bonds.Keys + {h}
    ensures past'.accepted == past.accepted[h := multiset{}] && past'.expired == past.expired[h := multiset{}]
  {
    assert past'.bonds.Keys - past.bonds.Keys == {h};
  }

  lemma BindNew(w: World, q: Uuid, c: Digest, cred: Uuid, now: Time, after: World)
    requires Inv(w)
    requires after.db == Lifecycle.Activate(w.db, q, c, cred, now).0 && after.db != w.db
    requires after.past == AfterBind(w.db, w.past, q, c, cred, now)
    ensures Inv(after)
  {
    var i := Lifecycle.ByCode(w.db.invites, c);
    var h := w.db.invites[i].instanceId;
    assert Lifecycle.Bound(after.db, after.past.bonds) by {
      Lifecycle.ActivateKeeps(w.db, w.past.bonds, q, c, cred, now);
    }
    BindAdds(w.db, w.past, q, c, cred, now);
    HistoryAdded(w.past, after.past, h);
    HostAdded(w, after, h, Lifecycle.NewHost(w.db.invites[i], w.db.pairings[q], now));
  }

  lemma BindNothing(past: History, past': History)
    requires past' == past.(accepted := past.accepted + (map g | g in past.bonds.Keys - past.bonds.Keys :: multiset{}),
                            expired := past.expired + (map g | g in past.bonds.Keys - past.bonds.Keys :: multiset{}))
    ensures past' == past
  {
    assert past'.accepted == past.accepted && past'.expired == past.expired;
  }

  lemma BindKeeps(w: World, q: Uuid, c: Digest, cred: Uuid, now: Time)
    requires Inv(w)
    ensures Inv(World(Lifecycle.Activate(w.db, q, c, cred, now).0, AfterBind(w.db, w.past, q, c, cred, now)))
  {
    var after := World(Lifecycle.Activate(w.db, q, c, cred, now).0, AfterBind(w.db, w.past, q, c, cred, now));
    if after.db == w.db {
      BindNothing(w.past, after.past);
      assert after == w;
    } else {
      BindNew(w, q, c, cred, now, after);
    }
  }

  lemma RemovedUnmarked(reports: map<Uuid, Row>, h: Uuid, g: Uuid)
    requires g != h
    ensures UnmarkedOf(map i | i in reports && reports[i].hostId != h :: reports[i], g) == UnmarkedOf(reports, g)
  {
  }

  lemma RemovedFolded(folded: Contents, h: Uuid, g: Uuid)
    requires g != h
    ensures FoldedOf(map k | k in folded && k.hostId != h :: folded[k], g) == FoldedOf(folded, g)
  {
  }

  lemma RemovedRows(db: Db, h: Uuid)
    requires Owned(db) && LatestLive(db) && PayloadsLatest(db)
    ensures var after := Lifecycle.DeleteHost(db, h).0;
            Owned(after) && LatestLive(after) && PayloadsLatest(after)
  {
  }

  lemma RemovedBuckets(buckets: map<BucketKey, Bucket>, folded: Contents, hosts: map<Uuid, Host>, h: Uuid)
    requires Exact(buckets, folded) && Placed(folded, hosts)
    ensures var folded' := map k | k in folded && k.hostId != h :: folded[k];
            && Exact(map k | k in buckets && k.hostId != h :: buckets[k], folded')
            && Placed(folded', hosts - {h})
  {
  }

  lemma RemovedConserves(w: World, h: Uuid)
    requires Conserved(w) && h in w.db.hosts
    ensures Conserved(World(Lifecycle.DeleteHost(w.db, h).0, AfterRemove(w.past, h)))
  {
    var after := World(Lifecycle.DeleteHost(w.db, h).0, AfterRemove(w.past, h));
    forall g | g in after.db.hosts
      ensures ConservedFor(after, g)
    {
      assert ConservedFor(w, g);
      RemovedUnmarked(w.db.reports, h, g);
      RemovedFolded(w.past.folded, h, g);
    }
  }

  lemma RemoveKeeps(w: World, h: Uuid)
    requires Inv(w) && h in w.db.hosts
    ensures Inv(World(Lifecycle.DeleteHost(w.db, h).0, AfterRemove(w.past, h)))
  {
    var after := World(Lifecycle.DeleteHost(w.db, h).0, AfterRemove(w.past, h));
    assert Owned(after.db) && LatestLive(after.db) && PayloadsLatest(after.db) by {
      RemovedRows(w.db, h);
    }
    assert BucketsSound(after) by {
      RemovedBuckets(w.db.buckets, w.past.folded, w.db.hosts, h);
    }
    assert Conserved(after) by {
      RemovedConserves(w, h);
    }
    assert Lifecycle.Bound(after.db, after.past.bonds) by {
      Lifecycle.DeleteHostKeeps(w.db, w.past.bonds, h);
    }
  }

  /** Removing a host that is not there changes nothing. */
  lemma RemoveNothing(past: History, hosts: map<Uuid, Host>, h: Uuid)
    requires past.accepted.Keys == hosts.Keys && past.expired.Keys == hosts.Keys && past.bonds.Keys == hosts.Keys
    requires Placed(past.folded, hosts) && h !in hosts
    ensures AfterRemove(past, h) == past
  {
    assert past.accepted - {h} == past.accepted;
    assert past.expired - {h} == past.expired;
    assert past.bonds - {h} == past.bonds;
    assert (map k | k in past.folded && k.hostId != h :: past.folded[k]) == past.folded;
  }

  // ---- Every step, every run ----

  lemma RetentionStepKeeps(w: World, step: Step)
    requires Inv(w) && (step.RollUpBatch? || step.DeleteRawBatch? || step.DeleteHourlyBatch?)
    ensures Inv(Next(w, step))
  {
    match step
    case RollUpBatch(cutoff, now, limit) =>
      var ids := PendingBatch(w.db, cutoff, limit);
      RollRowsKeeps(w, ids, now, Next(w, step));
    case DeleteRawBatch(limit) =>
      DeleteRawKeeps(w, limit);
    case DeleteHourlyBatch(cutoff, limit) =>
      DeleteHourlyKeeps(w, BucketKeys(Page(ExpiredKeys(w.db, cutoff), limit)));
  }

  lemma InviteKeeps(w: World, i: Uuid, n: Uuid, c: Digest, name: string, now: Time)
    requires Inv(w) && Enabled(w.db, Step.Invite(i, n, c, name, now))
    ensures Inv(World(Lifecycle.CreateInvite(w.db, i, n, c, name, now).0, w.past))
  {
    Lifecycle.CreateInviteKeeps(w.db, w.past.bonds, i, n, c, name, now);
    ProtocolFrame(w, World(Lifecycle.CreateInvite(w.db, i, n, c, name, now).0, w.past));
  }

  lemma CancelKeeps(w: World, i: Uuid, at: Time)
    requires Inv(w)
    ensures Inv(World(Lifecycle.CancelInvite(w.db, i, at).0, w.past))
  {
    Lifecycle.CancelInviteKeeps(w.db, w.past.bonds, i, at);
    ProtocolFrame(w, World(Lifecycle.CancelInvite(w.db, i, at).0, w.past));
  }

  lemma PairKeeps(w: World, r: Lifecycle.PairingRequest, q: Uuid, now: Time, createdAt: Time)
    requires Inv(w)
    ensures Inv(World(Lifecycle.CreatePairing(w.db, r, q, now, createdAt).0, w.past))
  {
    Lifecycle.CreatePairingKeeps(w.db, w.past.bonds, r, q, now, createdAt);
    ProtocolFrame(w, World(Lifecycle.CreatePairing(w.db, r, q, now, createdAt).0, w.past));
  }

  /** Only the name of one host changes. */
  predicate Renamed(db: Db, after: Db) {
    && after == db.(hosts := after.hosts) && after.hosts.Keys == db.hosts.Keys
    && forall h <- db.hosts :: after.hosts[h] == db.hosts[h].(name := after.hosts[h].name)
  }

  lemma RenamedRows(db: Db, after: Db)
    requires Owned(db) && LatestLive(db) && PayloadsLatest(db) && Renamed(db, after)
    ensures Owned(after) && LatestLive(after) && PayloadsLatest(after)
  {
  }

  lemma RenamedHistory(w: World, after: World)
    requires LatestIsMaximum(w) && Conserved(w) && Renamed(w.db, after.db) && after.past == w.past
    ensures LatestIsMaximum(after) && Conserved(after)
  {
    forall h | h in after.db.hosts
      ensures LatestOf(after.db.hosts[h], after.past.accepted[h]) && ConservedFor(after, h)
    {
      assert LatestOf(w.db.hosts[h], w.past.accepted[h]) && ConservedFor(w, h);
    }
  }

  lemma RenamedKeeps(w: World, after: World)
    requires Inv(w) && Renamed(w.db, after.db) && after.past == w.past && Lifecycle.Bound(after.db, after.past.bonds)
    ensures Inv(after)
  {
    RenamedRows(w.db, after.db);
    RenamedHistory(w, after);
    BucketsFrame(w, after);
  }

  lemma RenameIsRenamed(db: Db, h: Uuid, name: string)
    ensures Renamed(db, Lifecycle.RenameHost(db, h, name).0)
  {
  }

  lemma RenameKeeps(w: World, h: Uuid, name: string, after: World)
    requires Inv(w) && after == World(Lifecycle.RenameHost(w.db, h, name).0, w.past)
    ensures Inv(after)
  {
    RenameIsRenamed(w.db, h, name);
    Lifecycle.RenameHostKeeps(w.db, w.past.bonds, h, name);
    RenamedKeeps(w, after);
  }

  lemma StepKeeps(w: World, step: Step)
    requires Inv(w) && Enabled(w.db, step)
    ensures Inv(Next(w, step))
  {
    match step
    case Submit(s) => SubmitKeeps(w, s, Next(w, step));
    case Bind(q, c, cred, now) => BindKeeps(w, q, c, cred, now);
    case Remove(h) =>
      if h in w.db.hosts {
        RemoveKeeps(w, h);
      } else {
        RemoveNothing(w.past, w.db.hosts, h);
      }
    case Invite(i, n, c, name, now) => InviteKeeps(w, i, n, c, name, now);
    case Cancel(i, at) => CancelKeeps(w, i, at);
    case Pair(r, q, now, createdAt) => PairKeeps(w, r, q, now, createdAt);
    case Rename(h, name) => RenameKeeps(w, h, name, World(Lifecycle.RenameHost(w.db, h, name).0, w.past));
    case _ => RetentionStepKeeps(w, step);
  }

  /** Every state the server can reach satisfies the invariant. */
  lemma {:induction false} ReachableHolds(steps: seq<Step>)
    requires Possible(START, steps)
    ensures Inv(Run(START, steps))
  {
    if steps == [] {
      StartHolds();
    } else {
      var n := |steps| - 1;
      PossiblePrefix(START, steps, n);
      ReachableHolds(steps[..n]);
      StepKeeps(Run(START, steps[..n]), steps[n]);
    }
  }

  lemma PossiblePrefix(w: World, steps: seq<Step>, n: nat)
    requires Possible(w, steps) && n <= |steps|
    ensures Possible(w, steps[..n])
  {
    forall m | 0 <= m < n
      ensures Enabled(Run(w, steps[..n][..m]).db, steps[..n][m])
    {
      assert steps[..n][..m] == steps[..m];
    }
  }
}
