/** What retention forgets: a deleted report is accepted again, and an expired hour is created again. */
module Replay {
  import opened Basics
  import opened Aggregation
  import opened Schema
  import Ingest
  import Lifecycle
  import opened Retention
  import opened Runs
  import Guarantees

  // ---- When a bucket comes into being ----

  lemma {:induction false} AbsorbedKeys(buckets: map<BucketKey, Bucket>, rows: seq<Sample>, now: Time)
    ensures AbsorbAll(buckets, rows, now).Keys == buckets.Keys + KeysOf(rows)
  {
    if rows != [] {
      var n := |rows| - 1;
      AbsorbedKeys(buckets, rows[..n], now);
      KeysOfSnoc(rows[..n], rows[n]);
      assert rows == rows[..n] + [rows[n]];
    }
  }

  /** The batch of a fold has a row of this host and hour. */
  predicate FoldsInto(db: Db, step: Step, k: BucketKey) {
    step.RollUpBatch? && exists i <- PendingBatch(db, step.cutoff, step.limit) :: i in db.reports && BucketOf(SampleOf(i, db.reports[i])) == k
  }

  /** A bucket is new after a step exactly when the step folds a row of its hour, whether or not the hour once expired. */
  lemma NewBucketExactly(db: Db, step: Step, k: BucketKey)
    ensures k !in db.buckets && k in NextDb(db, step).buckets <==> k !in db.buckets && FoldsInto(db, step, k)
  {
    if step.RollUpBatch? {
      var ids := PendingBatch(db, step.cutoff, step.limit);
      RollRowsParts(db, ids, step.now);
      AbsorbedKeys(db.buckets, Samples(db, ids), step.now);
      SampledHour(db, ids, k);
    }
  }

  lemma SampledHour(db: Db, ids: seq<Uuid>, k: BucketKey)
    requires forall n :: 0 <= n < |ids| ==> ids[n] in db.reports
    ensures k in KeysOf(Samples(db, ids)) <==> exists i <- ids :: i in db.reports && BucketOf(SampleOf(i, db.reports[i])) == k
  {
    var rows := Samples(db, ids);
    if i :| i in ids && BucketOf(SampleOf(i, db.reports[i])) == k {
      var n :| 0 <= n < |ids| && ids[n] == i;
      assert BucketOf(rows[n]) == k;
    }
  }

  // ---- One report, stored and folded twice ----

  /** Two submissions of one host, the second with a later report. */
  datatype Scene = Scene(older: Ingest.Submission, newer: Ingest.Submission)

  predicate Fits(x: Scene) {
    var a, b := x.older.write.report, x.newer.write.report;
    && a.hostId.Some? && b.hostId == a.hostId && x.newer.write.tokenHash == x.older.write.tokenHash
    && a.reportId.Some? && b.reportId.Some? && a.reportId != b.reportId && a.collectedAt < b.collectedAt
    && x.older.fault.None? && x.newer.fault.None?
  }

  type Story = x: Scene | Fits(x)
    witness Scene(Sent(1, 1), Sent(2, 2))

  function Sent(id: Uuid, at: Time): Ingest.Submission {
    Ingest.Submission(ReportWrite(Report(Some(id), Some(0), 1, at, Device("", None, None, "", ""), 1.0, [], 0), 0, NO_METRICS), 0, None)
  }

  function HostOf(x: Story): Uuid { x.older.write.report.hostId.value }
  function IdOf(x: Story): Uuid { x.older.write.report.reportId.value }
  function NewerId(x: Story): Uuid { x.newer.write.report.reportId.value }
  function Hour(x: Story): BucketKey { BucketKey(HostOf(x), HourOf(x.older.write.report.collectedAt)) }

  function OlderRow(x: Story): Row { Ingest.NewRow(x.older.write, HostOf(x), x.older.now, false) }
  function NewerRow(x: Story): Row { Ingest.NewRow(x.newer.write, HostOf(x), x.newer.now, true) }

  /** The one host, with a valid token and these rows and buckets. */
  predicate Serves(x: Story, db: Db, latest: Option<Report>, reports: map<Uuid, Row>, buckets: map<BucketKey, Bucket>) {
    && Ingest.Authorized(db, HostOf(x), x.older.write.tokenHash)
    && db.hosts.Keys == {HostOf(x)} && db.reports == reports && db.buckets == buckets
    && (if latest.None? then db.hosts[HostOf(x)].latestId.None? && db.hosts[HostOf(x)].latestAt.None?
        else db.hosts[HostOf(x)].latestId == latest.value.reportId && db.hosts[HostOf(x)].latestAt == Some(latest.value.collectedAt))
  }

  /** The bucket the older report alone makes. */
  function HourBucket(x: Story, now: Time): map<BucketKey, Bucket> {
    map[Hour(x) := Bucket(Direct([SampleOf(IdOf(x), OlderRow(x))]), now)]
  }

  predicate Paired(x: Story, db: Db) {
    Serves(x, db, None, map[], map[])
  }

  predicate OlderStored(x: Story, db: Db) {
    Serves(x, db, Some(x.older.write.report), map[IdOf(x) := Ingest.NewRow(x.older.write, HostOf(x), x.older.now, true)], map[])
  }

  predicate BothStored(x: Story, db: Db) {
    Serves(x, db, Some(x.newer.write.report), map[IdOf(x) := OlderRow(x), NewerId(x) := NewerRow(x)], map[])
  }

  predicate Folded(x: Story, db: Db, now: Time) {
    Serves(x, db, Some(x.newer.write.report), map[IdOf(x) := OlderRow(x).(aggregatedAt := Some(now)), NewerId(x) := NewerRow(x)], HourBucket(x, now))
  }

  predicate OlderDeleted(x: Story, db: Db, buckets: map<BucketKey, Bucket>) {
    Serves(x, db, Some(x.newer.write.report), map[NewerId(x) := NewerRow(x)], buckets)
  }

  lemma StoreOlder(x: Story, db: Db)
    requires Paired(x, db)
    ensures OlderStored(x, Ingest.Store(db, x.older).0)
  {
    StaysAuthorized(x, db, x.older);
  }

  lemma StoreNewer(x: Story, db: Db)
    requires OlderStored(x, db)
    ensures BothStored(x, Ingest.Store(db, x.newer).0)
  {
    StaysAuthorized(x, db, x.newer);
  }

  /** The row is gone, so its report is new once more. */
  lemma StoreAgain(x: Story, db: Db)
    requires OlderDeleted(x, db, map[])
    ensures BothStored(x, Ingest.Store(db, x.older).0)
  {
    StaysAuthorized(x, db, x.older);
  }

  lemma StaysAuthorized(x: Story, db: Db, s: Ingest.Submission)
    requires Ingest.Authorized(db, HostOf(x), x.older.write.tokenHash)
    ensures Ingest.Authorized(Ingest.Store(db, s).0, HostOf(x), x.older.write.tokenHash)
  {
    var h, token := HostOf(x), x.older.write.tokenHash;
    var after := Ingest.Store(db, s).0;
    var c :| c in db.credentials && db.credentials[c].hostId == h && db.credentials[c].tokenHash == token && db.credentials[c].revokedAt.None?;
    assert c in after.credentials && after.credentials[c].hostId == h && after.credentials[c].tokenHash == token
           && after.credentials[c].revokedAt.None?;
  }

  lemma OnlyLatest(x: Story, db: Db)
    requires db.hosts.Keys == {HostOf(x)} && db.hosts[HostOf(x)].latestId == Some(NewerId(x))
    ensures IsLatest(db.hosts, NewerId(x)) && !IsLatest(db.hosts, IdOf(x))
  {
    assert HostOf(x) in db.hosts;
  }

  lemma OlderPending(x: Story, db: Db, cutoff: Time)
    requires IsLatest(db.hosts, NewerId(x)) && !IsLatest(db.hosts, IdOf(x))
    requires db.reports == map[IdOf(x) := OlderRow(x), NewerId(x) := NewerRow(x)] && x.older.write.report.collectedAt < cutoff
    ensures PendingKeys(db, cutoff) == {OrderKey(x.older.write.report.collectedAt, IdOf(x), 0)}
  {
    assert IsPending(db, IdOf(x), cutoff);
    assert forall i :: IsPending(db, i, cutoff) ==> i == IdOf(x);
  }

  lemma OlderDeletable(x: Story, db: Db, now: Time)
    requires !IsLatest(db.hosts, IdOf(x))
    requires db.reports == map[IdOf(x) := OlderRow(x).(aggregatedAt := Some(now)), NewerId(x) := NewerRow(x)]
    ensures DeletableKeys(db) == {OrderKey(now, IdOf(x), 0)}
  {
    assert IsDeletable(db, IdOf(x));
    assert forall i :: IsDeletable(db, i) ==> i == IdOf(x);
  }

  function FoldStep(x: Story, now: Time): Step {
    RollUpBatch(x.older.write.report.collectedAt + 1, now, 1)
  }

  lemma FoldOlder(x: Story, db: Db, now: Time)
    requires BothStored(x, db)
    ensures Folded(x, NextDb(db, FoldStep(x, now)), now)
  {
    BatchIsOlder(x, db);
    FoldOne(db, x.older.write.report.collectedAt + 1, now, IdOf(x));
    RolledIsFolded(x, db, now);
  }

  lemma RolledIsFolded(x: Story, db: Db, now: Time)
    requires BothStored(x, db)
    ensures Folded(x, RollRow(db, IdOf(x), now), now)
  {
    assert Absorb(db.buckets, SampleOf(IdOf(x), OlderRow(x)), now) == HourBucket(x, now);
  }

  lemma BatchIsOlder(x: Story, db: Db)
    requires BothStored(x, db)
    ensures PendingBatch(db, x.older.write.report.collectedAt + 1, 1) == [IdOf(x)]
  {
    var at := x.older.write.report.collectedAt;
    OnlyLatest(x, db);
    OlderPending(x, db, at + 1);
    OneKey(OrderKey(at, IdOf(x), 0));
  }

  lemma FoldOne(db: Db, cutoff: Time, now: Time, i: Uuid)
    requires PendingBatch(db, cutoff, 1) == [i]
    ensures i in db.reports && NextDb(db, RollUpBatch(cutoff, now, 1)) == RollRow(db, i, now)
  {
    var ids := PendingBatch(db, cutoff, 1);
    assert ids[0] in db.reports;
    RollOne(db, ids, now);
  }

  lemma RollOne(db: Db, ids: seq<Uuid>, now: Time)
    requires |ids| == 1 && ids[0] in db.reports
    ensures RollRows(db, ids, now) == RollRow(db, ids[0], now)
  {
    assert ids[..0] == [];
  }

  lemma OneKey(k: OrderKey)
    ensures Page({k}, 1) == [k]
  {
    assert {k} - {k} == {};
  }

  lemma DeleteOlder(x: Story, db: Db, now: Time)
    requires Folded(x, db, now)
    ensures OlderDeleted(x, NextDb(db, DeleteRawBatch(1)), HourBucket(x, now))
  {
    OnlyLatest(x, db);
    OlderDeletable(x, db, now);
    OneKey(OrderKey(now, IdOf(x), 0));
    assert Ids([OrderKey(now, IdOf(x), 0)]) == [IdOf(x)];
  }

  lemma ExpireHour(x: Story, db: Db, now: Time)
    requires OlderDeleted(x, db, HourBucket(x, now))
    ensures OlderDeleted(x, NextDb(db, ExpireStep(x)), map[])
  {
    var t := x.older.write.report.collectedAt;
    HourExpired(db, Hour(x), db.buckets[Hour(x)], t);
    OneKey(OrderKey(t, HostOf(x), HourOf(t)));
    assert BucketKeys([OrderKey(t, HostOf(x), HourOf(t))]) == {Hour(x)};
  }

  lemma HourExpired(db: Db, k: BucketKey, b: Bucket, t: Time)
    requires db.buckets == map[k := b] && b.summary.end == t
    ensures ExpiredKeys(db, t + 1) == {OrderKey(t, k.hostId, k.start)}
  {
    assert ExpiredKeys(db, t + 1) == set j | j in {k} :: OrderKey(t, j.hostId, j.start);
  }

  function ExpireStep(x: Story): Step {
    DeleteHourlyBatch(x.older.write.report.collectedAt + 1, 1)
  }

  // ---- The run ----

  /** One more step of a run, and what it means for the acceptances of a report. */
  lemma Extend(steps: seq<Step>, step: Step, id: Uuid)
    requires Possible(START, steps) && Enabled(Run(START, steps).db, step)
    ensures Possible(START, steps + [step]) && Run(START, steps + [step]).db == NextDb(Run(START, steps).db, step)
    ensures Guarantees.Acceptances(START, steps + [step], id)
            == Guarantees.Acceptances(START, steps, id)
               + if id !in Run(START, steps).db.reports && id in Run(START, steps + [step]).db.reports then 1 else 0
  {
    var all := steps + [step];
    assert all[..|steps|] == steps;
    forall n | 0 <= n < |all|
      ensures Enabled(Run(START, all[..n]).db, all[n])
    {
      if n < |steps| {
        assert all[..n] == steps[..n];
      }
    }
    Guarantees.RowsComeFromAcceptance(Run(START, steps), step, id);
  }

  /** The one invite has been created, the one request made. */
  predicate Invited(db: Db, h: Uuid) {
    db == EMPTY_DB.(invites := map[0 := Invite.Invite(h, 0, "", Pending, 0, None, None)])
  }

  predicate Requested(db: Db, h: Uuid, r: Lifecycle.PairingRequest) {
    r.deviceId.Some? && db == EMPTY_DB.(invites := map[0 := Invite.Invite(h, 0, "", Pending, 0, None, None)],
                                        pairings := map[0 := Lifecycle.NewPairing(r, r.deviceId.value, 0)])
  }

  function FirstInvite(h: Uuid): Step {
    Step.Invite(0, h, 0, "", 0)
  }

  lemma FirstInvited(h: Uuid)
    ensures Invited(NextDb(EMPTY_DB, FirstInvite(h)), h) && Enabled(EMPTY_DB, FirstInvite(h))
  {
  }

  lemma Beginning(steps: seq<Step>, id: Uuid)
    requires steps == []
    ensures Possible(START, steps) && Run(START, steps).db == EMPTY_DB && Guarantees.Acceptances(START, steps, id) == 0
  {
  }

  lemma InviteFirst(h: Uuid, id: Uuid) returns (steps: seq<Step>)
    ensures Possible(START, steps) && Invited(Run(START, steps).db, h) && Guarantees.Acceptances(START, steps, id) == 0
  {
    steps := [];
    Beginning(steps, id);
    FirstInvited(h);
    Extend(steps, FirstInvite(h), id);
    steps := steps + [FirstInvite(h)];
  }

  lemma RequestFirst(h: Uuid, r: Lifecycle.PairingRequest, id: Uuid) returns (steps: seq<Step>)
    requires r.deviceId.Some?
    ensures Possible(START, steps) && Requested(Run(START, steps).db, h, r) && Guarantees.Acceptances(START, steps, id) == 0
  {
    var front := InviteFirst(h, id);
    PairFirst(Run(START, front).db, r);
    Extend(front, Pair(r, 0, 0, 0), id);
    steps := front + [Pair(r, 0, 0, 0)];
  }

  lemma Prepare(x: Story) returns (steps: seq<Step>)
    ensures Possible(START, steps) && Paired(x, Run(START, steps).db) && Guarantees.Acceptances(START, steps, IdOf(x)) == 0
  {
    var r := Lifecycle.PairingRequest(Some(0), x.older.write.report.device, x.older.write.tokenHash, 0);
    var front := RequestFirst(HostOf(x), r, IdOf(x));
    BindFirst(Run(START, front).db, HostOf(x), r.tokenHash);
    Extend(front, Bind(0, 0, 0, 0), IdOf(x));
    steps := front + [Bind(0, 0, 0, 0)];
  }

  lemma PairFirst(db: Db, r: Lifecycle.PairingRequest)
    requires db.pairings == map[] && r.deviceId.Some?
    ensures NextDb(db, Pair(r, 0, 0, 0)) == db.(pairings := map[0 := Lifecycle.NewPairing(r, r.deviceId.value, 0)])
  {
    assert Lifecycle.Cleaned(db.pairings, 0) == map[];
    assert Lifecycle.LivePairings(db.pairings, 0) == {};
    assert Lifecycle.LiveForDevice(db.pairings, r.deviceId.value, 0) == {};
  }

  lemma BindFirst(db: Db, h: Uuid, token: Digest)
    requires db.invites.Keys == {0} && db.pairings.Keys == {0} && db.hosts == map[] && db.credentials == map[]
    requires db.invites[0].instanceId == h && db.invites[0].codeHash == 0 && db.invites[0].status == Pending
    requires db.pairings[0].tokenHash == token && db.pairings[0].status == Pending && db.pairings[0].expiresAt > 0
    ensures NextDb(db, Bind(0, 0, 0, 0)) == Lifecycle.ActivatedTables(db, 0, 0, 0, 0)
    ensures Ingest.Authorized(NextDb(db, Bind(0, 0, 0, 0)), h, token)
  {
    assert Lifecycle.ByCode(db.invites, 0) == 0;
    assert 0 in Lifecycle.ActivatedTables(db, 0, 0, 0, 0).credentials;
  }

  /** The older row is deleted and its hour expires. */
  lemma Forget(x: Story, stored: seq<Step>) returns (gone: seq<Step>)
    requires Possible(START, stored) && Folded(x, Run(START, stored).db, 0)
    ensures stored <= gone && Possible(START, gone) && OlderDeleted(x, Run(START, gone).db, map[])
    ensures Guarantees.Acceptances(START, gone, IdOf(x)) == Guarantees.Acceptances(START, stored, IdOf(x))
  {
    var deleted := stored + [DeleteRawBatch(1)];
    Extend(stored, DeleteRawBatch(1), IdOf(x));
    DeleteOlder(x, Run(START, stored).db, 0);
    Extend(deleted, ExpireStep(x), IdOf(x));
    ExpireHour(x, Run(START, deleted).db, 0);
    gone := deleted + [ExpireStep(x)];
  }

  lemma Fold(x: Story, steps: seq<Step>) returns (folded: seq<Step>)
    requires Possible(START, steps) && BothStored(x, Run(START, steps).db)
    ensures folded == steps + [FoldStep(x, 0)] && Possible(START, folded) && Folded(x, Run(START, folded).db, 0)
    ensures Guarantees.Acceptances(START, folded, IdOf(x)) == Guarantees.Acceptances(START, steps, IdOf(x))
  {
    folded := steps + [FoldStep(x, 0)];
    Extend(steps, FoldStep(x, 0), IdOf(x));
    FoldOlder(x, Run(START, steps).db, 0);
  }

  /** The older report, then the newer one. */
  lemma StoreBoth(x: Story) returns (steps: seq<Step>)
    ensures Possible(START, steps) && Submit(x.older) in steps && BothStored(x, Run(START, steps).db)
    ensures Guarantees.Acceptances(START, steps, IdOf(x)) == 1
  {
    var paired := Prepare(x);
    var one := paired + [Submit(x.older)];
    Extend(paired, Submit(x.older), IdOf(x));
    StoreOlder(x, Run(START, paired).db);
    Extend(one, Submit(x.newer), IdOf(x));
    StoreNewer(x, Run(START, one).db);
    steps := one + [Submit(x.newer)];
  }

  predicate Both(x: Story, db: Db) {
    IdOf(x) in db.reports && Hour(x) in db.buckets
  }

  predicate Neither(x: Story, db: Db) {
    IdOf(x) !in db.reports && Hour(x) !in db.buckets
  }

  /** The same submission again, and another fold. */
  lemma Resend(x: Story, gone: seq<Step>) returns (again: seq<Step>)
    requires Possible(START, gone) && OlderDeleted(x, Run(START, gone).db, map[])
    ensures again == gone + [Submit(x.older)] + [FoldStep(x, 0)] && Possible(START, again) && Both(x, Run(START, again).db)
    ensures Guarantees.Acceptances(START, again, IdOf(x)) == Guarantees.Acceptances(START, gone, IdOf(x)) + 1
  {
    var resent := gone + [Submit(x.older)];
    Extend(gone, Submit(x.older), IdOf(x));
    StoreAgain(x, Run(START, gone).db);
    again := Fold(x, resent);
  }

  /** A run and two of its prefixes. */
  datatype Lives = Lives(stored: seq<Step>, gone: seq<Step>, again: seq<Step>)

  /** The report and its hour are there, then neither is, and after the same submission and one fold both are again. */
  ghost predicate TwoLives(x: Story, r: Lives) {
    && r.stored <= r.gone && r.again == r.gone + [Submit(x.older)] + [FoldStep(x, 0)] && Possible(START, r.again)
    && Submit(x.older) in r.stored
    && Both(x, Run(START, r.stored).db) && Neither(x, Run(START, r.gone).db) && Both(x, Run(START, r.again).db)
  }

  /**
   For every report of a host that is followed by a newer one there is a run in which it is stored and folded, its row
   deleted and its hour expired; the same submission is then accepted once more and the hour has a bucket again.
   */
  lemma AcceptedAndFoldedTwice(x: Story) returns (r: Lives)
    ensures TwoLives(x, r)
    ensures Guarantees.Acceptances(START, r.gone, IdOf(x)) == 1 && Guarantees.Acceptances(START, r.again, IdOf(x)) == 2
  {
    var stored := StoreBoth(x);
    stored := Fold(x, stored);
    var gone := Forget(x, stored);
    var again := Resend(x, gone);
    r := Lives(stored, gone, again);
  }
}
