/**
 Retention cannot be seen in the current view: a server that folds and deletes rows answers `get_host` and
 `list_hosts` exactly like one that never does, even when deleted reports are sent and accepted again.
 */
module Invisible {
  import opened Basics
  import opened Schema
  import Ingest
  import Lifecycle
  import opened Retention
  import opened Runs

  predicate IsRetention(step: Step) {
    step.RollUpBatch? || step.DeleteRawBatch? || step.DeleteHourlyBatch?
  }

  /** The tables after a run. */
  ghost function RunDb(db: Db, steps: seq<Step>): Db {
    if steps == [] then db else NextDb(RunDb(db, steps[..|steps| - 1]), steps[|steps| - 1])
  }

  /** The tables after the same run on a server whose retention worker never does anything. */
  ghost function RunWithout(db: Db, steps: seq<Step>): Db {
    if steps == [] then db
    else
      var before := RunWithout(db, steps[..|steps| - 1]);
      var step := steps[|steps| - 1];
      if IsRetention(step) then before else NextDb(before, step)
  }

  lemma {:induction false} RunDbIsRun(w: World, steps: seq<Step>)
    ensures RunDb(w.db, steps) == Run(w, steps).db
  {
    if steps != [] {
      RunDbIsRun(w, steps[..|steps| - 1]);
    }
  }

  /** What identifies the origin of a report id: its host and its collection time. */
  type Stamps = Uuid -> (Option<Uuid>, Time)

  predicate Follows(step: Step, stamps: Stamps) {
    step.Submit? && step.s.write.report.reportId.Some? ==>
      var r := step.s.write.report;
      stamps(r.reportId.value) == (r.hostId, r.collectedAt)
  }

  // ---- The relation between the two servers ----

  ghost function Erased(credentials: map<Uuid, Credential>): map<Uuid, Credential> {
    map c | c in credentials :: credentials[c].(lastUsedAt := None)
  }

  /** The full server's rows are also in the other, and both agree on the rows the hosts point to. */
  predicate RowsRelated(a: Db, b: Db) {
    && (forall i <- a.reports :: i in b.reports && a.reports[i].hostId == b.reports[i].hostId)
    && (forall h <- a.hosts :: a.hosts[h].latestId.Some? ==>
          var i := a.hosts[h].latestId.value;
          i in a.reports && a.reports[i].hostId == h && i in b.reports && a.reports[i] == b.reports[i])
  }

  /** Rows that were never deleted are stamped, owned, and not after their host's latest report. */
  predicate RowsStamped(b: Db, stamps: Stamps) {
    forall i <- b.reports ::
      var row := b.reports[i];
      && stamps(i) == (Some(row.hostId), row.collectedAt)
      && row.hostId in b.hosts
      && BehindLatest(b.hosts[row.hostId], row.collectedAt, i)
  }

  predicate BehindLatest(host: Host, at: Time, id: Uuid) {
    && host.latestAt.Some? && host.latestId.Some?
    && (at < host.latestAt.value || (at == host.latestAt.value && id <= host.latestId.value))
  }

  predicate LatestPaired(hosts: map<Uuid, Host>) {
    forall h <- hosts :: hosts[h].latestId.Some? <==> hosts[h].latestAt.Some?
  }

  ghost predicate Related(a: Db, b: Db, stamps: Stamps) {
    && a.hosts == b.hosts && LatestPaired(a.hosts)
    && a.invites == b.invites && a.pairings == b.pairings
    && Erased(a.credentials) == Erased(b.credentials)
    && RowsRelated(a, b)
    && RowsStamped(b, stamps)
  }

  // ---- Retention steps on the full server alone ----

  lemma {:induction false} RolledLatest(db: Db, ids: seq<Uuid>, now: Time, i: Uuid)
    requires forall n :: 0 <= n < |ids| ==> ids[n] in db.reports && !IsLatest(db.hosts, ids[n])
    requires i in db.reports
    ensures RollRows(db, ids, now).reports[i].hostId == db.reports[i].hostId
    ensures IsLatest(db.hosts, i) ==> RollRows(db, ids, now).reports[i] == db.reports[i]
  {
    if ids != [] {
      RolledLatest(db, ids[..|ids| - 1], now, i);
    }
  }

  /** Changing or dropping rows that no host points to is invisible. */
  lemma OnlyOtherRows(a: Db, after: Db, b: Db, stamps: Stamps)
    requires Related(a, b, stamps)
    requires after == a.(reports := after.reports, buckets := after.buckets)
    requires forall i <- after.reports :: i in a.reports && after.reports[i].hostId == a.reports[i].hostId
    requires forall i <- a.reports :: IsLatest(a.hosts, i) ==> i in after.reports && after.reports[i] == a.reports[i]
    ensures Related(after, b, stamps)
  {
    forall h | h in a.hosts && a.hosts[h].latestId.Some?
      ensures IsLatest(a.hosts, a.hosts[h].latestId.value)
    {
    }
  }

  lemma RollUpInvisible(a: Db, b: Db, stamps: Stamps, cutoff: Time, now: Time, limit: nat)
    requires Related(a, b, stamps)
    ensures Related(RollUp(a, cutoff, now, limit).0, b, stamps)
  {
    var ids := PendingBatch(a, cutoff, limit);
    forall i | i in a.reports
      ensures RollRows(a, ids, now).reports[i].hostId == a.reports[i].hostId
      ensures IsLatest(a.hosts, i) ==> RollRows(a, ids, now).reports[i] == a.reports[i]
    {
      RolledLatest(a, ids, now, i);
    }
    OnlyOtherRows(a, RollRows(a, ids, now), b, stamps);
  }

  lemma DeleteRawInvisible(a: Db, b: Db, stamps: Stamps, limit: nat)
    requires Related(a, b, stamps)
    ensures Related(DeleteMarked(a, limit).0, b, stamps)
  {
    forall i | i in Elements(Ids(Page(DeletableKeys(a), limit)))
      ensures IsDeletable(a, i)
    {
      DeletedIds(a, limit, i);
    }
    OnlyOtherRows(a, DeleteMarked(a, limit).0, b, stamps);
  }

  lemma RetentionInvisible(a: Db, b: Db, stamps: Stamps, step: Step)
    requires Related(a, b, stamps) && IsRetention(step)
    ensures Related(NextDb(a, step), b, stamps)
  {
    match step
    case RollUpBatch(cutoff, now, limit) => RollUpInvisible(a, b, stamps, cutoff, now, limit);
    case DeleteRawBatch(limit) => DeleteRawInvisible(a, b, stamps, limit);
    case DeleteHourlyBatch(cutoff, limit) => OnlyOtherRows(a, DeleteExpired(a, cutoff, limit).0, b, stamps);
  }

  // ---- Submissions on both ----

  lemma SameAuthorization(a: Db, b: Db, h: Uuid, token: Digest)
    requires a.hosts == b.hosts && Erased(a.credentials) == Erased(b.credentials)
    ensures Ingest.Authorized(a, h, token) == Ingest.Authorized(b, h, token)
  {
    forall c | c in a.credentials
      ensures c in b.credentials && Erased(a.credentials)[c] == Erased(b.credentials)[c]
    {
      assert c in Erased(a.credentials);
    }
    forall c | c in b.credentials
      ensures c in a.credentials && Erased(a.credentials)[c] == Erased(b.credentials)[c]
    {
      assert c in Erased(b.credentials);
    }
  }

  lemma TouchErased(credentials: map<Uuid, Credential>, token: Digest, now: Time)
    ensures Erased(Ingest.Touched(credentials, token, now)) == Erased(credentials)
  {
  }

  /** A report the full server deleted and accepts again never becomes the latest. */
  lemma ReplayNotLatest(b: Db, stamps: Stamps, s: Ingest.Submission, h: Uuid, id: Uuid)
    requires RowsStamped(b, stamps) && Follows(Submit(s), stamps)
    requires s.write.report.hostId == Some(h) && s.write.report.reportId == Some(id)
    requires h in b.hosts && id in b.reports
    ensures b.reports[id].hostId == h && !Ingest.BecomesLatest(b.hosts[h], s.write.report.collectedAt, id)
  {
    assert stamps(id) == (Some(b.reports[id].hostId), b.reports[id].collectedAt);
  }

  lemma ReplayRows(a: Db, b: Db, id: Uuid, row: Row)
    requires RowsRelated(a, b) && id !in a.reports && id in b.reports && row.hostId == b.reports[id].hostId
    ensures RowsRelated(a.(reports := a.reports[id := row]), b)
  {
  }

  lemma ReplayRelated(a: Db, b: Db, stamps: Stamps, s: Ingest.Submission, h: Uuid, id: Uuid)
    requires Related(a, b, stamps) && Follows(Submit(s), stamps)
    requires s.write.report.hostId == Some(h) && s.write.report.reportId == Some(id)
    requires h in a.hosts && id !in a.reports && id in b.reports
    ensures Related(Ingest.Accepted(a, s.write, h, id, s.now), b, stamps)
  {
    ReplayNotLatest(b, stamps, s, h, id);
    var row := Ingest.NewRow(s.write, h, s.now, false);
    ReplayRows(a, b, id, row);
    TouchErased(a.credentials, s.write.tokenHash, s.now);
    assert Ingest.Accepted(a, s.write, h, id, s.now)
           == a.(reports := a.reports[id := row], credentials := Ingest.Touched(a.credentials, s.write.tokenHash, s.now));
  }

  lemma FirstRows(a: Db, b: Db, w: ReportWrite, h: Uuid, id: Uuid, now: Time)
    requires a.hosts == b.hosts && LatestPaired(a.hosts) && RowsRelated(a, b)
    requires h in a.hosts && id !in a.reports && id !in b.reports
    ensures var a', b' := Ingest.Accepted(a, w, h, id, now), Ingest.Accepted(b, w, h, id, now);
            a'.hosts == b'.hosts && LatestPaired(a'.hosts) && RowsRelated(a', b')
  {
  }

  lemma FirstStamped(b: Db, stamps: Stamps, s: Ingest.Submission, h: Uuid, id: Uuid)
    requires RowsStamped(b, stamps) && LatestPaired(b.hosts) && Follows(Submit(s), stamps)
    requires s.write.report.hostId == Some(h) && s.write.report.reportId == Some(id)
    requires h in b.hosts && id !in b.reports
    ensures RowsStamped(Ingest.Accepted(b, s.write, h, id, s.now), stamps)
  {
  }

  lemma FirstRelated(a: Db, b: Db, stamps: Stamps, s: Ingest.Submission, h: Uuid, id: Uuid)
    requires Related(a, b, stamps) && Follows(Submit(s), stamps)
    requires s.write.report.hostId == Some(h) && s.write.report.reportId == Some(id)
    requires h in a.hosts && id !in a.reports && id !in b.reports
    ensures Related(Ingest.Accepted(a, s.write, h, id, s.now), Ingest.Accepted(b, s.write, h, id, s.now), stamps)
  {
    FirstRows(a, b, s.write, h, id, s.now);
    FirstStamped(b, stamps, s, h, id);
    TouchErased(a.credentials, s.write.tokenHash, s.now);
    TouchErased(b.credentials, s.write.tokenHash, s.now);
  }

  /** Either neither server commits the report, or only the full one does as a replay, or both do. */
  lemma StoreCases(a: Db, b: Db, s: Ingest.Submission)
    requires a.hosts == b.hosts && Erased(a.credentials) == Erased(b.credentials)
    requires forall i <- a.reports :: i in b.reports
    ensures var a', b' := Ingest.Store(a, s).0, Ingest.Store(b, s).0;
            var r := s.write.report;
            || (a' == a && b' == b)
            || (r.hostId.Some? && r.reportId.Some? && r.hostId.value in a.hosts && r.reportId.value !in a.reports
                && a' == Ingest.Accepted(a, s.write, r.hostId.value, r.reportId.value, s.now)
                && if r.reportId.value in b.reports then b' == b
                   else b' == Ingest.Accepted(b, s.write, r.hostId.value, r.reportId.value, s.now))
  {
    if s.write.report.hostId.Some? {
      SameAuthorization(a, b, s.write.report.hostId.value, s.write.tokenHash);
    }
  }

  lemma SubmitRelated(a: Db, b: Db, stamps: Stamps, s: Ingest.Submission)
    requires Related(a, b, stamps) && Follows(Submit(s), stamps)
    ensures Related(Ingest.Store(a, s).0, Ingest.Store(b, s).0, stamps)
  {
    StoreCases(a, b, s);
    var a', b' := Ingest.Store(a, s).0, Ingest.Store(b, s).0;
    if !(a' == a && b' == b) {
      var h, id := s.write.report.hostId.value, s.write.report.reportId.value;
      if id in b.reports {
        ReplayRelated(a, b, stamps, s, h, id);
      } else {
        FirstRelated(a, b, stamps, s, h, id);
      }
    }
  }

  // ---- Activation and deletion on both ----

  lemma ErasedAgrees(a: map<Uuid, Credential>, b: map<Uuid, Credential>)
    requires Erased(a) == Erased(b)
    ensures a.Keys == b.Keys
    ensures forall c <- a :: a[c].hostId == b[c].hostId && a[c].tokenHash == b[c].tokenHash && a[c].revokedAt == b[c].revokedAt
  {
    assert a.Keys == Erased(a).Keys && b.Keys == Erased(b).Keys;
    forall c | c in a
      ensures Erased(a)[c] == Erased(b)[c]
    {
    }
  }

  lemma ErasedPlus(a: map<Uuid, Credential>, b: map<Uuid, Credential>, k: Uuid, v: Credential)
    requires Erased(a) == Erased(b)
    ensures Erased(a[k := v]) == Erased(b[k := v])
  {
    assert Erased(a[k := v]) == Erased(a)[k := v.(lastUsedAt := None)];
    assert Erased(b[k := v]) == Erased(b)[k := v.(lastUsedAt := None)];
  }

  lemma BindRelated(a: Db, b: Db, stamps: Stamps, q: Uuid, c: Digest, cred: Uuid, now: Time)
    requires Related(a, b, stamps)
    ensures Related(Lifecycle.Activate(a, q, c, cred, now).0, Lifecycle.Activate(b, q, c, cred, now).0, stamps)
  {
    ErasedAgrees(a.credentials, b.credentials);
    if q in a.pairings && Lifecycle.CodeKnown(a.invites, c) {
      var i := Lifecycle.ByCode(a.invites, c);
      assert Lifecycle.Violates(a, q, i, cred) == Lifecycle.Violates(b, q, i, cred);
      if !Lifecycle.Violates(a, q, i, cred) {
        ErasedPlus(a.credentials, b.credentials, cred,
                   Credential(a.invites[i].instanceId, a.pairings[q].tokenHash, now, None, None));
        BoundRows(a, b, stamps, q, i, cred, now);
      }
    }
  }

  lemma BoundRows(a: Db, b: Db, stamps: Stamps, q: Uuid, i: Uuid, cred: Uuid, now: Time)
    requires Related(a, b, stamps) && q in a.pairings && i in a.invites && !Lifecycle.Violates(a, q, i, cred)
    ensures var a', b' := Lifecycle.ActivatedTables(a, q, i, cred, now), Lifecycle.ActivatedTables(b, q, i, cred, now);
            a'.hosts == b'.hosts && LatestPaired(a'.hosts) && RowsRelated(a', b') && RowsStamped(b', stamps)
  {
  }

  lemma ErasedLess(a: map<Uuid, Credential>, b: map<Uuid, Credential>, h: Uuid)
    requires Erased(a) == Erased(b)
    ensures Erased(map c | c in a && a[c].hostId != h :: a[c]) == Erased(map c | c in b && b[c].hostId != h :: b[c])
  {
    ErasedAgrees(a, b);
    forall c | c in a
      ensures Erased(a)[c] == Erased(b)[c]
    {
    }
  }

  lemma RemoveRelated(a: Db, b: Db, stamps: Stamps, h: Uuid)
    requires Related(a, b, stamps)
    ensures Related(Lifecycle.DeleteHost(a, h).0, Lifecycle.DeleteHost(b, h).0, stamps)
  {
    ErasedLess(a.credentials, b.credentials, h);
    RemovedRows(a, b, h);
    RemovedStamped(b, stamps, h);
  }

  lemma RemovedRows(a: Db, b: Db, h: Uuid)
    requires a.hosts == b.hosts && LatestPaired(a.hosts) && RowsRelated(a, b)
    requires forall g <- a.hosts :: a.hosts[g].latestId.Some? && a.hosts[g].latestId.value in a.reports ==>
               a.reports[a.hosts[g].latestId.value].hostId == g
    ensures var a', b' := Lifecycle.DeleteHost(a, h).0, Lifecycle.DeleteHost(b, h).0;
            LatestPaired(a'.hosts) && RowsRelated(a', b')
  {
  }

  lemma RemovedStamped(b: Db, stamps: Stamps, h: Uuid)
    requires RowsStamped(b, stamps)
    ensures RowsStamped(Lifecycle.DeleteHost(b, h).0, stamps)
  {
  }

  // ---- Whole runs ----

  /** Steps that read and write only invites and pairings do the same on both. */
  lemma ProtocolRelated(a: Db, b: Db, stamps: Stamps, invites: map<Uuid, Schema.Invite>, pairings: map<Uuid, Pairing>)
    requires Related(a, b, stamps)
    ensures Related(a.(invites := invites, pairings := pairings), b.(invites := invites, pairings := pairings), stamps)
  {
  }

  lemma PairRelated(a: Db, b: Db, stamps: Stamps, r: Lifecycle.PairingRequest, q: Uuid, now: Time, createdAt: Time)
    requires Related(a, b, stamps)
    ensures Related(Lifecycle.CreatePairing(a, r, q, now, createdAt).0, Lifecycle.CreatePairing(b, r, q, now, createdAt).0, stamps)
  {
    ProtocolRelated(a, b, stamps, a.invites, Lifecycle.NextPairings(a.pairings, r, q, now, createdAt).0);
  }

  lemma InviteRelated(a: Db, b: Db, stamps: Stamps, i: Uuid, n: Uuid, c: Digest, name: string, now: Time)
    requires Related(a, b, stamps)
    ensures Related(Lifecycle.CreateInvite(a, i, n, c, name, now).0, Lifecycle.CreateInvite(b, i, n, c, name, now).0, stamps)
  {
    ProtocolRelated(a, b, stamps, Lifecycle.CreateInvite(a, i, n, c, name, now).0.invites, a.pairings);
  }

  lemma CancelRelated(a: Db, b: Db, stamps: Stamps, i: Uuid, now: Time)
    requires Related(a, b, stamps)
    ensures Related(Lifecycle.CancelInvite(a, i, now).0, Lifecycle.CancelInvite(b, i, now).0, stamps)
  {
    ProtocolRelated(a, b, stamps, Lifecycle.CancelInvite(a, i, now).0.invites, a.pairings);
  }

  lemma RenameRelated(a: Db, b: Db, stamps: Stamps, h: Uuid, name: string)
    requires Related(a, b, stamps)
    ensures Related(Lifecycle.RenameHost(a, h, name).0, Lifecycle.RenameHost(b, h, name).0, stamps)
  {
  }

  lemma StepRelated(a: Db, b: Db, stamps: Stamps, step: Step)
    requires Related(a, b, stamps) && Follows(step, stamps) && !IsRetention(step)
    ensures Related(NextDb(a, step), NextDb(b, step), stamps)
  {
    match step
    case Submit(s) => SubmitRelated(a, b, stamps, s);
    case Invite(i, n, c, name, now) => InviteRelated(a, b, stamps, i, n, c, name, now);
    case Cancel(i, now) => CancelRelated(a, b, stamps, i, now);
    case Pair(r, q, now, createdAt) => PairRelated(a, b, stamps, r, q, now, createdAt);
    case Bind(q, c, cred, now) => BindRelated(a, b, stamps, q, c, cred, now);
    case Remove(h) => RemoveRelated(a, b, stamps, h);
    case Rename(h, name) => RenameRelated(a, b, stamps, h, name);
  }

  lemma {:induction false} RunRelated(steps: seq<Step>, stamps: Stamps)
    requires forall n :: 0 <= n < |steps| ==> Follows(steps[n], stamps)
    ensures Related(RunDb(EMPTY_DB, steps), RunWithout(EMPTY_DB, steps), stamps)
  {
    if steps != [] {
      var n := |steps| - 1;
      RunRelated(steps[..n], stamps);
      var a, b := RunDb(EMPTY_DB, steps[..n]), RunWithout(EMPTY_DB, steps[..n]);
      if IsRetention(steps[n]) {
        RetentionInvisible(a, b, stamps, steps[n]);
      } else {
        StepRelated(a, b, stamps, steps[n]);
      }
    }
  }

  /** Two submissions with one report id name the same host and the same collection time. */
  predicate IdsKeepTheirMeaning(steps: seq<Step>) {
    forall i, j :: 0 <= i < |steps| && 0 <= j < |steps| && steps[i].Submit? && steps[j].Submit? ==>
      var r, q := steps[i].s.write.report, steps[j].s.write.report;
      r.reportId.Some? && r.reportId == q.reportId ==> r.hostId == q.hostId && r.collectedAt == q.collectedAt
  }

  predicate Names(step: Step, id: Uuid) {
    step.Submit? && step.s.write.report.reportId == Some(id)
  }

  ghost function StampOf(steps: seq<Step>, id: Uuid): (Option<Uuid>, Time) {
    if exists n :: 0 <= n < |steps| && Names(steps[n], id) then
      var n :| 0 <= n < |steps| && Names(steps[n], id);
      (steps[n].s.write.report.hostId, steps[n].s.write.report.collectedAt)
    else (None, 0)
  }

  /** Over every interleaving, every host page and every host detail is the same with and without retention. */
  lemma RetentionIsInvisible(steps: seq<Step>, h: Uuid, limit: nat, offset: nat)
    requires IdsKeepTheirMeaning(steps)
    ensures GetHost(Run(START, steps).db, h) == GetHost(RunWithout(EMPTY_DB, steps), h)
    ensures ListHosts(Run(START, steps).db, limit, offset) == ListHosts(RunWithout(EMPTY_DB, steps), limit, offset)
  {
    ghost var stamps: Stamps := id => StampOf(steps, id);
    forall n | 0 <= n < |steps|
      ensures Follows(steps[n], stamps)
    {
      if steps[n].Submit? && steps[n].s.write.report.reportId.Some? {
        assert Names(steps[n], steps[n].s.write.report.reportId.value);
      }
    }
    RunRelated(steps, stamps);
    RunDbIsRun(START, steps);
    ViewDependsOnLatest(RunDb(EMPTY_DB, steps), RunWithout(EMPTY_DB, steps), h, limit, offset);
  }
}
