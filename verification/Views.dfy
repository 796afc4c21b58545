/** What each transaction does to the pages an administrator reads, and what none of them touches. */
module Views {
  import opened Basics
  import opened Schema
  import Ingest
  import opened Lifecycle
  import opened Retention
  import opened Runs
  import opened Reachable

  /** The submission is accepted and becomes the latest report of this host. */
  predicate BecomesShown(db: Db, s: Ingest.Submission, h: Uuid) {
    var answer := Ingest.Store(db, s).1;
    && answer.Stored? && answer.accepted && s.write.report.hostId == Some(h) && h in db.hosts
    && Ingest.BecomesLatest(db.hosts[h], s.write.report.collectedAt, s.write.report.reportId.value)
  }

  /** A newest report replaces what the host shows; any other submission changes no page. */
  lemma ViewAfterSubmit(db: Db, s: Ingest.Submission, h: Uuid)
    requires LatestLive(db)
    ensures var after, r := Ingest.Store(db, s).0, s.write.report;
            if !BecomesShown(db, s, h) then GetHost(after, h) == GetHost(db, h)
            else
              && h in db.hosts
              && GetHost(after, h) ==
                 Some((HostSummary(h, db.hosts[h].name,
                                   Device(Trim(r.device.os), r.device.osVersion, r.device.kernelVersion,
                                          Trim(r.device.arch), Trim(r.device.clientVersion)),
                                   db.hosts[h].registeredAt,
                                   MaxInt(db.hosts[h].lastSeenAt, s.now), Some(r.collectedAt), Some(r.interval),
                                   r.capabilities, s.write.metrics),
                       Some(r)))
  {
    if h in db.hosts && db.hosts[h].latestId.Some? {
      assert db.hosts[h].latestId.value in db.reports;
    }
    if BecomesShown(db, s, h) {
      ShownReport(db, s, h);
    } else {
      HiddenReport(db, s, h);
    }
  }

  lemma ShownReport(db: Db, s: Ingest.Submission, h: Uuid)
    requires LatestLive(db) && BecomesShown(db, s, h)
    ensures var r, after := s.write.report, Ingest.Store(db, s).0;
            && h in after.hosts && after.hosts[h] == Ingest.Observed(db.hosts[h], r, r.reportId.value, s.now)
            && r.reportId.value in after.reports
            && after.reports[r.reportId.value] == Ingest.NewRow(s.write, h, s.now, true)
            && db.hosts[h].active
  {
  }

  lemma HiddenReport(db: Db, s: Ingest.Submission, h: Uuid)
    requires LatestLive(db) && !BecomesShown(db, s, h)
    ensures var after := Ingest.Store(db, s).0;
            && (h in after.hosts <==> h in db.hosts)
            && (h in db.hosts ==>
                  && after.hosts[h] == db.hosts[h]
                  && (db.hosts[h].latestId.Some? ==>
                        var i := db.hosts[h].latestId.value;
                        i in after.reports && after.reports[i] == db.reports[i]))
  {
  }

  /** The host and the row it points to are the same. */
  predicate Shows(a: Db, b: Db, h: Uuid) {
    && (h in a.hosts <==> h in b.hosts)
    && (h in a.hosts ==>
          && a.hosts[h] == b.hosts[h]
          && (a.hosts[h].latestId.Some? ==>
                var i := a.hosts[h].latestId.value;
                i in a.reports && i in b.reports && a.reports[i] == b.reports[i]))
  }

  lemma SameView(a: Db, b: Db, h: Uuid)
    requires Shows(a, b, h)
    ensures GetHost(a, h) == GetHost(b, h)
  {
  }

  /** The host an activation creates: named by its invite, described by its pairing, with nothing reported yet. */
  lemma ViewAfterActivation(db: Db, q: Uuid, codeHash: Digest, credentialId: Uuid, now: Time)
    requires Activate(db, q, codeHash, credentialId, now).0 != db
    ensures var (after, outcome) := Activate(db, q, codeHash, credentialId, now);
            && q in db.pairings && CodeKnown(db.invites, codeHash) && outcome.Activated?
            && outcome.instanceId == db.invites[ByCode(db.invites, codeHash)].instanceId
            && GetHost(after, outcome.instanceId) ==
               Some((HostSummary(outcome.instanceId, db.invites[ByCode(db.invites, codeHash)].displayName, db.pairings[q].device,
                                 now, now, None, None, [], NO_METRICS), None))
            && HostsForToken(after, db.pairings[q].tokenHash) == {outcome.instanceId}
  {
    var i := ByCode(db.invites, codeHash);
    var after := ActivatedTables(db, q, i, credentialId, now);
    var token, n := db.pairings[q].tokenHash, db.invites[i].instanceId;
    assert credentialId in after.credentials && after.credentials[credentialId].tokenHash == token;
    forall c | c in after.credentials && after.credentials[c].tokenHash == token
      ensures c == credentialId
    {
    }
    assert n in HostsForToken(after, token) by {
      assert after.credentials[credentialId].hostId == n && n in after.hosts;
    }
  }

  lemma ActivationShows(db: Db, q: Uuid, codeHash: Digest, credentialId: Uuid, now: Time, h: Uuid)
    requires LatestLive(db)
    requires h in db.hosts <==> h in Activate(db, q, codeHash, credentialId, now).0.hosts
    ensures Shows(db, Activate(db, q, codeHash, credentialId, now).0, h)
  {
  }

  lemma RollUpShows(db: Db, ids: seq<Uuid>, now: Time, h: Uuid)
    requires LatestLive(db) && forall n :: 0 <= n < |ids| ==> ids[n] in db.reports && !IsLatest(db.hosts, ids[n])
    ensures Shows(db, RollRows(db, ids, now), h)
  {
    if h in db.hosts && db.hosts[h].latestId.Some? {
      assert IsLatest(db.hosts, db.hosts[h].latestId.value);
      RollRowsUntouched(db, ids, now, db.hosts[h].latestId.value);
    }
  }

  lemma DeleteRawShows(db: Db, limit: nat, h: Uuid)
    requires LatestLive(db)
    ensures Shows(db, DeleteMarked(db, limit).0, h)
  {
    if h in db.hosts && db.hosts[h].latestId.Some? {
      var i := db.hosts[h].latestId.value;
      assert IsLatest(db.hosts, i);
      if i in Elements(Ids(Page(DeletableKeys(db), limit))) {
        DeletedIds(db, limit, i);
      }
    }
  }

  lemma RemovalShows(db: Db, gone: Uuid, h: Uuid)
    requires LatestLive(db) && h != gone
    ensures Shows(db, DeleteHost(db, gone).0, h)
  {
  }

  /** A renamed host shows the new name and otherwise what it showed. */
  lemma ViewAfterRename(db: Db, h: Uuid, name: string)
    requires h in db.hosts
    ensures GetHost(db, h).None? ==> GetHost(RenameHost(db, h, name).0, h).None?
    ensures GetHost(db, h).Some? ==>
              GetHost(RenameHost(db, h, name).0, h) == Some((GetHost(db, h).value.0.(name := name), GetHost(db, h).value.1))
  {
  }

  /** Nothing of a deleted host is left in any table. */
  lemma RemovalIsComplete(db: Db, h: Uuid)
    requires h in db.hosts
    ensures var after := DeleteHost(db, h).0;
            && h !in after.hosts && GetHost(after, h) == None
            && (forall i <- after.reports :: after.reports[i].hostId != h)
            && (forall c <- after.credentials :: after.credentials[c].hostId != h)
            && (forall i <- after.invites :: after.invites[i].instanceId != h)
            && (forall p <- after.pairings :: after.pairings[p].instanceId != Some(h))
            && (forall k <- after.buckets :: k.hostId != h)
            && (forall token: Digest :: h !in HostsForToken(after, token))
  {
  }

  /** The only steps that can change the page of a host. */
  predicate MayChange(db: Db, step: Step, h: Uuid) {
    match step
    case Submit(s) => BecomesShown(db, s, h)
    case Bind(_, codeHash, _, _) => h !in db.hosts && exists i <- db.invites :: db.invites[i].codeHash == codeHash && db.invites[i].instanceId == h
    case Remove(gone) => gone == h
    case Rename(renamed, _) => renamed == h
    case _ => false
  }

  lemma RetentionShows(db: Db, step: Step, h: Uuid)
    requires LatestLive(db) && (step.RollUpBatch? || step.DeleteRawBatch? || step.DeleteHourlyBatch?)
    ensures Shows(db, NextDb(db, step), h)
  {
    match step
    case RollUpBatch(cutoff, now, limit) => RollUpShows(db, PendingBatch(db, cutoff, limit), now, h);
    case DeleteRawBatch(limit) => DeleteRawShows(db, limit, h);
    case DeleteHourlyBatch(cutoff, limit) =>
  }

  lemma ProtocolShows(db: Db, step: Step, h: Uuid)
    requires LatestLive(db) && (step.Invite? || step.Cancel? || step.Pair?)
    ensures Shows(db, NextDb(db, step), h)
  {
  }

  lemma BindShows(db: Db, step: Step, h: Uuid)
    requires LatestLive(db) && step.Bind? && !MayChange(db, step, h)
    ensures Shows(db, NextDb(db, step), h)
  {
    BindHosts(db, step.requestId, step.codeHash, step.credentialId, step.now, h);
    ActivationShows(db, step.requestId, step.codeHash, step.credentialId, step.now, h);
  }

  /** Only a newest report of the host, its activation, its renaming and its deletion change what it shows. */
  lemma OnlyTheseChangeAView(db: Db, step: Step, h: Uuid)
    requires LatestLive(db) && !MayChange(db, step, h)
    ensures GetHost(NextDb(db, step), h) == GetHost(db, h)
  {
    if step.Submit? {
      ViewAfterSubmit(db, step.s, h);
    } else {
      OthersShow(db, step, h);
      SameView(db, NextDb(db, step), h);
    }
  }

  lemma OthersShow(db: Db, step: Step, h: Uuid)
    requires LatestLive(db) && !MayChange(db, step, h) && !step.Submit?
    ensures Shows(db, NextDb(db, step), h)
  {
    if step.Bind? {
      BindShows(db, step, h);
    } else if step.Remove? {
      RemovalShows(db, step.host, h);
    } else if step.Rename? {
      assert Shows(db, RenameHost(db, step.host, step.name).0, h);
    } else if step.Invite? || step.Cancel? || step.Pair? {
      ProtocolShows(db, step, h);
    } else {
      RetentionShows(db, step, h);
    }
  }

  /** No step of a run can change the page of this host. */
  ghost predicate Quiet(w: World, steps: seq<Step>, h: Uuid) {
    forall n :: 0 <= n < |steps| ==> !MayChange(Run(w, steps[..n]).db, steps[n], h)
  }

  lemma QuietPrefix(w: World, steps: seq<Step>, h: Uuid, n: nat)
    requires Quiet(w, steps, h) && n <= |steps|
    ensures Quiet(w, steps[..n], h)
  {
    forall m | 0 <= m < n
      ensures !MayChange(Run(w, steps[..n][..m]).db, steps[..n][m], h)
    {
      assert steps[..n][..m] == steps[..m];
    }
  }

  lemma {:induction false} QuietKeepsView(w: World, steps: seq<Step>, h: Uuid)
    requires Inv(w) && Possible(w, steps) && Quiet(w, steps, h)
    ensures Inv(Run(w, steps)) && GetHost(Run(w, steps).db, h) == GetHost(w.db, h)
  {
    if steps != [] {
      var n := |steps| - 1;
      PossiblePrefix(w, steps, n);
      QuietPrefix(w, steps, h, n);
      QuietKeepsView(w, steps[..n], h);
      assert Enabled(Run(w, steps[..n]).db, steps[n]);
      StepKeeps(Run(w, steps[..n]), steps[n]);
      OnlyTheseChangeAView(Run(w, steps[..n]).db, steps[n], h);
    }
  }

  /**
   The two statements of `get_host` in two states of a run: each half is that of its own state, and if nothing that
   can change the page commits in between they are the page of one state.
   */
  lemma SplitRead(w: World, between: seq<Step>, h: Uuid)
    requires Inv(w) && Possible(w, between) && GetHost(w.db, h).Some?
    ensures var second := Run(w, between).db;
            var page := ReadHost(w.db, second, h);
            && (page.Vanished? <==> h !in second.hosts)
            && (page.Detail? ==> page.summary == GetHost(w.db, h).value.0)
            && (page.Detail? && GetHost(second, h).Some? ==> page.payload == GetHost(second, h).value.1)
            && (Quiet(w, between, h) ==> page == Detail(GetHost(w.db, h).value.0, GetHost(w.db, h).value.1))
  {
    HalvesAreOwn(w.db, Run(w, between).db, h);
    if Quiet(w, between, h) {
      QuietKeepsView(w, between, h);
    }
  }

  lemma HalvesAreOwn(first: Db, second: Db, h: Uuid)
    requires GetHost(first, h).Some?
    ensures var page := ReadHost(first, second, h);
            && (page.Vanished? <==> h !in second.hosts) && (page.Vanished? || page.Detail?)
            && (page.Detail? ==> page.summary == GetHost(first, h).value.0)
            && (page.Detail? && GetHost(second, h).Some? ==> page.payload == GetHost(second, h).value.1)
            && (GetHost(second, h) == GetHost(first, h) ==> page == Detail(GetHost(first, h).value.0, GetHost(first, h).value.1))
  {
  }

  lemma BindHosts(db: Db, q: Uuid, c: Digest, cred: Uuid, now: Time, h: Uuid)
    requires !MayChange(db, Bind(q, c, cred, now), h)
    ensures h in db.hosts <==> h in Activate(db, q, c, cred, now).0.hosts
  {
  }
}
