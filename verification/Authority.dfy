/** Who may store a report, what each submission is answered, and what an accepted one writes. */
module Authority {
  import opened Basics
  import opened Schema
  import opened Ingest
  import Lifecycle
  import Runs
  import Pairings

  /** The submission names a report and a host. */
  predicate WellFormed(s: Submission) {
    s.write.report.hostId.Some? && s.write.report.reportId.Some?
  }

  /** The token authenticates the host the report is for. */
  predicate OwnToken(db: Db, s: Submission) {
    s.write.report.hostId.Some? && s.write.report.hostId.value in Lifecycle.HostsForToken(db, s.write.tokenHash)
  }

  /** A report is stored only for the host its token authenticates; for any other host the answer is that it may not be. */
  lemma OnlyTheOwnTokenStores(db: Db, s: Submission)
    ensures Store(db, s).1.Stored? ==> OwnToken(db, s)
    ensures WellFormed(s) && s.fault != Some(ReadHost) ==> (Store(db, s).1 == Refused(Unauthorized) <==> !OwnToken(db, s))
  {
    if WellFormed(s) {
      OwnIsAuthorized(db, s.write.report.hostId.value, s.write.tokenHash);
    }
  }

  lemma OwnIsAuthorized(db: Db, h: Uuid, token: Digest)
    ensures Authorized(db, h, token) <==> h in Lifecycle.HostsForToken(db, token)
  {
  }

  /** The answer to every submission whose statements all succeed. */
  lemma StoreAnswers(db: Db, s: Submission)
    requires s.fault.None?
    ensures Store(db, s).1 ==
            if !WellFormed(s) then Refused(Malformed)
            else if !OwnToken(db, s) then Refused(Unauthorized)
            else if s.write.report.reportId.value !in db.reports then Stored(true, s.now)
            else if db.reports[s.write.report.reportId.value].hostId != s.write.report.hostId.value then Refused(ReportIdConflict)
            else Stored(false, db.reports[s.write.report.reportId.value].receivedAt)
  {
    if WellFormed(s) {
      OwnIsAuthorized(db, s.write.report.hostId.value, s.write.tokenHash);
    }
  }

  /** Collected later than everything the host shows, or at the same time with the greater id. */
  predicate Newest(db: Db, s: Submission)
    requires WellFormed(s) && s.write.report.hostId.value in db.hosts
  {
    var host, r := db.hosts[s.write.report.hostId.value], s.write.report;
    host.latestAt.None? || r.collectedAt > host.latestAt.value
    || (r.collectedAt == host.latestAt.value && (host.latestId.None? || r.reportId.value > host.latestId.value))
  }

  /** The statement is one this submission comes to. */
  predicate Executes(db: Db, s: Submission, statement: Statement) {
    WellFormed(s) &&
    match statement
    case ReadHost => true
    case InsertReport => OwnToken(db, s)
    case ReadExisting => OwnToken(db, s) && s.write.report.reportId.value in db.reports
    case TouchCredential => Inserts(db, s)
    case UpdateHost => Inserts(db, s) && Newest(db, s)
    case ClearPayload => Inserts(db, s) && Newest(db, s) && db.hosts[s.write.report.hostId.value].latestId.Some?
                         && db.hosts[s.write.report.hostId.value].latestId != s.write.report.reportId
  }

  predicate Inserts(db: Db, s: Submission)
    requires WellFormed(s)
  {
    OwnToken(db, s) && s.write.report.hostId.value in db.hosts && s.write.report.reportId.value !in db.reports
  }

  /** A statement that fails turns the answer into a failure that changes nothing, if the submission comes to it, and else does nothing. */
  lemma FaultsOnlyRefuse(db: Db, s: Submission)
    ensures Store(db, s) == if s.fault.Some? && Executes(db, s, s.fault.value) then (db, Refused(StatementFailed))
                            else Store(db, s.(fault := None))
  {
    if WellFormed(s) {
      OwnIsAuthorized(db, s.write.report.hostId.value, s.write.tokenHash);
    }
  }

  /** An accepted report is the new row; the host's previous latest row loses its report if this one is newer; nothing else moves. */
  lemma StoreWrites(db: Db, s: Submission)
    requires Store(db, s).1.Stored? && Store(db, s).1.accepted
    ensures WellFormed(s) && s.write.report.hostId.value in db.hosts
    ensures var after, r := Store(db, s).0, s.write.report;
            var h, i := r.hostId.value, r.reportId.value;
            && after.reports.Keys == db.reports.Keys + {i}
            && after.reports[i] == Row(h, r.schemaVersion, r.collectedAt, s.now, r.interval,
                                       if Newest(db, s) then Some(r) else None, s.write.metrics, None)
            && (forall j <- db.reports :: j != i ==>
                  after.reports[j] == if Newest(db, s) && db.hosts[h].latestId == Some(j) then db.reports[j].(payload := None)
                                      else db.reports[j])
            && after.hosts.Keys == db.hosts.Keys && (forall g <- db.hosts :: g != h || !Newest(db, s) ==> after.hosts[g] == db.hosts[g])
            && (Newest(db, s) ==> after.hosts[h].latestId == Some(i) && after.hosts[h].latestAt == Some(r.collectedAt))
            && after.invites == db.invites && after.pairings == db.pairings && after.buckets == db.buckets
  {
  }

  /** Storing reports leaves every token with the host it authenticates. */
  lemma TokensKept(db: Db, s: Submission, token: Digest)
    ensures Lifecycle.HostsForToken(Store(db, s).0, token) == Lifecycle.HostsForToken(db, token)
  {
    var after := Store(db, s).0;
    forall c | c in db.credentials
      ensures c in after.credentials && after.credentials[c].(lastUsedAt := None) == db.credentials[c].(lastUsedAt := None)
    {
      UseIsRecorded(db, s, c);
    }
    assert after.hosts.Keys == db.hosts.Keys && forall h <- db.hosts :: after.hosts[h].active == db.hosts[h].active;
  }

  lemma {:induction false} BatchKeepsTokens(db: Db, batch: seq<Submission>, token: Digest)
    ensures Lifecycle.HostsForToken(StoreEach(db, batch).0, token) == Lifecycle.HostsForToken(db, token)
  {
    if batch != [] {
      var n := |batch| - 1;
      BatchKeepsTokens(db, batch[..n], token);
      TokensKept(StoreEach(db, batch[..n]).0, batch[n], token);
    }
  }

  /** In a batch too, every report answered `stored` came with the token of its host. */
  lemma {:induction false} BatchNeedsTokens(db: Db, batch: seq<Submission>)
    ensures var answers := StoreEach(db, batch).1;
            forall i :: 0 <= i < |batch| && answers[i].Stored? ==> OwnToken(db, batch[i])
  {
    if batch != [] {
      var n := |batch| - 1;
      BatchNeedsTokens(db, batch[..n]);
      BatchKeepsTokens(db, batch[..n], batch[n].write.tokenHash);
      OnlyTheOwnTokenStores(StoreEach(db, batch[..n]).0, batch[n]);
      var all, front := StoreEach(db, batch).1, StoreEach(db, batch[..n]).1;
      assert forall i :: 0 <= i < n ==> all[i] == front[i] && batch[i] == batch[..n][i];
    }
  }

  /**
   In every reachable state: a report is stored for a host only with the token of the one pairing that created it, and with
   that token a new report is accepted.
   */
  lemma StoresForItsPairing(steps: seq<Runs.Step>, s: Submission)
    requires Runs.Possible(Runs.START, steps)
    ensures var db := Runs.Run(Runs.START, steps).db;
            Store(db, s).1.Stored? ==>
              WellFormed(s) && exists i, p, c :: Pairings.Linked(db, i, p, s.write.report.hostId.value, c)
                                                && db.pairings[p].tokenHash == s.write.tokenHash
    ensures var db := Runs.Run(Runs.START, steps).db;
            forall i, p, c :: WellFormed(s) && Pairings.Linked(db, i, p, s.write.report.hostId.value, c)
                              && db.pairings[p].tokenHash == s.write.tokenHash
                              && s.write.report.reportId.value !in db.reports && s.fault.None? ==>
              Store(db, s).1 == Stored(true, s.now)
  {
    Pairings.TokenNamesOneHost(steps, s.write.tokenHash);
    OnlyTheOwnTokenStores(Runs.Run(Runs.START, steps).db, s);
    if s.fault.None? {
      StoreAnswers(Runs.Run(Runs.START, steps).db, s);
    }
  }
}
