/** Storing one client report and a writer batch of them (store.rs, `store_report_in_transaction`). */
module Ingest {
  import opened Basics
  import opened Schema

  /** The SQL statements of one report, in order; any of them may fail. */
  datatype Statement = ReadHost | InsertReport | ReadExisting | UpdateHost | ClearPayload | TouchCredential

  datatype StoreError = Malformed | Unauthorized | ReportIdConflict | StatementFailed

  datatype Answer = Stored(accepted: bool, receivedAt: Time) | Refused(error: StoreError)

  /** A submission: the report, the clock reading of its insert, and the statement that fails, if any. */
  datatype Submission = Submission(write: ReportWrite, now: Time, fault: Option<Statement>)

  predicate Authorized(db: Db, host: Uuid, tokenHash: Digest) {
    host in db.hosts && db.hosts[host].active &&
    exists c <- db.credentials ::
      db.credentials[c].hostId == host && db.credentials[c].tokenHash == tokenHash && db.credentials[c].revokedAt.None?
  }

  predicate BecomesLatest(host: Host, collectedAt: Time, id: Uuid) {
    host.latestAt.None? || collectedAt > host.latestAt.value ||
    (collectedAt == host.latestAt.value && (host.latestId.None? || id > host.latestId.value))
  }

  function NewRow(w: ReportWrite, host: Uuid, now: Time, latest: bool): Row {
    Row(host, w.report.schemaVersion, w.report.collectedAt, now, w.report.interval,
        if latest then Some(w.report) else None, w.metrics, None)
  }

  function Observed(host: Host, r: Report, id: Uuid, now: Time): Host {
    host.(device := Schema.Stored(r.device), capabilities := r.capabilities,
          lastSeenAt := if host.lastSeenAt > now then host.lastSeenAt else now,
          latestId := Some(id), latestAt := Some(r.collectedAt), latestInterval := Some(r.interval))
  }

  function Touched(credentials: map<Uuid, Credential>, tokenHash: Digest, now: Time): map<Uuid, Credential> {
    map c | c in credentials ::
      if credentials[c].tokenHash == tokenHash then credentials[c].(lastUsedAt := Some(now)) else credentials[c]
  }

  function Cleared(reports: map<Uuid, Row>, previous: Option<Uuid>, id: Uuid): map<Uuid, Row> {
    if previous.Some? && previous.value != id && previous.value in reports
    then reports[previous.value := reports[previous.value].(payload := None)]
    else reports
  }

  /** The tables after every statement of an accepted report has run. */
  function Accepted(db: Db, w: ReportWrite, host: Uuid, id: Uuid, now: Time): Db
    requires host in db.hosts
  {
    var latest := BecomesLatest(db.hosts[host], w.report.collectedAt, id);
    var reports := db.reports[id := NewRow(w, host, now, latest)];
    db.(reports := if latest then Cleared(reports, db.hosts[host].latestId, id) else reports,
        hosts := if latest then db.hosts[host := Observed(db.hosts[host], w.report, id, now)] else db.hosts,
        credentials := Touched(db.credentials, w.tokenHash, now))
  }

  /** Which statements an accepted report runs after the insert. */
  predicate Runs(db: Db, w: ReportWrite, host: Uuid, id: Uuid, s: Statement)
    requires host in db.hosts
  {
    var latest := BecomesLatest(db.hosts[host], w.report.collectedAt, id);
    match s
    case UpdateHost => latest
    case ClearPayload => latest && db.hosts[host].latestId.Some? && db.hosts[host].latestId.value != id
    case TouchCredential => true
    case _ => false
  }

  /** `store_report`: the answer and the committed tables. A refusal commits nothing. */
  function Store(db: Db, s: Submission): (Db, Answer) {
    var w := s.write;
    if w.report.hostId.None? || w.report.reportId.None? then (db, Refused(Malformed))
    else
      var host, id := w.report.hostId.value, w.report.reportId.value;
      if s.fault == Some(ReadHost) then (db, Refused(StatementFailed))
      else if !Authorized(db, host, w.tokenHash) then (db, Refused(Unauthorized))
      else if s.fault == Some(InsertReport) then (db, Refused(StatementFailed))
      else if id in db.reports then
        if s.fault == Some(ReadExisting) then (db, Refused(StatementFailed))
        else if db.reports[id].hostId == host then (db, Stored(false, db.reports[id].receivedAt))
        else (db, Refused(ReportIdConflict))
      else if s.fault.Some? && Runs(db, w, host, id, s.fault.value) then (db, Refused(StatementFailed))
      else (Accepted(db, w, host, id, s.now), Stored(true, s.now))
  }

  /** One report after the other, each keeping or losing only its own writes. */
  function StoreEach(db: Db, batch: seq<Submission>): (r: (Db, seq<Answer>))
    ensures |r.1| == |batch|
  {
    if batch == [] then (db, [])
    else
      var (before, answers) := StoreEach(db, batch[..|batch| - 1]);
      var (after, answer) := Store(before, batch[|batch| - 1]);
      (after, answers + [answer])
  }

  // ---- What an answer means ----

  /** An acknowledged report is in the committed tables, under its host, with the answered time. */
  predicate Acknowledged(db: Db, w: ReportWrite, a: Answer) {
    a.Stored? ==>
      && w.report.hostId.Some? && w.report.reportId.Some?
      && w.report.reportId.value in db.reports
      && db.reports[w.report.reportId.value].hostId == w.report.hostId.value
      && db.reports[w.report.reportId.value].receivedAt == a.receivedAt
  }

  /** Storing never drops a row and never changes its owner, its data or its times. */
  predicate KeepsRows(before: Db, after: Db) {
    forall i <- before.reports ::
      i in after.reports && after.reports[i] == before.reports[i].(payload := after.reports[i].payload)
  }

  lemma StoreAcknowledges(db: Db, s: Submission)
    ensures Acknowledged(Store(db, s).0, s.write, Store(db, s).1)
    ensures KeepsRows(db, Store(db, s).0)
    ensures Store(db, s).1.Refused? ==> Store(db, s).0 == db
    ensures Store(db, s).1.Stored? ==>
              (Store(db, s).1.accepted <==> s.write.report.reportId.value !in db.reports)
  {
  }

  /** A token's last use is the time of the newest report accepted with it; nothing else about credentials moves. */
  lemma UseIsRecorded(db: Db, s: Submission, c: Uuid)
    requires c in db.credentials
    ensures var (after, answer) := Store(db, s);
            && after.credentials.Keys == db.credentials.Keys
            && after.credentials[c].(lastUsedAt := None) == db.credentials[c].(lastUsedAt := None)
            && after.credentials[c].lastUsedAt ==
               if answer.Stored? && answer.accepted && db.credentials[c].tokenHash == s.write.tokenHash then Some(answer.receivedAt)
               else db.credentials[c].lastUsedAt
  {
  }

  function AcceptedFor(batch: seq<Submission>, answers: seq<Answer>, id: Uuid): nat
    requires |batch| == |answers|
  {
    if batch == [] then 0
    else AcceptedFor(batch[..|batch| - 1], answers[..|batch| - 1], id) + AcceptsFor(batch[|batch| - 1], answers[|batch| - 1], id)
  }

  function AcceptsFor(s: Submission, a: Answer, id: Uuid): nat {
    if a.Stored? && a.accepted && s.write.report.reportId == Some(id) then 1 else 0
  }

  /**
   Every acknowledgement of a batch is true of the state it commits, and a report id is answered
   `accepted` once if it was new and some submission of it stuck, and never otherwise.
   */
  lemma {:induction false} BatchAcknowledges(db: Db, batch: seq<Submission>, id: Uuid)
    ensures var (after, answers) := StoreEach(db, batch);
            && KeepsRows(db, after)
            && (forall i :: 0 <= i < |batch| ==> Acknowledged(after, batch[i].write, answers[i]))
            && AcceptedFor(batch, answers, id) == (if id in after.reports && id !in db.reports then 1 else 0)
  {
    if batch != [] {
      var n := |batch| - 1;
      BatchAcknowledges(db, batch[..n], id);
      var (before, answers) := StoreEach(db, batch[..n]);
      StoreAcknowledges(before, batch[n]);
      var all := StoreEach(db, batch).1;
      assert all[..n] == answers;
      forall i | 0 <= i < n
        ensures Acknowledged(StoreEach(db, batch).0, batch[i].write, all[i])
      {
        assert batch[i] == batch[..n][i] && all[i] == answers[i];
      }
    }
  }
}
