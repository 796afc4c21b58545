/**
 Every committed transaction of the server as one atomic step, over the tables and a history of what
 was accepted, folded and expired. A transaction that fails or is cut short is no step at all.
 */
module Runs {
  import opened Basics
  import opened Aggregation
  import opened Schema
  import opened Tally
  import Ingest
  import Lifecycle
  import opened Retention

  /**
   `accepted`: every report ever answered `accepted` for a live host; `folded`: what went into each live
   bucket; `expired`: what was in the buckets already expired; `bonds`: where each host came from.
   */
  datatype History = History(accepted: map<Uuid, multiset<Sample>>, folded: Contents,
                             expired: map<Uuid, multiset<Sample>>, bonds: map<Uuid, Lifecycle.Bond>)

  datatype World = World(db: Db, past: History)

  const START := World(EMPTY_DB, History(map[], map[], map[], map[]))

  datatype Step =
    | Submit(s: Ingest.Submission)
    | RollUpBatch(cutoff: Time, now: Time, limit: nat)
    | DeleteRawBatch(limit: nat)
    | DeleteHourlyBatch(cutoff: Time, limit: nat)
    | Invite(inviteId: Uuid, instanceId: Uuid, codeHash: Digest, name: string, now: Time)
    | Cancel(inviteId: Uuid, now: Time)
    | Pair(request: Lifecycle.PairingRequest, requestId: Uuid, now: Time, createdAt: Time)
    | Bind(requestId: Uuid, codeHash: Digest, credentialId: Uuid, now: Time)
    | Remove(host: Uuid)
    | Rename(host: Uuid, name: string)

  ghost function NextDb(db: Db, step: Step): Db {
    match step
    case Submit(s) => Ingest.Store(db, s).0
    case RollUpBatch(cutoff, now, limit) => RollUp(db, cutoff, now, limit).0
    case DeleteRawBatch(limit) => DeleteMarked(db, limit).0
    case DeleteHourlyBatch(cutoff, limit) => DeleteExpired(db, cutoff, limit).0
    case Invite(i, n, c, name, now) => Lifecycle.CreateInvite(db, i, n, c, name, now).0
    case Cancel(i, at) => Lifecycle.CancelInvite(db, i, at).0
    case Pair(r, q, now, createdAt) => Lifecycle.CreatePairing(db, r, q, now, createdAt).0
    case Bind(q, c, cred, now) => Lifecycle.Activate(db, q, c, cred, now).0
    case Remove(h) => Lifecycle.DeleteHost(db, h).0
    case Rename(h, name) => Lifecycle.RenameHost(db, h, name).0
  }

  function FoldSample(folded: Contents, s: Sample): Contents {
    folded[BucketOf(s) := (if BucketOf(s) in folded then folded[BucketOf(s)] else []) + [s]]
  }

  function FoldAll(folded: Contents, rows: seq<Sample>): Contents {
    if rows == [] then folded else FoldSample(FoldAll(folded, rows[..|rows| - 1]), rows[|rows| - 1])
  }

  /** The samples of a host in its live buckets. */
  ghost function FoldedOf(folded: Contents, h: Uuid): map<BucketKey, multiset<Sample>> {
    map k | k in folded && k.hostId == h :: multiset(folded[k])
  }

  /** The live rows of a host that no bucket holds yet. */
  ghost function UnmarkedOf(reports: map<Uuid, Row>, h: Uuid): map<Uuid, multiset<Sample>> {
    map i | i in reports && Unmarked(reports[i], h) :: One(i, reports[i])
  }

  predicate Unmarked(row: Row, h: Uuid) {
    row.hostId == h && row.aggregatedAt.None?
  }

  ghost function One(i: Uuid, row: Row): multiset<Sample> {
    multiset{SampleOf(i, row)}
  }

  ghost function AfterSubmit(db: Db, past: History, s: Ingest.Submission): History {
    var answer := Ingest.Store(db, s).1;
    if answer.Stored? && answer.accepted then
      var r := s.write.report;
      var h := r.hostId.value;
      var sample := Sample(r.reportId.value, h, r.collectedAt, s.write.metrics);
      past.(accepted := past.accepted[h := (if h in past.accepted then past.accepted[h] else multiset{}) + multiset{sample}])
    else past
  }

  ghost function AfterExpiry(past: History, gone: set<BucketKey>): History {
    past.(folded := past.folded - gone,
          expired := map h | h in past.expired :: past.expired[h] + Pool(Within(FoldedOf(past.folded, h), gone)))
  }

  ghost function AfterBind(db: Db, past: History, q: Uuid, c: Digest, cred: Uuid, now: Time): History {
    var bonds := Lifecycle.ActivatedBonds(db, past.bonds, q, c, cred, now);
    var added := bonds.Keys - past.bonds.Keys;
    past.(accepted := past.accepted + map h | h in added :: multiset{},
          expired := past.expired + map h | h in added :: multiset{},
          bonds := bonds)
  }

  ghost function AfterRemove(past: History, h: Uuid): History {
    History(past.accepted - {h}, map k | k in past.folded && k.hostId != h :: past.folded[k],
            past.expired - {h}, past.bonds - {h})
  }

  ghost function NextHistory(db: Db, past: History, step: Step): History {
    match step
    case Submit(s) => AfterSubmit(db, past, s)
    case RollUpBatch(cutoff, _, limit) => past.(folded := FoldAll(past.folded, Samples(db, PendingBatch(db, cutoff, limit))))
    case DeleteHourlyBatch(cutoff, limit) => AfterExpiry(past, BucketKeys(Page(ExpiredKeys(db, cutoff), limit)))
    case Bind(q, c, cred, now) => AfterBind(db, past, q, c, cred, now)
    case Remove(h) => AfterRemove(past, h)
    case _ => past
  }

  ghost function Next(w: World, step: Step): World {
    World(NextDb(w.db, step), NextHistory(w.db, w.past, step))
  }

  /** UUID generation: an identifier the server draws is not in use. */
  predicate Enabled(db: Db, step: Step) {
    match step
    case Invite(_, n, _, _, _) => n !in db.hosts && forall i <- db.invites :: db.invites[i].instanceId != n
    case Pair(_, q, _, _) => q !in db.pairings
    case Bind(_, _, cred, _) => cred !in db.credentials
    case _ => true
  }

  ghost function Run(w: World, steps: seq<Step>): World {
    if steps == [] then w else Next(Run(w, steps[..|steps| - 1]), steps[|steps| - 1])
  }

  ghost predicate Possible(w: World, steps: seq<Step>) {
    forall n :: 0 <= n < |steps| ==> Enabled(Run(w, steps[..n]).db, steps[n])
  }

  // ---- What every reachable state satisfies ----

  predicate Owned(db: Db) {
    forall i <- db.reports :: db.reports[i].hostId in db.hosts
  }

  /** The latest pointer names a live, unmarked row of the host itself. */
  predicate LatestLive(db: Db) {
    forall h <- db.hosts ::
      && (db.hosts[h].latestId.Some? <==> db.hosts[h].latestAt.Some?)
      && (db.hosts[h].latestId.Some? ==>
            var i := db.hosts[h].latestId.value;
            && i in db.reports && db.reports[i].hostId == h && db.reports[i].aggregatedAt.None?
            && db.hosts[h].latestAt == Some(db.reports[i].collectedAt))
  }

  /** A row carries its report exactly when it is its host's latest. */
  predicate PayloadsLatest(db: Db) {
    forall i <- db.reports ::
      && db.reports[i].hostId in db.hosts
      && (db.reports[i].payload.Some? <==> db.hosts[db.reports[i].hostId].latestId == Some(i))
      && (db.reports[i].payload.Some? ==>
            var r := db.reports[i].payload.value;
            r.reportId == Some(i) && r.hostId == Some(db.reports[i].hostId) && r.collectedAt == db.reports[i].collectedAt)
  }

  predicate NotAfter(s: Sample, at: Time, id: Uuid) {
    s.collectedAt < at || (s.collectedAt == at && s.reportId <= id)
  }

  /** The latest pointer is the maximum of (collected_at, report_id) over everything ever accepted. */
  predicate LatestOf(host: Host, all: multiset<Sample>) {
    if host.latestId.None? then all == multiset{}
    else
      && host.latestAt.Some?
      && (exists s <- all :: s.reportId == host.latestId.value && s.collectedAt == host.latestAt.value)
      && forall s <- all :: NotAfter(s, host.latestAt.value, host.latestId.value)
  }

  predicate LatestIsMaximum(w: World) {
    && w.past.accepted.Keys == w.db.hosts.Keys
    && forall h <- w.db.hosts :: LatestOf(w.db.hosts[h], w.past.accepted[h])
  }

  /** Every bucket is exact, belongs to a live host, and holds only samples of its own host and hour. */
  predicate BucketsSound(w: World) {
    Exact(w.db.buckets, w.past.folded) && Placed(w.past.folded, w.db.hosts)
  }

  predicate Placed(folded: Contents, hosts: map<Uuid, Host>) {
    forall k <- folded :: k.hostId in hosts && AllIn(folded[k], k)
  }

  predicate AllIn(rows: seq<Sample>, k: BucketKey) {
    forall i :: 0 <= i < |rows| ==> BucketOf(rows[i]) == k
  }

  /** Each accepted report is in exactly one place: an unmarked row, a live bucket, or an expired one. */
  ghost predicate ConservedFor(w: World, h: Uuid)
    requires h in w.past.accepted && h in w.past.expired
  {
    w.past.accepted[h] == Pool(UnmarkedOf(w.db.reports, h)) + Pool(FoldedOf(w.past.folded, h)) + w.past.expired[h]
  }

  ghost predicate Conserved(w: World) {
    && w.past.accepted.Keys == w.db.hosts.Keys && w.past.expired.Keys == w.db.hosts.Keys
    && forall h <- w.db.hosts :: ConservedFor(w, h)
  }

  ghost predicate Inv(w: World) {
    && Owned(w.db)
    && LatestLive(w.db)
    && PayloadsLatest(w.db)
    && LatestIsMaximum(w)
    && BucketsSound(w)
    && Conserved(w)
    && Lifecycle.Bound(w.db, w.past.bonds)
  }
}
