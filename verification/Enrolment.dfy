/** What invites, pairing requests, activations and deletions answer and write, and what that makes of a host over a run. */
module Enrolment {
  import opened Basics
  import opened Schema
  import opened Lifecycle
  import opened Runs
  import opened Pairings
  import Views

  // ---- Invites ----

  /** A new invite carries the instance, the code and the name it was created with; any other answer changes nothing. */
  lemma CreateInviteDecides(db: Db, i: Uuid, instance: Uuid, code: Digest, name: string, now: Time)
    ensures var (after, outcome) := CreateInvite(db, i, instance, code, name, now);
            && (outcome.InviteViolation? <==> i in db.invites || exists j <- db.invites :: db.invites[j].codeHash == code)
            && (outcome.InviteConflict? <==>
                  !outcome.InviteViolation? && exists j <- db.invites :: db.invites[j].instanceId == instance && db.invites[j].status == Pending)
            && (outcome.InviteCreated? ==>
                  after == db.(invites := db.invites[i := Schema.Invite(instance, code, name, Pending, now, None, None)]))
            && (!outcome.InviteCreated? ==> after == db)
  {
  }

  /** A pending invite, and no other, is cancelled: its status and time are written, and nothing else in any table changes. */
  lemma CancelDecides(db: Db, i: Uuid, now: Time)
    ensures var (after, outcome) := CancelInvite(db, i, now);
            && (outcome.InviteCancelled? <==> i in db.invites && db.invites[i].status == Pending)
            && (outcome.InviteNotFound? <==> i !in db.invites)
            && after == db.(invites := after.invites) && after.invites.Keys == db.invites.Keys
            && (forall j <- db.invites :: j != i || !outcome.InviteCancelled? ==> after.invites[j] == db.invites[j])
            && (outcome.InviteCancelled? ==>
                  after.invites[i] == db.invites[i].(status := Cancelled, cancelledAt := Some(now)))
  {
  }

  /** While the row of a cancelled invite lives, its code activates nothing. */
  lemma CancelledStaysCancelled(before: seq<Step>, i: Uuid, now: Time, later: seq<Step>, q: Uuid, cred: Uuid, at: Time)
    requires Possible(START, before + [Cancel(i, now)] + later)
    requires i in Run(START, before).db.invites && Run(START, before).db.invites[i].status == Pending
    requires InviteThroughout(Run(START, before + [Cancel(i, now)]), later, i)
    ensures var db := Run(START, before + [Cancel(i, now)] + later).db;
            var (after, outcome) := Activate(db, q, Run(START, before).db.invites[i].codeHash, cred, at);
            && after == db && (outcome.ActivateConflict? || outcome.ActivateNotFound?)
            && i in db.invites && db.invites[i].status == Cancelled && db.invites[i].cancelledAt == Some(now)
  {
    var cancelled := before + [Cancel(i, now)];
    assert cancelled[..|before|] == before;
    RunJoin(START, cancelled, later);
    CancelDecides(Run(START, before).db, i, now);
    InviteOutcomeIsFinal(Run(START, cancelled), later, i);
    ReachableBound(cancelled + later);
    var w := Run(START, cancelled + later);
    CancelledCode(w.db, w.past.bonds, i, q, cred, at);
  }

  lemma CancelledCode(db: Db, bonds: map<Uuid, Bond>, i: Uuid, q: Uuid, cred: Uuid, at: Time)
    requires Bound(db, bonds) && i in db.invites && db.invites[i].status == Cancelled
    ensures var (after, outcome) := Activate(db, q, db.invites[i].codeHash, cred, at);
            after == db && (outcome.ActivateConflict? || outcome.ActivateNotFound?)
  {
    assert CodeKnown(db.invites, db.invites[i].codeHash) && ByCode(db.invites, db.invites[i].codeHash) == i;
    if q in db.pairings && db.pairings[q].status == Active {
      var h := db.pairings[q].instanceId.value;
      assert BondHolds(db, h, bonds[h]);
    }
  }

  // ---- Activation ----

  /** The invite with this code. */
  predicate HasCode(db: Db, i: Uuid, code: Digest) {
    i in db.invites && db.invites[i].codeHash == code
  }

  /** The request and the invite are both still pending. */
  predicate BothPending(db: Db, q: Uuid, i: Uuid) {
    q in db.pairings && db.pairings[q].status == Pending && i in db.invites && db.invites[i].status == Pending
  }

  /** What each answer of an activation means, and when there is a new host. */
  lemma ActivationDecides(db: Db, bonds: map<Uuid, Bond>, q: Uuid, code: Digest, cred: Uuid, now: Time)
    requires Bound(db, bonds) && cred !in db.credentials
    ensures var (after, outcome) := Activate(db, q, code, cred, now);
            && (after != db <==> exists i :: HasCode(db, i, code) && BothPending(db, q, i) && now < db.pairings[q].expiresAt)
            && (outcome.ActivateNotFound? <==> q !in db.pairings)
            && (outcome.InvalidCode? <==> q in db.pairings && forall i :: !HasCode(db, i, code))
            && (outcome.ActivateExpired? <==> exists i :: HasCode(db, i, code) && BothPending(db, q, i) && db.pairings[q].expiresAt <= now)
            && (outcome.Activated? <==>
                  after != db || exists i :: HasCode(db, i, code) && q in db.pairings && db.pairings[q].status == Active
                                             && db.pairings[q].inviteId == Some(i))
            && !outcome.ActivateViolation?
  {
    ActivateNeverViolates(db, bonds, q, code, cred, now);
    if i :| HasCode(db, i, code) {
      assert CodeKnown(db.invites, code);
      CodeIsUnique(db, i, ByCode(db.invites, code), code);
      if q in db.pairings && db.pairings[q].status == Active {
        ActiveAnswer(db, bonds, q, code, cred, now);
      }
    } else {
      assert CodeKnown(db.invites, code) ==> HasCode(db, ByCode(db.invites, code), code);
    }
  }

  lemma CodeIsUnique(db: Db, i: Uuid, j: Uuid, code: Digest)
    requires UniqueColumns(db) && HasCode(db, i, code) && HasCode(db, j, code)
    ensures i == j
  {
  }

  /** The new host's invite, request and credential, column by column; no other row of any table changes. */
  lemma ActivationWrites(db: Db, q: Uuid, code: Digest, cred: Uuid, now: Time, i: Uuid)
    requires UniqueColumns(db) && HasCode(db, i, code) && Activate(db, q, code, cred, now).0 != db
    ensures q in db.pairings
    ensures var after, h := Activate(db, q, code, cred, now).0, db.invites[i].instanceId;
            && Activate(db, q, code, cred, now).1 == Activated(h)
            && after.invites == db.invites[i := db.invites[i].(status := Active, activatedAt := Some(now))]
            && after.pairings == db.pairings[q := db.pairings[q].(status := Active, inviteId := Some(i), instanceId := Some(h),
                                                                  activatedAt := Some(now))]
            && after.credentials == db.credentials[cred := Credential(h, db.pairings[q].tokenHash, now, None, None)]
            && after.hosts.Keys == db.hosts.Keys + {h} && (forall g <- db.hosts :: g != h ==> after.hosts[g] == db.hosts[g])
            && after.reports == db.reports && after.buckets == db.buckets
  {
    assert CodeKnown(db.invites, code);
    CodeIsUnique(db, i, ByCode(db.invites, code), code);
  }

  /** A request lives a quarter of an hour, and one that is active was activated before it expired. */
  predicate InTime(pairings: map<Uuid, Pairing>) {
    forall p <- pairings ::
      && pairings[p].expiresAt == pairings[p].createdAt + 900 * NANOS_PER_SECOND
      && (pairings[p].status == Active ==> pairings[p].activatedAt.Some? && pairings[p].activatedAt.value < pairings[p].expiresAt)
  }

  lemma PairInTime(pairings: map<Uuid, Pairing>, r: PairingRequest, id: Uuid, now: Time, createdAt: Time)
    requires InTime(pairings)
    ensures InTime(NextPairings(pairings, r, id, now, createdAt).0)
  {
    PairingTable(pairings, r, id, now, createdAt);
  }

  lemma BindInTime(db: Db, q: Uuid, code: Digest, cred: Uuid, now: Time)
    requires InTime(db.pairings)
    ensures InTime(Activate(db, q, code, cred, now).0.pairings)
  {
  }

  lemma StepInTime(db: Db, step: Step)
    requires InTime(db.pairings)
    ensures InTime(NextDb(db, step).pairings)
  {
    match step
    case Submit(s) =>
    case Pair(r, q, now, createdAt) => PairInTime(db.pairings, r, q, now, createdAt);
    case Bind(q, c, cred, now) => BindInTime(db, q, c, cred, now);
    case Remove(h) =>
    case _ =>
  }

  /** In every reachable state each active request was activated before it expired. */
  lemma {:induction false} ActivatedInTime(steps: seq<Step>)
    ensures InTime(Run(START, steps).db.pairings)
  {
    if steps != [] {
      var n := |steps| - 1;
      ActivatedInTime(steps[..n]);
      StepInTime(Run(START, steps[..n]).db, steps[n]);
    }
  }

  // ---- Pairing requests ----

  /** Pending past its time, or denied for thirty days. */
  predicate Stale(p: Pairing, now: Time) {
    (p.status == Pending && p.expiresAt <= now) || (p.status == Denied && p.createdAt < now - 30 * 24 * HOUR)
  }

  function StaleBefore(pairings: map<Uuid, Pairing>, p: Uuid, now: Time): set<Uuid>
    requires p in pairings
  {
    set q | q in pairings && Stale(pairings[q], now)
            && (pairings[q].createdAt < pairings[p].createdAt || (pairings[q].createdAt == pairings[p].createdAt && q < p))
  }

  /** Not among the first 512 stale rows. */
  predicate Stays(pairings: map<Uuid, Pairing>, p: Uuid, now: Time) {
    p in pairings && !(Stale(pairings[p], now) && |StaleBefore(pairings, p, now)| < 512)
  }

  lemma StaleCount(pairings: map<Uuid, Pairing>, p: Uuid, now: Time)
    requires p in pairings
    ensures |Preceding(RemovableKeys(pairings, now), OrderKey(pairings[p].createdAt, p, 0))| == |StaleBefore(pairings, p, now)|
  {
    var key := (q: Uuid) => OrderKey(if q in pairings then pairings[q].createdAt else 0, q, 0);
    var keys := Preceding(RemovableKeys(pairings, now), OrderKey(pairings[p].createdAt, p, 0));
    KeysCount(StaleBefore(pairings, p, now), keys, key, (k: OrderKey) => k.middle);
  }

  /** What the cleanup leaves. */
  function Remaining(pairings: map<Uuid, Pairing>, now: Time): map<Uuid, Pairing> {
    map p | p in pairings && Stays(pairings, p, now) :: pairings[p]
  }

  lemma CleanedIsRemaining(pairings: map<Uuid, Pairing>, now: Time)
    ensures Cleaned(pairings, now) == Remaining(pairings, now)
  {
    CleanupIds(pairings, now);
    forall p | p in pairings
      ensures p in Cleaned(pairings, now) <==> Stays(pairings, p, now)
    {
      if Removable(pairings[p], now) {
        PageHolds(RemovableKeys(pairings, now), CLEANUP_LIMIT, KeyOf(pairings, p));
        StaleCount(pairings, p, now);
      }
    }
  }

  /** The pending requests that have not expired. */
  function Waiting(pairings: map<Uuid, Pairing>, now: Time): set<Uuid> {
    set p | p in pairings && pairings[p].status == Pending && pairings[p].expiresAt > now
  }

  function WaitingFor(pairings: map<Uuid, Pairing>, device: Uuid, now: Time): set<Uuid> {
    set p | p in Waiting(pairings, now) && pairings[p].requestedHostId == device
  }

  lemma CleanupKeepsWaiting(pairings: map<Uuid, Pairing>, now: Time)
    ensures LivePairings(Cleaned(pairings, now), now) == Waiting(pairings, now)
    ensures forall device: Uuid :: LiveForDevice(Cleaned(pairings, now), device, now) == WaitingFor(pairings, device, now)
  {
    CleanedIsRemaining(pairings, now);
    forall p
      ensures p in Waiting(pairings, now) <==> p in LivePairings(Cleaned(pairings, now), now)
    {
    }
    forall device: Uuid
      ensures LiveForDevice(Cleaned(pairings, now), device, now) == WaitingFor(pairings, device, now)
    {
      WaitingForKept(pairings, now, device);
    }
  }

  lemma WaitingForKept(pairings: map<Uuid, Pairing>, now: Time, device: Uuid)
    requires Cleaned(pairings, now) == Remaining(pairings, now)
    ensures LiveForDevice(Cleaned(pairings, now), device, now) == WaitingFor(pairings, device, now)
  {
    forall p
      ensures p in WaitingFor(pairings, device, now) <==> p in LiveForDevice(Cleaned(pairings, now), device, now)
    {
    }
  }

  /** The device id, the five device columns as they are stored, and the token. */
  predicate SameColumns(p: Pairing, r: PairingRequest) {
    && r.deviceId == Some(p.requestedHostId)
    && p.device.os == Trim(r.device.os) && p.device.osVersion == r.device.osVersion && p.device.kernelVersion == r.device.kernelVersion
    && p.device.arch == Trim(r.device.arch) && p.device.clientVersion == Trim(r.device.clientVersion)
    && p.tokenHash == r.tokenHash
  }

  /** A request whose secret is known is answered from its row, which must have the same columns, and changes nothing. */
  lemma KnownRequestDecides(db: Db, r: PairingRequest, id: Uuid, now: Time, createdAt: Time, p: Uuid)
    requires UniqueColumns(db) && p in db.pairings && db.pairings[p].secretHash == r.secretHash
    ensures CreatePairing(db, r, id, now, createdAt) ==
            (db,
             if !SameColumns(db.pairings[p], r) || db.pairings[p].status == Denied then PairingConflict
             else if db.pairings[p].expiresAt <= now then PairingExpired
             else Ready(p, db.pairings[p].expiresAt, false))
  {
    assert SecretUsed(db.pairings, r.secretHash) && BySecret(db.pairings, r.secretHash) == p;
    assert Repeats(db.pairings[p], r) <==> SameColumns(db.pairings[p], r);
  }

  /** The row a request with a new secret gets. */
  function Requested(r: PairingRequest, device: Uuid, createdAt: Time): Pairing {
    Pairing(device, Device(Trim(r.device.os), r.device.osVersion, r.device.kernelVersion, Trim(r.device.arch), Trim(r.device.clientVersion)),
            r.tokenHash, r.secretHash, Pending, None, None, createdAt + 900 * NANOS_PER_SECOND, createdAt, None)
  }

  /** What a request with a new secret is answered, in the order of the tests. */
  function NewAnswer(pairings: map<Uuid, Pairing>, r: PairingRequest, id: Uuid, now: Time, createdAt: Time): PairingOutcome {
    if |Waiting(pairings, now)| >= 4096 then AtCapacity
    else if r.deviceId.None? then PairingMalformed
    else if |WaitingFor(pairings, r.deviceId.value, now)| >= 4 then DeviceAtCapacity
    else if exists p <- Remaining(pairings, now) :: p == id || pairings[p].tokenHash == r.tokenHash then PairingConflict
    else Ready(id, createdAt + 900 * NANOS_PER_SECOND, true)
  }

  /** It cleans up unless it conflicts or is malformed, and adds a row with the columns of the request exactly if it is ready. */
  lemma NewRequestDecides(db: Db, r: PairingRequest, id: Uuid, now: Time, createdAt: Time)
    requires forall p <- db.pairings :: db.pairings[p].secretHash != r.secretHash
    ensures var (after, outcome) := CreatePairing(db, r, id, now, createdAt);
            && outcome == NewAnswer(db.pairings, r, id, now, createdAt)
            && (outcome.Ready? ==> r.deviceId.Some?)
            && after == db.(pairings :=
                              if outcome.PairingConflict? || outcome.PairingMalformed? then db.pairings
                              else if outcome.Ready? then Remaining(db.pairings, now)[id := Requested(r, r.deviceId.value, createdAt)]
                              else Remaining(db.pairings, now))
  {
    NewRequestAnswer(db.pairings, r, id, now, createdAt);
    NewRequestTable(db.pairings, r, id, now, createdAt);
    CleanedIsRemaining(db.pairings, now);
  }

  lemma NewRequestAnswer(pairings: map<Uuid, Pairing>, r: PairingRequest, id: Uuid, now: Time, createdAt: Time)
    requires forall p <- pairings :: pairings[p].secretHash != r.secretHash
    ensures NextPairings(pairings, r, id, now, createdAt).1 == NewAnswer(pairings, r, id, now, createdAt)
  {
    var cleaned := Cleaned(pairings, now);
    CleanedIsRemaining(pairings, now);
    CleanupKeepsWaiting(pairings, now);
    assert !SecretUsed(pairings, r.secretHash) && !SecretUsed(cleaned, r.secretHash);
    assert (exists p <- cleaned :: p == id || pairings[p].tokenHash == r.tokenHash) <==> id in cleaned || TokenUsed(cleaned, r.tokenHash);
  }

  lemma NewRequestTable(pairings: map<Uuid, Pairing>, r: PairingRequest, id: Uuid, now: Time, createdAt: Time)
    requires forall p <- pairings :: pairings[p].secretHash != r.secretHash
    ensures var (after, outcome) := NextPairings(pairings, r, id, now, createdAt);
            && (outcome.Ready? ==> r.deviceId.Some?)
            && after == if outcome.PairingConflict? || outcome.PairingMalformed? then pairings
                        else if outcome.Ready? then Cleaned(pairings, now)[id := Requested(r, r.deviceId.value, createdAt)]
                        else Cleaned(pairings, now)
  {
    assert !SecretUsed(pairings, r.secretHash);
  }

  // ---- Deletion ----

  /** The request was activated as this host, or asks for it and is still undecided or denied. */
  predicate AsksFor(p: Pairing, h: Uuid) {
    p.instanceId == Some(h) || (p.requestedHostId == h && p.status in {Pending, Denied})
  }

  /** A deletion takes exactly the rows of its host out of all six tables and leaves every other row as it is. */
  lemma RemovalIsExact(db: Db, h: Uuid)
    ensures var (after, deleted) := DeleteHost(db, h);
            && (deleted <==> h in db.hosts)
            && (!deleted ==> after == db)
            && (deleted ==>
                  && (forall g :: g in after.hosts <==> g in db.hosts && g != h)
                  && (forall i :: i in after.reports <==> i in db.reports && db.reports[i].hostId != h)
                  && (forall c :: c in after.credentials <==> c in db.credentials && db.credentials[c].hostId != h)
                  && (forall i :: i in after.invites <==> i in db.invites && db.invites[i].instanceId != h)
                  && (forall p :: p in after.pairings <==> p in db.pairings && !AsksFor(db.pairings[p], h))
                  && (forall k :: k in after.buckets <==> k in db.buckets && k.hostId != h)
                  && SubTables(after, db))
  {
  }

  /** Every row of the first is a row of the second. */
  predicate SubTables(a: Db, b: Db) {
    && (forall h <- a.hosts :: h in b.hosts && a.hosts[h] == b.hosts[h])
    && (forall i <- a.reports :: i in b.reports && a.reports[i] == b.reports[i])
    && (forall c <- a.credentials :: c in b.credentials && a.credentials[c] == b.credentials[c])
    && (forall i <- a.invites :: i in b.invites && a.invites[i] == b.invites[i])
    && (forall p <- a.pairings :: p in b.pairings && a.pairings[p] == b.pairings[p])
    && (forall k <- a.buckets :: k in b.buckets && a.buckets[k] == b.buckets[k])
  }

  // ---- From the invite to the host ----

  /** Somewhere in the run the invite was created, and its row has been there ever since. */
  ghost predicate InvitedIn(steps: seq<Step>, i: Uuid, instance: Uuid, code: Digest, name: string) {
    exists a: seq<Step>, b: seq<Step>, t: Time ::
      && steps == a + [Step.Invite(i, instance, code, name, t)] + b
      && CreateInvite(Run(START, a).db, i, instance, code, name, t).1.InviteCreated?
      && InviteThroughout(Run(START, a + [Step.Invite(i, instance, code, name, t)]), b, i)
  }

  lemma InviteKept(steps: seq<Step>, i: Uuid, instance: Uuid, code: Digest, name: string)
    requires InvitedIn(steps, i, instance, code, name)
    ensures var invites := Run(START, steps).db.invites;
            i in invites && invites[i].instanceId == instance && invites[i].codeHash == code && invites[i].displayName == name
  {
    var a: seq<Step>, b: seq<Step>, t: Time :|
      && steps == a + [Step.Invite(i, instance, code, name, t)] + b
      && CreateInvite(Run(START, a).db, i, instance, code, name, t).1.InviteCreated?
      && InviteThroughout(Run(START, a + [Step.Invite(i, instance, code, name, t)]), b, i);
    InviteKeptFrom(a, b, t, i, instance, code, name);
  }

  lemma InviteKeptFrom(a: seq<Step>, b: seq<Step>, t: Time, i: Uuid, instance: Uuid, code: Digest, name: string)
    requires CreateInvite(Run(START, a).db, i, instance, code, name, t).1.InviteCreated?
    requires InviteThroughout(Run(START, a + [Step.Invite(i, instance, code, name, t)]), b, i)
    ensures var invites := Run(START, a + [Step.Invite(i, instance, code, name, t)] + b).db.invites;
            i in invites && invites[i].instanceId == instance && invites[i].codeHash == code && invites[i].displayName == name
  {
    var front := a + [Step.Invite(i, instance, code, name, t)];
    assert front[..|a|] == a;
    CreateInviteDecides(Run(START, a).db, i, instance, code, name, t);
    RunJoin(START, front, b);
    InviteOutcomeIsFinal(Run(START, front), b, i);
  }

  /** Somewhere in the run the request was answered with this id, and its row has been there ever since. */
  ghost predicate RequestedIn(steps: seq<Step>, q: Uuid, r: PairingRequest, createdAt: Time) {
    exists a: seq<Step>, b: seq<Step>, t: Time ::
      && steps == a + [Pair(r, q, t, createdAt)] + b
      && CreatePairing(Run(START, a).db, r, q, t, createdAt).1 == Ready(q, createdAt + 900 * NANOS_PER_SECOND, true)
      && Throughout(Run(START, a + [Pair(r, q, t, createdAt)]), b, q)
  }

  lemma RequestKept(steps: seq<Step>, q: Uuid, r: PairingRequest, createdAt: Time)
    requires Possible(START, steps) && RequestedIn(steps, q, r, createdAt)
    ensures var pairings := Run(START, steps).db.pairings;
            && q in pairings && SameColumns(pairings[q], r) && pairings[q].createdAt == createdAt
            && pairings[q].expiresAt == createdAt + 900 * NANOS_PER_SECOND
  {
    var a: seq<Step>, b: seq<Step>, t: Time :|
      && steps == a + [Pair(r, q, t, createdAt)] + b
      && CreatePairing(Run(START, a).db, r, q, t, createdAt).1 == Ready(q, createdAt + 900 * NANOS_PER_SECOND, true)
      && Throughout(Run(START, a + [Pair(r, q, t, createdAt)]), b, q);
    RequestKeptFrom(a, b, t, q, r, createdAt);
  }

  lemma RequestKeptFrom(a: seq<Step>, b: seq<Step>, t: Time, q: Uuid, r: PairingRequest, createdAt: Time)
    requires Possible(START, a + [Pair(r, q, t, createdAt)] + b)
    requires CreatePairing(Run(START, a).db, r, q, t, createdAt).1 == Ready(q, createdAt + 900 * NANOS_PER_SECOND, true)
    requires Throughout(Run(START, a + [Pair(r, q, t, createdAt)]), b, q)
    ensures var pairings := Run(START, a + [Pair(r, q, t, createdAt)] + b).db.pairings;
            && q in pairings && SameColumns(pairings[q], r) && pairings[q].createdAt == createdAt
            && pairings[q].expiresAt == createdAt + 900 * NANOS_PER_SECOND
  {
    var front := a + [Pair(r, q, t, createdAt)];
    RequestMade(a, t, q, r, createdAt);
    RunJoin(START, front, b);
    PossibleSuffix(START, front, b);
    RunKeepsRequest(Run(START, front), b, q);
  }

  lemma RequestMade(a: seq<Step>, t: Time, q: Uuid, r: PairingRequest, createdAt: Time)
    requires CreatePairing(Run(START, a).db, r, q, t, createdAt).1 == Ready(q, createdAt + 900 * NANOS_PER_SECOND, true)
    ensures var pairings := Run(START, a + [Pair(r, q, t, createdAt)]).db.pairings;
            q in pairings && r.deviceId.Some? && pairings[q] == Requested(r, r.deviceId.value, createdAt)
  {
    assert (a + [Pair(r, q, t, createdAt)])[..|a|] == a;
    CreatedRow(Run(START, a).db, r, q, t, createdAt);
  }

  lemma CreatedRow(db: Db, r: PairingRequest, q: Uuid, now: Time, createdAt: Time)
    requires CreatePairing(db, r, q, now, createdAt).1 == Ready(q, createdAt + 900 * NANOS_PER_SECOND, true)
    ensures var after := CreatePairing(db, r, q, now, createdAt).0;
            q in after.pairings && r.deviceId.Some? && after.pairings[q] == Requested(r, r.deviceId.value, createdAt)
  {
    if forall p <- db.pairings :: db.pairings[p].secretHash != r.secretHash {
      NewRequestDecides(db, r, q, now, createdAt);
    }
  }

  /**
   An invite of any run and a request of the same run, both still pending: activating the request with the invite's code
   within a quarter of an hour gives the invite's instance as a host. It shows the invite's name and the request's device,
   has reported nothing, and the request's token authenticates it and nothing else.
   */
  lemma EnrolsAsRequested(steps: seq<Step>, i: Uuid, instance: Uuid, code: Digest, name: string,
                          q: Uuid, r: PairingRequest, createdAt: Time, cred: Uuid, at: Time)
    requires Possible(START, steps) && InvitedIn(steps, i, instance, code, name) && RequestedIn(steps, q, r, createdAt)
    requires BothPending(Run(START, steps).db, q, i) && cred !in Run(START, steps).db.credentials
    requires at < createdAt + 900 * NANOS_PER_SECOND
    ensures var (after, outcome) := Activate(Run(START, steps).db, q, code, cred, at);
            && outcome == Activated(instance)
            && GetHost(after, instance) ==
               Some((HostSummary(instance, name,
                                 Device(Trim(r.device.os), r.device.osVersion, r.device.kernelVersion,
                                        Trim(r.device.arch), Trim(r.device.clientVersion)),
                                 at, at, None, None, [], NO_METRICS), None))
            && HostsForToken(after, r.tokenHash) == {instance}
  {
    InviteKept(steps, i, instance, code, name);
    RequestKept(steps, q, r, createdAt);
    ReachableBound(steps);
    ActivationShows(Run(START, steps).db, Run(START, steps).past.bonds, i, code, q, cred, at);
  }

  /** In terms of the rows of the invite and the request. */
  lemma ActivationShows(db: Db, bonds: map<Uuid, Bond>, i: Uuid, code: Digest, q: Uuid, cred: Uuid, at: Time)
    requires Bound(db, bonds) && cred !in db.credentials && HasCode(db, i, code) && BothPending(db, q, i) && at < db.pairings[q].expiresAt
    ensures var (after, outcome) := Activate(db, q, code, cred, at);
            var h := db.invites[i].instanceId;
            && outcome == Activated(h)
            && GetHost(after, h) ==
               Some((HostSummary(h, db.invites[i].displayName, db.pairings[q].device, at, at, None, None, [], NO_METRICS), None))
            && HostsForToken(after, db.pairings[q].tokenHash) == {h}
  {
    ActivationDecides(db, bonds, q, code, cred, at);
    Views.ViewAfterActivation(db, q, code, cred, at);
    CodeIsUnique(db, i, ByCode(db.invites, code), code);
  }
}
