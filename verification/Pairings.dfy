/** What pairing clients and administrators can rely on over whole runs. */
module Pairings {
  import opened Basics
  import opened Schema
  import opened Lifecycle
  import opened Runs
  import opened Reachable

  // ---- Pending requests stay bounded ----

  ghost predicate CapsHold(pairings: map<Uuid, Pairing>, t: Time) {
    && |LivePairings(pairings, t)| <= MAX_PENDING
    && forall d: Uuid :: |LiveForDevice(pairings, d, t)| <= MAX_PENDING_PER_DEVICE
  }

  /** The last clock reading of a run that began at `start`. */
  function Clock(steps: seq<Step>, start: Time): Time {
    if steps == [] then start
    else if steps[|steps| - 1].Pair? then steps[|steps| - 1].createdAt
    else Clock(steps[..|steps| - 1], start)
  }

  /** The wall clock never runs backwards between pairing requests. */
  predicate TimeFlows(steps: seq<Step>, start: Time) {
    forall n :: 0 <= n < |steps| && steps[n].Pair? ==> Clock(steps[..n], start) <= steps[n].now <= steps[n].createdAt
  }

  /** Every pairing live in `after` at `u` was live in `before` at `t`, for the same device. */
  predicate NoNewLive(before: map<Uuid, Pairing>, t: Time, after: map<Uuid, Pairing>, u: Time) {
    forall p <- after :: Live(after[p], u) ==>
      p in before && Live(before[p], t) && before[p].requestedHostId == after[p].requestedHostId
  }

  lemma CapsShrink(before: map<Uuid, Pairing>, t: Time, after: map<Uuid, Pairing>, u: Time)
    requires CapsHold(before, t) && NoNewLive(before, t, after, u)
    ensures CapsHold(after, u)
  {
    assert forall p :: p in LivePairings(after, u) ==> p in LivePairings(before, t);
    SubsetCardinality(LivePairings(after, u), LivePairings(before, t));
    forall d: Uuid
      ensures |LiveForDevice(after, d, u)| <= MAX_PENDING_PER_DEVICE
    {
      assert forall p :: p in LiveForDevice(after, d, u) ==> p in LiveForDevice(before, d, t);
      SubsetCardinality(LiveForDevice(after, d, u), LiveForDevice(before, d, t));
    }
  }

  lemma CapsGrow(cleaned: map<Uuid, Pairing>, now: Time, id: Uuid, row: Pairing, u: Time)
    requires CapsHold(cleaned, now) && now <= u
    requires |LivePairings(cleaned, now)| < MAX_PENDING
    requires |LiveForDevice(cleaned, row.requestedHostId, now)| < MAX_PENDING_PER_DEVICE
    ensures CapsHold(cleaned[id := row], u)
  {
    var after := cleaned[id := row];
    assert forall p :: p in LivePairings(after, u) ==> p in LivePairings(cleaned, now) + {id};
    SubsetCardinality(LivePairings(after, u), LivePairings(cleaned, now) + {id});
    forall d: Uuid
      ensures |LiveForDevice(after, d, u)| <= MAX_PENDING_PER_DEVICE
    {
      var was := LiveForDevice(cleaned, d, now);
      var room := if d == row.requestedHostId then was + {id} else was;
      assert forall p :: p in LiveForDevice(after, d, u) ==> p in room;
      SubsetCardinality(LiveForDevice(after, d, u), room);
    }
  }

  lemma CleanedAddsNone(pairings: map<Uuid, Pairing>, t: Time, now: Time)
    requires t <= now
    ensures NoNewLive(pairings, t, Cleaned(pairings, now), now)
  {
  }

  lemma PairCaps(pairings: map<Uuid, Pairing>, t: Time, r: PairingRequest, id: Uuid, now: Time, createdAt: Time)
    requires CapsHold(pairings, t) && t <= now <= createdAt
    ensures CapsHold(NextPairings(pairings, r, id, now, createdAt).0, createdAt)
  {
    var cleaned := Cleaned(pairings, now);
    CapsShrink(pairings, t, pairings, createdAt);
    CleanedAddsNone(pairings, t, now);
    CapsShrink(pairings, t, cleaned, now);
    CapsShrink(cleaned, now, cleaned, createdAt);
    PairingTable(pairings, r, id, now, createdAt);
    if NextPairings(pairings, r, id, now, createdAt).0 !in {pairings, cleaned} {
      CapsGrow(cleaned, now, id, NewPairing(r, r.deviceId.value, createdAt), createdAt);
    }
  }

  /** A pairing request leaves the table alone, cleans it up, or cleans it up and adds one row under both caps. */
  lemma PairingTable(pairings: map<Uuid, Pairing>, r: PairingRequest, id: Uuid, now: Time, createdAt: Time)
    ensures var (after, outcome) := NextPairings(pairings, r, id, now, createdAt);
            var cleaned := Cleaned(pairings, now);
            || after == pairings
            || after == cleaned
            || (outcome.Ready? && outcome.created && r.deviceId.Some? && id !in cleaned
                && |LivePairings(cleaned, now)| < MAX_PENDING
                && |LiveForDevice(cleaned, r.deviceId.value, now)| < MAX_PENDING_PER_DEVICE
                && after == cleaned[id := NewPairing(r, r.deviceId.value, createdAt)])
  {
  }

  lemma OtherStepsAddNone(db: Db, step: Step, t: Time)
    requires !step.Pair?
    ensures NoNewLive(db.pairings, t, NextDb(db, step).pairings, t)
  {
    match step
    case Submit(s) =>
    case Bind(q, c, cred, now) =>
    case Remove(h) =>
    case _ =>
  }

  /** Never more than 4096 live pending requests, nor 4 for one device, at any moment from the last one on. */
  lemma {:induction false} PendingStaysBounded(steps: seq<Step>, start: Time, t: Time)
    requires TimeFlows(steps, start) && Clock(steps, start) <= t
    ensures CapsHold(Run(START, steps).db.pairings, t)
  {
    var after := Run(START, steps).db.pairings;
    if steps == [] {
      assert LivePairings(after, t) == {};
      assert forall d: Uuid :: LiveForDevice(after, d, t) == {};
    } else {
      var n := |steps| - 1;
      var before := Run(START, steps[..n]);
      TimeFlowsPrefix(steps, start, n);
      var clock := Clock(steps[..n], start);
      if steps[n].Pair? {
        PendingStaysBounded(steps[..n], start, clock);
        PairCaps(before.db.pairings, clock, steps[n].request, steps[n].requestId, steps[n].now, steps[n].createdAt);
        CapsShrink(after, steps[n].createdAt, after, t);
      } else {
        PendingStaysBounded(steps[..n], start, t);
        OtherStepsAddNone(before.db, steps[n], t);
        CapsShrink(before.db.pairings, t, after, t);
      }
    }
  }

  lemma TimeFlowsPrefix(steps: seq<Step>, start: Time, n: nat)
    requires TimeFlows(steps, start) && n <= |steps|
    ensures TimeFlows(steps[..n], start)
  {
    forall m | 0 <= m < n && steps[m].Pair?
      ensures Clock(steps[..n][..m], start) <= steps[m].now
    {
      assert steps[..n][..m] == steps[..m];
    }
  }

  // ---- A pairing row never changes what identifies it ----

  /** The columns written once, and the binding once it is made. */
  predicate SameRequest(a: Pairing, b: Pairing) {
    && a.requestedHostId == b.requestedHostId && a.device == b.device && a.tokenHash == b.tokenHash
    && a.secretHash == b.secretHash && a.expiresAt == b.expiresAt && a.createdAt == b.createdAt
    && (a.status == Active ==> b == a)
  }

  predicate KeepRequests(before: map<Uuid, Pairing>, after: map<Uuid, Pairing>) {
    forall p <- before :: p in after ==> SameRequest(before[p], after[p])
  }

  lemma PairKeepsRequests(pairings: map<Uuid, Pairing>, r: PairingRequest, id: Uuid, now: Time, createdAt: Time)
    requires id !in pairings
    ensures KeepRequests(pairings, NextPairings(pairings, r, id, now, createdAt).0)
  {
    PairingTable(pairings, r, id, now, createdAt);
  }

  lemma BindKeepsRequests(db: Db, q: Uuid, c: Digest, cred: Uuid, now: Time)
    ensures KeepRequests(db.pairings, Activate(db, q, c, cred, now).0.pairings)
  {
  }

  lemma StepKeepsRequests(db: Db, step: Step)
    requires Enabled(db, step)
    ensures KeepRequests(db.pairings, NextDb(db, step).pairings)
  {
    match step
    case Submit(s) =>
    case Pair(r, q, now, createdAt) => PairKeepsRequests(db.pairings, r, q, now, createdAt);
    case Bind(q, c, cred, now) => BindKeepsRequests(db, q, c, cred, now);
    case Remove(h) =>
    case _ =>
  }

  /** The row is there at every point of the run. */
  ghost predicate Throughout(w: World, steps: seq<Step>, p: Uuid) {
    forall n :: 0 <= n <= |steps| ==> p in Run(w, steps[..n]).db.pairings
  }

  lemma ThroughoutPrefix(w: World, steps: seq<Step>, p: Uuid, n: nat)
    requires Throughout(w, steps, p) && n <= |steps|
    ensures Throughout(w, steps[..n], p)
  {
    forall m | 0 <= m <= n
      ensures p in Run(w, steps[..n][..m]).db.pairings
    {
      assert steps[..n][..m] == steps[..m];
    }
  }

  lemma {:induction false} RunKeepsRequest(w: World, steps: seq<Step>, p: Uuid)
    requires Possible(w, steps) && Throughout(w, steps, p)
    ensures p in w.db.pairings && p in Run(w, steps).db.pairings
    ensures SameRequest(w.db.pairings[p], Run(w, steps).db.pairings[p])
  {
    assert steps[..|steps|] == steps;
    assert steps[..0] == [];
    if steps != [] {
      var n := |steps| - 1;
      ThroughoutPrefix(w, steps, p, n);
      PossiblePrefix(w, steps, n);
      RunKeepsRequest(w, steps[..n], p);
      assert Enabled(Run(w, steps[..n]).db, steps[n]);
      StepKeepsRequests(Run(w, steps[..n]).db, steps[n]);
    }
  }

  // ---- An invite ends once ----

  predicate KeepInvites(before: map<Uuid, Schema.Invite>, after: map<Uuid, Schema.Invite>) {
    forall i <- before :: i in after ==> SameInvite(before[i], after[i])
  }

  lemma StepKeepsInvites(db: Db, step: Step)
    ensures KeepInvites(db.invites, NextDb(db, step).invites)
  {
    match step
    case Submit(s) =>
    case Bind(q, c, cred, now) => BindKeepsInvites(db, q, c, cred, now);
    case _ =>
  }

  lemma BindKeepsInvites(db: Db, q: Uuid, c: Digest, cred: Uuid, now: Time)
    ensures KeepInvites(db.invites, Activate(db, q, c, cred, now).0.invites)
  {
  }

  /** The invite is there at every point of the run. */
  ghost predicate InviteThroughout(w: World, steps: seq<Step>, i: Uuid) {
    forall n :: 0 <= n <= |steps| ==> i in Run(w, steps[..n]).db.invites
  }

  /** Over any run an invite keeps its code and instance, and once activated or cancelled it never changes again. */
  lemma {:induction false} InviteOutcomeIsFinal(w: World, steps: seq<Step>, i: Uuid)
    requires InviteThroughout(w, steps, i)
    ensures i in w.db.invites && i in Run(w, steps).db.invites
    ensures SameInvite(w.db.invites[i], Run(w, steps).db.invites[i])
  {
    assert steps[..|steps|] == steps;
    assert steps[..0] == [];
    if steps != [] {
      var n := |steps| - 1;
      InvitePrefix(w, steps, i, n);
      InviteOutcomeIsFinal(w, steps[..n], i);
      StepKeepsInvites(Run(w, steps[..n]).db, steps[n]);
    }
  }

  lemma InvitePrefix(w: World, steps: seq<Step>, i: Uuid, n: nat)
    requires InviteThroughout(w, steps, i) && n <= |steps|
    ensures InviteThroughout(w, steps[..n], i)
  {
    forall m | 0 <= m <= n
      ensures i in Run(w, steps[..n][..m]).db.invites
    {
      assert steps[..n][..m] == steps[..m];
    }
  }

  // ---- Retries ----

  lemma ReachableBound(steps: seq<Step>)
    requires Possible(START, steps)
    ensures Bound(Run(START, steps).db, Run(START, steps).past.bonds)
  {
    ReachableHolds(steps);
  }

  /** Repeating a request whose row is live gives the same identity and changes nothing, until it expires. */
  lemma RetryAnswer(pairings: map<Uuid, Pairing>, p: Uuid, r: PairingRequest, id: Uuid, now: Time, createdAt: Time)
    requires p in pairings && pairings[p].secretHash == r.secretHash && Repeats(pairings[p], r)
    requires forall q <- pairings :: pairings[q].secretHash == r.secretHash ==> q == p
    requires pairings[p].status != Denied
    ensures NextPairings(pairings, r, id, now, createdAt)
            == (pairings, if now < pairings[p].expiresAt then Ready(p, pairings[p].expiresAt, false) else PairingExpired)
  {
    assert SecretUsed(pairings, r.secretHash);
  }

  /**
   After a request has been answered, the same request repeated at any later point of any run in which its
   row survives is answered with the same id and expiry exactly while it has not expired.
   */
  lemma PairingRetry(before: seq<Step>, r: PairingRequest, id: Uuid, now: Time, createdAt: Time,
                     later: seq<Step>, retryId: Uuid, retryNow: Time, retryCreated: Time)
    requires Possible(START, before + [Pair(r, id, now, createdAt)] + later)
    requires var first := CreatePairing(Run(START, before).db, r, id, now, createdAt).1;
             first.Ready? && first.created
    requires Throughout(Run(START, before + [Pair(r, id, now, createdAt)]), later, id)
    ensures var db := Run(START, before + [Pair(r, id, now, createdAt)] + later).db;
            CreatePairing(db, r, retryId, retryNow, retryCreated)
            == (db, if retryNow < createdAt + PAIRING_LIFE then Ready(id, createdAt + PAIRING_LIFE, false) else PairingExpired)
  {
    var answered := before + [Pair(r, id, now, createdAt)];
    var w := Run(START, answered);
    assert answered[..|before|] == before;
    assert w.db.pairings[id] == NewPairing(r, r.deviceId.value, createdAt);
    RunJoin(START, answered, later);
    PossibleSuffix(START, answered, later);
    RunKeepsRequest(w, later, id);
    ReachableBound(answered + later);
    var db := Run(START, answered + later).db;
    RetryAnswer(db.pairings, id, r, retryId, retryNow, retryCreated);
  }

  lemma {:induction false} RunJoin(w: World, a: seq<Step>, b: seq<Step>)
    ensures Run(w, a + b) == Run(Run(w, a), b)
  {
    if b == [] {
      assert a + b == a;
    } else {
      var n := |b| - 1;
      assert (a + b)[..|a + b| - 1] == a + b[..n];
      RunJoin(w, a, b[..n]);
    }
  }

  lemma PossibleSuffix(w: World, a: seq<Step>, b: seq<Step>)
    requires Possible(w, a + b)
    ensures Possible(Run(w, a), b)
  {
    forall n | 0 <= n < |b|
      ensures Enabled(Run(Run(w, a), b[..n]).db, b[n])
    {
      assert (a + b)[..|a| + n] == a + b[..n];
      RunJoin(w, a, b[..n]);
      assert (a + b)[|a| + n] == b[n];
    }
  }

  /** Activating an active request again answers with its host exactly when the code is its invite's. */
  lemma ActivationRetry(steps: seq<Step>, q: Uuid, codeHash: Digest, credentialId: Uuid, now: Time)
    requires Possible(START, steps)
    requires q in Run(START, steps).db.pairings && Run(START, steps).db.pairings[q].status == Active
    ensures var db := Run(START, steps).db;
            var (after, outcome) := Activate(db, q, codeHash, credentialId, now);
            && after == db
            && db.pairings[q].inviteId.Some? && db.pairings[q].inviteId.value in db.invites && db.pairings[q].instanceId.Some?
            && (if db.invites[db.pairings[q].inviteId.value].codeHash == codeHash
                then outcome == Activated(db.pairings[q].instanceId.value)
                else outcome == ActivateConflict || outcome == InvalidCode)
  {
    ReachableBound(steps);
    ActiveAnswer(Run(START, steps).db, Run(START, steps).past.bonds, q, codeHash, credentialId, now);
  }

  lemma ActiveAnswer(db: Db, bonds: map<Uuid, Bond>, q: Uuid, codeHash: Digest, credentialId: Uuid, now: Time)
    requires Bound(db, bonds) && q in db.pairings && db.pairings[q].status == Active
    ensures var (after, outcome) := Activate(db, q, codeHash, credentialId, now);
            && after == db
            && db.pairings[q].inviteId.Some? && db.pairings[q].inviteId.value in db.invites && db.pairings[q].instanceId.Some?
            && (if db.invites[db.pairings[q].inviteId.value].codeHash == codeHash
                then outcome == Activated(db.pairings[q].instanceId.value)
                else outcome == ActivateConflict || outcome == InvalidCode)
  {
    var h := db.pairings[q].instanceId.value;
    assert BondHolds(db, h, bonds[h]);
    var i := bonds[h].invite;
    if db.invites[i].codeHash == codeHash {
      assert CodeKnown(db.invites, codeHash) && ByCode(db.invites, codeHash) == i;
    }
  }

  // ---- One host, one invite, one pairing, one credential ----

  /** In every reachable state an activation that is not refused commits: no constraint stands in its way. */
  lemma ActivationCommits(steps: seq<Step>, q: Uuid, codeHash: Digest, credentialId: Uuid, now: Time)
    requires Possible(START, steps + [Bind(q, codeHash, credentialId, now)])
    ensures !Activate(Run(START, steps).db, q, codeHash, credentialId, now).1.ActivateViolation?
  {
    var all := steps + [Bind(q, codeHash, credentialId, now)];
    assert all[..|steps|] == steps;
    PossiblePrefix(START, all, |steps|);
    ReachableBound(steps);
    assert Enabled(Run(START, all[..|steps|]).db, all[|steps|]);
    ActivateNeverViolates(Run(START, steps).db, Run(START, steps).past.bonds, q, codeHash, credentialId, now);
  }

  /** An active invite, the pairing it was spent on, the host it created and the one credential of that host. */
  predicate Linked(db: Db, i: Uuid, p: Uuid, h: Uuid, c: Uuid) {
    && i in db.invites && db.invites[i].status == Active && db.invites[i].instanceId == h
    && p in db.pairings && db.pairings[p].status == Active && db.pairings[p].inviteId == Some(i) && db.pairings[p].instanceId == Some(h)
    && h in db.hosts
    && c in db.credentials && db.credentials[c].hostId == h && db.credentials[c].tokenHash == db.pairings[p].tokenHash
  }

  /** Every host, active invite, active pairing and credential is part of a link. */
  ghost predicate Covered(db: Db) {
    && (forall h <- db.hosts :: exists i, p, c :: Linked(db, i, p, h, c))
    && (forall i <- db.invites :: db.invites[i].status == Active ==> exists p, h, c :: Linked(db, i, p, h, c))
    && (forall p <- db.pairings :: db.pairings[p].status == Active ==> exists i, h, c :: Linked(db, i, p, h, c))
    && (forall c <- db.credentials :: exists i, p, h :: Linked(db, i, p, h, c))
  }

  /** The links of a reachable state form a bijection: each of the four determines the other three. */
  lemma LinksAreOneToOne(steps: seq<Step>)
    requires Possible(START, steps)
    ensures Covered(Run(START, steps).db)
    ensures forall i, p, h, c, j, q, g, d | Linked(Run(START, steps).db, i, p, h, c) && Linked(Run(START, steps).db, j, q, g, d) ::
              (i == j <==> h == g) && (p == q <==> h == g) && (c == d <==> h == g)
  {
    ReachableBound(steps);
    BoundLinks(Run(START, steps).db, Run(START, steps).past.bonds);
    BoundUnique(Run(START, steps).db, Run(START, steps).past.bonds);
  }

  /** No invite is both cancelled and activated, and none but an activated one names a host. */
  lemma InviteEndsOnce(steps: seq<Step>, i: Uuid)
    requires Possible(START, steps) && i in Run(START, steps).db.invites
    ensures var db := Run(START, steps).db;
            && !(db.invites[i].activatedAt.Some? && db.invites[i].cancelledAt.Some?)
            && (db.invites[i].activatedAt.Some? <==> db.invites[i].instanceId in db.hosts)
  {
    ReachableBound(steps);
    InviteEnds(Run(START, steps).db, Run(START, steps).past.bonds, i);
  }

  lemma InviteEnds(db: Db, bonds: map<Uuid, Bond>, i: Uuid)
    requires Bound(db, bonds) && i in db.invites
    ensures !(db.invites[i].activatedAt.Some? && db.invites[i].cancelledAt.Some?)
    ensures db.invites[i].activatedAt.Some? <==> db.invites[i].instanceId in db.hosts
  {
  }

  lemma BoundLinks(db: Db, bonds: map<Uuid, Bond>)
    requires Bound(db, bonds)
    ensures Covered(db)
  {
    forall h | h in bonds
      ensures Linked(db, bonds[h].invite, bonds[h].pairing, h, bonds[h].credential)
    {
      assert BondHolds(db, h, bonds[h]);
    }
    forall i | i in db.invites && db.invites[i].status == Active
      ensures exists p, h, c :: Linked(db, i, p, h, c)
    {
      var h := db.invites[i].instanceId;
      assert Linked(db, i, bonds[h].pairing, h, bonds[h].credential);
    }
    forall p | p in db.pairings && db.pairings[p].status == Active
      ensures exists i, h, c :: Linked(db, i, p, h, c)
    {
      var h := db.pairings[p].instanceId.value;
      assert Linked(db, bonds[h].invite, p, h, bonds[h].credential);
    }
    forall c | c in db.credentials
      ensures exists i, p, h :: Linked(db, i, p, h, c)
    {
      var h := db.credentials[c].hostId;
      assert Linked(db, bonds[h].invite, bonds[h].pairing, h, c);
    }
  }

  lemma LinkIsBond(db: Db, bonds: map<Uuid, Bond>, i: Uuid, p: Uuid, h: Uuid, c: Uuid)
    requires Bound(db, bonds) && Linked(db, i, p, h, c)
    ensures h in bonds && bonds[h] == Bond(i, p, c)
    ensures db.invites[i].instanceId == h && db.pairings[p].instanceId == Some(h) && db.credentials[c].hostId == h
  {
  }

  lemma BoundUnique(db: Db, bonds: map<Uuid, Bond>)
    requires Bound(db, bonds)
    ensures forall i, p, h, c, j, q, g, d | Linked(db, i, p, h, c) && Linked(db, j, q, g, d) ::
              (i == j <==> h == g) && (p == q <==> h == g) && (c == d <==> h == g)
  {
    forall i, p, h, c, j, q, g, d | Linked(db, i, p, h, c) && Linked(db, j, q, g, d)
      ensures (i == j <==> h == g) && (p == q <==> h == g) && (c == d <==> h == g)
    {
      LinkIsBond(db, bonds, i, p, h, c);
      LinkIsBond(db, bonds, j, q, g, d);
    }
  }

  /** A bearer token authenticates at most one host: the one whose pairing brought the token. */
  lemma TokenNamesOneHost(steps: seq<Step>, tokenHash: Digest)
    requires Possible(START, steps)
    ensures var db := Run(START, steps).db;
            && (forall g, h :: g in HostsForToken(db, tokenHash) && h in HostsForToken(db, tokenHash) ==> g == h)
            && (forall h :: h in HostsForToken(db, tokenHash) <==>
                  exists i, p, c :: Linked(db, i, p, h, c) && db.pairings[p].tokenHash == tokenHash)
  {
    ReachableBound(steps);
    BoundTokens(Run(START, steps).db, Run(START, steps).past.bonds, tokenHash);
  }

  lemma BoundTokens(db: Db, bonds: map<Uuid, Bond>, tokenHash: Digest)
    requires Bound(db, bonds)
    ensures forall g, h :: g in HostsForToken(db, tokenHash) && h in HostsForToken(db, tokenHash) ==> g == h
    ensures forall h :: h in HostsForToken(db, tokenHash) <==>
              exists i, p, c :: Linked(db, i, p, h, c) && db.pairings[p].tokenHash == tokenHash
  {
    forall h | h in HostsForToken(db, tokenHash)
      ensures h in bonds && Linked(db, bonds[h].invite, bonds[h].pairing, h, bonds[h].credential)
      ensures db.pairings[bonds[h].pairing].tokenHash == tokenHash
    {
      assert h in bonds && BondHolds(db, h, bonds[h]);
    }
    forall i, p, h, c | Linked(db, i, p, h, c) && db.pairings[p].tokenHash == tokenHash
      ensures h in HostsForToken(db, tokenHash)
    {
      LinkIsBond(db, bonds, i, p, h, c);
      assert BondHolds(db, h, bonds[h]);
    }
  }
}
