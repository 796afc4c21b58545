/** Invites, pairing requests, activation and host deletion (store.rs). */
module Lifecycle {
  import opened Basics
  import opened Schema

  const MAX_PENDING: nat := 4096
  const MAX_PENDING_PER_DEVICE: nat := 4
  const CLEANUP_LIMIT: nat := 512
  const PAIRING_LIFE: Time := 15 * 60 * NANOS_PER_SECOND
  const DENIED_LIFE: Time := 30 * 24 * HOUR

  // ---- Invites ----

  datatype InviteOutcome = InviteCreated | InviteConflict | InviteViolation

  function CreateInvite(db: Db, inviteId: Uuid, instanceId: Uuid, codeHash: Digest, name: string, now: Time)
    : (Db, InviteOutcome)
  {
    if inviteId in db.invites || exists i <- db.invites :: db.invites[i].codeHash == codeHash then (db, InviteViolation)
    else if exists i <- db.invites :: db.invites[i].instanceId == instanceId && db.invites[i].status == Pending then
      (db, InviteConflict)
    else
      (db.(invites := db.invites[inviteId := Invite(instanceId, codeHash, name, Pending, now, None, None)]), InviteCreated)
  }

  datatype CancelOutcome = InviteCancelled | InviteNotFound | InviteNotPending

  function CancelInvite(db: Db, inviteId: Uuid, now: Time): (Db, CancelOutcome) {
    if inviteId !in db.invites then (db, InviteNotFound)
    else if db.invites[inviteId].status != Pending then (db, InviteNotPending)
    else
      (db.(invites := db.invites[inviteId := db.invites[inviteId].(status := Cancelled, cancelledAt := Some(now))]),
       InviteCancelled)
  }

  // ---- Pairing requests ----

  /** `deviceId` is None when the requested host id is not a UUID. */
  datatype PairingRequest = PairingRequest(deviceId: Option<Uuid>, device: Device, tokenHash: Digest, secretHash: Digest)

  datatype PairingOutcome =
    | Ready(requestId: Uuid, expiresAt: Time, created: bool)
    | PairingExpired
    | PairingConflict
    | AtCapacity
    | DeviceAtCapacity
    | PairingMalformed

  /** An existing row answers a retry only when every stored column repeats the request. */
  predicate Repeats(p: Pairing, r: PairingRequest) {
    Some(p.requestedHostId) == r.deviceId && p.device == Schema.Stored(r.device) && p.tokenHash == r.tokenHash
  }

  predicate Live(p: Pairing, now: Time) {
    p.status == Pending && p.expiresAt > now
  }

  predicate Removable(p: Pairing, now: Time) {
    (p.status == Pending && p.expiresAt <= now) || (p.status == Denied && p.createdAt < now - DENIED_LIFE)
  }

  function LivePairings(pairings: map<Uuid, Pairing>, now: Time): set<Uuid> {
    set p | p in pairings && Live(pairings[p], now)
  }

  function LiveForDevice(pairings: map<Uuid, Pairing>, device: Uuid, now: Time): set<Uuid> {
    set p | p in pairings && pairings[p].requestedHostId == device && Live(pairings[p], now)
  }

  function RemovableKeys(pairings: map<Uuid, Pairing>, now: Time): set<OrderKey> {
    set p | p in pairings && Removable(pairings[p], now) :: OrderKey(pairings[p].createdAt, p, 0)
  }

  function KeyIds(q: seq<OrderKey>): set<Uuid> {
    set k | k in q :: k.middle
  }

  /** The opportunistic cleanup: the oldest 512 removable rows. */
  function Cleaned(pairings: map<Uuid, Pairing>, now: Time): map<Uuid, Pairing> {
    pairings - KeyIds(Page(RemovableKeys(pairings, now), CLEANUP_LIMIT))
  }

  lemma CleanedIds(pairings: map<Uuid, Pairing>, now: Time, p: Uuid)
    requires p in KeyIds(Page(RemovableKeys(pairings, now), CLEANUP_LIMIT))
    ensures p in pairings && Removable(pairings[p], now)
  {
    var k :| k in Page(RemovableKeys(pairings, now), CLEANUP_LIMIT) && k.middle == p;
    assert k in RemovableKeys(pairings, now);
  }

  /**
   The cleanup removes only removable rows, the oldest first, as many as there are up to 512; rows that are
   removable and stay are younger than all that went.
   */
  lemma CleanupExact(pairings: map<Uuid, Pairing>, now: Time)
    ensures var after := Cleaned(pairings, now);
            && (forall p <- after :: p in pairings && after[p] == pairings[p])
            && (forall p <- pairings :: p !in after ==> Removable(pairings[p], now))
            && (forall p <- pairings, q <- after :: p !in after && Removable(after[q], now) ==>
                  Before(KeyOf(pairings, p), KeyOf(pairings, q)))
            && |pairings.Keys - after.Keys| == MinInt(|RemovableKeys(pairings, now)|, CLEANUP_LIMIT)
  {
    var page := Page(RemovableKeys(pairings, now), CLEANUP_LIMIT);
    CleanupIds(pairings, now);
    CleanupOrder(pairings, now);
    assert pairings.Keys - Cleaned(pairings, now).Keys == KeyIds(page);
    PageIsFirst(RemovableKeys(pairings, now), CLEANUP_LIMIT);
    PageIds(pairings, now, page);
  }

  function KeyOf(pairings: map<Uuid, Pairing>, p: Uuid): OrderKey
    requires p in pairings
  {
    OrderKey(pairings[p].createdAt, p, 0)
  }

  lemma CleanupIds(pairings: map<Uuid, Pairing>, now: Time)
    ensures var page := Page(RemovableKeys(pairings, now), CLEANUP_LIMIT);
            forall p :: p in KeyIds(page) <==> p in pairings && Removable(pairings[p], now) && KeyOf(pairings, p) in page
  {
    var page := Page(RemovableKeys(pairings, now), CLEANUP_LIMIT);
    forall p | p in KeyIds(page)
      ensures p in pairings && Removable(pairings[p], now) && KeyOf(pairings, p) in page
    {
      CleanedIds(pairings, now, p);
      var k :| k in page && k.middle == p;
      assert k in RemovableKeys(pairings, now);
    }
    forall p | p in pairings && KeyOf(pairings, p) in page
      ensures p in KeyIds(page)
    {
    }
  }

  lemma CleanupOrder(pairings: map<Uuid, Pairing>, now: Time)
    ensures var after := Cleaned(pairings, now);
            forall p <- pairings, q <- after :: p !in after && Removable(after[q], now) ==>
              Before(KeyOf(pairings, p), KeyOf(pairings, q))
  {
    var keys := RemovableKeys(pairings, now);
    var page := Page(keys, CLEANUP_LIMIT);
    PageIsFirst(keys, CLEANUP_LIMIT);
    CleanupIds(pairings, now);
    forall p, q | p in pairings && p in KeyIds(page) && q in pairings && q !in KeyIds(page) && Removable(pairings[q], now)
      ensures Before(KeyOf(pairings, p), KeyOf(pairings, q))
    {
      assert KeyOf(pairings, p) in page && KeyOf(pairings, q) in keys && KeyOf(pairings, q) !in page;
    }
  }

  /** A page of different rows names as many ids as it has rows. */
  lemma {:induction false} PageIds(pairings: map<Uuid, Pairing>, now: Time, page: seq<OrderKey>)
    requires Ordered(page) && forall k :: k in page ==> k in RemovableKeys(pairings, now)
    ensures |KeyIds(page)| == |page|
  {
    if page == [] {
      assert KeyIds(page) == {};
    } else {
      var n := |page| - 1;
      PageIds(pairings, now, page[..n]);
      LastIdNew(pairings, now, page);
      assert page == page[..n] + [page[n]];
      assert KeyIds(page) == KeyIds(page[..n]) + {page[n].middle};
    }
  }

  lemma LastIdNew(pairings: map<Uuid, Pairing>, now: Time, page: seq<OrderKey>)
    requires page != [] && Ordered(page) && forall k :: k in page ==> k in RemovableKeys(pairings, now)
    ensures page[|page| - 1].middle !in KeyIds(page[..|page| - 1])
  {
    var n := |page| - 1;
    forall m | 0 <= m < n
      ensures page[m].middle != page[n].middle
    {
      assert page[m] in RemovableKeys(pairings, now) && page[n] in RemovableKeys(pairings, now);
      assert Before(page[m], page[n]);
    }
  }

  ghost predicate SecretUsed(pairings: map<Uuid, Pairing>, secretHash: Digest) {
    exists p <- pairings :: pairings[p].secretHash == secretHash
  }

  ghost predicate TokenUsed(pairings: map<Uuid, Pairing>, tokenHash: Digest) {
    exists p <- pairings :: pairings[p].tokenHash == tokenHash
  }

  ghost function BySecret(pairings: map<Uuid, Pairing>, secretHash: Digest): (p: Uuid)
    requires SecretUsed(pairings, secretHash)
    ensures p in pairings && pairings[p].secretHash == secretHash
  {
    var p :| p in pairings && pairings[p].secretHash == secretHash;
    p
  }

  function NewPairing(r: PairingRequest, device: Uuid, createdAt: Time): Pairing {
    Pairing(device, Schema.Stored(r.device), r.tokenHash, r.secretHash, Pending, None, None,
            createdAt + PAIRING_LIFE, createdAt, None)
  }

  /** `now` is the reading used for cleanup and capacity, `createdAt` the later one stored in the row. */
  ghost function NextPairings(pairings: map<Uuid, Pairing>, r: PairingRequest, requestId: Uuid, now: Time, createdAt: Time)
    : (map<Uuid, Pairing>, PairingOutcome)
  {
    if SecretUsed(pairings, r.secretHash) then
      var p := BySecret(pairings, r.secretHash);
      var row := pairings[p];
      (pairings,
       if !Repeats(row, r) || row.status == Denied then PairingConflict
       else if row.expiresAt <= now then PairingExpired
       else Ready(p, row.expiresAt, false))
    else
      var cleaned := Cleaned(pairings, now);
      if |LivePairings(cleaned, now)| >= MAX_PENDING then (cleaned, AtCapacity)
      else if r.deviceId.None? then (pairings, PairingMalformed)
      else if |LiveForDevice(cleaned, r.deviceId.value, now)| >= MAX_PENDING_PER_DEVICE then (cleaned, DeviceAtCapacity)
      else if requestId in cleaned || TokenUsed(cleaned, r.tokenHash) || SecretUsed(cleaned, r.secretHash) then
        (pairings, PairingConflict)
      else
        (cleaned[requestId := NewPairing(r, r.deviceId.value, createdAt)],
         Ready(requestId, createdAt + PAIRING_LIFE, true))
  }

  /** `create_pairing`, a transaction on the pairing table alone. */
  ghost function CreatePairing(db: Db, r: PairingRequest, requestId: Uuid, now: Time, createdAt: Time): (Db, PairingOutcome) {
    var (pairings, outcome) := NextPairings(db.pairings, r, requestId, now, createdAt);
    (db.(pairings := pairings), outcome)
  }

  // ---- Activation ----

  datatype ActivateOutcome =
    | Activated(instanceId: Uuid)
    | ActivateNotFound
    | InvalidCode
    | ActivateExpired
    | ActivateConflict
    | ActivateViolation

  ghost predicate CodeKnown(invites: map<Uuid, Invite>, codeHash: Digest) {
    exists i <- invites :: invites[i].codeHash == codeHash
  }

  ghost function ByCode(invites: map<Uuid, Invite>, codeHash: Digest): (i: Uuid)
    requires CodeKnown(invites, codeHash)
    ensures i in invites && invites[i].codeHash == codeHash
  {
    var i :| i in invites && invites[i].codeHash == codeHash;
    i
  }

  /** A PRIMARY KEY or UNIQUE column the inserts and updates of an activation would repeat. */
  ghost predicate Violates(db: Db, requestId: Uuid, inviteId: Uuid, credentialId: Uuid)
    requires requestId in db.pairings && inviteId in db.invites
  {
    || db.invites[inviteId].instanceId in db.hosts
    || credentialId in db.credentials
    || (exists c <- db.credentials :: db.credentials[c].tokenHash == db.pairings[requestId].tokenHash)
    || (exists p <- db.pairings :: p != requestId && db.pairings[p].inviteId == Some(inviteId))
  }

  function NewHost(invite: Invite, pairing: Pairing, now: Time): Host {
    Host(invite.displayName, pairing.device, [], now, now, None, None, None, true)
  }

  function ActivatedTables(db: Db, requestId: Uuid, inviteId: Uuid, credentialId: Uuid, now: Time): Db
    requires requestId in db.pairings && inviteId in db.invites
  {
    var pairing, invite := db.pairings[requestId], db.invites[inviteId];
    var instance := invite.instanceId;
    db.(hosts := db.hosts[instance := NewHost(invite, pairing, now)],
        credentials := db.credentials[credentialId := Credential(instance, pairing.tokenHash, now, None, None)],
        pairings := db.pairings[requestId := pairing.(status := Active, inviteId := Some(inviteId),
                                                      instanceId := Some(instance), activatedAt := Some(now))],
        invites := db.invites[inviteId := invite.(status := Active, activatedAt := Some(now))])
  }

  ghost predicate HasCredential(db: Db, host: Uuid, tokenHash: Digest) {
    exists c <- db.credentials ::
      db.credentials[c].hostId == host && db.credentials[c].tokenHash == tokenHash && db.credentials[c].revokedAt.None?
  }

  ghost function Activate(db: Db, requestId: Uuid, codeHash: Digest, credentialId: Uuid, now: Time): (Db, ActivateOutcome) {
    if requestId !in db.pairings then (db, ActivateNotFound)
    else if !CodeKnown(db.invites, codeHash) then (db, InvalidCode)
    else
      var pairing := db.pairings[requestId];
      var inviteId := ByCode(db.invites, codeHash);
      var invite := db.invites[inviteId];
      if pairing.status == Active then
        (db,
         if pairing.inviteId == Some(inviteId) && pairing.instanceId == Some(invite.instanceId)
            && HasCredential(db, invite.instanceId, pairing.tokenHash)
         then Activated(invite.instanceId) else ActivateConflict)
      else if pairing.status != Pending || invite.status != Pending then (db, ActivateConflict)
      else if pairing.expiresAt <= now then (db, ActivateExpired)
      else if Violates(db, requestId, inviteId, credentialId) then (db, ActivateViolation)
      else (ActivatedTables(db, requestId, inviteId, credentialId, now), Activated(invite.instanceId))
  }

  /** `host_for_token`: every host a bearer token authenticates. */
  function HostsForToken(db: Db, tokenHash: Digest): set<Uuid> {
    set c | c in db.credentials && db.credentials[c].tokenHash == tokenHash && db.credentials[c].revokedAt.None?
            && db.credentials[c].hostId in db.hosts && db.hosts[db.credentials[c].hostId].active
      :: db.credentials[c].hostId
  }

  // ---- Deletion ----

  predicate PairingGoesWith(p: Pairing, host: Uuid) {
    p.instanceId == Some(host) || (p.requestedHostId == host && (p.status == Pending || p.status == Denied))
  }

  /** `delete_host`, with the rows ON DELETE CASCADE takes along. */
  function DeleteHost(db: Db, host: Uuid): (Db, bool) {
    if host !in db.hosts then (db, false)
    else
      (Db(db.hosts - {host},
          map i | i in db.reports && db.reports[i].hostId != host :: db.reports[i],
          map c | c in db.credentials && db.credentials[c].hostId != host :: db.credentials[c],
          map i | i in db.invites && db.invites[i].instanceId != host :: db.invites[i],
          map p | p in db.pairings && !PairingGoesWith(db.pairings[p], host) :: db.pairings[p],
          map k | k in db.buckets && k.hostId != host :: db.buckets[k]),
       true)
  }

  // ---- Renaming ----

  /** `update_remark`: the name an administrator gives a host. */
  function RenameHost(db: Db, host: Uuid, name: string): (Db, bool) {
    if host !in db.hosts then (db, false) else (db.(hosts := db.hosts[host := db.hosts[host].(name := name)]), true)
  }

  // ---- The binding every activation creates ----

  /** Which invite, pairing and credential a host came from. */
  datatype Bond = Bond(invite: Uuid, pairing: Uuid, credential: Uuid)

  predicate BondHolds(db: Db, h: Uuid, b: Bond) {
    && h in db.hosts && db.hosts[h].active
    && b.invite in db.invites && db.invites[b.invite].status == Active && db.invites[b.invite].instanceId == h
    && b.pairing in db.pairings && db.pairings[b.pairing].status == Active
    && db.pairings[b.pairing].inviteId == Some(b.invite) && db.pairings[b.pairing].instanceId == Some(h)
    && b.credential in db.credentials && db.credentials[b.credential].hostId == h
    && db.credentials[b.credential].tokenHash == db.pairings[b.pairing].tokenHash
    && db.credentials[b.credential].revokedAt.None?
  }

  predicate UniqueColumns(db: Db) {
    && (forall i <- db.invites, j <- db.invites :: i != j ==>
          db.invites[i].codeHash != db.invites[j].codeHash && db.invites[i].instanceId != db.invites[j].instanceId)
    && (forall p <- db.pairings, q <- db.pairings :: p != q ==>
          db.pairings[p].tokenHash != db.pairings[q].tokenHash && db.pairings[p].secretHash != db.pairings[q].secretHash)
  }

  predicate InvitesSound(db: Db, bonds: map<Uuid, Bond>) {
    forall i <- db.invites ::
      var invite := db.invites[i];
      && invite.status != Denied
      && (invite.status == Active ==> invite.instanceId in bonds && bonds[invite.instanceId].invite == i)
      && (invite.status != Active ==> invite.instanceId !in db.hosts)
      && (invite.status == Active <==> invite.activatedAt.Some?)
      && (invite.status == Cancelled <==> invite.cancelledAt.Some?)
  }

  predicate PairingsSound(db: Db, bonds: map<Uuid, Bond>) {
    forall p <- db.pairings ::
      var pairing := db.pairings[p];
      && (pairing.status == Pending || pairing.status == Active)
      && (pairing.status == Active ==> pairing.instanceId.Some? && pairing.instanceId.value in bonds
                                       && bonds[pairing.instanceId.value].pairing == p)
      && (pairing.status == Pending ==> pairing.instanceId.None? && pairing.inviteId.None? && pairing.activatedAt.None?)
  }

  predicate CredentialsSound(db: Db, bonds: map<Uuid, Bond>) {
    forall c <- db.credentials ::
      db.credentials[c].hostId in bonds && bonds[db.credentials[c].hostId].credential == c
  }

  /** Hosts, active invites, active pairings and credentials stand in one-to-one correspondence. */
  predicate Bound(db: Db, bonds: map<Uuid, Bond>) {
    && bonds.Keys == db.hosts.Keys
    && (forall h <- bonds :: BondHolds(db, h, bonds[h]))
    && UniqueColumns(db)
    && InvitesSound(db, bonds)
    && PairingsSound(db, bonds)
    && CredentialsSound(db, bonds)
  }

  // ---- What an invite was made for never changes ----

  /** An invite ends once, as active or as cancelled, and keeps its code and its instance. */
  predicate SameInvite(a: Invite, b: Invite) {
    && a.instanceId == b.instanceId && a.codeHash == b.codeHash && a.displayName == b.displayName && a.createdAt == b.createdAt
    && (a.status != Pending ==> b == a)
    && b.status in {a.status, Active, Cancelled}
  }

  // ---- Every operation keeps the correspondence ----

  lemma CreateInviteKeeps(db: Db, bonds: map<Uuid, Bond>, inviteId: Uuid, instanceId: Uuid, codeHash: Digest, name: string, now: Time)
    requires Bound(db, bonds)
    requires instanceId !in db.hosts && forall i <- db.invites :: db.invites[i].instanceId != instanceId
    ensures Bound(CreateInvite(db, inviteId, instanceId, codeHash, name, now).0, bonds)
  {
  }

  lemma CancelInviteKeeps(db: Db, bonds: map<Uuid, Bond>, inviteId: Uuid, now: Time)
    requires Bound(db, bonds)
    ensures Bound(CancelInvite(db, inviteId, now).0, bonds)
  {
  }

  lemma CleanedKeeps(db: Db, bonds: map<Uuid, Bond>, now: Time)
    requires Bound(db, bonds)
    ensures Bound(db.(pairings := Cleaned(db.pairings, now)), bonds)
  {
    var after := db.(pairings := Cleaned(db.pairings, now));
    forall h | h in bonds
      ensures BondHolds(after, h, bonds[h])
    {
      var p := bonds[h].pairing;
      assert BondHolds(db, h, bonds[h]);
      if p !in after.pairings {
        CleanedIds(db.pairings, now, p);
      }
    }
  }

  lemma CreatePairingKeeps(db: Db, bonds: map<Uuid, Bond>, r: PairingRequest, requestId: Uuid, now: Time, createdAt: Time)
    requires Bound(db, bonds)
    ensures Bound(CreatePairing(db, r, requestId, now, createdAt).0, bonds)
  {
    CleanedKeeps(db, bonds, now);
  }

  /** The bond an activation adds. */
  ghost function ActivatedBonds(db: Db, bonds: map<Uuid, Bond>, requestId: Uuid, codeHash: Digest, credentialId: Uuid, now: Time)
    : map<Uuid, Bond>
  {
    if Activate(db, requestId, codeHash, credentialId, now).0 != db then
      var i := ByCode(db.invites, codeHash);
      bonds[db.invites[i].instanceId := Bond(i, requestId, credentialId)]
    else bonds
  }

  /** With a fresh credential id no insert or update of an activation meets a constraint. */
  lemma ActivateNeverViolates(db: Db, bonds: map<Uuid, Bond>, requestId: Uuid, codeHash: Digest, credentialId: Uuid, now: Time)
    requires Bound(db, bonds)
    requires credentialId !in db.credentials
    ensures !Activate(db, requestId, codeHash, credentialId, now).1.ActivateViolation?
  {
    if requestId in db.pairings && CodeKnown(db.invites, codeHash) {
      var i := ByCode(db.invites, codeHash);
      if db.invites[i].status == Pending && db.pairings[requestId].status == Pending {
        forall c | c in db.credentials
          ensures db.credentials[c].tokenHash != db.pairings[requestId].tokenHash
        {
          assert BondHolds(db, db.credentials[c].hostId, bonds[db.credentials[c].hostId]);
        }
        forall p | p in db.pairings && p != requestId
          ensures db.pairings[p].inviteId != Some(i)
        {
          if db.pairings[p].status == Active {
            assert BondHolds(db, db.pairings[p].instanceId.value, bonds[db.pairings[p].instanceId.value]);
          }
        }
      }
    }
  }

  lemma ActivatedBondsHold(db: Db, bonds: map<Uuid, Bond>, q: Uuid, i: Uuid, credentialId: Uuid, now: Time,
      after: Db, bonds': map<Uuid, Bond>)
    requires Bound(db, bonds) && q in db.pairings && i in db.invites && !Violates(db, q, i, credentialId)
    requires db.pairings[q].status == Pending && db.invites[i].status == Pending
    requires after == ActivatedTables(db, q, i, credentialId, now)
    requires bonds' == bonds[db.invites[i].instanceId := Bond(i, q, credentialId)]
    ensures forall h <- bonds' :: BondHolds(after, h, bonds'[h])
  {
    forall h | h in bonds && h != db.invites[i].instanceId
      ensures BondHolds(after, h, bonds[h])
    {
      assert BondHolds(db, h, bonds[h]);
    }
  }

  lemma ActivatedColumns(db: Db, bonds: map<Uuid, Bond>, q: Uuid, i: Uuid, credentialId: Uuid, now: Time,
      after: Db, bonds': map<Uuid, Bond>)
    requires Bound(db, bonds) && q in db.pairings && i in db.invites && !Violates(db, q, i, credentialId)
    requires db.pairings[q].status == Pending && db.invites[i].status == Pending
    requires after == ActivatedTables(db, q, i, credentialId, now)
    requires bonds' == bonds[db.invites[i].instanceId := Bond(i, q, credentialId)]
    ensures UniqueColumns(after)
    ensures InvitesSound(after, bonds') && PairingsSound(after, bonds') && CredentialsSound(after, bonds')
  {
  }

  lemma ActivateKeeps(db: Db, bonds: map<Uuid, Bond>, requestId: Uuid, codeHash: Digest, credentialId: Uuid, now: Time)
    requires Bound(db, bonds)
    ensures Bound(Activate(db, requestId, codeHash, credentialId, now).0,
                  ActivatedBonds(db, bonds, requestId, codeHash, credentialId, now))
  {
    var after := Activate(db, requestId, codeHash, credentialId, now).0;
    if after != db {
      var i := ByCode(db.invites, codeHash);
      var bonds' := ActivatedBonds(db, bonds, requestId, codeHash, credentialId, now);
      assert after == ActivatedTables(db, requestId, i, credentialId, now);
      ActivatedBondsHold(db, bonds, requestId, i, credentialId, now, after, bonds');
      ActivatedColumns(db, bonds, requestId, i, credentialId, now, after, bonds');
    }
  }

  lemma RenameHostKeeps(db: Db, bonds: map<Uuid, Bond>, host: Uuid, name: string)
    requires Bound(db, bonds)
    ensures Bound(RenameHost(db, host, name).0, bonds)
  {
    var after := RenameHost(db, host, name).0;
    forall h | h in bonds
      ensures BondHolds(after, h, bonds[h])
    {
      assert BondHolds(db, h, bonds[h]);
    }
  }

  lemma DeleteHostKeeps(db: Db, bonds: map<Uuid, Bond>, host: Uuid)
    requires Bound(db, bonds)
    ensures Bound(DeleteHost(db, host).0, bonds - {host})
  {
    if host in db.hosts {
      var after := DeleteHost(db, host).0;
      forall h | h in bonds - {host}
        ensures BondHolds(after, h, bonds[h])
      {
        assert BondHolds(db, h, bonds[h]);
      }
    }
  }
}
