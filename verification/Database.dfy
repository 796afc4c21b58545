/**
 The server's tables as they are updated in place, one method per transaction. A method that commits leaves the
 tables `NextDb` describes and keeps the invariant of every reachable state; one that fails leaves them unchanged.
 */
module Database {
  import opened Basics
  import opened Aggregation
  import opened Schema
  import Ingest
  import Lifecycle
  import opened Retention
  import Cycle
  import opened Runs
  import opened Reachable
  import opened Selection
  import Pairings

  /** What a batch accumulates per host and hour before it writes anything. */
  type Accumulators = map<BucketKey, HourlyAggregate>

  /** Every accumulator holds the rows of its own bucket, and no two share an object. */
  ghost predicate Accumulated(groups: Accumulators, parts: Contents)
    reads set k | k in groups :: groups[k]
  {
    && groups.Keys == parts.Keys
    && (forall k <- groups :: groups[k].Valid() && groups[k].rows == parts[k])
    && (forall j <- groups, k <- groups :: j != k ==> groups[j] != groups[k])
  }

  /** One more row: into the accumulator of its bucket, or into a new one. */
  method AddRow(groups: Accumulators, ghost parts: Contents, row: Sample) returns (next: Accumulators)
    requires Accumulated(groups, parts)
    modifies set k | k in groups :: groups[k]
    ensures Accumulated(next, Added(parts, row))
    ensures forall k <- next :: (k in groups && next[k] == groups[k]) || fresh(next[k])
  {
    if BucketOf(row) in groups {
      AddToGroup(groups, parts, row);
      next := groups;
    } else {
      next := AddGroup(groups, parts, row);
    }
  }

  method AddToGroup(groups: Accumulators, ghost parts: Contents, row: Sample)
    requires Accumulated(groups, parts) && BucketOf(row) in groups
    modifies set k | k in groups :: groups[k]
    ensures Accumulated(groups, Added(parts, row))
  {
    groups[BucketOf(row)].Record(row);
  }

  method AddGroup(groups: Accumulators, ghost parts: Contents, row: Sample) returns (next: Accumulators)
    requires Accumulated(groups, parts) && BucketOf(row) !in groups
    ensures Accumulated(next, Added(parts, row))
    ensures forall k <- next :: (k in groups && next[k] == groups[k]) || fresh(next[k])
  {
    var aggregate := new HourlyAggregate(row);
    next := groups[BucketOf(row) := aggregate];
    AccumulatedPut(groups, parts, BucketOf(row), aggregate);
  }

  lemma AccumulatedPut(groups: Accumulators, parts: Contents, k: BucketKey, aggregate: HourlyAggregate)
    requires Accumulated(groups, parts) && k !in groups && aggregate.Valid()
    requires forall j <- groups :: groups[j] != aggregate
    ensures Accumulated(groups[k := aggregate], parts[k := aggregate.rows])
  {
  }

  function Added(parts: Contents, row: Sample): Contents {
    parts[BucketOf(row) := if BucketOf(row) in parts then parts[BucketOf(row)] + [row] else [row]]
  }

  /** The grouping loop of `aggregate_raw_batch`. */
  method GroupRows(rows: seq<Sample>) returns (groups: Accumulators)
    ensures Accumulated(groups, Parts(rows))
    ensures forall k <- groups :: fresh(groups[k])
  {
    groups := map[];
    ghost var parts: Contents := map[];
    NoParts(rows[..0]);
    for i := 0 to |rows|
      invariant parts == Parts(rows[..i])
      invariant Accumulated(groups, parts)
      invariant forall k <- groups :: fresh(groups[k])
    {
      PartsExtended(rows, i);
      groups := AddRow(groups, parts, rows[i]);
      parts := Added(parts, rows[i]);
    }
    assert rows[..|rows|] == rows;
  }

  lemma NoParts(rows: seq<Sample>)
    requires rows == []
    ensures Parts(rows) == map[]
  {
  }

  lemma PartsExtended(rows: seq<Sample>, i: nat)
    requires i < |rows|
    ensures Parts(rows[..i + 1]) == Added(Parts(rows[..i]), rows[i])
  {
    var front, row := rows[..i], rows[i];
    assert rows[..i + 1] == front + [row];
    PartsSnoc(front, row);
    if BucketOf(row) !in Parts(front) {
      assert InBucket(front, BucketOf(row)) + [row] == [row];
    }
  }

  /** What the accumulators hold once every row is in. */
  method GroupedValues(rows: seq<Sample>) returns (values: Groups)
    ensures values == Grouped(Parts(rows))
  {
    var groups := GroupRows(rows);
    values := map k | k in groups :: groups[k].Value();
    AccumulatorsAreGroups(groups, Parts(rows), values);
  }

  class Database {
    var hosts: map<Uuid, Host>
    var reports: map<Uuid, Row>
    var credentials: map<Uuid, Credential>
    var invites: map<Uuid, Schema.Invite>
    var pairings: map<Uuid, Pairing>
    var buckets: map<BucketKey, Bucket>
    ghost var past: History

    function Tables(): Db
      reads this
    {
      Db(hosts, reports, credentials, invites, pairings, buckets)
    }

    ghost function State(): World
      reads this
    {
      World(Tables(), past)
    }

    ghost predicate Valid()
      reads this
    {
      Inv(State())
    }

    constructor ()
      ensures State() == START && Valid()
    {
      hosts, reports, credentials, invites, pairings, buckets := map[], map[], map[], map[], map[], map[];
      past := START.past;
      new;
      StartHolds();
    }

    method Restore(saved: Db)
      modifies this
      ensures Tables() == saved && past == old(past)
    {
      hosts, reports, credentials := saved.hosts, saved.reports, saved.credentials;
      invites, pairings, buckets := saved.invites, saved.pairings, saved.buckets;
    }

    /** The history follows a transaction that has just written its tables. */
    ghost method Commit(before: Db, step: Step)
      requires Inv(World(before, past)) && Enabled(before, step) && Tables() == NextDb(before, step)
      modifies this`past
      ensures State() == Next(World(before, old(past)), step) && Valid()
    {
      StepKeeps(World(before, past), step);
      past := NextHistory(before, past, step);
    }

    // ---- Reports ----

    /** Statement by statement; a failure may leave the tables half written. */
    method StoreReportInTransaction(s: Ingest.Submission) returns (answer: Ingest.Answer)
      modifies this
      ensures past == old(past)
      ensures Ingest.Store(old(Tables()), s).1 == answer
      ensures answer.Stored? ==> Tables() == Ingest.Store(old(Tables()), s).0
    {
      var w, now := s.write, s.now;
      if w.report.hostId.None? || w.report.reportId.None? {
        return Ingest.Refused(Ingest.Malformed);
      }
      var host, id := w.report.hostId.value, w.report.reportId.value;
      if s.fault == Some(Ingest.ReadHost) {
        return Ingest.Refused(Ingest.StatementFailed);
      }
      if !Ingest.Authorized(Tables(), host, w.tokenHash) {
        return Ingest.Refused(Ingest.Unauthorized);
      }
      var previous := hosts[host].latestId;
      var latest := Ingest.BecomesLatest(hosts[host], w.report.collectedAt, id);
      if s.fault == Some(Ingest.InsertReport) {
        return Ingest.Refused(Ingest.StatementFailed);
      }
      if id in reports {
        if s.fault == Some(Ingest.ReadExisting) {
          return Ingest.Refused(Ingest.StatementFailed);
        }
        if reports[id].hostId == host {
          return Ingest.Stored(false, reports[id].receivedAt);
        }
        return Ingest.Refused(Ingest.ReportIdConflict);
      }
      reports := reports[id := Ingest.NewRow(w, host, now, latest)];
      if latest {
        if s.fault == Some(Ingest.UpdateHost) {
          return Ingest.Refused(Ingest.StatementFailed);
        }
        hosts := hosts[host := Ingest.Observed(hosts[host], w.report, id, now)];
        if previous.Some? && previous.value != id {
          if s.fault == Some(Ingest.ClearPayload) {
            return Ingest.Refused(Ingest.StatementFailed);
          }
          if previous.value in reports {
            reports := reports[previous.value := reports[previous.value].(payload := None)];
          }
        }
      }
      if s.fault == Some(Ingest.TouchCredential) {
        return Ingest.Refused(Ingest.StatementFailed);
      }
      credentials := Ingest.Touched(credentials, w.tokenHash, now);
      return Ingest.Stored(true, now);
    }

    method StoreReport(s: Ingest.Submission) returns (answer: Ingest.Answer)
      requires Valid()
      modifies this
      ensures Valid() && State() == Next(old(State()), Submit(s))
      ensures answer == Ingest.Store(old(Tables()), s).1
    {
      var saved := Tables();
      Ingest.StoreAcknowledges(saved, s);
      answer := StoreReportInTransaction(s);
      if answer.Refused? {
        Restore(saved);
      }
      Commit(saved, Submit(s));
    }

    /**
     A writer batch: each report inside its own savepoint, one outer commit. `cut` is the report whose savepoint
     statement fails, or |batch| if the outer commit does; then nothing is answered and nothing is kept.
     */
    method StoreReportBatch(batch: seq<Ingest.Submission>, cut: Option<nat>) returns (answers: Option<seq<Ingest.Answer>>)
      requires Valid()
      modifies this
      ensures Valid()
      ensures answers.None? <==> cut.Some? && cut.value <= |batch|
      ensures answers.None? ==> State() == old(State())
      ensures answers.Some? ==> (Tables(), answers.value) == Ingest.StoreEach(old(Tables()), batch)
      ensures answers.Some? ==> State() == Run(old(State()), Submissions(batch))
    {
      var start := Tables();
      ghost var begun := past;
      answers := StoreSavepoints(batch, cut);
      if answers.None? || cut == Some(|batch|) {
        Restore(start);
        past := begun;
        answers := None;
      }
    }

    /** The reports of a batch, one savepoint each, until one of the savepoint statements fails. */
    method StoreSavepoints(batch: seq<Ingest.Submission>, cut: Option<nat>) returns (answers: Option<seq<Ingest.Answer>>)
      requires Valid()
      modifies this
      ensures answers.None? <==> cut.Some? && cut.value < |batch|
      ensures answers.Some? ==> Valid() && State() == Run(old(State()), Submissions(batch))
      ensures answers.Some? ==> (Tables(), answers.value) == Ingest.StoreEach(old(Tables()), batch)
    {
      ghost var begun, steps := State(), Submissions(batch);
      var done: seq<Ingest.Answer> := [];
      for i := 0 to |batch|
        invariant Valid() && State() == Run(begun, steps[..i])
        invariant (Tables(), done) == Ingest.StoreEach(begun.db, batch[..i])
        invariant cut.Some? ==> i <= cut.value
      {
        if cut == Some(i) {
          return None;
        }
        var answer := StoreReport(batch[i]);
        done := done + [answer];
        EachExtended(begun.db, batch, i);
        RunExtended(begun, steps, i);
      }
      assert batch[..|batch|] == batch && steps[..|batch|] == steps;
      return Some(done);
    }

    // ---- Retention ----

    method AggregateRawBatch(cutoff: Time, now: Time, batchSize: nat) returns (marked: nat)
      requires Valid()
      modifies this
      ensures Valid() && State() == Next(old(State()), RollUpBatch(cutoff, now, batchSize))
      ensures marked == RollUp(old(Tables()), cutoff, now, batchSize).1
    {
      ghost var saved := Tables();
      marked := FoldBatch(cutoff, now, batchSize);
      Commit(saved, RollUpBatch(cutoff, now, batchSize));
    }

    method FoldBatch(cutoff: Time, now: Time, batchSize: nat) returns (marked: nat)
      requires Exact(buckets, past.folded)
      modifies this`reports, this`buckets
      ensures (Tables(), marked) == RollUp(old(Tables()), cutoff, now, batchSize)
    {
      var ids := PendingBatch(Tables(), cutoff, batchSize);
      if ids == [] {
        return 0;
      }
      var count := FoldRows(ids, cutoff, now);
      return count.value;
    }

    /**
     Fold the fetched rows and mark them. The answer would be None if the update had marked more or fewer rows
     than were fetched; it never is.
     */
    method FoldRows(ids: seq<Uuid>, cutoff: Time, now: Time) returns (count: Option<nat>)
      requires Exact(buckets, past.folded) && Selected(Tables(), ids, cutoff)
      modifies this`reports, this`buckets
      ensures count == Some(|ids|)
      ensures Tables() == RollRows(old(Tables()), ids, now)
    {
      BatchIsRowByRow(Tables(), past.folded, ids, now);
      MarkerCount(Tables(), ids, cutoff);
      var marked := WriteGroups(ids, now);
      count := if marked == |ids| then Some(marked) else None;
    }

    /** The writes of a batch: one upsert per accumulator, then the marker update. */
    method WriteGroups(ids: seq<Uuid>, now: Time) returns (marked: nat)
      requires (forall i :: 0 <= i < |ids| ==> ids[i] in reports) && Unfolded(reports, ids) == Elements(ids)
      modifies this`reports, this`buckets
      ensures marked == |Unfolded(old(reports), ids)|
      ensures reports == Marked(old(reports), ids, now)
      ensures buckets == Upserted(old(buckets), Grouped(Parts(Samples(old(Tables()), ids))), now)
    {
      ghost var start := reports;
      var groups := GroupedValues(Samples(Tables(), ids));
      UpsertAll(groups, now);
      marked := MarkRows(ids, now);
      MarkedAll(start, ids, now, reports);
    }

    /** `UPDATE ... SET aggregated_at = now WHERE aggregated_at IS NULL AND report_id IN (...)`, and its row count. */
    method MarkRows(ids: seq<Uuid>, now: Time) returns (hit: nat)
      modifies this`reports
      ensures hit == |Unfolded(old(reports), ids)|
      ensures reports.Keys == old(reports).Keys
      ensures forall i <- reports ::
                reports[i] == if i in Unfolded(old(reports), ids) then old(reports)[i].(aggregatedAt := Some(now)) else old(reports)[i]
    {
      var found := Unfolded(reports, ids);
      reports := map i | i in reports :: if i in found then reports[i].(aggregatedAt := Some(now)) else reports[i];
      hit := |found|;
    }

    /** `INSERT ... ON CONFLICT DO UPDATE` for one accumulator. */
    method Upsert(k: BucketKey, incoming: BucketSummary, now: Time)
      modifies this`buckets
      ensures buckets == old(buckets)[k := Bucket(Joined(old(buckets), k, incoming), now)]
    {
      if k in buckets {
        buckets := buckets[k := Bucket(Combined(buckets[k].summary, incoming), now)];
      } else {
        buckets := buckets[k := Bucket(incoming, now)];
      }
    }

    method UpsertAll(groups: Groups, now: Time)
      modifies this`buckets
      ensures buckets == Upserted(old(buckets), groups, now)
    {
      ghost var start := buckets;
      NothingUpserted(start, groups, now);
      var todo := groups.Keys;
      while todo != {}
        invariant todo <= groups.Keys
        invariant buckets == Upserted(start, groups - todo, now)
      {
        var k :| k in todo;
        OneMoreUpsert(start, groups, todo, k, now, buckets);
        Upsert(k, groups[k], now);
        todo := todo - {k};
      }
      assert groups - {} == groups;
    }

    method DeleteAggregatedRawBatch(batchSize: nat) returns (deleted: nat)
      requires Valid()
      modifies this
      ensures Valid() && State() == Next(old(State()), DeleteRawBatch(batchSize))
      ensures deleted == DeleteMarked(old(Tables()), batchSize).1
    {
      ghost var saved := Tables();
      deleted := DeleteRows(batchSize);
      Commit(saved, DeleteRawBatch(batchSize));
    }

    method DeleteRows(batchSize: nat) returns (deleted: nat)
      modifies this`reports
      ensures (Tables(), deleted) == DeleteMarked(old(Tables()), batchSize)
    {
      var page := Elements(Ids(Page(DeletableKeys(Tables()), batchSize)));
      var doomed := set i | i in page && i in reports && !IsLatest(hosts, i);
      DeletableCount(Tables(), batchSize);
      assert doomed == page;
      deleted := |doomed|;
      reports := reports - doomed;
    }

    method DeleteExpiredAggregateBatch(cutoff: Time, batchSize: nat) returns (deleted: nat)
      requires Valid()
      modifies this
      ensures Valid() && State() == Next(old(State()), DeleteHourlyBatch(cutoff, batchSize))
      ensures deleted == DeleteExpired(old(Tables()), cutoff, batchSize).1
    {
      ghost var saved := Tables();
      deleted := DeleteBuckets(cutoff, batchSize);
      Commit(saved, DeleteHourlyBatch(cutoff, batchSize));
    }

    method DeleteBuckets(cutoff: Time, batchSize: nat) returns (deleted: nat)
      modifies this`buckets
      ensures (Tables(), deleted) == DeleteExpired(old(Tables()), cutoff, batchSize)
    {
      var page := BucketKeys(Page(ExpiredKeys(Tables(), cutoff), batchSize));
      ExpiredCount(Tables(), cutoff, batchSize);
      deleted := |page|;
      buckets := buckets - page;
    }

    /** `run_cycle_at`, with no other writer between its transactions. */
    method RunCycle(config: Cycle.RetentionConfig, now: Time) returns (outcome: Cycle.Outcome)
      requires Valid()
      modifies this
      ensures Valid()
      ensures (Tables(), outcome) == Cycle.RunCycle(old(Tables()), Cycle.PlanAt(config, now), config.maxTransactions)
      ensures Aged(old(Tables()), Tables(), now - config.rawRetention, now - config.aggregateRetention, now)
      ensures outcome.transactions < config.maxTransactions ==>
                NothingDue(Tables(), now - config.rawRetention, now - config.aggregateRetention)
    {
      RunHonoursRetention(config, Tables(), now);
      var p := Cycle.PlanAt(config, now);
      outcome := RunRounds(p, config.maxTransactions, Cycle.RoundOf(p));
    }

    method RunRounds(p: Cycle.Plan, max: nat, ghost round: Db -> Cycle.Pass) returns (outcome: Cycle.Outcome)
      requires Valid() && Describes(round, p)
      modifies this
      ensures Valid()
      ensures (Tables(), outcome) == Cycle.Rounds(round, old(Tables()), max)
    {
      ghost var all := Cycle.Rounds(round, Tables(), max);
      outcome := Cycle.Outcome(0, 0, 0, 0);
      NoneCounted(all);
      while outcome.transactions < max
        invariant Valid()
        invariant outcome.transactions <= max
        invariant all == Continued(outcome, Cycle.Rounds(round, Tables(), max - outcome.transactions))
        decreases max - outcome.transactions
      {
        var idle;
        outcome, idle := RunAndCount(p, max, outcome, round, all);
        if idle {
          return;
        }
      }
      NoRounds(round, Tables(), outcome);
    }

    /** One more round, counted; `idle` if it found nothing. */
    method RunAndCount(p: Cycle.Plan, max: nat, sofar: Cycle.Outcome, ghost round: Db -> Cycle.Pass, ghost all: (Db, Cycle.Outcome))
      returns (counted: Cycle.Outcome, idle: bool)
      requires Valid() && Describes(round, p) && sofar.transactions < max
      requires all == Continued(sofar, Cycle.Rounds(round, Tables(), max - sofar.transactions))
      modifies this
      ensures Valid() && sofar.transactions < counted.transactions <= max
      ensures idle ==> all == (Tables(), counted)
      ensures !idle ==> all == Continued(counted, Cycle.Rounds(round, Tables(), max - counted.transactions))
    {
      ghost var before := Tables();
      var found := RunRound(p, max - sofar.transactions, round);
      counted, idle := Cycle.Plus(sofar, found), Cycle.Rows(found) == 0;
      RoundCounted(all, round, sofar, before, max, Tables(), found);
      NoRounds(round, Tables(), counted);
    }

    /** Up to three transactions, as far as the budget goes. */
    method RunRound(p: Cycle.Plan, budget: nat, ghost round: Db -> Cycle.Pass) returns (found: Cycle.Outcome)
      requires Valid() && Describes(round, p) && budget > 0
      modifies this
      ensures Valid()
      ensures (Tables(), found) == Cut(round(old(Tables())), budget)
    {
      assert Described(round, p, Tables());
      PassParts(Tables(), p);
      CutParts(round(Tables()), budget);
      found := RunFold(p);
      if budget > 1 {
        var deletions := RunDeletions(p, if budget == 2 then 1 else 2);
        found := Cycle.Plus(found, deletions);
      }
    }

    method RunFold(p: Cycle.Plan) returns (found: Cycle.Outcome)
      requires Valid()
      modifies this
      ensures Valid()
      ensures (Tables(), found) == Folded(old(Tables()), p)
    {
      var rolled := AggregateRawBatch(p.rawCutoff, p.now, p.batch);
      found := Cycle.Outcome(rolled, 0, 0, 1);
    }

    method RunDeletions(p: Cycle.Plan, budget: nat) returns (found: Cycle.Outcome)
      requires Valid() && (budget == 1 || budget == 2)
      modifies this
      ensures Valid()
      ensures (Tables(), found) == Deleted(old(Tables()), p, budget)
    {
      var deleted := DeleteAggregatedRawBatch(p.batch);
      found := Cycle.Outcome(0, deleted, 0, 1);
      if budget > 1 {
        var expired := DeleteExpiredAggregateBatch(p.aggregateCutoff, p.batch);
        found := Cycle.Outcome(0, deleted, expired, 2);
      }
    }

    // ---- Invites, pairing requests, activation, deletion ----

    method CreateInvite(inviteId: Uuid, instanceId: Uuid, codeHash: Digest, name: string, now: Time)
      returns (outcome: Lifecycle.InviteOutcome)
      requires Valid() && Enabled(Tables(), Step.Invite(inviteId, instanceId, codeHash, name, now))
      modifies this
      ensures Valid() && State() == Next(old(State()), Step.Invite(inviteId, instanceId, codeHash, name, now))
      ensures outcome == Lifecycle.CreateInvite(old(Tables()), inviteId, instanceId, codeHash, name, now).1
    {
      ghost var saved := Tables();
      if inviteId in invites || exists i <- invites :: invites[i].codeHash == codeHash {
        outcome := Lifecycle.InviteViolation;
      } else if exists i <- invites :: invites[i].instanceId == instanceId && invites[i].status == Pending {
        outcome := Lifecycle.InviteConflict;
      } else {
        invites := invites[inviteId := Schema.Invite(instanceId, codeHash, name, Pending, now, None, None)];
        outcome := Lifecycle.InviteCreated;
      }
      Commit(saved, Step.Invite(inviteId, instanceId, codeHash, name, now));
    }

    method CancelInvite(inviteId: Uuid, now: Time) returns (outcome: Lifecycle.CancelOutcome)
      requires Valid()
      modifies this
      ensures Valid() && State() == Next(old(State()), Cancel(inviteId, now))
      ensures outcome == Lifecycle.CancelInvite(old(Tables()), inviteId, now).1
    {
      ghost var saved := Tables();
      if inviteId !in invites {
        outcome := Lifecycle.InviteNotFound;
      } else if invites[inviteId].status != Pending {
        outcome := Lifecycle.InviteNotPending;
      } else {
        invites := invites[inviteId := invites[inviteId].(status := Cancelled, cancelledAt := Some(now))];
        outcome := Lifecycle.InviteCancelled;
      }
      Commit(saved, Cancel(inviteId, now));
    }

    method CreatePairing(r: Lifecycle.PairingRequest, requestId: Uuid, now: Time, createdAt: Time)
      returns (outcome: Lifecycle.PairingOutcome)
      requires Valid() && Enabled(Tables(), Pair(r, requestId, now, createdAt))
      modifies this
      ensures Valid() && State() == Next(old(State()), Pair(r, requestId, now, createdAt))
      ensures outcome == Lifecycle.CreatePairing(old(Tables()), r, requestId, now, createdAt).1
    {
      ghost var saved := Tables();
      outcome := RequestPairing(r, requestId, now, createdAt);
      Commit(saved, Pair(r, requestId, now, createdAt));
    }

    method RequestPairing(r: Lifecycle.PairingRequest, requestId: Uuid, now: Time, createdAt: Time)
      returns (outcome: Lifecycle.PairingOutcome)
      requires Lifecycle.UniqueColumns(Tables())
      modifies this`pairings
      ensures (pairings, outcome) == Lifecycle.NextPairings(old(pairings), r, requestId, now, createdAt)
    {
      if p :| p in pairings && pairings[p].secretHash == r.secretHash {
        assert p == Lifecycle.BySecret(pairings, r.secretHash);
        var row := pairings[p];
        if !Lifecycle.Repeats(row, r) || row.status == Denied {
          return Lifecycle.PairingConflict;
        }
        if row.expiresAt <= now {
          return Lifecycle.PairingExpired;
        }
        return Lifecycle.Ready(p, row.expiresAt, false);
      }
      var saved := pairings;
      pairings := pairings - Lifecycle.KeyIds(Page(Lifecycle.RemovableKeys(pairings, now), Lifecycle.CLEANUP_LIMIT));
      if |Lifecycle.LivePairings(pairings, now)| >= Lifecycle.MAX_PENDING {
        return Lifecycle.AtCapacity;
      }
      if r.deviceId.None? {
        pairings := saved;
        return Lifecycle.PairingMalformed;
      }
      var device := r.deviceId.value;
      if |Lifecycle.LiveForDevice(pairings, device, now)| >= Lifecycle.MAX_PENDING_PER_DEVICE {
        return Lifecycle.DeviceAtCapacity;
      }
      if requestId in pairings
         || exists p <- pairings :: pairings[p].tokenHash == r.tokenHash || pairings[p].secretHash == r.secretHash {
        pairings := saved;
        return Lifecycle.PairingConflict;
      }
      pairings := pairings[requestId := Lifecycle.NewPairing(r, device, createdAt)];
      return Lifecycle.Ready(requestId, createdAt + Lifecycle.PAIRING_LIFE, true);
    }

    method Activate(requestId: Uuid, codeHash: Digest, credentialId: Uuid, now: Time) returns (outcome: Lifecycle.ActivateOutcome)
      requires Valid() && Enabled(Tables(), Bind(requestId, codeHash, credentialId, now))
      modifies this
      ensures Valid() && State() == Next(old(State()), Bind(requestId, codeHash, credentialId, now))
      ensures outcome == Lifecycle.Activate(old(Tables()), requestId, codeHash, credentialId, now).1
      ensures !outcome.ActivateViolation?
    {
      ghost var saved := Tables();
      Lifecycle.ActivateNeverViolates(saved, past.bonds, requestId, codeHash, credentialId, now);
      outcome := ActivateTables(requestId, codeHash, credentialId, now);
      Commit(saved, Bind(requestId, codeHash, credentialId, now));
    }

    /** Four writes, each checked against the PRIMARY KEY and UNIQUE constraints of its own table. */
    method ActivateTables(requestId: Uuid, codeHash: Digest, credentialId: Uuid, now: Time) returns (outcome: Lifecycle.ActivateOutcome)
      requires Lifecycle.UniqueColumns(Tables())
      modifies this`hosts, this`credentials, this`pairings, this`invites
      ensures (Tables(), outcome) == Lifecycle.Activate(old(Tables()), requestId, codeHash, credentialId, now)
    {
      if requestId !in pairings {
        return Lifecycle.ActivateNotFound;
      }
      if i :| i in invites && invites[i].codeHash == codeHash {
        assert i == Lifecycle.ByCode(invites, codeHash);
        var pairing, invite := pairings[requestId], invites[i];
        if pairing.status == Active {
          var same := pairing.inviteId == Some(i) && pairing.instanceId == Some(invite.instanceId);
          var active := exists c <- credentials ::
            credentials[c].hostId == invite.instanceId && credentials[c].tokenHash == pairing.tokenHash && credentials[c].revokedAt.None?;
          return if same && active then Lifecycle.Activated(invite.instanceId) else Lifecycle.ActivateConflict;
        }
        if pairing.status != Pending || invite.status != Pending {
          return Lifecycle.ActivateConflict;
        }
        if pairing.expiresAt <= now {
          return Lifecycle.ActivateExpired;
        }
        outcome := WriteActivation(requestId, i, credentialId, now);
      } else {
        return Lifecycle.InvalidCode;
      }
    }

    method WriteActivation(requestId: Uuid, i: Uuid, credentialId: Uuid, now: Time) returns (outcome: Lifecycle.ActivateOutcome)
      requires requestId in pairings && i in invites
      modifies this`hosts, this`credentials, this`pairings, this`invites
      ensures (Tables(), outcome) ==
              if Lifecycle.Violates(old(Tables()), requestId, i, credentialId) then (old(Tables()), Lifecycle.ActivateViolation)
              else (Lifecycle.ActivatedTables(old(Tables()), requestId, i, credentialId, now),
                    Lifecycle.Activated(old(invites)[i].instanceId))
    {
      var pairing, invite := pairings[requestId], invites[i];
      var instance := invite.instanceId;
      var hostsBefore, credentialsBefore := hosts, credentials;
      if instance in hosts {
        return Lifecycle.ActivateViolation;
      }
      hosts := hosts[instance := Lifecycle.NewHost(invite, pairing, now)];
      if credentialId in credentials || exists c <- credentials :: credentials[c].tokenHash == pairing.tokenHash {
        hosts := hostsBefore;
        return Lifecycle.ActivateViolation;
      }
      credentials := credentials[credentialId := Credential(instance, pairing.tokenHash, now, None, None)];
      if exists p <- pairings :: p != requestId && pairings[p].inviteId == Some(i) {
        hosts, credentials := hostsBefore, credentialsBefore;
        return Lifecycle.ActivateViolation;
      }
      pairings := pairings[requestId := pairing.(status := Active, inviteId := Some(i),
                                                 instanceId := Some(instance), activatedAt := Some(now))];
      invites := invites[i := invite.(status := Active, activatedAt := Some(now))];
      return Lifecycle.Activated(instance);
    }

    /** `host_for_token`: the one host the token authenticates, if any. */
    method HostForToken(tokenHash: Digest) returns (host: Option<Uuid>)
      requires Valid()
      ensures Lifecycle.HostsForToken(Tables(), tokenHash) == if host.Some? then {host.value} else {}
    {
      Pairings.BoundTokens(Tables(), past.bonds, tokenHash);
      if c :| c in credentials && credentials[c].tokenHash == tokenHash && credentials[c].revokedAt.None?
              && credentials[c].hostId in hosts && hosts[credentials[c].hostId].active {
        assert credentials[c].hostId in Lifecycle.HostsForToken(Tables(), tokenHash);
        return Some(credentials[c].hostId);
      }
      return None;
    }

    /** `update_remark`. */
    method UpdateRemark(host: Uuid, name: string) returns (changed: bool)
      requires Valid()
      modifies this
      ensures Valid() && State() == Next(old(State()), Rename(host, name))
      ensures changed == (host in old(hosts))
    {
      ghost var saved := Tables();
      changed := host in hosts;
      if changed {
        hosts := hosts[host := hosts[host].(name := name)];
      }
      Commit(saved, Rename(host, name));
    }

    method DeleteHost(host: Uuid) returns (deleted: bool)
      requires Valid()
      modifies this
      ensures Valid() && State() == Next(old(State()), Remove(host))
      ensures deleted == (host in old(hosts))
    {
      ghost var saved := Tables();
      deleted := DeleteHostRows(host);
      Commit(saved, Remove(host));
    }

    method DeleteHostRows(host: Uuid) returns (deleted: bool)
      modifies this
      ensures past == old(past)
      ensures (Tables(), deleted) == Lifecycle.DeleteHost(old(Tables()), host)
    {
      if host !in hosts {
        return false;
      }
      pairings := map p | p in pairings && !Lifecycle.PairingGoesWith(pairings[p], host) :: pairings[p];
      invites := map i | i in invites && invites[i].instanceId != host :: invites[i];
      hosts := hosts - {host};
      reports := map i | i in reports && reports[i].hostId != host :: reports[i];
      credentials := map c | c in credentials && credentials[c].hostId != host :: credentials[c];
      buckets := map k | k in buckets && k.hostId != host :: buckets[k];
      return true;
    }
  }

  /** The result of a run that has already counted `sofar`. */
  function Continued(sofar: Cycle.Outcome, rest: (Db, Cycle.Outcome)): (Db, Cycle.Outcome) {
    (rest.0, Cycle.Plus(sofar, rest.1))
  }

  /** A round as far as the budget goes. */
  function Cut(r: Cycle.Pass, budget: nat): (Db, Cycle.Outcome)
    requires budget > 0
  {
    if budget == 1 then (r.folded, Cycle.Outcome(r.aggregated, 0, 0, 1))
    else if budget == 2 then (r.trimmed, Cycle.Outcome(r.aggregated, r.deletedRaw, 0, 2))
    else (r.after, Cycle.Outcome(r.aggregated, r.deletedRaw, r.deletedHourly, 3))
  }

  lemma LastRound(round: Db -> Cycle.Pass, db: Db, left: nat)
    requires left == 1 || left == 2
    ensures Cycle.Rounds(round, db, left) == Cut(round(db), left)
  {
  }

  lemma IdleRound(round: Db -> Cycle.Pass, db: Db, left: nat)
    requires left >= 3 && Cycle.Rows(Cut(round(db), left).1) == 0
    ensures Cycle.Rounds(round, db, left) == Cut(round(db), left)
  {
  }

  lemma BusyRound(round: Db -> Cycle.Pass, db: Db, left: nat)
    requires left >= 3 && Cycle.Rows(Cut(round(db), left).1) != 0
    ensures Cycle.Rounds(round, db, left) == Continued(Cut(round(db), left).1, Cycle.Rounds(round, Cut(round(db), left).0, left - 3))
  {
  }

  lemma CutUses(r: Cycle.Pass, budget: nat)
    requires budget > 0
    ensures Cut(r, budget).1.transactions == if budget < 3 then budget else 3
  {
  }

  lemma ContinuedTwice(a: Cycle.Outcome, b: Cycle.Outcome, rest: (Db, Cycle.Outcome))
    ensures Continued(a, Continued(b, rest)) == Continued(Cycle.Plus(a, b), rest)
  {
  }

  /** A run that has counted `sofar` and makes one more round is over, or goes on from where the round ended. */
  lemma RoundCounted(all: (Db, Cycle.Outcome), round: Db -> Cycle.Pass, sofar: Cycle.Outcome, db: Db, max: nat,
                     after: Db, found: Cycle.Outcome)
    requires sofar.transactions < max
    requires all == Continued(sofar, Cycle.Rounds(round, db, max - sofar.transactions))
    requires (after, found) == Cut(round(db), max - sofar.transactions)
    ensures var counted := Cycle.Plus(sofar, found);
            && sofar.transactions < counted.transactions <= max
            && (if counted.transactions == max || Cycle.Rows(found) == 0 then all == (after, counted)
                else all == Continued(counted, Cycle.Rounds(round, after, max - counted.transactions)))
  {
    var left: nat := max - sofar.transactions;
    CutUses(round(db), left);
    if left < 3 {
      LastRound(round, db, left);
    } else if Cycle.Rows(found) == 0 {
      IdleRound(round, db, left);
    } else {
      BusyRound(round, db, left);
      ContinuedTwice(sofar, found, Cycle.Rounds(round, after, left - 3));
      if left == 3 {
        NoRounds(round, after, Cycle.Plus(sofar, found));
      }
    }
  }

  lemma NoneCounted(all: (Db, Cycle.Outcome))
    ensures all == Continued(Cycle.Outcome(0, 0, 0, 0), all)
  {
  }

  lemma NoRounds(round: Db -> Cycle.Pass, db: Db, sofar: Cycle.Outcome)
    ensures Continued(sofar, Cycle.Rounds(round, db, 0)) == (db, sofar)
  {
  }

  /** At this state the round is what its plan says. */
  ghost predicate Described(round: Db -> Cycle.Pass, p: Cycle.Plan, db: Db) {
    round(db) == Cycle.PassOver(db, p)
  }

  ghost predicate Describes(round: Db -> Cycle.Pass, p: Cycle.Plan) {
    forall db :: Described(round, p, db)
  }

  function Folded(db: Db, p: Cycle.Plan): (Db, Cycle.Outcome) {
    var (after, n) := RollUp(db, p.rawCutoff, p.now, p.batch);
    (after, Cycle.Outcome(n, 0, 0, 1))
  }

  function Deleted(db: Db, p: Cycle.Plan, budget: nat): (Db, Cycle.Outcome) {
    var (trimmed, m) := DeleteMarked(db, p.batch);
    var (after, k) := DeleteExpired(trimmed, p.aggregateCutoff, p.batch);
    if budget == 1 then (trimmed, Cycle.Outcome(0, m, 0, 1)) else (after, Cycle.Outcome(0, m, k, 2))
  }

  lemma PassParts(db: Db, p: Cycle.Plan)
    ensures var r := Cycle.PassOver(db, p);
            && Folded(db, p) == (r.folded, Cycle.Outcome(r.aggregated, 0, 0, 1))
            && Deleted(r.folded, p, 1) == (r.trimmed, Cycle.Outcome(0, r.deletedRaw, 0, 1))
            && Deleted(r.folded, p, 2) == (r.after, Cycle.Outcome(0, r.deletedRaw, r.deletedHourly, 2))
  {
  }

  /** A round as far as the budget goes is the folding transaction and then as many deletions as are left. */
  lemma CutParts(r: Cycle.Pass, budget: nat)
    requires budget > 0
    ensures Cut(r, budget) ==
            if budget == 1 then (r.folded, Cycle.Outcome(r.aggregated, 0, 0, 1))
            else
              var deletions := if budget == 2 then Cycle.Outcome(0, r.deletedRaw, 0, 1) else Cycle.Outcome(0, r.deletedRaw, r.deletedHourly, 2);
              (if budget == 2 then r.trimmed else r.after, Cycle.Plus(Cycle.Outcome(r.aggregated, 0, 0, 1), deletions))
  {
  }

  function Unfolded(reports: map<Uuid, Row>, ids: seq<Uuid>): set<Uuid> {
    set i | i in ids && i in reports && reports[i].aggregatedAt.None?
  }

  lemma AccumulatorsAreGroups(groups: Accumulators, parts: Contents, values: Groups)
    requires Accumulated(groups, parts) && forall k <- parts :: parts[k] != []
    requires values.Keys == groups.Keys && forall k <- groups :: values[k] == groups[k].Value()
    ensures values == Grouped(parts)
  {
  }

  lemma MarkedAll(reports: map<Uuid, Row>, ids: seq<Uuid>, now: Time, after: map<Uuid, Row>)
    requires Unfolded(reports, ids) == Elements(ids)
    requires after.Keys == reports.Keys
    requires forall i <- after ::
               after[i] == if i in Unfolded(reports, ids) then reports[i].(aggregatedAt := Some(now)) else reports[i]
    ensures after == Marked(reports, ids, now)
  {
    forall i | i in after
      ensures after[i] == Marked(reports, ids, now)[i]
    {
      assert i in ids <==> i in Elements(ids);
    }
  }

  lemma NothingUpserted(buckets: map<BucketKey, Bucket>, all: Groups, now: Time)
    ensures Upserted(buckets, all - all.Keys, now) == buckets
  {
  }

  function Submissions(batch: seq<Ingest.Submission>): seq<Step> {
    seq(|batch|, i requires 0 <= i < |batch| => Submit(batch[i]))
  }

  lemma OneMoreUpsert(buckets: map<BucketKey, Bucket>, groups: Groups, todo: set<BucketKey>, k: BucketKey, now: Time,
                      sofar: map<BucketKey, Bucket>)
    requires k in todo && todo <= groups.Keys
    requires sofar == Upserted(buckets, groups - todo, now)
    ensures Upserted(buckets, groups - (todo - {k}), now) == sofar[k := Bucket(Joined(sofar, k, groups[k]), now)]
  {
    assert k in sofar <==> k in buckets;
    assert k in buckets ==> sofar[k] == buckets[k];
  }

  lemma EachExtended(db: Db, batch: seq<Ingest.Submission>, i: nat)
    requires i < |batch|
    ensures var (before, answers) := Ingest.StoreEach(db, batch[..i]);
            var (after, answer) := Ingest.Store(before, batch[i]);
            Ingest.StoreEach(db, batch[..i + 1]) == (after, answers + [answer])
  {
    assert batch[..i + 1][..i] == batch[..i];
  }

  lemma RunExtended(w: World, steps: seq<Step>, i: nat)
    requires i < |steps|
    ensures Run(w, steps[..i + 1]) == Next(Run(w, steps[..i]), steps[i])
  {
    assert steps[..i + 1][..i] == steps[..i];
  }

  /** The marker update always hits every row of the batch, so its guard changes nothing. */
  lemma MarkerCount(db: Db, ids: seq<Uuid>, cutoff: Time)
    requires Selected(db, ids, cutoff)
    ensures Unfolded(db.reports, ids) == Elements(ids)
    ensures |Unfolded(db.reports, ids)| == |ids|
  {
    assert Unfolded(db.reports, ids) == Elements(ids);
    DistinctCardinality(ids);
  }

  /** The guarded delete removes every row its subquery selected. */
}
