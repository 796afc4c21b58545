/** One bounded run of the retention worker, and what repeating it achieves (retention.rs, `run_cycle_at`). */
module Cycle {
  import opened Basics
  import opened Schema
  import opened Retention

  const DAY: Time := 24 * HOUR
  const MILLISECOND: Time := 1_000_000

  datatype Limits = Limits(rawRetention: Time, aggregateRetention: Time, maintenanceInterval: Time, batchSize: nat,
                           maxTransactions: nat, maxRunTime: Time, yieldTime: Time)

  /** What `RetentionConfig::new` admits. */
  predicate Admitted(c: Limits) {
    && DAY <= c.rawRetention <= 365 * DAY
    && c.rawRetention < c.aggregateRetention <= 3650 * DAY
    && NANOS_PER_SECOND <= c.maintenanceInterval <= DAY
    && 1 <= c.batchSize <= 512
    && 3 <= c.maxTransactions <= 30
    && 100 * MILLISECOND <= c.maxRunTime <= 10 * NANOS_PER_SECOND && c.maxRunTime < c.maintenanceInterval
    && 0 < c.yieldTime <= 100 * MILLISECOND
  }

  const PRODUCTION := Limits(7 * DAY, 365 * DAY, 300 * NANOS_PER_SECOND, 256, 12, 2 * NANOS_PER_SECOND, 10 * MILLISECOND)

  type RetentionConfig = c: Limits | Admitted(c)
    witness PRODUCTION

  datatype Outcome = Outcome(aggregated: nat, deletedRaw: nat, deletedHourly: nat, transactions: nat)

  function Rows(o: Outcome): nat {
    o.aggregated + o.deletedRaw + o.deletedHourly
  }

  function Plus(a: Outcome, b: Outcome): Outcome {
    Outcome(a.aggregated + b.aggregated, a.deletedRaw + b.deletedRaw, a.deletedHourly + b.deletedHourly,
            a.transactions + b.transactions)
  }

  /** What a cycle needs to know: the two cutoffs, the clock reading and the batch size. */
  datatype Plan = Plan(rawCutoff: Time, aggregateCutoff: Time, now: Time, batch: nat)

  function PlanAt(c: RetentionConfig, now: Time): Plan {
    Plan(now - c.rawRetention, now - c.aggregateRetention, now, c.batchSize)
  }

  /** The tables after each transaction of a round, and how many rows each one found. */
  datatype Pass = Pass(folded: Db, aggregated: nat, trimmed: Db, deletedRaw: nat, after: Db, deletedHourly: nat)

  function PassOver(db: Db, p: Plan): Pass {
    var (folded, n) := RollUp(db, p.rawCutoff, p.now, p.batch);
    var (trimmed, m) := DeleteMarked(folded, p.batch);
    var (after, k) := DeleteExpired(trimmed, p.aggregateCutoff, p.batch);
    Pass(folded, n, trimmed, m, after, k)
  }

  predicate FoundNothing(r: Pass) {
    r.aggregated == 0 && r.deletedRaw == 0 && r.deletedHourly == 0
  }

  /**
   Rounds of three transactions until `left` are used up or a round finds nothing. What one round does is a
   parameter: the arithmetic of the loop does not depend on it.
   */
  function Rounds(round: Db -> Pass, db: Db, left: nat): (Db, Outcome)
    decreases left
  {
    if left == 0 then (db, Outcome(0, 0, 0, 0))
    else
      var r := round(db);
      if left == 1 then (r.folded, Outcome(r.aggregated, 0, 0, 1))
      else if left == 2 then (r.trimmed, Outcome(r.aggregated, r.deletedRaw, 0, 2))
      else if FoundNothing(r) then (r.after, Outcome(0, 0, 0, 3))
      else
        var (final, rest) := Rounds(round, r.after, left - 3);
        (final, Plus(Outcome(r.aggregated, r.deletedRaw, r.deletedHourly, 3), rest))
  }

  function RoundOf(p: Plan): Db -> Pass {
    db => PassOver(db, p)
  }

  /** `run_cycle_at` from a state no other writer touches meanwhile. */
  function RunCycle(db: Db, p: Plan, left: nat): (Db, Outcome) {
    Rounds(RoundOf(p), db, left)
  }

  /** A round uses up at least as much work as it reports rows, and finds nothing only if it changes nothing. */
  ghost predicate UsesUp(round: Db -> Pass, work: Db -> nat) {
    forall db ::
      var r := round(db);
      && work(r.folded) + r.aggregated <= work(db)
      && work(r.trimmed) + r.deletedRaw <= work(r.folded)
      && work(r.after) + r.deletedHourly <= work(r.trimmed)
      && (FoundNothing(r) ==> r.after == db)
  }

  lemma {:induction false} RoundsUseUp(round: Db -> Pass, work: Db -> nat, db: Db, left: nat)
    requires UsesUp(round, work)
    ensures var (after, o) := Rounds(round, db, left);
            && o.transactions <= left
            && work(after) + Rows(o) <= work(db)
            && (o.transactions < left ==> FoundNothing(round(after)))
    decreases left
  {
    if left >= 3 {
      RoundsUseUp(round, work, round(db).after, left - 3);
    }
  }

  lemma RoundsIdle(round: Db -> Pass, work: Db -> nat, db: Db, left: nat)
    requires UsesUp(round, work) && left >= 3
    ensures Rows(Rounds(round, db, left).1) == 0 <==> FoundNothing(round(db))
    ensures FoundNothing(round(db)) ==> Rounds(round, db, left) == (db, Outcome(0, 0, 0, 3))
  {
  }

  lemma {:induction false} RoundsPerTransaction(round: Db -> Pass, batch: nat, db: Db, left: nat)
    requires forall d :: round(d).aggregated <= batch && round(d).deletedRaw <= batch && round(d).deletedHourly <= batch
    ensures Rows(Rounds(round, db, left).1) <= left * batch
    decreases left
  {
    if left >= 3 {
      RoundsPerTransaction(round, batch, round(db).after, left - 3);
      assert left * batch == 3 * batch + (left - 3) * batch;
    }
  }

  // ---- What one round does to the tables ----

  function WorkLeft(db: Db, p: Plan): nat {
    Work(db, p.rawCutoff, p.aggregateCutoff)
  }

  function WorkOf(p: Plan): Db -> nat {
    db => WorkLeft(db, p)
  }

  predicate Finished(db: Db, p: Plan) {
    Quiescent(db, p.rawCutoff, p.aggregateCutoff)
  }

  lemma PassWork(db: Db, p: Plan)
    requires p.batch > 0
    ensures var r := PassOver(db, p);
            && WorkLeft(r.folded, p) + r.aggregated <= WorkLeft(db, p)
            && WorkLeft(r.trimmed, p) + r.deletedRaw <= WorkLeft(r.folded, p)
            && WorkLeft(r.after, p) + r.deletedHourly <= WorkLeft(r.trimmed, p)
            && (FoundNothing(r) ==> r.after == db && Finished(db, p))
  {
    var r := PassOver(db, p);
    RollUpWork(db, p.now, p.batch, p.rawCutoff, p.aggregateCutoff);
    DeleteMarkedWork(r.folded, p.batch, p.rawCutoff, p.aggregateCutoff);
    DeleteExpiredWork(r.trimmed, p.batch, p.rawCutoff, p.aggregateCutoff);
  }

  lemma NothingSelected(db: Db, p: Plan)
    requires Finished(db, p)
    ensures FoundNothing(PassOver(db, p))
  {
    assert RollUp(db, p.rawCutoff, p.now, p.batch) == (db, 0);
    NothingToDelete(db, p);
  }

  lemma NothingToDelete(db: Db, p: Plan)
    requires Finished(db, p)
    ensures DeleteMarked(db, p.batch) == (db, 0)
    ensures DeleteExpired(db, p.aggregateCutoff, p.batch) == (db, 0)
  {
    var none: seq<OrderKey> := [];
    assert Elements(Ids(none)) == {} && BucketKeys(none) == {};
    assert db.reports - {} == db.reports && db.buckets - {} == db.buckets;
  }

  lemma PassIdle(db: Db, p: Plan)
    requires p.batch > 0
    ensures FoundNothing(PassOver(db, p)) <==> Finished(db, p)
  {
    PassWork(db, p);
    if Finished(db, p) {
      NothingSelected(db, p);
    }
  }

  lemma PassesUseUp(p: Plan)
    requires p.batch > 0
    ensures UsesUp(RoundOf(p), WorkOf(p))
  {
    forall db: Db
      ensures var r := PassOver(db, p);
              && WorkLeft(r.folded, p) + r.aggregated <= WorkLeft(db, p)
              && WorkLeft(r.trimmed, p) + r.deletedRaw <= WorkLeft(r.folded, p)
              && WorkLeft(r.after, p) + r.deletedHourly <= WorkLeft(r.trimmed, p)
              && (FoundNothing(r) ==> r.after == db)
    {
      PassWork(db, p);
    }
  }

  lemma PassesPerTransaction(p: Plan)
    ensures forall d :: RoundOf(p)(d).aggregated <= p.batch && RoundOf(p)(d).deletedRaw <= p.batch
                        && RoundOf(p)(d).deletedHourly <= p.batch
  {
  }

  // ---- What a run achieves ----

  /**
   A run stays within its budget, uses up at least as much work as it reports rows, and leaves nothing to
   do if it stops short of the budget.
   */
  lemma CycleBounded(db: Db, p: Plan, left: nat)
    requires p.batch > 0
    ensures var (after, o) := RunCycle(db, p, left);
            && o.transactions <= left
            && WorkLeft(after, p) + Rows(o) <= WorkLeft(db, p)
            && (o.transactions < left ==> Finished(after, p))
  {
    PassesUseUp(p);
    RoundsUseUp(RoundOf(p), WorkOf(p), db, left);
    PassIdle(RunCycle(db, p, left).0, p);
  }

  /** With a budget of a full round, a run that reports no rows is exactly a run with nothing to do. */
  lemma IdleExactlyWhenFinished(db: Db, p: Plan, left: nat)
    requires p.batch > 0 && left >= 3
    ensures Rows(RunCycle(db, p, left).1) == 0 <==> Finished(db, p)
    ensures Finished(db, p) ==> RunCycle(db, p, left) == (db, Outcome(0, 0, 0, 3))
  {
    PassesUseUp(p);
    RoundsIdle(RoundOf(p), WorkOf(p), db, left);
    PassIdle(db, p);
  }

  /** The same run over and over, with no other writer in between. */
  function Repeated(run: Db -> Db, db: Db, times: nat): Db
    decreases times
  {
    if times == 0 then db else Repeated(run, run(db), times - 1)
  }

  lemma {:induction false} RepetitionStops(run: Db -> Db, work: Db -> nat, done: Db -> bool, db: Db, times: nat)
    requires forall d :: (done(d) ==> run(d) == d) && (!done(d) ==> work(run(d)) < work(d))
    requires done(db) || times >= work(db)
    ensures done(Repeated(run, db, times))
    decreases times
  {
    if times > 0 {
      RepetitionStops(run, work, done, run(db), times - 1);
    }
  }

  function AfterRun(p: Plan, left: nat): Db -> Db {
    db => RunCycle(db, p, left).0
  }

  /** Repeating the run as often as there is work reaches a state no further run changes. */
  lemma RepetitionFinishes(db: Db, p: Plan, left: nat, times: nat)
    requires p.batch > 0 && left >= 3 && times >= WorkLeft(db, p)
    ensures Finished(Repeated(AfterRun(p, left), db, times), p)
  {
    forall d: Db
      ensures Finished(d, p) ==> RunCycle(d, p, left).0 == d
      ensures !Finished(d, p) ==> WorkLeft(RunCycle(d, p, left).0, p) < WorkLeft(d, p)
    {
      IdleExactlyWhenFinished(d, p, left);
      CycleBounded(d, p, left);
    }
    RepetitionStops(AfterRun(p, left), WorkOf(p), d => Finished(d, p), db, times);
  }

  lemma ProductBound(a: nat, b: nat)
    requires a <= 30 && b <= 512
    ensures a * b <= 30 * 512
  {
    assert a * b <= 30 * b;
  }

  /** Every configuration `RetentionConfig::new` admits gives a run these guarantees. */
  lemma AdmittedRun(c: RetentionConfig, db: Db, now: Time)
    ensures var (after, o) := RunCycle(db, PlanAt(c, now), c.maxTransactions);
            && o.transactions <= 30 && Rows(o) <= 30 * 512
            && (Rows(o) == 0 <==> Finished(db, PlanAt(c, now)))
  {
    var p, left := PlanAt(c, now), c.maxTransactions;
    AdmittedBounds(c);
    CycleBounded(db, p, left);
    IdleExactlyWhenFinished(db, p, left);
    PassesPerTransaction(p);
    RoundsPerTransaction(RoundOf(p), p.batch, db, left);
    ProductBound(left, p.batch);
  }

  lemma AdmittedBounds(c: RetentionConfig)
    ensures 1 <= c.batchSize <= 512 && 3 <= c.maxTransactions <= 30
  {
  }
}
