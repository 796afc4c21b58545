/**
 The telemetry writer (telemetry.rs): submitters, one batching consumer and a shutdown owner around a bounded
 channel, as a state machine over their interleaved steps. After `close`, permits that are already reserved may
 still send, and `recv` answers None only once the queue is empty and no permit is outstanding.
 */
module Writer {
  import opened Basics
  import Schema
  import Ingest

  datatype Config = Config(capacity: nat, batchSize: nat)

  predicate Admitted(c: Config) {
    1 <= c.capacity <= 1024 && 1 <= c.batchSize <= MinInt(512, c.capacity)
  }

  type WriterConfig = c: Config | Admitted(c)
    witness Config(256, 64)

  /** Where the writer task is. The two selects and the plain `recv` are the places it can block. */
  datatype Pc = Top | Selecting | Receiving | Filling | FillSelecting | Draining | Persisting | Exited | Aborted

  /** How far `shutdown` has got. */
  datatype Owner = Idle | Asked | Notified

  /** A report in the channel; the ticket stands for the submitter that waits for its answer. */
  datatype Queued = Queued(ticket: nat, write: Schema.ReportWrite)

  /** The clock reading of a report's insert, and the statement of its savepoint that fails, if any. */
  datatype Circumstance = Circumstance(now: Time, fault: Option<Ingest.Statement>)

  /** A batch whose transaction has ended: no answers if it did not commit; the tables it left. */
  datatype Finished = Finished(items: seq<Queued>, answers: Option<seq<Ingest.Answer>>, committed: Schema.Db)

  datatype Counters = Counters(enqueued: nat, batches: nat, completed: nat, failed: nat, largest: nat)

  datatype State = State(
    config: WriterConfig,
    attached: bool,          // some Sender is alive
    permits: nat,            // reserved, not yet sent
    queue: seq<Queued>,
    closed: bool,
    requested: bool,
    token: bool,             // the permit a `notify_one` leaves behind
    owner: Owner,
    pc: Pc,
    draining: bool,
    batch: seq<Queued>,
    sent: seq<Queued>,       // everything ever sent, in order
    finished: seq<Finished>,
    counters: Counters,
    db: Schema.Db)

  datatype Step =
    | Reserve
    | Send(item: Queued)
    | DropPermit
    | CountEnqueued
    | DetachSenders
    | StoreRequest
    | Notify
    | Abort
    | CheckTop
    | TakeFirst
    | EndOfQueue
    | SeeNotification
    | CheckFill
    | TakeNext
    | NothingToTake
    | FlushDeadline
    | FillEndOfQueue
    | SeeNotificationFilling
    | Persist(commit: Option<seq<Circumstance>>)
    | Elsewhere(after: Schema.Db)

  function Initial(c: WriterConfig): State {
    State(c, true, 0, [], false, false, false, Idle, Top, false, [], [], [], Counters(0, 0, 0, 0, 0), Schema.EMPTY_DB)
  }

  predicate IsWriterStep(step: Step) {
    step.CheckTop? || step.TakeFirst? || step.EndOfQueue? || step.SeeNotification? || step.CheckFill? || step.TakeNext?
    || step.NothingToTake? || step.FlushDeadline? || step.FillEndOfQueue? || step.SeeNotificationFilling? || step.Persist?
  }

  /** `recv` answers None. */
  predicate AtEnd(s: State) {
    s.queue == [] && s.permits == 0 && (s.closed || !s.attached)
  }

  predicate Enabled(s: State, step: Step) {
    match step
    case Reserve => s.attached && !s.closed && s.pc != Aborted && |s.queue| + s.permits < s.config.capacity
    case Send(item) => s.permits > 0 && forall other <- s.sent :: other.ticket != item.ticket
    case DropPermit => s.permits > 0
    case CountEnqueued => s.counters.enqueued < |s.sent|
    case DetachSenders => s.attached && s.permits == 0
    case StoreRequest => s.owner == Idle
    case Notify => s.owner == Asked
    case Abort => s.pc != Exited
    case CheckTop => s.pc == Top
    case TakeFirst => (s.pc == Selecting || s.pc == Receiving) && s.queue != []
    case EndOfQueue => (s.pc == Selecting || s.pc == Receiving) && AtEnd(s)
    case SeeNotification => s.pc == Selecting && s.token
    case CheckFill => s.pc == Filling
    case TakeNext => (s.pc == FillSelecting || s.pc == Draining) && s.queue != []
    case NothingToTake => s.pc == Draining && s.queue == []
    case FlushDeadline => s.pc == FillSelecting
    case FillEndOfQueue => s.pc == FillSelecting && AtEnd(s)
    case SeeNotificationFilling => s.pc == FillSelecting && s.token
    case Persist(commit) => s.pc == Persisting && (commit.Some? ==> |commit.value| == |s.batch|)
    case Elsewhere(_) => true
  }

  /** `if requested && !draining { close; draining = true }`. */
  function CloseIfRequested(s: State): State {
    if s.requested && !s.draining then s.(closed := true, draining := true) else s
  }

  /** How many answers say the report is stored. */
  function Successes(answers: seq<Ingest.Answer>): nat {
    if answers == [] then 0 else Successes(answers[..|answers| - 1]) + if answers[|answers| - 1].Stored? then 1 else 0
  }

  /** What `persist_batch` does to the counters. */
  function Counted(c: Counters, size: nat, answers: Option<seq<Ingest.Answer>>): Counters
    requires answers.Some? ==> |answers.value| == size
  {
    SuccessesAtMost(if answers.Some? then answers.value else []);
    var stored := if answers.Some? then Successes(answers.value) else 0;
    c.(batches := c.batches + 1, largest := MaxInt(c.largest, size),
       completed := c.completed + stored, failed := c.failed + size - stored)
  }

  lemma SuccessesAtMost(answers: seq<Ingest.Answer>)
    ensures Successes(answers) <= |answers|
  {
  }

  function Submissions(items: seq<Queued>, conditions: seq<Circumstance>): (batch: seq<Ingest.Submission>)
    requires |conditions| == |items|
    ensures |batch| == |items|
  {
    seq(|items|, i requires 0 <= i < |items| => Ingest.Submission(items[i].write, conditions[i].now, conditions[i].fault))
  }

  /** The batch after its transaction: rolled back as a whole, or every report stored or refused in turn. */
  function Ended(db: Schema.Db, items: seq<Queued>, commit: Option<seq<Circumstance>>): Finished
    requires commit.Some? ==> |commit.value| == |items|
  {
    if commit.None? then Finished(items, None, db)
    else
      var (after, answers) := Ingest.StoreEach(db, Submissions(items, commit.value));
      Finished(items, Some(answers), after)
  }

  function Apply(s: State, step: Step): State
    requires Enabled(s, step)
  {
    match step
    case Reserve => s.(permits := s.permits + 1)
    case Send(item) => s.(permits := s.permits - 1, queue := s.queue + [item], sent := s.sent + [item])
    case DropPermit => s.(permits := s.permits - 1)
    case CountEnqueued => s.(counters := s.counters.(enqueued := s.counters.enqueued + 1))
    case DetachSenders => s.(attached := false)
    case StoreRequest => s.(owner := Asked, requested := true)
    case Notify => s.(owner := Notified, token := true)
    case Abort => s.(pc := Aborted)
    case CheckTop =>
      var t := CloseIfRequested(s);
      t.(pc := if t.draining then Receiving else Selecting)
    case TakeFirst => s.(pc := Filling, batch := [s.queue[0]], queue := s.queue[1..])
    case EndOfQueue => s.(pc := Exited)
    case SeeNotification => CloseIfRequested(s.(token := false)).(pc := Receiving)
    case CheckFill =>
      if |s.batch| >= s.config.batchSize then s.(pc := Persisting)
      else
        var t := CloseIfRequested(s);
        t.(pc := if t.draining then Draining else FillSelecting)
    case TakeNext => s.(pc := Filling, batch := s.batch + [s.queue[0]], queue := s.queue[1..])
    case NothingToTake => s.(pc := Persisting)
    case FlushDeadline => s.(pc := Persisting)
    case FillEndOfQueue => s.(pc := Persisting)
    case SeeNotificationFilling => CloseIfRequested(s.(token := false)).(pc := Filling)
    case Persist(commit) =>
      var ended := Ended(s.db, s.batch, commit);
      s.(pc := Top, batch := [], finished := s.finished + [ended], counters := Counted(s.counters, |s.batch|, ended.answers),
         db := ended.committed)
    case Elsewhere(after) => s.(db := after)
  }

  // ---- What every reachable state satisfies ----

  function Items(finished: seq<Finished>): seq<Queued> {
    if finished == [] then [] else Items(finished[..|finished| - 1]) + finished[|finished| - 1].items
  }

  predicate HoldsBatch(pc: Pc) {
    pc == Filling || pc == FillSelecting || pc == Draining || pc == Persisting
  }

  /** No two are from the same submitter. */
  predicate DistinctTickets(q: seq<Queued>) {
    forall i, j :: 0 <= i < j < |q| ==> q[i].ticket != q[j].ticket
  }

  /** Nothing sent is lost, doubled or reordered. */
  predicate Conserved(s: State) {
    && s.sent == Items(s.finished) + s.batch + s.queue
    && DistinctTickets(s.sent)
    && s.counters.enqueued <= |s.sent|
    && s.counters.batches == |s.finished|
    && s.counters.completed + s.counters.failed == |Items(s.finished)|
  }

  predicate Bounded(s: State) {
    && |s.queue| + s.permits <= s.config.capacity
    && (s.permits > 0 ==> s.attached)
    && (forall n :: 0 <= n < |s.finished| ==> 1 <= |s.finished[n].items| <= s.config.batchSize)
    && (HoldsBatch(s.pc) ==> 1 <= |s.batch| <= s.config.batchSize)
    && ((s.pc == FillSelecting || s.pc == Draining) ==> |s.batch| < s.config.batchSize)
    && (!HoldsBatch(s.pc) && s.pc != Aborted ==> s.batch == [])
  }

  /** The shutdown handshake. */
  predicate Handshake(s: State) {
    && (s.owner == Idle <==> !s.requested)
    && (s.token ==> s.requested)
    && (s.closed <==> s.draining)
    && (s.closed ==> s.requested)
    && (s.owner == Notified ==> s.token || s.closed)
    && (s.pc == Receiving || s.pc == Draining ==> s.closed)
    && (s.pc == Selecting || s.pc == FillSelecting ==> !s.closed)
    && (s.pc == Exited ==> AtEnd(s))
  }

  predicate Inv(s: State) {
    Conserved(s) && Bounded(s) && Handshake(s)
  }

  lemma InitialHolds(c: WriterConfig)
    ensures Inv(Initial(c))
  {
  }

  lemma ItemsSnoc(finished: seq<Finished>, f: Finished)
    ensures Items(finished + [f]) == Items(finished) + f.items
  {
    assert (finished + [f])[..|finished|] == finished;
  }

  lemma SendConserves(s: State, item: Queued)
    requires Inv(s) && Enabled(s, Send(item))
    ensures Conserved(Apply(s, Send(item)))
  {
    assert Items(s.finished) + s.batch + (s.queue + [item]) == s.sent + [item];
  }

  lemma TakeConserves(s: State, step: Step)
    requires Inv(s) && Enabled(s, step) && (step.TakeFirst? || step.TakeNext?)
    ensures Conserved(Apply(s, step))
  {
    var taken := s.batch + [s.queue[0]];
    assert s.batch == [] ==> taken == [s.queue[0]];
    assert Items(s.finished) + taken + s.queue[1..] == Items(s.finished) + s.batch + s.queue;
  }

  lemma EmptyBetween(a: seq<Queued>, b: seq<Queued>, c: seq<Queued>)
    ensures (a + b) + [] + c == a + b + c
  {
  }

  lemma PersistConserves(s: State, commit: Option<seq<Circumstance>>)
    requires Inv(s) && Enabled(s, Persist(commit))
    ensures Conserved(Apply(s, Persist(commit)))
  {
    var ended := Ended(s.db, s.batch, commit);
    ItemsSnoc(s.finished, ended);
    EmptyBetween(Items(s.finished), s.batch, s.queue);
    SuccessesAtMost(if ended.answers.Some? then ended.answers.value else []);
  }

  predicate Untouched(s: State, t: State) {
    && t.sent == s.sent && t.finished == s.finished && t.batch == s.batch && t.queue == s.queue && t.config == s.config
    && t.counters == s.counters.(enqueued := t.counters.enqueued)
    && (s.counters.enqueued <= |s.sent| ==> t.counters.enqueued <= |s.sent|)
  }

  predicate MovesReports(step: Step) {
    step.Send? || step.TakeFirst? || step.TakeNext? || step.Persist?
  }

  /** All other steps leave the reports where they are. */
  lemma WriterElsewhere(s: State, step: Step)
    requires Enabled(s, step) && !MovesReports(step) && IsWriterStep(step)
    ensures Untouched(s, Apply(s, step))
  {
  }

  lemma OthersElsewhere(s: State, step: Step)
    requires Enabled(s, step) && !MovesReports(step) && !IsWriterStep(step)
    ensures Untouched(s, Apply(s, step))
  {
  }

  lemma Elsewhere(s: State, step: Step)
    requires Enabled(s, step) && !MovesReports(step)
    ensures Untouched(s, Apply(s, step))
  {
    if IsWriterStep(step) {
      WriterElsewhere(s, step);
    } else {
      OthersElsewhere(s, step);
    }
  }

  lemma StepConserves(s: State, step: Step)
    requires Inv(s) && Enabled(s, step)
    ensures Conserved(Apply(s, step))
  {
    if step.Send? {
      SendConserves(s, step.item);
    } else if step.TakeFirst? || step.TakeNext? {
      TakeConserves(s, step);
    } else if step.Persist? {
      PersistConserves(s, step.commit);
    } else {
      Elsewhere(s, step);
    }
  }

  lemma PersistBounded(s: State, commit: Option<seq<Circumstance>>)
    requires Inv(s) && Enabled(s, Persist(commit))
    ensures Bounded(Apply(s, Persist(commit)))
  {
  }

  lemma MoveBounded(s: State, step: Step)
    requires Inv(s) && Enabled(s, step) && (step.Send? || step.TakeFirst? || step.TakeNext?)
    ensures Bounded(Apply(s, step))
  {
  }

  lemma WriterBounded(s: State, step: Step)
    requires Inv(s) && Enabled(s, step) && IsWriterStep(step) && !MovesReports(step)
    ensures Bounded(Apply(s, step))
  {
    WriterElsewhere(s, step);
  }

  lemma OthersBounded(s: State, step: Step)
    requires Inv(s) && Enabled(s, step) && !IsWriterStep(step) && !MovesReports(step)
    ensures Bounded(Apply(s, step))
  {
    OthersElsewhere(s, step);
  }

  lemma StepBounded(s: State, step: Step)
    requires Inv(s) && Enabled(s, step)
    ensures Bounded(Apply(s, step))
  {
    if step.Persist? {
      PersistBounded(s, step.commit);
    } else if MovesReports(step) {
      MoveBounded(s, step);
    } else if IsWriterStep(step) {
      WriterBounded(s, step);
    } else {
      OthersBounded(s, step);
    }
  }

  lemma WriterShakes(s: State, step: Step)
    requires Inv(s) && Enabled(s, step) && IsWriterStep(step)
    ensures Handshake(Apply(s, step))
  {
  }

  lemma OthersShake(s: State, step: Step)
    requires Inv(s) && Enabled(s, step) && !IsWriterStep(step)
    ensures Handshake(Apply(s, step))
  {
  }

  lemma StepShakes(s: State, step: Step)
    requires Inv(s) && Enabled(s, step)
    ensures Handshake(Apply(s, step))
  {
    if IsWriterStep(step) {
      WriterShakes(s, step);
    } else {
      OthersShake(s, step);
    }
  }

  function Run(s: State, steps: seq<Step>): Option<State> {
    if steps == [] then Some(s)
    else
      var before := Run(s, steps[..|steps| - 1]);
      if before.Some? && Enabled(before.value, steps[|steps| - 1]) then Some(Apply(before.value, steps[|steps| - 1])) else None
  }

  lemma {:induction false} ReachableHolds(c: WriterConfig, steps: seq<Step>)
    requires Run(Initial(c), steps).Some?
    ensures Inv(Run(Initial(c), steps).value)
  {
    if steps == [] {
      InitialHolds(c);
    } else {
      var n := |steps| - 1;
      ReachableHolds(c, steps[..n]);
      var s := Run(Initial(c), steps[..n]).value;
      StepKeeps(s, steps[n]);
    }
  }

  // ---- Conservation and order ----

  /** Batches, the batch being built and the queue, in this order, are what was sent; capacity and batch sizes hold. */
  lemma NothingLost(c: WriterConfig, steps: seq<Step>)
    requires Run(Initial(c), steps).Some?
    ensures var s := Run(Initial(c), steps).value;
            && s.sent == Items(s.finished) + s.batch + s.queue
            && |s.queue| + s.permits <= s.config.capacity
            && (forall n :: 0 <= n < |s.finished| ==> 1 <= |s.finished[n].items| <= s.config.batchSize)
            && s.counters.completed + s.counters.failed == |Items(s.finished)|
            && s.counters.enqueued <= |s.sent|
  {
    ReachableHolds(c, steps);
  }

  /** A writer that ends by itself has answered everything that was ever sent, and nothing can be sent any more. */
  lemma ExitIsComplete(c: WriterConfig, steps: seq<Step>)
    requires Run(Initial(c), steps).Some? && Run(Initial(c), steps).value.pc == Exited
    ensures var s := Run(Initial(c), steps).value;
            && s.sent == Items(s.finished) && s.queue == [] && s.permits == 0
            && s.counters.completed + s.counters.failed == |s.sent|
            && !Enabled(s, Reserve) && (forall item :: !Enabled(s, Send(item)))
  {
    ReachableHolds(c, steps);
  }

  /** How often a submitter's report is in a finished batch. */
  function Occurrences(items: seq<Queued>, ticket: nat): nat {
    if items == [] then 0
    else Occurrences(items[..|items| - 1], ticket) + if items[|items| - 1].ticket == ticket then 1 else 0
  }

  lemma {:induction false} DistinctOnce(items: seq<Queued>, ticket: nat)
    requires DistinctTickets(items)
    ensures Occurrences(items, ticket) == if exists i :: 0 <= i < |items| && items[i].ticket == ticket then 1 else 0
  {
    if items != [] {
      DistinctOnce(items[..|items| - 1], ticket);
    }
  }

  /** No submission is put into two batches or twice into one, so none is answered twice. */
  lemma AnsweredAtMostOnce(c: WriterConfig, steps: seq<Step>, ticket: nat)
    requires Run(Initial(c), steps).Some?
    ensures Occurrences(Items(Run(Initial(c), steps).value.finished), ticket) <= 1
  {
    ReachableHolds(c, steps);
    BatchesAreDistinct(Run(Initial(c), steps).value);
    DistinctOnce(Items(Run(Initial(c), steps).value.finished), ticket);
  }

  lemma BatchesAreDistinct(s: State)
    requires Conserved(s)
    ensures DistinctTickets(Items(s.finished))
  {
    var items := Items(s.finished);
    assert forall i :: 0 <= i < |items| ==> items[i] == s.sent[i];
  }

  // ---- What the counters count ----

  /** How many answers of a finished batch say that the report is stored. */
  function StoredIn(f: Finished): nat {
    if f.answers.Some? then |set i | 0 <= i < |f.answers.value| && f.answers.value[i].Stored?| else 0
  }

  function StoredTotal(finished: seq<Finished>): nat {
    if finished == [] then 0 else StoredTotal(finished[..|finished| - 1]) + StoredIn(finished[|finished| - 1])
  }

  lemma {:induction false} SuccessesAreStored(answers: seq<Ingest.Answer>)
    ensures Successes(answers) == |set i | 0 <= i < |answers| && answers[i].Stored?|
  {
    if answers != [] {
      var n := |answers| - 1;
      SuccessesAreStored(answers[..n]);
      var front := set i | 0 <= i < n && answers[..n][i].Stored?;
      var all := set i | 0 <= i < |answers| && answers[i].Stored?;
      assert all == if answers[n].Stored? then front + {n} else front;
    }
  }

  /** The size of the largest finished batch. */
  predicate IsLargest(finished: seq<Finished>, size: nat) {
    && (forall f <- finished :: |f.items| <= size)
    && if finished == [] then size == 0 else exists f <- finished :: |f.items| == size
  }

  predicate Tallied(s: State) {
    && s.counters.batches == |s.finished|
    && s.counters.completed == StoredTotal(s.finished)
    && IsLargest(s.finished, s.counters.largest)
  }

  lemma PersistTallies(s: State, commit: Option<seq<Circumstance>>)
    requires Tallied(s) && Enabled(s, Persist(commit))
    ensures Tallied(Apply(s, Persist(commit)))
  {
    var ended := Ended(s.db, s.batch, commit);
    if ended.answers.Some? {
      SuccessesAreStored(ended.answers.value);
    }
    var after := s.finished + [ended];
    assert after[..|s.finished|] == s.finished && after[|s.finished|] == ended;
    LargestGrows(s.finished, ended, s.counters.largest);
  }

  lemma LargestGrows(finished: seq<Finished>, f: Finished, size: nat)
    requires IsLargest(finished, size)
    ensures IsLargest(finished + [f], MaxInt(size, |f.items|))
  {
    var after := finished + [f];
    if finished != [] && size >= |f.items| {
      var g :| g in finished && |g.items| == size;
      assert g in after;
    } else {
      assert f in after;
    }
  }

  lemma CountersKept(s: State, step: Step)
    requires Enabled(s, step) && !step.Persist?
    ensures Apply(s, step).counters == s.counters.(enqueued := Apply(s, step).counters.enqueued)
    ensures Apply(s, step).finished == s.finished
  {
    if !MovesReports(step) {
      Elsewhere(s, step);
    }
  }

  /** Batches, stored reports and the largest batch are counted as they finish. */
  lemma {:induction false} CountersAreExact(c: WriterConfig, steps: seq<Step>)
    requires Run(Initial(c), steps).Some?
    ensures var s := Run(Initial(c), steps).value;
            && s.counters.batches == |s.finished| && s.counters.completed == StoredTotal(s.finished)
            && s.counters.failed == |Items(s.finished)| - StoredTotal(s.finished)
            && IsLargest(s.finished, s.counters.largest)
  {
    ReachableHolds(c, steps);
    if steps != [] {
      var n := |steps| - 1;
      CountersAreExact(c, steps[..n]);
      var s := Run(Initial(c), steps[..n]).value;
      if steps[n].Persist? {
        PersistTallies(s, steps[n].commit);
      } else {
        CountersKept(s, steps[n]);
      }
    }
  }

  // ---- What a submitter is told ----

  /** The step of a run that ended this batch. */
  ghost predicate EndedAt(s: State, steps: seq<Step>, m: nat, f: Finished) {
    && m < |steps| && steps[m].Persist? && Run(s, steps[..m]).Some? && Run(s, steps[..m + 1]).Some?
    && var before := Run(s, steps[..m]).value;
       && Enabled(before, steps[m]) && f == Ended(before.db, before.batch, steps[m].commit)
       && f.committed == Run(s, steps[..m + 1]).value.db
  }

  lemma EndedLater(s: State, steps: seq<Step>, m: nat, f: Finished)
    requires steps != [] && EndedAt(s, steps[..|steps| - 1], m, f)
    ensures EndedAt(s, steps, m, f)
  {
    var front := steps[..|steps| - 1];
    assert front[..m] == steps[..m] && front[..m + 1] == steps[..m + 1];
  }

  lemma FinishedGrows(s: State, step: Step)
    requires Enabled(s, step)
    ensures Apply(s, step).finished == if step.Persist? then s.finished + [Ended(s.db, s.batch, step.commit)] else s.finished
    ensures step.Persist? ==> Apply(s, step).db == Ended(s.db, s.batch, step.commit).committed
  {
  }

  /** Every finished batch was ended by one step of the run, from the tables of that moment. */
  lemma {:induction false} BatchWasEnded(c: WriterConfig, steps: seq<Step>, n: nat) returns (m: nat)
    requires Run(Initial(c), steps).Some? && n < |Run(Initial(c), steps).value.finished|
    ensures EndedAt(Initial(c), steps, m, Run(Initial(c), steps).value.finished[n])
  {
    var k := |steps| - 1;
    var s := Run(Initial(c), steps[..k]).value;
    FinishedGrows(s, steps[k]);
    if n < |s.finished| {
      m := BatchWasEnded(c, steps[..k], n);
      EndedLater(Initial(c), steps, m, s.finished[n]);
    } else {
      m := k;
      assert steps[..k + 1] == steps;
    }
  }

  lemma EndedAcknowledges(db: Schema.Db, items: seq<Queued>, commit: Option<seq<Circumstance>>, i: nat)
    requires (commit.Some? ==> |commit.value| == |items|) && i < |items|
    ensures var f := Ended(db, items, commit);
            && (f.answers.None? ==> f.committed == db)
            && (f.answers.Some? ==> |f.answers.value| == |items| && Ingest.Acknowledged(f.committed, items[i].write, f.answers.value[i]))
  {
    if commit.Some? {
      Ingest.BatchAcknowledges(db, Submissions(items, commit.value), 0);
    }
  }

  /**
   Over every run, whatever other transactions do to the tables in between: an answer that says `stored` is true of the tables its
   batch committed, which are the tables of a moment of the run; a batch that does not commit changes nothing.
   */
  lemma AnswersAreTrue(c: WriterConfig, steps: seq<Step>, n: nat, i: nat)
    requires Run(Initial(c), steps).Some? && n < |Run(Initial(c), steps).value.finished|
    requires i < |Run(Initial(c), steps).value.finished[n].items|
    ensures var f := Run(Initial(c), steps).value.finished[n];
            && (exists m :: EndedAt(Initial(c), steps, m, f))
            && (f.answers.Some? ==> |f.answers.value| == |f.items|
                                    && Ingest.Acknowledged(f.committed, f.items[i].write, f.answers.value[i]))
  {
    var m := BatchWasEnded(c, steps, n);
    EndedTruly(Initial(c), steps, m, Run(Initial(c), steps).value.finished[n], i);
  }

  lemma EndedTruly(s: State, steps: seq<Step>, m: nat, f: Finished, i: nat)
    requires EndedAt(s, steps, m, f) && i < |f.items|
    ensures f.answers.Some? ==> |f.answers.value| == |f.items| && Ingest.Acknowledged(f.committed, f.items[i].write, f.answers.value[i])
  {
    var before := Run(s, steps[..m]).value;
    EndedAcknowledges(before.db, before.batch, steps[m].commit, i);
  }

  // ---- No lost shutdown ----

  predicate Running(s: State) {
    s.pc != Exited && s.pc != Aborted
  }

  ghost predicate WriterCanStep(s: State) {
    exists step :: IsWriterStep(step) && Enabled(s, step)
  }

  /**
   Once `shutdown` has stored its request and notified, the writer is never blocked without a closed channel or a
   pending notification, a notification is never seen unrequested, and the writer can always go on unless it waits
   for a reserved permit of a closed channel.
   */
  lemma NoLostShutdown(c: WriterConfig, steps: seq<Step>)
    requires Run(Initial(c), steps).Some?
    ensures var s := Run(Initial(c), steps).value;
            && (s.token ==> s.requested)
            && (s.owner == Notified ==> s.closed || s.token)
            && (s.owner == Notified && Running(s) ==>
                  WriterCanStep(s) || (s.pc == Receiving && s.closed && s.queue == [] && s.permits > 0))
  {
    ReachableHolds(c, steps);
    var s := Run(Initial(c), steps).value;
    if s.owner == Notified && Running(s) && !(s.pc == Receiving && s.queue == [] && s.permits > 0) {
      NextWriterStep(s);
    }
  }

  lemma NextWriterStep(s: State)
    requires Inv(s) && s.owner == Notified && Running(s) && !(s.pc == Receiving && s.queue == [] && s.permits > 0)
    ensures WriterCanStep(s)
  {
    var step :=
      match s.pc
      case Top => CheckTop
      case Selecting => SeeNotification
      case Receiving => if s.queue != [] then TakeFirst else EndOfQueue
      case Filling => CheckFill
      case FillSelecting => FlushDeadline
      case Draining => if s.queue != [] then TakeNext else NothingToTake
      case _ => Persist(None);
    assert IsWriterStep(step) && Enabled(s, step);
  }

  /** What is left to do from here: reserved permits, then queued reports, then the position in the loop. */
  function ToDo(s: State): nat {
    if s.closed then 9 * s.permits + 8 * |s.queue| + DrainRank(s.pc)
    else 9 * s.config.capacity + 6 + RequestRank(s.pc)
  }

  function DrainRank(pc: Pc): nat {
    match pc
    case Filling => 5
    case Draining => 4
    case FillSelecting => 4
    case Persisting => 3
    case Top => 2
    case Selecting => 1
    case Receiving => 1
    case _ => 0
  }

  function RequestRank(pc: Pc): nat {
    match pc
    case Selecting => 4
    case FillSelecting => 4
    case Filling => 3
    case Persisting => 2
    case Top => 1
    case _ => 0
  }

  lemma DrainProgresses(s: State, step: Step)
    requires Inv(s) && s.closed && Running(s) && Enabled(s, step)
    ensures ToDo(Apply(s, step)) <= ToDo(s) && Apply(s, step).requested
    ensures IsWriterStep(step) || step.Send? || step.DropPermit? ==> ToDo(Apply(s, step)) < ToDo(s)
  {
  }

  lemma RequestProgresses(s: State, step: Step)
    requires Inv(s) && s.requested && !s.closed && Running(s) && Enabled(s, step) && IsWriterStep(step)
    ensures ToDo(Apply(s, step)) < ToDo(s) && Apply(s, step).requested
  {
  }

  lemma OthersMeanwhile(s: State, step: Step)
    requires s.requested && !s.closed && Enabled(s, step) && !IsWriterStep(step)
    ensures ToDo(Apply(s, step)) <= ToDo(s) && Apply(s, step).requested
  {
  }

  /** After the request every step of the writer, and every send on a closed channel, leaves less to do; none leaves more. */
  lemma ShutdownProgresses(s: State, step: Step)
    requires Inv(s) && s.requested && Running(s) && Enabled(s, step)
    ensures ToDo(Apply(s, step)) <= ToDo(s)
    ensures IsWriterStep(step) || (s.closed && (step.Send? || step.DropPermit?)) ==> ToDo(Apply(s, step)) < ToDo(s)
    ensures Apply(s, step).requested
  {
    if s.closed {
      DrainProgresses(s, step);
    } else if IsWriterStep(step) {
      RequestProgresses(s, step);
    } else {
      OthersMeanwhile(s, step);
    }
  }

  function WriterSteps(steps: seq<Step>): nat {
    if steps == [] then 0
    else WriterSteps(steps[..|steps| - 1]) + if IsWriterStep(steps[|steps| - 1]) then 1 else 0
  }

  lemma StepWithin(s: State, step: Step)
    requires Inv(s) && s.requested && Enabled(s, step) && step != Abort
    ensures ToDo(Apply(s, step)) + (if IsWriterStep(step) then 1 else 0) <= ToDo(s) && Apply(s, step).requested
  {
    if Running(s) {
      ShutdownProgresses(s, step);
    } else {
      ExitedStays(s, step);
    }
  }

  lemma StepKeeps(s: State, step: Step)
    requires Inv(s) && Enabled(s, step)
    ensures Inv(Apply(s, step))
  {
    StepConserves(s, step);
    StepBounded(s, step);
    StepShakes(s, step);
  }

  lemma {:induction false} StepsWithin(s: State, steps: seq<Step>)
    requires Inv(s) && s.requested && Run(s, steps).Some?
    requires forall n :: 0 <= n < |steps| ==> steps[n] != Abort
    ensures var t := Run(s, steps).value;
            Inv(t) && t.requested && WriterSteps(steps) + ToDo(t) <= ToDo(s)
  {
    if steps != [] {
      var n := |steps| - 1;
      StepsWithin(s, steps[..n]);
      var t := Run(s, steps[..n]).value;
      StepKeeps(t, steps[n]);
      StepWithin(t, steps[n]);
    }
  }

  lemma ExitedStays(s: State, step: Step)
    requires Inv(s) && !Running(s) && Enabled(s, step) && step != Abort && s.requested
    ensures ToDo(Apply(s, step)) <= ToDo(s) && Apply(s, step).requested
  {
  }

  /** From the moment of the request the writer makes at most 9 * capacity + 10 more steps, whatever the submitters do. */
  lemma DrainingTerminates(c: WriterConfig, before: seq<Step>, steps: seq<Step>)
    requires Run(Initial(c), before).Some?
    requires var s := Run(Initial(c), before).value; s.requested && Run(s, steps).Some?
    requires forall n :: 0 <= n < |steps| ==> steps[n] != Abort
    ensures WriterSteps(steps) <= 9 * c.capacity + 10
  {
    ReachableHolds(c, before);
    var s := Run(Initial(c), before).value;
    StepsWithin(s, steps);
    ConfigKept(c, before);
    assert ToDo(s) <= 9 * c.capacity + 10;
  }

  lemma {:induction false} ConfigKept(c: WriterConfig, steps: seq<Step>)
    requires Run(Initial(c), steps).Some?
    ensures Run(Initial(c), steps).value.config == c
  {
    if steps != [] {
      var n := |steps| - 1;
      ConfigKept(c, steps[..n]);
      StepKeepsConfig(Run(Initial(c), steps[..n]).value, steps[n]);
    }
  }

  lemma StepKeepsConfig(s: State, step: Step)
    requires Enabled(s, step)
    ensures Apply(s, step).config == s.config
  {
    if !MovesReports(step) {
      Elsewhere(s, step);
    }
  }
}
