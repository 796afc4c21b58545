/** The answers the writer hands out for one report, set against the whole life of its row. */
module Receipts {
  import opened Basics
  import Schema
  import Ingest
  import Runs
  import Guarantees
  import opened Writer

  /** How many of these reports were answered `accepted` for this id. */
  function AcceptedIn(items: seq<Queued>, answers: seq<Ingest.Answer>, id: Uuid): nat
    requires |items| == |answers|
  {
    if items == [] then 0
    else
      var n := |items| - 1;
      AcceptedIn(items[..n], answers[..n], id)
      + if answers[n].Stored? && answers[n].accepted && items[n].write.report.reportId == Some(id) then 1 else 0
  }

  function AcceptedBy(f: Finished, id: Uuid): nat {
    if f.answers.Some? && |f.answers.value| == |f.items| then AcceptedIn(f.items, f.answers.value, id) else 0
  }

  /** How many `accepted` answers for this id the finished batches have given. */
  function Receipts(finished: seq<Finished>, id: Uuid): nat {
    if finished == [] then 0 else Receipts(finished[..|finished| - 1], id) + AcceptedBy(finished[|finished| - 1], id)
  }

  function Present(db: Schema.Db, id: Uuid): nat {
    if id in db.reports then 1 else 0
  }

  /** How often the row of this id went away during a run of the writer. */
  function Removals(s: State, steps: seq<Step>, id: Uuid): nat {
    if steps == [] then 0
    else
      var n := |steps| - 1;
      Removals(s, steps[..n], id)
      + if Run(s, steps).Some? && Run(s, steps[..n]).Some?
           && id in Run(s, steps[..n]).value.db.reports && id !in Run(s, steps).value.db.reports then 1 else 0
  }

  /** What happens to the tables besides is one of the server's other transactions. */
  ghost predicate ByTransaction(before: Schema.Db, after: Schema.Db) {
    exists t: Runs.Step :: !t.Submit? && after == Runs.NextDb(before, t)
  }

  ghost predicate OnlyTransactions(s: State, steps: seq<Step>) {
    forall n :: 0 <= n < |steps| && steps[n].Elsewhere? ==>
      Run(s, steps[..n]).Some? && ByTransaction(Run(s, steps[..n]).value.db, steps[n].after)
  }

  lemma {:induction false} SameCount(items: seq<Queued>, conditions: seq<Circumstance>, answers: seq<Ingest.Answer>, id: Uuid)
    requires |items| == |conditions| == |answers|
    ensures AcceptedIn(items, answers, id) == Ingest.AcceptedFor(Submissions(items, conditions), answers, id)
  {
    if items != [] {
      var n := |items| - 1;
      SameCount(items[..n], conditions[..n], answers[..n], id);
      assert Submissions(items, conditions)[..n] == Submissions(items[..n], conditions[..n]);
    }
  }

  /** A finished batch answers `accepted` once if it created the row, and otherwise not at all. */
  lemma BatchReceipt(db: Schema.Db, items: seq<Queued>, commit: Option<seq<Circumstance>>, id: Uuid)
    requires commit.Some? ==> |commit.value| == |items|
    ensures var f := Ended(db, items, commit);
            && Present(f.committed, id) == Present(db, id) + AcceptedBy(f, id)
            && (id in db.reports ==> id in f.committed.reports)
  {
    if commit.Some? {
      var batch := Submissions(items, commit.value);
      Ingest.BatchAcknowledges(db, batch, id);
      SameCount(items, commit.value, Ingest.StoreEach(db, batch).1, id);
    }
  }

  lemma OthersAddNoRow(before: Schema.Db, after: Schema.Db, id: Uuid)
    requires ByTransaction(before, after)
    ensures id in after.reports ==> id in before.reports
  {
    var t: Runs.Step :| !t.Submit? && after == Runs.NextDb(before, t);
    if id in after.reports {
      Guarantees.OthersAddNoRow(before, t, id);
    }
  }

  /** The steps at which a requested shutdown closes the channel. */
  predicate MayClose(step: Step) {
    step.CheckTop? || step.SeeNotification? || step.CheckFill? || step.SeeNotificationFilling?
  }

  lemma ClosingLeavesTables(s: State, step: Step)
    requires Enabled(s, step) && MayClose(step)
    ensures Apply(s, step).db == s.db
  {
  }

  lemma WriterLeavesTables(s: State, step: Step)
    requires Enabled(s, step) && IsWriterStep(step) && !step.Persist? && !MayClose(step)
    ensures Apply(s, step).db == s.db
  {
  }

  lemma TablesStay(s: State, step: Step)
    requires Enabled(s, step) && !step.Persist? && !step.Elsewhere?
    ensures Apply(s, step).db == s.db
  {
    if MayClose(step) {
      ClosingLeavesTables(s, step);
    } else if IsWriterStep(step) {
      WriterLeavesTables(s, step);
    }
  }

  lemma ReceiptsSnoc(finished: seq<Finished>, f: Finished, id: Uuid)
    ensures Receipts(finished + [f], id) == Receipts(finished, id) + AcceptedBy(f, id)
  {
    assert (finished + [f])[..|finished|] == finished;
  }

  /** One step: what is answered, what is stored and what goes away. */
  lemma StepBalances(s: State, step: Step, id: Uuid)
    requires Enabled(s, step) && (step.Elsewhere? ==> ByTransaction(s.db, step.after))
    ensures var t := Apply(s, step);
            Receipts(t.finished, id) + Present(s.db, id)
            == Receipts(s.finished, id) + Present(t.db, id) + if id in s.db.reports && id !in t.db.reports then 1 else 0
  {
    if step.Persist? {
      BatchReceipt(s.db, s.batch, step.commit, id);
      ReceiptsSnoc(s.finished, Ended(s.db, s.batch, step.commit), id);
    } else if step.Elsewhere? {
      FinishedGrows(s, step);
      OthersAddNoRow(s.db, step.after, id);
    } else {
      TablesStay(s, step);
      FinishedGrows(s, step);
    }
  }

  /**
   Over every run of the writer with the server's other transactions in between: the `accepted` answers submitters get for a
   report id are the removals of its row, plus one if it is stored. One report that stays is accepted for one submitter.
   */
  lemma {:induction false} AcceptedOnceEach(c: WriterConfig, steps: seq<Step>, id: Uuid)
    requires Run(Initial(c), steps).Some? && OnlyTransactions(Initial(c), steps)
    ensures var s := Run(Initial(c), steps).value;
            Receipts(s.finished, id) == Removals(Initial(c), steps, id) + if id in s.db.reports then 1 else 0
  {
    if steps != [] {
      var n := |steps| - 1;
      FrontTransactions(Initial(c), steps);
      AcceptedOnceEach(c, steps[..n], id);
      StepBalances(Run(Initial(c), steps[..n]).value, steps[n], id);
    }
  }

  lemma FrontTransactions(s: State, steps: seq<Step>)
    requires OnlyTransactions(s, steps) && steps != []
    ensures OnlyTransactions(s, steps[..|steps| - 1])
  {
    var front := steps[..|steps| - 1];
    forall n | 0 <= n < |front| && front[n].Elsewhere?
      ensures Run(s, front[..n]).Some? && ByTransaction(Run(s, front[..n]).value.db, front[n].after)
    {
      assert front[..n] == steps[..n];
    }
  }
}
