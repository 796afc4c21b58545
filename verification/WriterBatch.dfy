/** What the telemetry writer does with one batch (telemetry.rs, `persist_batch`), in place. */
module WriterBatch {
  import opened Basics
  import Ingest
  import opened Writer
  import Database

  /** What the submitter's completion receives. */
  datatype Reply = NotCommitted | Answered(answer: Ingest.Answer)

  function Waiting(listening: seq<bool>): nat {
    if listening == [] then 0 else Waiting(listening[..|listening| - 1]) + if listening[|listening| - 1] then 1 else 0
  }

  class WriterCounters {
    var batches: nat
    var completed: nat
    var failed: nat
    var abandoned: nat
    var largest: nat

    function Value(enqueued: nat): Counters
      reads this
    {
      Counters(enqueued, batches, completed, failed, largest)
    }

    /**
     `persist_batch`: store the batch in one transaction, count, and answer every submitter. `cut` is the savepoint
     or commit that fails, if any; `listening` says who still waits.
     */
    method PersistBatch(database: Database.Database, items: seq<Queued>, conditions: seq<Circumstance>, cut: Option<nat>,
                        listening: seq<bool>) returns (replies: seq<Reply>)
      requires database.Valid() && |conditions| == |items| && |listening| == |items|
      modifies this, database
      ensures database.Valid()
      ensures var ended := Ended(old(database.Tables()), items, if cut.Some? && cut.value <= |items| then None else Some(conditions));
              && database.Tables() == ended.committed
              && (forall n :: Value(n) == Counted(old(Value(n)), |items|, ended.answers))
              && |replies| == |items|
              && forall i :: 0 <= i < |items| ==> replies[i] == if ended.answers.Some? then Answered(ended.answers.value[i]) else NotCommitted
      ensures abandoned == old(abandoned) + |items| - Waiting(listening)
    {
      batches := batches + 1;
      largest := MaxInt(largest, |items|);
      var answers := database.StoreReportBatch(Submissions(items, conditions), cut);
      if answers.None? {
        replies := FailAll(listening);
      } else {
        AnswerEach(answers.value, listening);
        replies := seq(|items|, i requires 0 <= i < |items| => Answered(answers.value[i]));
      }
    }

    /** The transaction did not commit: everyone is told so. */
    method FailAll(listening: seq<bool>) returns (replies: seq<Reply>)
      modifies this`failed, this`abandoned
      ensures failed == old(failed) + |listening|
      ensures abandoned == old(abandoned) + |listening| - Waiting(listening)
      ensures replies == seq(|listening|, _ => NotCommitted)
    {
      failed := failed + |listening|;
      replies := [];
      ghost var before := abandoned;
      for i := 0 to |listening|
        invariant replies == seq(i, _ => NotCommitted) && failed == old(failed) + |listening|
        invariant Waiting(listening[..i]) <= i
        invariant abandoned == before + i - Waiting(listening[..i])
      {
        assert listening[..i + 1][..i] == listening[..i];
        replies := replies + [NotCommitted];
        if !listening[i] {
          abandoned := abandoned + 1;
        }
      }
      assert listening[..|listening|] == listening;
    }

    /** Each report gets its own result. */
    method AnswerEach(answers: seq<Ingest.Answer>, listening: seq<bool>)
      requires |listening| == |answers|
      modifies this`completed, this`failed, this`abandoned
      ensures Successes(answers) <= |answers|
      ensures completed == old(completed) + Successes(answers) && failed == old(failed) + |answers| - Successes(answers)
      ensures abandoned == old(abandoned) + |answers| - Waiting(listening)
    {
      SuccessesAtMost(answers);
      ghost var c, f, a := completed, failed, abandoned;
      for i := 0 to |answers|
        invariant Waiting(listening[..i]) <= i && Successes(answers[..i]) <= i
        invariant abandoned == a + i - Waiting(listening[..i])
        invariant completed == c + Successes(answers[..i]) && failed == f + i - Successes(answers[..i])
      {
        assert listening[..i + 1][..i] == listening[..i] && answers[..i + 1][..i] == answers[..i];
        if answers[i].Stored? {
          completed := completed + 1;
        } else {
          failed := failed + 1;
        }
        if !listening[i] {
          abandoned := abandoned + 1;
        }
      }
      assert listening[..|answers|] == listening && answers[..|answers|] == answers;
    }
  }
}
