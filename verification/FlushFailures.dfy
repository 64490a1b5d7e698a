/**
 * The drain rate when things go wrong: POSTs may stay unanswered, the flush thread or the process may
 * crash anywhere, and only the flushes that settle their batch are counted.
 */
module FlushFailures {
  import opened Common
  import opened OfflineBuffer
  import opened TelemetryFlush
  import opened FlushProtocol
  import opened FlushProgress
  import opened FlushDrain

  /** No enqueue; a POST that is answered rejects exactly the posted pairs that are in `rejected`. */
  ghost predicate FairStep(s: State, step: Step, rejected: set<Pair>) {
    && !step.Enqueue?
    && (IsPost(s, step) && step.reply.Answer? ==> AgreesOn(s.stage.valid, step.reply, rejected))
  }

  ghost predicate FairRun(s: State, steps: seq<Step>, rejected: set<Pair>)
    decreases |steps|
  {
    steps == [] || (FairStep(s, steps[0], rejected) && FairRun(Apply(s, steps[0]), steps[1..], rejected))
  }

  /** The step with which an answered flush returns, its whole batch settled. */
  predicate EndsSettled(s: State, step: Step) {
    step.FlushThread? && s.stage.Settling? && s.stage.todo == []
  }

  function SettledFlushes(s: State, steps: seq<Step>): nat
    decreases |steps|
  {
    if steps == [] then 0
    else (if EndsSettled(s, steps[0]) then 1 else 0) + SettledFlushes(Apply(s, steps[0]), steps[1..])
  }

  /** The flush in progress, a failing one included, began with `waiting`. */
  ghost predicate Began(s: State, waiting: seq<Message>, rejected: set<Pair>) {
    if s.stage.Failing? then Waiting(s.table.rows) == waiting else Stands(s, waiting, rejected)
  }

  /** `later` has the same blocked messages as `waiting` and no more deliverable ones. */
  ghost predicate NoWorse(waiting: seq<Message>, later: seq<Message>, rejected: set<Pair>) {
    && BlockedOnes(later, rejected) == BlockedOnes(waiting, rejected)
    && Deliverable(later, rejected) <= Deliverable(waiting, rejected)
  }

  lemma BlockedMidFlush(waiting: seq<Message>, k: nat, rejected: set<Pair>)
    requires k <= |waiting|
    ensures BlockedOnes(BlockedOnes(waiting[..k], rejected) + waiting[k..], rejected) == BlockedOnes(waiting, rejected)
  {
    hide BlockedOnes, Deliverable;
    assert waiting[..k] + waiting[k..] == waiting;
    CountsAdd(waiting[..k], waiting[k..], rejected);
    CountsAdd(BlockedOnes(waiting[..k], rejected), waiting[k..], rejected);
    BlockedAndDeliverable(waiting[..k], rejected);
  }

  /** What is waiting mid-flush is no worse than what the flush began with. */
  lemma MidFlushIsNoWorse(s: State, waiting: seq<Message>, rejected: set<Pair>)
    requires Began(s, waiting, rejected)
    ensures NoWorse(waiting, Waiting(s.table.rows), rejected)
  {
    hide Waiting, Deliverable, BlockedOnes, Messages, SameVerdicts, FlushOnce;
    if !s.stage.Failing? {
      DeliverableMidFlush(s, waiting, rejected);
      if s.stage.Settling? {
        BlockedMidFlush(waiting, BatchSize(waiting) - |s.stage.todo|, rejected);
      }
    }
  }

  lemma FlushIsNoWorse(waiting: seq<Message>, rejected: set<Pair>)
    ensures NoWorse(waiting, FlushOnce(waiting, rejected), rejected)
  {
    FlushNeverAddsDeliverable(waiting, rejected);
    FlushOnceCounts(waiting, rejected);
  }

  lemma FailingKeepsWaiting(s: State, reply: Reply)
    requires s.stage.Failing?
    ensures Waiting(FlushStep(s, reply).table.rows) == Waiting(s.table.rows)
    ensures FlushStep(s, reply).stage.Failing? || FlushStep(s, reply).stage.Idle?
  {
    if s.stage.todo != [] {
      FailureKeepsWaiting(s.table, s.stage.todo[0].message.messageId, s.stage.error);
    }
  }

  lemma UnansweredKeepsTable(s: State, reply: Reply)
    requires IsPost(s, FlushThread(reply)) && !reply.Answer?
    ensures FlushStep(s, reply).table == s.table
    ensures FlushStep(s, reply).stage.Failing? || FlushStep(s, reply).stage.Idle?
  {
  }

  /** A settled flush begins the next one with what `FlushOnce` leaves; a failed one changes nothing. */
  lemma BeganAfterFlush(s: State, reply: Reply, waiting: seq<Message>, rejected: set<Pair>)
    returns (later: seq<Message>)
    requires Inv(s) && Began(s, waiting, rejected) && FairStep(s, FlushThread(reply), rejected)
    ensures Began(FlushStep(s, reply), later, rejected) && NoWorse(waiting, later, rejected)
    ensures EndsSettled(s, FlushThread(reply)) ==> later == FlushOnce(waiting, rejected)
  {
    hide Inv, FlushOnce, Waiting, BlockedOnes, Deliverable;
    later := waiting;
    if s.stage.Failing? {
      FailingKeepsWaiting(s, reply);
      hide FlushStep;
    } else if IsPost(s, FlushThread(reply)) && !reply.Answer? {
      UnansweredKeepsTable(s, reply);
      hide FlushStep;
    } else {
      StandsAfterFlush(s, reply, waiting, rejected);
      FlushIsNoWorse(waiting, rejected);
      NeverFailsUnlessPosted(s, reply);
      hide Stands;
      if FlushStep(s, reply).stage.Idle? {
        later := FlushOnce(waiting, rejected);
      }
    }
  }

  lemma NeverFailsUnlessPosted(s: State, reply: Reply)
    requires !s.stage.Failing? && !(IsPost(s, FlushThread(reply)) && !reply.Answer?)
    ensures !FlushStep(s, reply).stage.Failing?
    ensures EndsSettled(s, FlushThread(reply)) ==> FlushStep(s, reply).stage.Idle?
  {
  }

  lemma SameBegan(s: State, s': State, waiting: seq<Message>, rejected: set<Pair>)
    requires Began(s, waiting, rejected)
    requires s'.stage == s.stage && Waiting(s'.table.rows) == Waiting(s.table.rows)
    ensures Began(s', waiting, rejected)
  {
  }

  /** A crash begins the next flush with whatever is waiting then. */
  lemma BeganAfterStep(s: State, step: Step, waiting: seq<Message>, rejected: set<Pair>)
    returns (later: seq<Message>)
    requires Inv(s) && Began(s, waiting, rejected) && FairStep(s, step, rejected)
    ensures Began(Apply(s, step), later, rejected) && NoWorse(waiting, later, rejected)
    ensures EndsSettled(s, step) ==> later == FlushOnce(waiting, rejected)
  {
    InvParts(s);
    hide Inv, TableOk, WellFormed, FlushOnce, FlushStep, Waiting, BlockedOnes, Deliverable, MarkFailed, DeleteSent;
    later := waiting;
    match step
    case FlushThread(reply) => later := BeganAfterFlush(s, reply, waiting, rejected);
    case Crash =>
      MidFlushIsNoWorse(s, waiting, rejected);
      later := Waiting(s.table.rows);
    case Cleanup(keepLatest) =>
      CleanupKeepsWaiting(s.table, keepLatest);
      SameBegan(s, Apply(s, step), waiting, rejected);
    case StrayFailure(messageId, error) =>
      FailureKeepsWaiting(s.table, messageId, error);
      SameBegan(s, Apply(s, step), waiting, rejected);
  }

  lemma {:induction false} FairRunDrains(
    s: State, steps: seq<Step>, waiting: seq<Message>, rejected: set<Pair>, per: nat) returns (later: seq<Message>)
    requires Inv(s) && Possible(s, steps) && FairRun(s, steps, rejected) && Began(s, waiting, rejected)
    requires per == 500 - |BlockedOnes(waiting, rejected)| && per > 0
    ensures Began(Run(s, steps), later, rejected)
    ensures Deliverable(later, rejected) <= Max(0, Deliverable(waiting, rejected) - SettledFlushes(s, steps) * per)
    decreases |steps|
  {
    hide Inv, Began, Apply, Enabled, FairStep, EndsSettled, Deliverable, BlockedOnes, FlushOnce;
    later := waiting;
    if steps != [] {
      var next := BeganAfterStep(s, steps[0], waiting, rejected);
      StepKeepsInv(s, steps[0]);
      later := FairRunDrains(Apply(s, steps[0]), steps[1..], next, rejected, per);
      var n := SettledFlushes(Apply(s, steps[0]), steps[1..]);
      if EndsSettled(s, steps[0]) {
        FlushSendsAtLeast(waiting, rejected);
        OneTurn(n + 1, per);
      }
    }
  }

  /**
   * Progress in spite of failures. From any reachable state at rest, with D deliverable and b < 500
   * blocked messages and nothing new enqueued, after n settled flushes at most D - n * (500 - b)
   * deliverable messages are waiting - whatever POSTs stay unanswered, wherever the flush thread or the
   * process crashes, and whatever cleanup and stray failure marks do.
   */
  lemma DrainRateDespiteFailures(s: State, steps: seq<Step>, rejected: set<Pair>, per: nat)
    requires Inv(s) && s.stage.Idle? && Possible(s, steps) && FairRun(s, steps, rejected)
    requires per == 500 - |BlockedOnes(Waiting(s.table.rows), rejected)| && per > 0
    ensures Deliverable(Waiting(Run(s, steps).table.rows), rejected)
            <= Max(0, Deliverable(Waiting(s.table.rows), rejected) - SettledFlushes(s, steps) * per)
  {
    hide Inv, Possible, FairRun, SettledFlushes, Stands, Waiting, Deliverable, BlockedOnes, Run;
    RestStands(s, rejected);
    var later := FairRunDrains(s, steps, Waiting(s.table.rows), rejected, per);
    MidFlushIsNoWorse(Run(s, steps), later, rejected);
  }
}
