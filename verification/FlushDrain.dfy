/**
 * The progress laws over runs: cleanup and stray failure marks go on beside the flush thread, and the
 * cloud judges the same pairs the same way each time, whatever else its replies list.
 */
module FlushDrain {
  import opened Common
  import opened OfflineBuffer
  import opened TelemetryFlush
  import opened FlushProtocol
  import opened FlushGuarantees
  import opened FlushProgress

  /** The POST of these rows is answered, and rejects exactly the posted pairs that are in `rejected`. */
  ghost predicate AgreesOn(posted: seq<Row>, reply: Reply, rejected: set<Pair>) {
    reply.Answer? && SameVerdicts(posted, RejectedPairs(reply.rejected), rejected)
  }

  /** No enqueue, no crash, and a cloud that rejects the pairs in `rejected`. */
  ghost predicate SteadyStep(s: State, step: Step, rejected: set<Pair>) {
    && !step.Enqueue? && !step.Crash?
    && (IsPost(s, step) ==> AgreesOn(s.stage.valid, step.reply, rejected))
  }

  ghost predicate SteadyRun(s: State, steps: seq<Step>, rejected: set<Pair>)
    decreases |steps|
  {
    steps == [] || (SteadyStep(s, steps[0], rejected) && SteadyRun(Apply(s, steps[0]), steps[1..], rejected))
  }

  /** The step with which a call of the flush returns. */
  predicate EndsFlush(s: State, step: Step) {
    step.FlushThread? && FlushStep(s, step.reply).stage.Idle?
  }

  function Completed(s: State, steps: seq<Step>): nat
    decreases |steps|
  {
    if steps == [] then 0
    else (if EndsFlush(s, steps[0]) then 1 else 0) + Completed(Apply(s, steps[0]), steps[1..])
  }

  // ----- Where a flush stands -----

  function Messages(rows: seq<Row>): seq<Message> {
    seq(|rows|, k requires 0 <= k < |rows| => rows[k].message)
  }

  ghost predicate SameVerdicts(rows: seq<Row>, rejected: set<Pair>, rejected': set<Pair>) {
    forall row :: row in rows ==> (InRejected(row.message, rejected) <==> InRejected(row.message, rejected'))
  }

  /** The flush in progress began with `waiting`, and has settled so much of its batch. */
  ghost predicate Stands(s: State, waiting: seq<Message>, rejected: set<Pair>) {
    match s.stage
    case Idle => Waiting(s.table.rows) == waiting
    case Building(todo, valid) =>
      Waiting(s.table.rows) == waiting && Messages(valid + todo) == waiting[..BatchSize(waiting)]
    case Failing(_, _) => false
    case Settling(todo, rejected') =>
      && |todo| <= BatchSize(waiting)
      && var k := BatchSize(waiting) - |todo|;
         && Messages(todo) == waiting[k..BatchSize(waiting)]
         && Waiting(s.table.rows) == BlockedOnes(waiting[..k], rejected) + waiting[k..]
         && SameVerdicts(todo, rejected', rejected)
  }

  // ----- Marking a message sent takes it out of the waiting ones -----

  function Without(waiting: seq<Message>, messageId: MessageId): seq<Message> {
    if waiting == [] then []
    else
      var last := waiting[|waiting| - 1];
      Without(waiting[..|waiting| - 1], messageId) + (if last.messageId == messageId then [] else [last])
  }

  ghost predicate Lacks(waiting: seq<Message>, messageId: MessageId) {
    forall k :: 0 <= k < |waiting| ==> waiting[k].messageId != messageId
  }

  lemma {:induction false} WithoutNone(waiting: seq<Message>, messageId: MessageId)
    requires Lacks(waiting, messageId)
    ensures Without(waiting, messageId) == waiting
  {
    if waiting != [] {
      WithoutNone(waiting[..|waiting| - 1], messageId);
    }
  }

  lemma {:induction false} WithoutAdds(a: seq<Message>, c: seq<Message>, messageId: MessageId)
    ensures Without(a + c, messageId) == Without(a, messageId) + Without(c, messageId)
  {
    if c == [] {
      assert a + c == a;
    } else {
      var n := |c| - 1;
      assert (a + c)[..|a + c| - 1] == a + c[..n];
      WithoutAdds(a, c[..n], messageId);
    }
  }

  lemma WithoutSingle(m: Message, messageId: MessageId)
    ensures Without([], messageId) == []
    ensures Without([m], messageId) == if m.messageId == messageId then [] else [m]
  {
    assert [m][..0] == [];
  }

  lemma WithoutOne(a: seq<Message>, m: Message, c: seq<Message>)
    requires Lacks(a, m.messageId) && Lacks(c, m.messageId)
    ensures Without(a + ([m] + c), m.messageId) == a + c
  {
    hide Without, Lacks;
    WithoutAdds(a, [m] + c, m.messageId);
    WithoutAdds([m], c, m.messageId);
    WithoutNone(a, m.messageId);
    WithoutNone(c, m.messageId);
    WithoutSingle(m, m.messageId);
    assert [] + c == c;
  }

  lemma NothingWaiting()
    ensures Waiting([]) == []
  {
  }

  lemma {:induction false} SentLeavesWaiting(rows: seq<Row>, rows': seq<Row>, messageId: MessageId)
    requires |rows'| == |rows|
    requires forall i :: 0 <= i < |rows| ==>
               rows'[i] == if rows[i].message.messageId == messageId then SentRow(rows[i]) else rows[i]
    ensures Waiting(rows') == Without(Waiting(rows), messageId)
  {
    hide Waiting, Without;
    if rows == [] {
      assert rows' == [];
      NothingWaiting();
      WithoutNone([], messageId);
    } else {
      var n := |rows| - 1;
      var row, row' := rows[n], rows'[n];
      SentLeavesWaiting(rows[..n], rows'[..n], messageId);
      assert rows == rows[..n] + [row] && rows' == rows'[..n] + [row'];
      WaitingAppend(rows[..n], row);
      WaitingAppend(rows'[..n], row');
      var before := Waiting(rows[..n]);
      WithoutSingle(row.message, messageId);
      WithoutAdds(before, if row.status == Pending then [row.message] else [], messageId);
    }
  }

  lemma WaitingIsDistinct(t: Table, i: nat, j: nat)
    requires WellFormed(t) && i < j < |Waiting(t.rows)|
    ensures Waiting(t.rows)[i].messageId != Waiting(t.rows)[j].messageId
  {
    var k := PendingRowSource(t.rows, i);
    var k' := PendingRowSource(t.rows, j);
  }

  lemma WaitingAfterSent(t: Table, a: seq<Message>, m: Message, c: seq<Message>)
    requires WellFormed(t) && Waiting(t.rows) == a + ([m] + c)
    ensures Waiting(MarkSent(t, m.messageId).rows) == a + c
  {
    SentLeavesWaiting(t.rows, MarkSent(t, m.messageId).rows, m.messageId);
    var waiting := Waiting(t.rows);
    hide Waiting, Without, MarkSent, WellFormed;
    assert waiting[|a|] == m;
    forall k | 0 <= k < |a| ensures a[k].messageId != m.messageId {
      assert waiting[k] == a[k];
      WaitingIsDistinct(t, k, |a|);
    }
    forall k | 0 <= k < |c| ensures c[k].messageId != m.messageId {
      assert waiting[|a| + 1 + k] == c[k];
      WaitingIsDistinct(t, |a|, |a| + 1 + k);
    }
    WithoutOne(a, m, c);
  }

  // ----- One step -----

  lemma EmptyBatch(s: State)
    ensures Select(s.table, BATCH_FLUSH_SIZE) == [] <==> Waiting(s.table.rows) == []
    ensures Messages(Select(s.table, BATCH_FLUSH_SIZE))
         == Waiting(s.table.rows)[..BatchSize(Waiting(s.table.rows))]
  {
  }

  lemma FlushOnceOfNothing(rejected: set<Pair>)
    ensures FlushOnce([], rejected) == []
  {
  }

  lemma StandsAfterSelect(s: State, reply: Reply, rejected: set<Pair>)
    requires s.stage.Idle?
    ensures var s', waiting := FlushStep(s, reply), Waiting(s.table.rows);
            Stands(s', if s'.stage.Idle? then FlushOnce(waiting, rejected) else waiting, rejected)
  {
    hide Waiting, Select;
    EmptyBatch(s);
    FlushOnceOfNothing(rejected);
    var batch := Select(s.table, BATCH_FLUSH_SIZE);
    assert [] + batch == batch;
  }

  lemma InHandIsReadable(s: State, row: Row)
    requires Inv(s)
    requires (s.stage.Building? && row in s.stage.valid + s.stage.todo) || (s.stage.Settling? && row in s.stage.todo)
    ensures ReadItem(row.message).Some?
  {
    assert row.message == s.log[row.id - 1];
  }

  lemma StandsAfterBuild(s: State, reply: Reply, waiting: seq<Message>, rejected: set<Pair>)
    requires Inv(s) && Stands(s, waiting, rejected) && s.stage.Building?
    requires SteadyStep(s, FlushThread(reply), rejected)
    ensures var s' := FlushStep(s, reply);
            Stands(s', if s'.stage.Idle? then FlushOnce(waiting, rejected) else waiting, rejected)
  {
    hide Inv, Waiting, MarkFailed;
    var todo, valid := s.stage.todo, s.stage.valid;
    if todo != [] {
      InHandIsReadable(s, todo[0]);
      assert valid + [todo[0]] + todo[1..] == valid + todo;
    } else {
      assert valid + [] == valid;
      assert |Messages(valid)| == |valid| == BatchSize(waiting);
      if valid == [] {
        FlushOnceOfNothing(rejected);
      }
    }
  }

  lemma MessagesTail(todo: seq<Row>)
    requires todo != []
    ensures Messages(todo) == [todo[0].message] + Messages(todo[1..])
  {
  }

  /** The next message of the batch is the next waiting one. */
  lemma SettlingHead(s: State, waiting: seq<Message>, rejected: set<Pair>)
    requires Inv(s) && Stands(s, waiting, rejected) && s.stage.Settling? && s.stage.todo != []
    ensures var k, m := BatchSize(waiting) - |s.stage.todo|, s.stage.todo[0].message;
            && 0 <= k < BatchSize(waiting) && waiting[k] == m
            && SameVerdicts(s.stage.todo, s.stage.rejected, rejected)
            && Messages(s.stage.todo[1..]) == waiting[k + 1..BatchSize(waiting)]
            && Waiting(s.table.rows) == BlockedOnes(waiting[..k], rejected) + ([m] + waiting[k + 1..])
            && BlockedOnes(waiting[..k + 1], rejected)
               == BlockedOnes(waiting[..k], rejected) + (if InRejected(m, s.stage.rejected) then [m] else [])
  {
    hide Inv, Waiting;
    var todo, k := s.stage.todo, BatchSize(waiting) - |s.stage.todo|;
    InHandIsReadable(s, todo[0]);
    MessagesTail(todo);
    assert todo[0] in todo;
    var batch := waiting[k..BatchSize(waiting)];
    assert batch[0] == waiting[k] && batch[1..] == waiting[k + 1..BatchSize(waiting)];
    assert waiting[k..] == [waiting[k]] + waiting[k + 1..];
    assert waiting[..k + 1][..k] == waiting[..k];
  }

  lemma SettleStep(s: State, reply: Reply)
    requires s.stage.Settling? && s.stage.todo != []
    ensures var s', m := FlushStep(s, reply), s.stage.todo[0].message;
            && s'.stage == Settling(s.stage.todo[1..], s.stage.rejected)
            && s'.table == if InRejected(m, s.stage.rejected) then MarkFailed(s.table, m.messageId, REJECTED_TEXT)
                           else MarkSent(s.table, m.messageId)
  {
  }

  lemma StandsOneFurther(s: State, todo: seq<Row>, rejected': set<Pair>, waiting: seq<Message>, rejected: set<Pair>)
    requires todo != [] && |todo| <= BatchSize(waiting) && s.stage == Settling(todo[1..], rejected')
    requires SameVerdicts(todo, rejected', rejected)
    requires Messages(todo[1..]) == waiting[BatchSize(waiting) - |todo| + 1..BatchSize(waiting)]
    requires Waiting(s.table.rows) ==
             BlockedOnes(waiting[..BatchSize(waiting) - |todo| + 1], rejected)
             + waiting[BatchSize(waiting) - |todo| + 1..]
    ensures Stands(s, waiting, rejected)
  {
    hide Waiting, BlockedOnes, Messages, InRejected;
    assert forall row :: row in todo[1..] ==> row in todo;
  }

  lemma StandsAfterSettle(s: State, reply: Reply, waiting: seq<Message>, rejected: set<Pair>)
    requires Inv(s) && Stands(s, waiting, rejected) && s.stage.Settling? && s.stage.todo != []
    ensures Stands(FlushStep(s, reply), waiting, rejected)
  {
    hide Inv, Waiting, BlockedOnes, MarkSent, MarkFailed, WellFormed, TableOk, LogOk, PerKeyPrefix, CountsOk;
    hide FlushStep, Messages, InRejected, Stands, SameVerdicts;
    SettlingHead(s, waiting, rejected);
    SettleStep(s, reply);
    InvParts(s);
    var todo, k, m := s.stage.todo, BatchSize(waiting) - |s.stage.todo|, s.stage.todo[0].message;
    var blocked, rest := BlockedOnes(waiting[..k], rejected), waiting[k + 1..];
    if InRejected(m, s.stage.rejected) {
      FailureKeepsWaiting(s.table, m.messageId, REJECTED_TEXT);
      assert blocked + [m] + rest == blocked + ([m] + rest);
    } else {
      WaitingAfterSent(s.table, blocked, m, rest);
      assert blocked + [] == blocked;
    }
    StandsOneFurther(FlushStep(s, reply), todo, s.stage.rejected, waiting, rejected);
  }

  lemma StandsAfterFlush(s: State, reply: Reply, waiting: seq<Message>, rejected: set<Pair>)
    requires Inv(s) && Stands(s, waiting, rejected) && SteadyStep(s, FlushThread(reply), rejected)
    ensures var s' := FlushStep(s, reply);
            Stands(s', if s'.stage.Idle? then FlushOnce(waiting, rejected) else waiting, rejected)
  {
    match s.stage
    case Idle => StandsAfterSelect(s, reply, rejected);
    case Building(_, _) => StandsAfterBuild(s, reply, waiting, rejected);
    case Settling(todo, _) =>
      if todo != [] {
        StandsAfterSettle(s, reply, waiting, rejected);
      }
  }

  lemma SameStands(s: State, s': State, waiting: seq<Message>, rejected: set<Pair>)
    requires Stands(s, waiting, rejected)
    requires s'.stage == s.stage && Waiting(s'.table.rows) == Waiting(s.table.rows)
    ensures Stands(s', waiting, rejected)
  {
  }

  lemma StandsAfterStep(s: State, step: Step, waiting: seq<Message>, rejected: set<Pair>)
    requires Inv(s) && Stands(s, waiting, rejected) && SteadyStep(s, step, rejected)
    ensures Stands(Apply(s, step), if EndsFlush(s, step) then FlushOnce(waiting, rejected) else waiting, rejected)
  {
    InvParts(s);
    hide Inv, WellFormed, TableOk, FlushStep, FlushOnce, BlockedOnes, MarkFailed, DeleteSent, Waiting, Stands;
    match step
    case FlushThread(reply) => StandsAfterFlush(s, reply, waiting, rejected);
    case Cleanup(keepLatest) =>
      CleanupKeepsWaiting(s.table, keepLatest);
      SameStands(s, Apply(s, step), waiting, rejected);
    case StrayFailure(messageId, error) =>
      FailureKeepsWaiting(s.table, messageId, error);
      SameStands(s, Apply(s, step), waiting, rejected);
  }

  // ----- Whole runs -----

  /**
   * The queue view is exact over runs: after n completed flushes, with cleanup and stray failure marks
   * anywhere in between, the flush in progress began with what `AfterFlushes` says n flushes leave.
   */
  lemma {:induction false} RunStands(s: State, steps: seq<Step>, waiting: seq<Message>, rejected: set<Pair>)
    requires Inv(s) && Possible(s, steps) && Stands(s, waiting, rejected) && SteadyRun(s, steps, rejected)
    ensures Stands(Run(s, steps), AfterFlushes(waiting, rejected, Completed(s, steps)), rejected)
    decreases |steps|
  {
    hide Inv, Stands, Apply, Enabled, SteadyStep, EndsFlush, FlushOnce;
    if steps != [] {
      StandsAfterStep(s, steps[0], waiting, rejected);
      StepKeepsInv(s, steps[0]);
      var waiting' := if EndsFlush(s, steps[0]) then FlushOnce(waiting, rejected) else waiting;
      RunStands(Apply(s, steps[0]), steps[1..], waiting', rejected);
    }
  }

  /** Mid-flush the deliverable messages are between those the flush began with and those it leaves. */
  lemma DeliverableMidFlush(s: State, waiting: seq<Message>, rejected: set<Pair>)
    requires Stands(s, waiting, rejected)
    ensures Deliverable(FlushOnce(waiting, rejected), rejected)
            <= Deliverable(Waiting(s.table.rows), rejected) <= Deliverable(waiting, rejected)
  {
    hide Waiting, Deliverable, BlockedOnes;
    var n := BatchSize(waiting);
    var k := if s.stage.Settling? then n - |s.stage.todo| else 0;
    var done, batch, rest := waiting[..k], waiting[k..n], waiting[n..];
    assert waiting[..n] == done + batch && waiting[k..] == batch + rest && waiting == done + waiting[k..];
    CountsAdd(done, waiting[k..], rejected);
    CountsAdd(batch, rest, rejected);
    CountsAdd(BlockedOnes(waiting[..n], rejected), rest, rejected);
    CountsAdd(BlockedOnes(done, rejected), waiting[k..], rejected);
    BlockedAndDeliverable(waiting[..n], rejected);
    BlockedAndDeliverable(done, rejected);
  }

  lemma RestStands(s: State, rejected: set<Pair>)
    requires s.stage.Idle?
    ensures Stands(s, Waiting(s.table.rows), rejected)
  {
  }

  /**
   * Progress over runs. From any reachable state at rest, with D deliverable and b < 500 blocked
   * messages, after n completed flushes at most D - n * (500 - b) deliverable messages are waiting,
   * whatever cleanup and stray failure marks do in between.
   */
  lemma DrainRateOverRuns(s: State, steps: seq<Step>, rejected: set<Pair>, per: nat)
    requires Inv(s) && s.stage.Idle? && Possible(s, steps) && SteadyRun(s, steps, rejected)
    requires per == 500 - |BlockedOnes(Waiting(s.table.rows), rejected)| && per > 0
    ensures Deliverable(Waiting(Run(s, steps).table.rows), rejected)
            <= Max(0, Deliverable(Waiting(s.table.rows), rejected) - Completed(s, steps) * per)
  {
    hide Inv, Waiting, Deliverable, Stands, BlockedOnes, FlushOnce, Run, Possible, SteadyRun, Completed, AfterFlushes;
    RestStands(s, rejected);
    var waiting := Waiting(s.table.rows);
    RunStands(s, steps, waiting, rejected);
    DrainRate(waiting, rejected, Completed(s, steps), per);
    DeliverableMidFlush(Run(s, steps), AfterFlushes(waiting, rejected, Completed(s, steps)), rejected);
  }

  lemma FlushNeverAddsDeliverable(waiting: seq<Message>, rejected: set<Pair>)
    ensures Deliverable(FlushOnce(waiting, rejected), rejected) <= Deliverable(waiting, rejected)
  {
    var n := BatchSize(waiting);
    assert waiting[..n] + waiting[n..] == waiting;
    CountsAdd(waiting[..n], waiting[n..], rejected);
    CountsAdd(BlockedOnes(waiting[..n], rejected), waiting[n..], rejected);
    BlockedAndDeliverable(waiting[..n], rejected);
  }

  lemma {:induction false} DrainedStaysDrained(waiting: seq<Message>, rejected: set<Pair>, n: nat, m: nat)
    requires n <= m && Deliverable(AfterFlushes(waiting, rejected, n), rejected) == 0
    ensures Deliverable(AfterFlushes(waiting, rejected, m), rejected) == 0
    decreases m
  {
    hide FlushOnce, Deliverable;
    if m > 0 {
      if n == 0 {
        FlushNeverAddsDeliverable(waiting, rejected);
        assert AfterFlushes(FlushOnce(waiting, rejected), rejected, 0) == FlushOnce(waiting, rejected);
        DrainedStaysDrained(FlushOnce(waiting, rejected), rejected, 0, m - 1);
      } else {
        DrainedStaysDrained(FlushOnce(waiting, rejected), rejected, n - 1, m - 1);
      }
    }
  }

  lemma {:induction false} OneMoreFlush(waiting: seq<Message>, rejected: set<Pair>, n: nat)
    ensures AfterFlushes(waiting, rejected, n + 1) == FlushOnce(AfterFlushes(waiting, rejected, n), rejected)
    decreases n
  {
    hide FlushOnce;
    if n == 0 {
      assert AfterFlushes(FlushOnce(waiting, rejected), rejected, 0) == FlushOnce(waiting, rejected);
    } else {
      OneMoreFlush(FlushOnce(waiting, rejected), rejected, n - 1);
    }
  }

  lemma NeverDrainedMidFlush(s: State, waiting: seq<Message>, rejected: set<Pair>, n: nat)
    requires BlockedAhead(waiting, rejected) >= 500
    requires Stands(s, AfterFlushes(waiting, rejected, n), rejected)
    ensures Deliverable(Waiting(s.table.rows), rejected) > 0
  {
    hide Waiting, Deliverable, Stands, BlockedAhead, FlushOnce, AfterFlushes;
    NeverDrainsBehindFullBatch(waiting, rejected, n + 1);
    OneMoreFlush(waiting, rejected, n);
    DeliverableMidFlush(s, AfterFlushes(waiting, rejected, n), rejected);
  }

  /** Behind a full batch of blocked messages something deliverable is waiting in every state of every run. */
  lemma NeverDrained(s: State, steps: seq<Step>, rejected: set<Pair>)
    requires Inv(s) && s.stage.Idle? && Possible(s, steps) && SteadyRun(s, steps, rejected)
    requires BlockedAhead(Waiting(s.table.rows), rejected) >= 500
    ensures Deliverable(Waiting(Run(s, steps).table.rows), rejected) > 0
  {
    hide Inv, Waiting, Deliverable, Stands, BlockedAhead, FlushOnce, Run, Possible, SteadyRun, Completed, AfterFlushes;
    RestStands(s, rejected);
    RunStands(s, steps, Waiting(s.table.rows), rejected);
    NeverDrainedMidFlush(Run(s, steps), Waiting(s.table.rows), rejected, Completed(s, steps));
  }

  /** Every run of this kind has nothing deliverable waiting once n flushes are completed. */
  ghost predicate DrainedBy(s: State, rejected: set<Pair>, n: nat) {
    forall steps :: Possible(s, steps) && SteadyRun(s, steps, rejected) && Completed(s, steps) >= n ==>
      Deliverable(Waiting(Run(s, steps).table.rows), rejected) == 0
  }

  lemma FewAheadIsDrained(s: State, rejected: set<Pair>) returns (n: nat)
    requires Inv(s) && s.stage.Idle? && BlockedAhead(Waiting(s.table.rows), rejected) < 500
    ensures DrainedBy(s, rejected, n)
  {
    RestStands(s, rejected);
    hide Inv, Waiting, Deliverable, Stands, BlockedAhead, FlushOnce, Run, Possible, SteadyRun, Completed, AfterFlushes;
    var waiting := Waiting(s.table.rows);
    n := DrainsWhenFewAhead(waiting, rejected);
    forall steps | Possible(s, steps) && SteadyRun(s, steps, rejected) && Completed(s, steps) >= n
      ensures Deliverable(Waiting(Run(s, steps).table.rows), rejected) == 0
    {
      RunStands(s, steps, waiting, rejected);
      DrainedStaysDrained(waiting, rejected, n, Completed(s, steps));
      DeliverableMidFlush(Run(s, steps), AfterFlushes(waiting, rejected, Completed(s, steps)), rejected);
    }
  }

  // ----- Flushes can always be completed -----

  /** A bound on the calls left in the flush in progress; at rest, in the one to come. */
  function CallsLeft(stage: Stage): nat {
    match stage
    case Idle => 2 * BATCH_FLUSH_SIZE + 3
    case Building(todo, valid) => 2 * |todo| + |valid| + 2
    case Failing(todo, _) => |todo| + 1
    case Settling(todo, _) => |todo| + 1
  }

  lemma AnsweredFlushShortens(s: State, rejected: seq<RejectedEntry>)
    ensures var step := FlushThread(Answer(rejected));
            && SteadyStep(s, step, RejectedPairs(rejected)) && Enabled(s, step)
            && (EndsFlush(s, step) || CallsLeft(FlushStep(s, Answer(rejected)).stage) < CallsLeft(s.stage))
  {
    hide MarkSent, MarkFailed;
  }

  lemma {:induction false} SomeSteadyRun(s: State, rejected: seq<RejectedEntry>, n: nat) returns (steps: seq<Step>)
    ensures Possible(s, steps) && SteadyRun(s, steps, RejectedPairs(rejected)) && Completed(s, steps) == n
    ensures if n == 0 then steps == [] else Run(s, steps).stage.Idle?
    decreases n, CallsLeft(s.stage)
  {
    hide CallsLeft, SteadyStep, Enabled, FlushStep;
    steps := [];
    if n > 0 {
      var step := FlushThread(Answer(rejected));
      var s' := Apply(s, step);
      AnsweredFlushShortens(s, rejected);
      var rest := SomeSteadyRun(s', rejected, if EndsFlush(s, step) then n - 1 else n);
      steps := [step] + rest;
      assert steps[1..] == rest;
    }
  }

  /**
   * The exact threshold over runs. From any reachable state at rest, with a cloud that rejects exactly
   * these pairs and nothing new enqueued, everything deliverable is sent after some number of flushes
   * - in every run, cleanup and stray marks included - if and only if fewer than 500 blocked messages
   * are older than the newest deliverable one.
   */
  lemma EverythingIsSentExactlyWhen(s: State, rejected: seq<RejectedEntry>)
    requires Inv(s) && s.stage.Idle?
    ensures (exists n: nat :: DrainedBy(s, RejectedPairs(rejected), n))
            <==> BlockedAhead(Waiting(s.table.rows), RejectedPairs(rejected)) < 500
  {
    hide Inv, Waiting, Deliverable, BlockedAhead, Run, Possible, SteadyRun, Completed;
    var pairs := RejectedPairs(rejected);
    if BlockedAhead(Waiting(s.table.rows), pairs) < BATCH_FLUSH_SIZE {
      var n := FewAheadIsDrained(s, pairs);
    } else {
      forall n: nat ensures !DrainedBy(s, pairs, n) {
        var steps := SomeSteadyRun(s, rejected, n);
        NeverDrained(s, steps, pairs);
      }
    }
  }
}
