/** A run into the stuck region: 500 readings of an unknown tag, then one of a known tag. */
module StuckQueue {
  import opened Common
  import opened OfflineBuffer
  import opened TelemetryFlush
  import opened FlushProtocol
  import opened FlushGuarantees
  import opened FlushProgress
  import opened FlushDrain

  /** Message ids are numbered like the log, so the next number is unused. */
  ghost predicate Numbered(s: State) {
    forall m :: m in s.log ==> m.messageId < |s.log|
  }

  /** From position n on, all waiting messages are readable ones of this pair. */
  ghost predicate AllOfFrom(waiting: seq<Message>, n: nat, pair: Pair) {
    forall k :: n <= k < |waiting| ==> ReadItem(waiting[k]).Some? && PairOf(ReadItem(waiting[k]).value) == pair
  }

  /** A pair whose ids can be stored. */
  predicate Storable(pair: Pair) {
    Fits64(pair.0) && Fits64(pair.1)
  }

  function EnqueueNext(s: State, pair: Pair): Step {
    Enqueue(|s.log|, pair.0, pair.1, Finite(1.0), "good", "")
  }

  lemma NextIsUnused(s: State)
    requires Inv(s) && Numbered(s)
    ensures !HasMessage(s.table.rows, |s.log|)
  {
    InvParts(s);
    hide Inv, TableOk;
    forall i | 0 <= i < |s.table.rows| ensures s.table.rows[i].message.messageId != |s.log| {
      StatusShowsMarked(s.table, s.log, s.marked, i);
      assert s.table.rows[i].message in s.log;
    }
  }

  lemma EnqueueOne(s: State, pair: Pair)
    requires Inv(s) && Numbered(s) && s.stage.Idle? && Storable(pair)
    ensures var step := EnqueueNext(s, pair);
            var s' := Apply(s, step);
            var before, after := Waiting(s.table.rows), Waiting(s'.table.rows);
            && Enabled(s, step) && Numbered(s') && s'.stage.Idle?
            && |after| == |before| + 1 && after[..|before|] == before && AllOfFrom(after, |before|, pair)
  {
    hide Inv, Waiting, HasMessage;
    var m := NewMessage(|s.log|, pair.0, pair.1, Finite(1.0), "good", "");
    NextIsUnused(s);
    EnqueueAddsWaiting(s.table, m);
    assert Apply(s, EnqueueNext(s, pair)).log == s.log + [m];
  }

  /** Any number of readings of one pair can be enqueued in a row. */
  lemma {:induction false} EnqueueMany(s: State, n: nat, pair: Pair) returns (steps: seq<Step>)
    requires Inv(s) && Numbered(s) && s.stage.Idle? && Storable(pair)
    ensures Possible(s, steps)
    ensures var s' := Run(s, steps);
            var before, after := Waiting(s.table.rows), Waiting(s'.table.rows);
            && Inv(s') && Numbered(s') && s'.stage.Idle?
            && |after| == |before| + n && after[..|before|] == before && AllOfFrom(after, |before|, pair)
    decreases n
  {
    hide Inv, Numbered, Waiting, Apply, Enabled, ReadItem;
    steps := [];
    if n > 0 {
      var step := EnqueueNext(s, pair);
      var s1 := Apply(s, step);
      EnqueueOne(s, pair);
      StepKeepsInv(s, step);
      var rest := EnqueueMany(s1, n - 1, pair);
      steps := [step] + rest;
      assert steps[1..] == rest;
      var before, middle, after := Waiting(s.table.rows), Waiting(s1.table.rows), Waiting(Run(s1, rest).table.rows);
      assert after[|before|] == middle[|before|];
      assert after[..|before|] == middle[..|before|];
    }
  }

  lemma {:induction false} AllBlocked(waiting: seq<Message>, rejected: set<Pair>)
    requires forall k :: 0 <= k < |waiting| ==> Blocked(waiting[k], rejected)
    ensures BlockedOnes(waiting, rejected) == waiting
  {
    if waiting != [] {
      AllBlocked(waiting[..|waiting| - 1], rejected);
    }
  }

  lemma {:induction false} RunInParts(s: State, steps: seq<Step>, more: seq<Step>)
    requires Possible(s, steps) && Possible(Run(s, steps), more)
    ensures Possible(s, steps + more) && Run(s, steps + more) == Run(Run(s, steps), more)
    decreases |steps|
  {
    hide Apply, Enabled;
    if steps == [] {
      assert steps + more == more;
    } else {
      assert (steps + more)[1..] == steps[1..] + more;
      RunInParts(Apply(s, steps[0]), steps[1..], more);
    }
  }

  lemma InitIsNumbered()
    ensures Inv(Init()) && Numbered(Init()) && Init().stage.Idle? && Waiting(Init().table.rows) == []
  {
    InitInv();
  }

  /** A full batch of rejected readings with one deliverable reading behind it, all waiting, nothing in hand. */
  lemma FullBatchAhead(bad: Pair, good: Pair) returns (steps: seq<Step>)
    requires Storable(bad) && Storable(good)
    ensures Possible(Init(), steps)
    ensures var s := Run(Init(), steps);
            && Inv(s) && s.stage.Idle? && |Waiting(s.table.rows)| == 500 + 1
            && AllOfFrom(Waiting(s.table.rows)[..500], 0, bad)
            && AllOfFrom(Waiting(s.table.rows), 500, good)
  {
    hide Inv, Numbered, Waiting, Possible, Run, ReadItem;
    InitIsNumbered();
    var first := EnqueueMany(Init(), BATCH_FLUSH_SIZE, bad);
    var s := Run(Init(), first);
    var second := EnqueueMany(s, 1, good);
    RunInParts(Init(), first, second);
    steps := first + second;
  }

  lemma FullBatchBlocks(waiting: seq<Message>, bad: Pair, good: Pair)
    requires bad != good && |waiting| == 500 + 1
    requires AllOfFrom(waiting[..500], 0, bad) && AllOfFrom(waiting, 500, good)
    ensures HeadBlocked(waiting, {bad}) && !Blocked(waiting[500], {bad})
    ensures BlockedAhead(waiting, {bad}) == 500
  {
    var head, last := waiting[..BATCH_FLUSH_SIZE], waiting[BATCH_FLUSH_SIZE];
    assert waiting == head + [last];
    forall k | 0 <= k < BATCH_FLUSH_SIZE ensures Blocked(waiting[k], {bad}) && head[k] == waiting[k] {
      assert PairOf(ReadItem(head[k]).value) == bad;
    }
    AllBlocked(head, {bad});
  }

  /**
   * The stuck region is reached. After 500 readings of a pair the cloud does not know and one of a pair
   * it knows, no continuation ever marks the deliverable reading sent while the cloud rejects the
   * unknown pair, and no number of flushes drains the queue.
   */
  lemma QueueGetsStuck(bad: Pair, good: Pair) returns (steps: seq<Step>)
    requires bad != good && Storable(bad) && Storable(good)
    ensures Possible(Init(), steps)
    ensures var s := Run(Init(), steps);
            var waiting := Waiting(s.table.rows);
            && s.stage.Idle? && HeadBlocked(waiting, {bad})
            && |waiting| == 500 + 1 && !Blocked(waiting[500], {bad})
            && (forall more :: Possible(s, more) && AlwaysRejected(s, more, {bad}) ==>
                  Run(s, more).marked == s.marked)
            && (forall n: nat :: !DrainedBy(s, {bad}, n))
  {
    hide Inv, Waiting, Possible, Run, Blocked, AllOfFrom, HeadBlocked, AlwaysRejected, BlockedAhead, DrainedBy;
    steps := FullBatchAhead(bad, good);
    var s := Run(Init(), steps);
    FullBatchBlocks(Waiting(s.table.rows), bad, good);
    forall more | Possible(s, more) && AlwaysRejected(s, more, {bad}) ensures Run(s, more).marked == s.marked {
      StuckForever(s, more, {bad});
    }
    var entry := RejectedEntry(Some(bad.0), Some(bad.1));
    OnePair(entry, bad);
    EverythingIsSentExactlyWhen(s, [entry]);
  }

  lemma OnePair(entry: RejectedEntry, pair: Pair)
    requires entry == RejectedEntry(Some(pair.0), Some(pair.1))
    ensures RejectedPairs([entry]) == {pair}
  {
    assert entry in [entry];
  }

  // ----- Exactly when a state at rest is stuck -----

  /** No continuation marks anything sent as long as every posted pair of `rejected` is rejected. */
  ghost predicate Stuck(s: State, rejected: set<Pair>) {
    forall steps :: Possible(s, steps) && AlwaysRejected(s, steps, rejected) ==> Run(s, steps).marked == s.marked
  }

  lemma {:induction false} SteadyRunRejects(s: State, steps: seq<Step>, rejected: set<Pair>)
    requires SteadyRun(s, steps, rejected)
    ensures AlwaysRejected(s, steps, rejected)
    decreases |steps|
  {
    hide Apply;
    if steps != [] {
      SteadyRunRejects(Apply(s, steps[0]), steps[1..], rejected);
    }
  }

  lemma {:induction false} SomeDeliverable(waiting: seq<Message>, rejected: set<Pair>, k: nat)
    requires k < |waiting| && !Blocked(waiting[k], rejected)
    ensures Deliverable(waiting, rejected) > 0
  {
    if k < |waiting| - 1 {
      SomeDeliverable(waiting[..|waiting| - 1], rejected, k);
    }
  }

  lemma FlushSendsSomething(waiting: seq<Message>, rejected: set<Pair>, k: nat)
    requires k < BatchSize(waiting) && !Blocked(waiting[k], rejected)
    ensures |FlushOnce(waiting, rejected)| < |waiting|
  {
    hide Blocked, Deliverable, BlockedOnes;
    var batch := waiting[..BatchSize(waiting)];
    assert batch[k] == waiting[k];
    SomeDeliverable(batch, rejected, k);
    BlockedAndDeliverable(batch, rejected);
  }

  lemma FewerWaitingMoreMarked(s: State, s': State)
    requires Inv(s) && Inv(s') && s.log <= s'.log && |Waiting(s'.table.rows)| < |Waiting(s.table.rows)|
    ensures s'.marked != s.marked
  {
    assert |s'.marked| > |s.marked|;
  }

  /** With something deliverable in the next batch, one flush marks something sent. */
  lemma DeliverableIsMarked(s: State, rejected: seq<RejectedEntry>, k: nat) returns (steps: seq<Step>)
    requires Inv(s) && s.stage.Idle? && k < BatchSize(Waiting(s.table.rows))
    requires !Blocked(Waiting(s.table.rows)[k], RejectedPairs(rejected))
    ensures Possible(s, steps) && AlwaysRejected(s, steps, RejectedPairs(rejected))
    ensures Run(s, steps).marked != s.marked && s.marked <= Run(s, steps).marked
  {
    var pairs, waiting := RejectedPairs(rejected), Waiting(s.table.rows);
    RestStands(s, pairs);
    hide Inv, Waiting, Blocked, Possible, SteadyRun, AlwaysRejected, FlushOnce, Completed;
    steps := SomeSteadyRun(s, rejected, 1);
    SteadyRunRejects(s, steps, pairs);
    RunStands(s, steps, waiting, pairs);
    RunKeepsInv(s, steps);
    HistoriesGrow(s, steps);
    hide Run;
    assert AfterFlushes(waiting, pairs, 1) == AfterFlushes(FlushOnce(waiting, pairs), pairs, 0);
    FlushSendsSomething(waiting, pairs, k);
    FewerWaitingMoreMarked(s, Run(s, steps));
  }

  function Above(log: seq<Message>): (n: nat)
    ensures forall m :: m in log ==> m.messageId < n
  {
    if log == [] then 0
    else
      var rest := Above(log[1..]);
      if log[0].messageId < rest then rest else log[0].messageId + 1
  }

  /** A deliverable reading can always be enqueued behind what is waiting. */
  lemma EnqueueDeliverable(s: State, good: Pair, rejected: set<Pair>) returns (step: Step)
    requires Inv(s) && s.stage.Idle? && Storable(good) && good !in rejected
    ensures Enabled(s, step) && step.Enqueue?
    ensures var s' := Apply(s, step);
            var before, after := Waiting(s.table.rows), Waiting(s'.table.rows);
            && s'.stage.Idle? && s'.marked == s.marked
            && |after| == |before| + 1 && !Blocked(after[|before|], rejected)
  {
    hide Inv, Waiting, HasMessage, Above, SentIds;
    var id := Above(s.log);
    step := Enqueue(id, good.0, good.1, Finite(1.0), "good", "");
    var m := NewMessage(id, good.0, good.1, Finite(1.0), "good", "");
    UnusedId(s, id);
    EnqueueAddsWaiting(s.table, m);
    InsertMarksNothing(s, m);
  }

  lemma UnusedId(s: State, id: nat)
    requires Inv(s) && forall m :: m in s.log ==> m.messageId < id
    ensures !HasMessage(s.table.rows, id)
  {
    InvParts(s);
    hide Inv, TableOk;
    forall i | 0 <= i < |s.table.rows| ensures s.table.rows[i].message.messageId != id {
      StatusShowsMarked(s.table, s.log, s.marked, i);
      assert s.table.rows[i].message in s.log;
    }
  }

  lemma InsertMarksNothing(s: State, m: Message)
    requires Inv(s) && Insert(s.table, m).Ok?
    ensures s.marked + SentIds(Insert(s.table, m).value.rows) == s.marked
  {
    InvParts(s);
    EnqueueKeepsTable(s.table, s.log, s.marked, m, Insert(s.table, m).value);
  }

  /** A state at rest without a full batch of blocked messages in front is not stuck. */
  lemma FreeHeadIsNotStuck(s: State, rejected: seq<RejectedEntry>, good: Pair) returns (steps: seq<Step>)
    requires Inv(s) && s.stage.Idle? && Storable(good) && good !in RejectedPairs(rejected)
    requires !HeadBlocked(Waiting(s.table.rows), RejectedPairs(rejected))
    ensures Possible(s, steps) && AlwaysRejected(s, steps, RejectedPairs(rejected))
    ensures Run(s, steps).marked != s.marked
  {
    var pairs, waiting := RejectedPairs(rejected), Waiting(s.table.rows);
    hide Inv, Waiting, Blocked, Storable;
    if k: nat :| k < BatchSize(waiting) && !Blocked(waiting[k], pairs) {
      steps := DeliverableIsMarked(s, rejected, k);
    } else {
      var step := EnqueueDeliverable(s, good, pairs);
      var s1 := Apply(s, step);
      StepKeepsInv(s, step);
      assert |waiting| < BATCH_FLUSH_SIZE;
      hide Apply;
      var rest := DeliverableIsMarked(s1, rejected, |waiting|);
      steps := [step] + rest;
      assert steps[1..] == rest;
    }
  }

  /**
   * A reachable state at rest is stuck for good if and only if the 500 oldest waiting messages are all
   * blocked, as long as some pair that can be stored is not rejected.
   */
  lemma StuckExactlyWhen(s: State, rejected: seq<RejectedEntry>, good: Pair)
    requires Inv(s) && s.stage.Idle? && Storable(good) && good !in RejectedPairs(rejected)
    ensures Stuck(s, RejectedPairs(rejected)) <==> HeadBlocked(Waiting(s.table.rows), RejectedPairs(rejected))
  {
    hide Inv, Waiting, Possible, AlwaysRejected, Run, HeadBlocked, Storable;
    var pairs := RejectedPairs(rejected);
    if HeadBlocked(Waiting(s.table.rows), pairs) {
      forall steps | Possible(s, steps) && AlwaysRejected(s, steps, pairs) ensures Run(s, steps).marked == s.marked {
        StuckForever(s, steps, pairs);
      }
    } else {
      var steps := FreeHeadIsNotStuck(s, rejected, good);
    }
  }
}
