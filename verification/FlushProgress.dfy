/** How fast the queue drains, exactly when it does, and when it never will. */
module FlushProgress {
  import opened Common
  import opened OfflineBuffer
  import opened TelemetryFlush
  import opened FlushProtocol
  import opened FlushGuarantees

  // ----- The waiting messages, oldest first -----

  function Waiting(rows: seq<Row>): seq<Message> {
    var pending := PendingRows(rows);
    seq(|pending|, k requires 0 <= k < |pending| => pending[k].message)
  }

  /** A message no flush can send while the cloud rejects the pairs in `rejected`. */
  predicate Blocked(m: Message, rejected: set<Pair>) {
    ReadItem(m).None? || PairOf(ReadItem(m).value) in rejected
  }

  function BlockedOnes(waiting: seq<Message>, rejected: set<Pair>): seq<Message> {
    if waiting == [] then []
    else
      var last := waiting[|waiting| - 1];
      BlockedOnes(waiting[..|waiting| - 1], rejected) + (if Blocked(last, rejected) then [last] else [])
  }

  function Deliverable(waiting: seq<Message>, rejected: set<Pair>): nat {
    if waiting == [] then 0
    else
      Deliverable(waiting[..|waiting| - 1], rejected) + (if Blocked(waiting[|waiting| - 1], rejected) then 0 else 1)
  }

  function BatchSize(waiting: seq<Message>): nat {
    Min(BATCH_FLUSH_SIZE, |waiting|)
  }

  /** One answered flush: the blocked messages of the batch stay, everything beyond the batch stays. */
  function FlushOnce(waiting: seq<Message>, rejected: set<Pair>): seq<Message> {
    BlockedOnes(waiting[..BatchSize(waiting)], rejected) + waiting[BatchSize(waiting)..]
  }

  function AfterFlushes(waiting: seq<Message>, rejected: set<Pair>, n: nat): seq<Message>
    decreases n
  {
    if n == 0 then waiting else AfterFlushes(FlushOnce(waiting, rejected), rejected, n - 1)
  }

  lemma {:induction false} FlushedPrefix(rows: seq<Row>, reply: Reply, n: nat)
    requires n <= |rows|
    ensures Flushed(rows, reply)[..n] == Flushed(rows[..n], reply)
  {
    forall i | 0 <= i < n ensures Flushed(rows, reply)[i] == Flushed(rows[..n], reply)[i] {
      assert rows[..n][..i] == rows[..i];
    }
  }

  lemma WaitingAppend(rows: seq<Row>, row: Row)
    ensures Waiting(rows + [row]) == Waiting(rows) + (if row.status == Pending then [row.message] else [])
  {
    assert (rows + [row])[..|rows|] == rows;
  }

  lemma FlushOnceAppend(waiting: seq<Message>, m: Message, rejected: set<Pair>)
    ensures FlushOnce(waiting + [m], rejected) == FlushOnce(waiting, rejected)
              + (if |waiting| < BATCH_FLUSH_SIZE && !Blocked(m, rejected) then [] else [m])
  {
    var waiting' := waiting + [m];
    if |waiting| < BATCH_FLUSH_SIZE {
      assert waiting'[..BatchSize(waiting')] == waiting' && waiting'[..|waiting|] == waiting;
      assert waiting[..BatchSize(waiting)] == waiting;
    } else {
      assert waiting'[..BatchSize(waiting')] == waiting[..BatchSize(waiting)];
      assert waiting'[BatchSize(waiting')..] == waiting[BatchSize(waiting)..] + [m];
    }
  }

  /** The queue view is exact: an answered flush of the table is `FlushOnce` on the waiting messages. */
  lemma {:induction false} FlushOnceIsFlush(rows: seq<Row>, rejected: seq<RejectedEntry>)
    ensures Waiting(Flushed(rows, Answer(rejected))) == FlushOnce(Waiting(rows), RejectedPairs(rejected))
  {
    if rows != [] {
      var n := |rows| - 1;
      var init, last := rows[..n], rows[n];
      var rows' := Flushed(rows, Answer(rejected));
      FlushOnceIsFlush(init, rejected);
      FlushedPrefix(rows, Answer(rejected), n);
      assert rows == init + [last] && rows' == rows'[..n] + [rows'[n]];
      WaitingAppend(init, last);
      WaitingAppend(rows'[..n], rows'[n]);
      assert InBatch(rows, n) <==> last.status == Pending && |Waiting(init)| < BATCH_FLUSH_SIZE;
      assert rows'[n] == if InBatch(rows, n) then Settled(last, Answer(rejected)) else last;
      if last.status == Pending {
        FlushOnceAppend(Waiting(init), last.message, RejectedPairs(rejected));
        assert rows'[n].message == last.message;
        assert rows'[n].status == Pending
          <==> |Waiting(init)| >= BATCH_FLUSH_SIZE || Blocked(last.message, RejectedPairs(rejected));
        assert Waiting(rows) == Waiting(init) + [last.message];
      } else {
        assert Waiting(rows) == Waiting(init);
      }
    }
  }

  // ----- Counting -----

  lemma {:induction false} BlockedAndDeliverable(waiting: seq<Message>, rejected: set<Pair>)
    ensures |BlockedOnes(waiting, rejected)| + Deliverable(waiting, rejected) == |waiting|
    ensures BlockedOnes(BlockedOnes(waiting, rejected), rejected) == BlockedOnes(waiting, rejected)
    ensures Deliverable(BlockedOnes(waiting, rejected), rejected) == 0
  {
    if waiting != [] {
      var init := waiting[..|waiting| - 1];
      BlockedAndDeliverable(init, rejected);
      var kept := BlockedOnes(waiting, rejected);
      if kept != BlockedOnes(init, rejected) {
        assert kept[..|kept| - 1] == BlockedOnes(init, rejected);
      }
    }
  }

  lemma {:induction false} CountsAdd(a: seq<Message>, c: seq<Message>, rejected: set<Pair>)
    ensures Deliverable(a + c, rejected) == Deliverable(a, rejected) + Deliverable(c, rejected)
    ensures BlockedOnes(a + c, rejected) == BlockedOnes(a, rejected) + BlockedOnes(c, rejected)
  {
    if c == [] {
      assert a + c == a;
    } else {
      var n := |c| - 1;
      assert (a + c)[..|a + c| - 1] == a + c[..n];
      CountsAdd(a, c[..n], rejected);
    }
  }

  /** What one flush changes: the deliverable messages of the batch leave, no blocked one does. */
  lemma FlushOnceCounts(waiting: seq<Message>, rejected: set<Pair>)
    ensures var k := BatchSize(waiting);
            && BlockedOnes(FlushOnce(waiting, rejected), rejected) == BlockedOnes(waiting, rejected)
            && Deliverable(FlushOnce(waiting, rejected), rejected) == Deliverable(waiting[k..], rejected)
            && Deliverable(waiting, rejected)
               == Deliverable(waiting[..k], rejected) + Deliverable(waiting[k..], rejected)
  {
    var k := BatchSize(waiting);
    assert waiting[..k] + waiting[k..] == waiting;
    CountsAdd(waiting[..k], waiting[k..], rejected);
    CountsAdd(BlockedOnes(waiting[..k], rejected), waiting[k..], rejected);
    BlockedAndDeliverable(waiting[..k], rejected);
  }

  /**
   * Progress of one flush: with D deliverable and b < 500 blocked messages waiting, an answered
   * flush sends at least min(D, 500 - b) of the deliverable ones and leaves the blocked ones.
   */
  lemma FlushSendsAtLeast(waiting: seq<Message>, rejected: set<Pair>)
    requires |BlockedOnes(waiting, rejected)| < 500
    ensures var d, b := Deliverable(waiting, rejected), |BlockedOnes(waiting, rejected)|;
            && d - Deliverable(FlushOnce(waiting, rejected), rejected) >= Min(d, 500 - b)
            && |BlockedOnes(FlushOnce(waiting, rejected), rejected)| == b
  {
    hide BlockedOnes, Deliverable, FlushOnce;
    var k := BatchSize(waiting);
    FlushOnceCounts(waiting, rejected);
    assert waiting[..k] + waiting[k..] == waiting;
    CountsAdd(waiting[..k], waiting[k..], rejected);
    BlockedAndDeliverable(waiting[..k], rejected);
    BlockedAndDeliverable(waiting[k..], rejected);
  }

  /** The bound is tight: when all b blocked messages are oldest, exactly min(D, 500 - b) are sent. */
  lemma FlushSendsExactly(blocked: seq<Message>, others: seq<Message>, rejected: set<Pair>)
    requires |blocked| < 500
    requires Deliverable(blocked, rejected) == 0 && BlockedOnes(others, rejected) == []
    ensures Deliverable(blocked + others, rejected) - Deliverable(FlushOnce(blocked + others, rejected), rejected)
            == Min(|others|, 500 - |blocked|)
  {
    hide Deliverable, BlockedOnes, FlushOnce, Blocked;
    var waiting := blocked + others;
    var k := BatchSize(waiting);
    FlushOnceCounts(waiting, rejected);
    assert waiting[..k] == blocked + others[..k - |blocked|];
    CountsAdd(blocked, others[..k - |blocked|], rejected);
    assert others[..k - |blocked|] + others[k - |blocked|..] == others;
    CountsAdd(others[..k - |blocked|], others[k - |blocked|..], rejected);
    BlockedAndDeliverable(others[..k - |blocked|], rejected);
  }

  /** After n flushes at most D - n * (500 - b) deliverable messages are left. */
  lemma {:induction false} DrainRate(waiting: seq<Message>, rejected: set<Pair>, n: nat, per: nat)
    requires per == 500 - |BlockedOnes(waiting, rejected)| && per > 0
    ensures Deliverable(AfterFlushes(waiting, rejected, n), rejected)
            <= Max(0, Deliverable(waiting, rejected) - n * per)
    decreases n
  {
    hide Deliverable, BlockedOnes, FlushOnce;
    if n > 0 {
      FlushSendsAtLeast(waiting, rejected);
      DrainRate(FlushOnce(waiting, rejected), rejected, n - 1, per);
      OneTurn(n, per);
    }
  }

  lemma OneTurn(n: nat, per: nat)
    requires n > 0
    ensures n * per == (n - 1) * per + per && (n - 1) * per >= 0
  {
  }

  lemma CeilingCovers(d: nat, per: nat)
    requires per > 0
    ensures (d + per - 1) / per * per >= d
  {
  }

  /** All D deliverable messages are gone within ceil(D / (500 - b)) flushes. */
  lemma DrainsWithin(waiting: seq<Message>, rejected: set<Pair>, per: nat)
    requires per == 500 - |BlockedOnes(waiting, rejected)| && per > 0
    ensures var n := (Deliverable(waiting, rejected) + per - 1) / per;
            Deliverable(AfterFlushes(waiting, rejected, n), rejected) == 0
  {
    CeilingCovers(Deliverable(waiting, rejected), per);
    DrainRate(waiting, rejected, (Deliverable(waiting, rejected) + per - 1) / per, per);
  }

  // ----- Exactly when everything deliverable is sent in the end -----

  /** How many blocked messages are older than the newest deliverable one. */
  function BlockedAhead(waiting: seq<Message>, rejected: set<Pair>): nat {
    if waiting == [] then 0
    else if Blocked(waiting[|waiting| - 1], rejected) then BlockedAhead(waiting[..|waiting| - 1], rejected)
    else |BlockedOnes(waiting, rejected)|
  }

  lemma {:induction false} BlockedAheadAdds(a: seq<Message>, c: seq<Message>, rejected: set<Pair>)
    ensures BlockedAhead(a + c, rejected) ==
            if Deliverable(c, rejected) == 0 then BlockedAhead(a, rejected)
            else |BlockedOnes(a, rejected)| + BlockedAhead(c, rejected)
  {
    if c == [] {
      assert a + c == a;
    } else {
      var n := |c| - 1;
      assert (a + c)[..|a + c| - 1] == a + c[..n];
      BlockedAheadAdds(a, c[..n], rejected);
      CountsAdd(a, c, rejected);
    }
  }

  lemma {:induction false} BlockedAheadBound(waiting: seq<Message>, rejected: set<Pair>)
    ensures BlockedAhead(waiting, rejected) + Min(1, Deliverable(waiting, rejected)) <= |waiting|
    ensures Deliverable(waiting, rejected) == 0 ==> BlockedAhead(waiting, rejected) == 0
  {
    BlockedAndDeliverable(waiting, rejected);
    if waiting != [] {
      BlockedAheadBound(waiting[..|waiting| - 1], rejected);
    }
  }

  /** A flush keeps the number of blocked messages ahead as long as a deliverable one is left. */
  lemma FlushKeepsBlockedAhead(waiting: seq<Message>, rejected: set<Pair>)
    ensures var waiting' := FlushOnce(waiting, rejected);
            && (Deliverable(waiting', rejected) > 0 ==>
                  BlockedAhead(waiting', rejected) == BlockedAhead(waiting, rejected))
            && (BlockedAhead(waiting, rejected) >= 500 ==> Deliverable(waiting', rejected) > 0)
            && (BlockedAhead(waiting, rejected) < 500 && Deliverable(waiting, rejected) > 0 ==>
                  Deliverable(waiting', rejected) < Deliverable(waiting, rejected))
  {
    var k := BatchSize(waiting);
    var a, c := waiting[..k], waiting[k..];
    assert a + c == waiting;
    FlushOnceCounts(waiting, rejected);
    BlockedAheadAdds(a, c, rejected);
    BlockedAheadAdds(BlockedOnes(a, rejected), c, rejected);
    BlockedAndDeliverable(a, rejected);
    BlockedAheadBound(a, rejected);
    BlockedAheadBound(c, rejected);
  }

  lemma {:induction false} DrainsWhenFewAhead(waiting: seq<Message>, rejected: set<Pair>) returns (n: nat)
    requires BlockedAhead(waiting, rejected) < 500
    ensures Deliverable(AfterFlushes(waiting, rejected, n), rejected) == 0
    decreases Deliverable(waiting, rejected)
  {
    hide Deliverable, BlockedAhead, FlushOnce;
    if Deliverable(waiting, rejected) == 0 {
      n := 0;
    } else {
      FlushKeepsBlockedAhead(waiting, rejected);
      var waiting' := FlushOnce(waiting, rejected);
      if Deliverable(waiting', rejected) == 0 {
        assert AfterFlushes(waiting, rejected, 1) == AfterFlushes(waiting', rejected, 0);
        n := 1;
      } else {
        var m := DrainsWhenFewAhead(waiting', rejected);
        n := m + 1;
      }
    }
  }

  lemma {:induction false} NeverDrainsBehindFullBatch(waiting: seq<Message>, rejected: set<Pair>, n: nat)
    requires BlockedAhead(waiting, rejected) >= 500
    ensures Deliverable(AfterFlushes(waiting, rejected, n), rejected) > 0
    decreases n
  {
    hide Deliverable, BlockedAhead, FlushOnce;
    if n == 0 {
      BlockedAheadBound(waiting, rejected);
    } else {
      FlushKeepsBlockedAhead(waiting, rejected);
      NeverDrainsBehindFullBatch(FlushOnce(waiting, rejected), rejected, n - 1);
    }
  }

  /**
   * The exact threshold: with a fixed rejected set and nothing new enqueued, every deliverable
   * message is sent in the end if and only if fewer than 500 blocked messages are older than the
   * newest deliverable one.
   */
  lemma DrainsExactlyWhen(waiting: seq<Message>, rejected: set<Pair>)
    ensures (exists n: nat :: Deliverable(AfterFlushes(waiting, rejected, n), rejected) == 0)
            <==> BlockedAhead(waiting, rejected) < 500
  {
    if BlockedAhead(waiting, rejected) < BATCH_FLUSH_SIZE {
      var n := DrainsWhenFewAhead(waiting, rejected);
    } else {
      forall n: nat ensures Deliverable(AfterFlushes(waiting, rejected, n), rejected) != 0 {
        NeverDrainsBehindFullBatch(waiting, rejected, n);
      }
    }
  }

  // ----- Stuck for good -----

  /** The 500 oldest waiting messages are all blocked. */
  ghost predicate HeadBlocked(waiting: seq<Message>, rejected: set<Pair>) {
    |waiting| >= 500 && forall k :: 0 <= k < 500 ==> Blocked(waiting[k], rejected)
  }

  /** Nothing the flush thread has in hand can be marked sent. */
  ghost predicate HandsBlocked(stage: Stage, rejected: set<Pair>) {
    match stage
    case Idle => true
    case Building(todo, valid) => forall row :: row in valid + todo ==> Blocked(row.message, rejected)
    case Failing(_, _) => true
    case Settling(todo, rejected') =>
      forall row :: row in todo ==> ReadItem(row.message).Some? && PairOf(ReadItem(row.message).value) in rejected'
  }

  /** If the POST of these rows is answered, every posted pair that is in `rejected` is rejected. */
  ghost predicate RejectsPosted(posted: seq<Row>, reply: Reply, rejected: set<Pair>) {
    reply.Answer? ==>
      forall row :: row in posted && InRejected(row.message, rejected) ==>
        InRejected(row.message, RejectedPairs(reply.rejected))
  }

  /** Every POST of the run is met so; what the cloud says of pairs not posted does not matter. */
  ghost predicate AlwaysRejected(s: State, steps: seq<Step>, rejected: set<Pair>)
    decreases |steps|
  {
    steps == [] ||
    (&& (IsPost(s, steps[0]) ==> RejectsPosted(s.stage.valid, steps[0].reply, rejected))
     && AlwaysRejected(Apply(s, steps[0]), steps[1..], rejected))
  }

  lemma {:induction false} SameWaiting(rows: seq<Row>, rows': seq<Row>)
    requires |rows| == |rows'|
    requires forall i :: 0 <= i < |rows| ==> rows[i].status == rows'[i].status && rows[i].message == rows'[i].message
    ensures Waiting(rows) == Waiting(rows')
  {
    if rows != [] {
      var n := |rows| - 1;
      SameWaiting(rows[..n], rows'[..n]);
      assert Waiting(rows) == Waiting(rows[..n]) + (if rows[n].status == Pending then [rows[n].message] else []);
      assert Waiting(rows') == Waiting(rows'[..n]) + (if rows[n].status == Pending then [rows[n].message] else []);
    }
  }

  /** Recording a failure leaves the waiting messages as they are. */
  lemma FailureKeepsWaiting(t: Table, messageId: MessageId, error: string)
    ensures Waiting(MarkFailed(t, messageId, error).rows) == Waiting(t.rows)
  {
    SameWaiting(t.rows, MarkFailed(t, messageId, error).rows);
  }

  lemma StuckSelect(s: State, reply: Reply, rejected: set<Pair>)
    requires s.stage.Idle? && HeadBlocked(Waiting(s.table.rows), rejected)
    ensures var s' := FlushStep(s, reply);
            Waiting(s'.table.rows) == Waiting(s.table.rows) && HandsBlocked(s'.stage, rejected)
  {
    var batch := Select(s.table, BATCH_FLUSH_SIZE);
    assert [] + batch == batch;
    forall k | 0 <= k < |batch| ensures Blocked(batch[k].message, rejected) {
      assert Waiting(s.table.rows)[k] == batch[k].message;
    }
  }

  lemma StuckRead(s: State, reply: Reply, rejected: set<Pair>)
    requires s.stage.Building? && s.stage.todo != [] && HandsBlocked(s.stage, rejected)
    ensures var s' := FlushStep(s, reply);
            Waiting(s'.table.rows) == Waiting(s.table.rows) && HandsBlocked(s'.stage, rejected)
  {
    hide Waiting, MarkFailed, Blocked;
    var todo, valid := s.stage.todo, s.stage.valid;
    FailureKeepsWaiting(s.table, todo[0].message.messageId, PayloadError(todo[0].message.payload));
    assert valid + todo == valid + [todo[0]] + todo[1..];
    assert forall row :: row in valid + todo[1..] ==> row in valid + todo;
  }

  lemma StuckPost(s: State, reply: Reply, rejected: set<Pair>)
    requires s.stage.Building? && s.stage.todo == [] && BatchOk(s.log, s.marked, s.stage.valid) && LogOk(s.log)
    requires HandsBlocked(s.stage, rejected)
    requires IsPost(s, FlushThread(reply)) ==> RejectsPosted(s.stage.valid, reply, rejected)
    ensures FlushStep(s, reply).table == s.table && HandsBlocked(FlushStep(s, reply).stage, rejected)
  {
    var valid := s.stage.valid;
    assert valid + [] == valid;
    forall row | row in valid ensures ReadItem(row.message).Some? {
      assert row.message == s.log[row.id - 1];
    }
  }

  lemma StuckBuild(s: State, reply: Reply, rejected: set<Pair>)
    requires s.stage.Building? && BatchOk(s.log, s.marked, s.stage.valid + s.stage.todo) && LogOk(s.log)
    requires HandsBlocked(s.stage, rejected)
    requires IsPost(s, FlushThread(reply)) ==> RejectsPosted(s.stage.valid, reply, rejected)
    ensures var s' := FlushStep(s, reply);
            Waiting(s'.table.rows) == Waiting(s.table.rows) && HandsBlocked(s'.stage, rejected)
  {
    hide FlushStep, HandsBlocked, LogOk, BatchOk;
    if s.stage.todo == [] {
      assert s.stage.valid + [] == s.stage.valid;
      StuckPost(s, reply, rejected);
    } else {
      StuckRead(s, reply, rejected);
    }
  }

  lemma StuckMark(s: State, reply: Reply, rejected: set<Pair>)
    requires s.stage.Failing? || s.stage.Settling?
    requires HandsBlocked(s.stage, rejected)
    ensures var s' := FlushStep(s, reply);
            Waiting(s'.table.rows) == Waiting(s.table.rows) && HandsBlocked(s'.stage, rejected)
  {
    if s.stage.todo != [] {
      var messageId := s.stage.todo[0].message.messageId;
      assert s.stage.todo[0] in s.stage.todo;
      FailureKeepsWaiting(s.table, messageId, if s.stage.Failing? then s.stage.error else REJECTED_TEXT);
    }
  }

  lemma StuckFlushStep(s: State, reply: Reply, rejected: set<Pair>)
    requires Inv(s) && HeadBlocked(Waiting(s.table.rows), rejected) && HandsBlocked(s.stage, rejected)
    requires IsPost(s, FlushThread(reply)) ==> RejectsPosted(s.stage.valid, reply, rejected)
    ensures var s' := FlushStep(s, reply);
            Waiting(s'.table.rows) == Waiting(s.table.rows) && HandsBlocked(s'.stage, rejected)
  {
    match s.stage
    case Idle => StuckSelect(s, reply, rejected);
    case Building(_, _) => StuckBuild(s, reply, rejected);
    case _ => StuckMark(s, reply, rejected);
  }

  lemma EnqueueAddsWaiting(t: Table, m: Message)
    requires Insert(t, m).Ok?
    ensures Waiting(Insert(t, m).value.rows) == Waiting(t.rows) + [m]
  {
    WaitingAppend(t.rows, Row(t.lastId + 1, m, Pending, 0, None));
  }

  lemma StuckEnqueue(s: State, step: Step)
    requires step.Enqueue?
    ensures var s' := Apply(s, step);
            && Waiting(s.table.rows) <= Waiting(s'.table.rows)
            && |Waiting(s'.table.rows)| - |Waiting(s.table.rows)| == |s'.log| - |s.log|
            && s'.stage == s.stage
  {
    hide Waiting, Insert;
    var m := NewMessage(step.messageId, step.deviceId, step.tagId, step.value, step.quality, step.timestamp);
    if Insert(s.table, m).Ok? {
      EnqueueAddsWaiting(s.table, m);
    }
  }

  lemma CleanupKeepsWaiting(t: Table, keepLatest: int)
    requires WellFormed(t)
    ensures Waiting(DeleteSent(t, keepLatest).rows) == Waiting(t.rows)
  {
    CleanupCounts(t, keepLatest);
  }

  /** A step in the stuck region stays there; only an enqueue changes the waiting messages, at the end. */
  lemma StuckStep(s: State, step: Step, rejected: set<Pair>)
    requires Inv(s) && Enabled(s, step)
    requires HeadBlocked(Waiting(s.table.rows), rejected) && HandsBlocked(s.stage, rejected)
    requires IsPost(s, step) ==> RejectsPosted(s.stage.valid, step.reply, rejected)
    ensures var s' := Apply(s, step);
            && Waiting(s.table.rows) <= Waiting(s'.table.rows)
            && |Waiting(s'.table.rows)| - |Waiting(s.table.rows)| == |s'.log| - |s.log|
            && HandsBlocked(s'.stage, rejected)
  {
    InvParts(s);
    hide Inv, LogOk, TableOk, WellFormed, MarkFailed, DeleteSent, Waiting, HeadBlocked;
    match step
    case Enqueue(_, _, _, _, _, _) => StuckEnqueue(s, step);
    case FlushThread(reply) =>
      StuckFlushStep(s, reply, rejected);
      FlushKeepsLog(s, reply);
      hide FlushStep;
    case Crash =>
    case Cleanup(keepLatest) => CleanupKeepsWaiting(s.table, keepLatest);
    case StrayFailure(messageId, error) => FailureKeepsWaiting(s.table, messageId, error);
  }

  lemma FlushKeepsLog(s: State, reply: Reply)
    ensures FlushStep(s, reply).log == s.log
  {
  }

  lemma SameSizeSubset(a: set<nat>, b: set<nat>)
    requires a <= b && |a| == |b|
    ensures a == b
  {
    assert |b - a| == |b| - |a|;
  }

  lemma StuckStepMarksNothing(s: State, step: Step, rejected: set<Pair>)
    requires Inv(s) && Enabled(s, step)
    requires HeadBlocked(Waiting(s.table.rows), rejected) && HandsBlocked(s.stage, rejected)
    requires IsPost(s, step) ==> RejectsPosted(s.stage.valid, step.reply, rejected)
    ensures Apply(s, step).marked == s.marked
  {
    var s' := Apply(s, step);
    StuckStep(s, step, rejected);
    StepKeepsInv(s, step);
    assert |Waiting(s'.table.rows)| == CountPending(s'.table.rows);
    assert |Waiting(s.table.rows)| == CountPending(s.table.rows);
    StepAddsFreshIdOnly(s, step);
    SameSizeSubset(s.marked, s'.marked);
  }

  /**
   * Stuck for good: once the 500 oldest waiting messages are all rejected (and none is in hand to be
   * accepted), no continuation marks anything sent, whatever is enqueued later, as long as the cloud
   * goes on rejecting those pairs.
   */
  lemma {:induction false} StuckForever(s: State, steps: seq<Step>, rejected: set<Pair>)
    requires Inv(s) && Possible(s, steps)
    requires HeadBlocked(Waiting(s.table.rows), rejected) && HandsBlocked(s.stage, rejected)
    requires AlwaysRejected(s, steps, rejected)
    ensures Run(s, steps).marked == s.marked
    decreases |steps|
  {
    if steps != [] {
      StuckStep(s, steps[0], rejected);
      StuckStepMarksNothing(s, steps[0], rejected);
      StepKeepsInv(s, steps[0]);
      StuckForever(Apply(s, steps[0]), steps[1..], rejected);
    }
  }
}
