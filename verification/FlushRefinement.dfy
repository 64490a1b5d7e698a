/** The step system and the sequential method agree: left alone, the flush thread does one whole flush. */
module FlushRefinement {
  import opened Common
  import opened OfflineBuffer
  import opened TelemetryFlush
  import opened FlushProtocol
  import opened FlushProgress

  function Turns(n: nat, reply: Reply): seq<Step> {
    seq(n, _ => FlushThread(reply))
  }

  lemma NoTurns(s: State, reply: Reply)
    ensures Run(s, Turns(0, reply)) == s
  {
  }

  lemma FirstTurn(s: State, n: nat, reply: Reply)
    requires n > 0
    ensures Run(s, Turns(n, reply)) == Run(FlushStep(s, reply), Turns(n - 1, reply))
  {
    assert Turns(n, reply)[1..] == Turns(n - 1, reply);
  }

  lemma {:induction false} MoreTurns(s: State, n: nat, m: nat, reply: Reply)
    ensures Run(s, Turns(n + m, reply)) == Run(Run(s, Turns(n, reply)), Turns(m, reply))
    decreases n
  {
    hide FlushStep;
    if n > 0 {
      FirstTurn(s, n + m, reply);
      FirstTurn(s, n, reply);
      MoreTurns(FlushStep(s, reply), n - 1, m, reply);
    }
  }

  /** Reading the snapshot takes one turn a message and moves every one of them to the valid list. */
  lemma {:induction false} BuildTurns(s: State, todo: seq<Row>, valid: seq<Row>, reply: Reply)
    requires s.stage == Building(todo, valid)
    requires forall row :: row in todo ==> ReadItem(row.message).Some?
    ensures Run(s, Turns(|todo|, reply)) == s.(stage := Building([], valid + todo))
    decreases |todo|
  {
    if todo == [] {
      assert valid + [] == valid;
    } else {
      assert FlushStep(s, reply) == s.(stage := Building(todo[1..], valid + [todo[0]]));
      FirstTurn(s, |todo|, reply);
      BuildTurns(FlushStep(s, reply), todo[1..], valid + [todo[0]], reply);
      assert valid + [todo[0]] + todo[1..] == valid + todo;
    }
  }

  /** The flush thread is settling `todo` by the verdicts of `reply`. */
  ghost predicate Marking(stage: Stage, reply: Reply) {
    || (stage.Failing? && reply.NetworkError? && reply.error == stage.error)
    || (stage.Settling? && reply.Answer? && RejectedPairs(reply.rejected) == stage.rejected)
  }

  ghost function SettledIn(row: Row, todo: seq<Row>, reply: Reply): Row {
    if row.message.messageId in MessageIds(todo) then Settled(row, reply) else row
  }

  /** The messages to settle are distinct, and a row with a message's id holds that message. */
  ghost predicate Consistent(rows: seq<Row>, todo: seq<Row>) {
    && (forall i, k :: 0 <= i < |rows| && 0 <= k < |todo| && rows[i].message.messageId == todo[k].message.messageId
          ==> rows[i].message == todo[k].message)
    && (forall k, k' :: 0 <= k < k' < |todo| ==> todo[k].message.messageId != todo[k'].message.messageId)
  }

  lemma MarkOne(s: State, reply: Reply)
    requires Marking(s.stage, reply) && s.stage.todo != [] && Consistent(s.table.rows, s.stage.todo)
    requires ReadItem(s.stage.todo[0].message).Some?
    ensures var s' := FlushStep(s, reply);
            && |s'.table.rows| == |s.table.rows|
            && Marking(s'.stage, reply) && s'.stage.todo == s.stage.todo[1..]
            && forall i :: 0 <= i < |s.table.rows| ==>
                 s'.table.rows[i] == SettledIn(s.table.rows[i], [s.stage.todo[0]], reply)
  {
    assert MessageIds([s.stage.todo[0]]) == {s.stage.todo[0].message.messageId};
  }

  lemma ConsistentTail(rows: seq<Row>, rows': seq<Row>, todo: seq<Row>)
    requires todo != [] && Consistent(rows, todo) && |rows'| == |rows|
    requires forall i :: 0 <= i < |rows| ==> rows'[i].message == rows[i].message
    ensures Consistent(rows', todo[1..])
    ensures todo[0].message.messageId !in MessageIds(todo[1..])
  {
    forall row | row in todo[1..] ensures row.message.messageId != todo[0].message.messageId {
      var k :| 0 <= k < |todo[1..]| && todo[1..][k] == row;
      assert todo[k + 1] == row;
    }
  }

  lemma SettledInParts(row: Row, todo: seq<Row>, reply: Reply)
    requires todo != [] && todo[0].message.messageId !in MessageIds(todo[1..])
    ensures SettledIn(row, todo, reply) == SettledIn(SettledIn(row, [todo[0]], reply), todo[1..], reply)
  {
    assert todo == [todo[0]] + todo[1..];
    assert MessageIds(todo) == MessageIds([todo[0]]) + MessageIds(todo[1..]);
    assert MessageIds([todo[0]]) == {todo[0].message.messageId};
    assert Settled(row, reply).message == row.message;
  }

  /** `rows'` is `rows` with the messages of `todo` settled. */
  ghost predicate AllSettled(rows: seq<Row>, rows': seq<Row>, todo: seq<Row>, reply: Reply) {
    |rows'| == |rows| && forall i :: 0 <= i < |rows| ==> rows'[i] == SettledIn(rows[i], todo, reply)
  }

  lemma {:induction false} MarkTurns(s: State, todo: seq<Row>, reply: Reply)
    requires Marking(s.stage, reply) && s.stage.todo == todo && Consistent(s.table.rows, todo)
    requires forall k :: 0 <= k < |todo| ==> ReadItem(todo[k].message).Some?
    ensures Run(s, Turns(|todo| + 1, reply)).stage == Idle
    ensures AllSettled(s.table.rows, Run(s, Turns(|todo| + 1, reply)).table.rows, todo, reply)
    decreases |todo|
  {
    FirstTurn(s, |todo| + 1, reply);
    if todo == [] {
      assert Run(s, Turns(1, reply)) == FlushStep(s, reply);
    } else {
      var s1 := FlushStep(s, reply);
      MarkOne(s, reply);
      forall i | 0 <= i < |s.table.rows| ensures s1.table.rows[i].message == s.table.rows[i].message {
        assert s1.table.rows[i] == SettledIn(s.table.rows[i], [todo[0]], reply);
      }
      ConsistentTail(s.table.rows, s1.table.rows, todo);
      MarkTurns(s1, todo[1..], reply);
      forall i | 0 <= i < |s.table.rows| {
        SettledInParts(s.table.rows[i], todo, reply);
      }
    }
  }

  lemma BatchIsConsistent(t: Table, log: seq<Message>, marked: set<nat>)
    requires LogOk(log) && TableOk(t, log, marked)
    ensures Consistent(t.rows, Select(t, BATCH_FLUSH_SIZE))
    ensures forall row :: row in Select(t, BATCH_FLUSH_SIZE) ==> ReadItem(row.message).Some?
  {
    var batch := Select(t, BATCH_FLUSH_SIZE);
    SelectIsOldestFirst(t, BATCH_FLUSH_SIZE);
    forall k | 0 <= k < |batch|
      ensures batch[k] in t.rows && batch[k].message == log[batch[k].id - 1] && ReadItem(batch[k].message).Some?
    {
      assert batch[k] in batch;
    }
  }

  lemma SettledBatchIsFlushed(t: Table, rows': seq<Row>, reply: Reply)
    requires WellFormed(t) && AllSettled(t.rows, rows', Select(t, BATCH_FLUSH_SIZE), reply)
    ensures rows' == Flushed(t.rows, reply)
  {
    SelectedIsInBatch(t);
  }

  lemma AbortedIsFlushed(t: Table, log: seq<Message>, marked: set<nat>, reply: Reply)
    requires LogOk(log) && TableOk(t, log, marked) && reply.Aborted?
    ensures Flushed(t.rows, reply) == t.rows
  {
    forall i | 0 <= i < |t.rows| ensures ReadItem(t.rows[i].message).Some? {
      StatusShowsMarked(t, log, marked, i);
    }
  }

  lemma PostTurn(s: State, batch: seq<Row>, reply: Reply)
    requires batch != [] && s.stage == Building([], batch)
    ensures FlushStep(s, reply).table == s.table
    ensures reply.Aborted? ==> FlushStep(s, reply).stage == Idle
    ensures !reply.Aborted? ==> Marking(FlushStep(s, reply).stage, reply) && FlushStep(s, reply).stage.todo == batch
  {
  }

  ghost predicate FlushDone(s: State, rows: seq<Row>) {
    s.stage == Idle && s.table.rows == rows
  }

  lemma TurnsFromPost(s: State, batch: seq<Row>, reply: Reply) returns (n: nat)
    requires LogOk(s.log) && TableOk(s.table, s.log, s.marked)
    requires batch == Select(s.table, BATCH_FLUSH_SIZE) && batch != [] && s.stage == Building([], batch)
    ensures FlushDone(Run(s, Turns(n, reply)), Flushed(s.table.rows, reply))
  {
    PostTurn(s, batch, reply);
    hide FlushStep, LogOk, TableOk, Flushed, Select, Marking, AllSettled;
    if reply.Aborted? {
      n := 1;
      FirstTurn(s, 1, reply);
      AbortedIsFlushed(s.table, s.log, s.marked, reply);
    } else {
      n := 1 + (|batch| + 1);
      FirstTurn(s, n, reply);
      BatchIsConsistent(s.table, s.log, s.marked);
      MarkTurns(FlushStep(s, reply), batch, reply);
      SettledBatchIsFlushed(s.table, Run(s, Turns(n, reply)).table.rows, reply);
    }
  }

  lemma TurnsToPost(s: State, batch: seq<Row>, reply: Reply)
    requires LogOk(s.log) && TableOk(s.table, s.log, s.marked) && s.stage.Idle?
    requires batch == Select(s.table, BATCH_FLUSH_SIZE) && batch != []
    ensures Run(s, Turns(1 + |batch|, reply)) == s.(stage := Building([], batch))
  {
    var s1 := s.(stage := Building(batch, []));
    assert FlushStep(s, reply) == s1;
    BatchIsConsistent(s.table, s.log, s.marked);
    FirstTurn(s, 1 + |batch|, reply);
    BuildTurns(s1, batch, [], reply);
    assert [] + batch == batch;
  }

  /**
   * From any reachable state with the flush thread at rest, its own turns alone bring the table to
   * what `FlushPendingBatch` promises for the same reply, and the thread back to rest.
   */
  lemma UninterruptedFlush(s: State, reply: Reply) returns (n: nat)
    requires Inv(s) && s.stage.Idle?
    ensures FlushDone(Run(s, Turns(n, reply)), Flushed(s.table.rows, reply))
    ensures MarksByReply(s.table.rows, Run(s, Turns(n, reply)).table.rows, reply)
  {
    hide Inv, LogOk, TableOk, WellFormed, FlushStep, Run, Select, Flushed, MarksByReply;
    FlushedMarksByReply(s.table.rows, reply);
    InvParts(s);
    var batch := Select(s.table, BATCH_FLUSH_SIZE);
    if batch == [] {
      n := 0;
      NoTurns(s, reply);
      SettledBatchIsFlushed(s.table, s.table.rows, reply);
    } else {
      TurnsToPost(s, batch, reply);
      var m := TurnsFromPost(s.(stage := Building([], batch)), batch, reply);
      MoreTurns(s, 1 + |batch|, m, reply);
      n := 1 + |batch| + m;
    }
  }

  lemma {:induction false} TurnsKeepInv(s: State, n: nat, reply: Reply)
    requires Inv(s)
    ensures Inv(Run(s, Turns(n, reply)))
    decreases n
  {
    if n > 0 {
      FirstTurn(s, n, reply);
      FlushKeepsInv(s, reply);
      TurnsKeepInv(FlushStep(s, reply), n - 1, reply);
    }
  }

  /** The waiting messages are `waiting` and the flush thread is at rest. */
  ghost predicate RestsWith(s: State, waiting: seq<Message>) {
    s.stage == Idle && Waiting(s.table.rows) == waiting
  }

  lemma OneFlush(s: State, rejected: seq<RejectedEntry>) returns (k: nat)
    requires Inv(s) && s.stage.Idle?
    ensures Inv(Run(s, Turns(k, Answer(rejected))))
    ensures RestsWith(Run(s, Turns(k, Answer(rejected))), FlushOnce(Waiting(s.table.rows), RejectedPairs(rejected)))
  {
    k := UninterruptedFlush(s, Answer(rejected));
    TurnsKeepInv(s, k, Answer(rejected));
    FlushOnceIsFlush(s.table.rows, rejected);
  }

  /**
   * The drain laws speak of the step system: from a reachable state at rest, the flush thread alone,
   * answered the same way each time, reaches the queue that n flushes leave.
   */
  lemma {:induction false} RepeatedFlushes(s: State, rejected: seq<RejectedEntry>, n: nat) returns (m: nat)
    requires Inv(s) && s.stage.Idle?
    ensures RestsWith(Run(s, Turns(m, Answer(rejected))),
                      AfterFlushes(Waiting(s.table.rows), RejectedPairs(rejected), n))
    decreases n
  {
    hide Inv, FlushStep, FlushOnce, Waiting, Turns, RejectedPairs;
    m := 0;
    NoTurns(s, Answer(rejected));
    if n > 0 {
      var k := OneFlush(s, rejected);
      var s' := Run(s, Turns(k, Answer(rejected)));
      var m' := RepeatedFlushes(s', rejected, n - 1);
      MoreTurns(s, k, m', Answer(rejected));
      m := k + m';
    }
  }
}
