/**
 * The queue as a step system. Every database call is one step; the flush thread, the poll thread,
 * the cleanup thread and crashes interleave freely between the calls of one flush.
 */
module FlushProtocol {
  import opened Common
  import opened OfflineBuffer
  import opened TelemetryFlush

  /** Where the flush thread is. Everything it holds is a snapshot taken when it selected. */
  datatype Stage =
    | Idle
    | Building(todo: seq<Row>, valid: seq<Row>)
    | Failing(todo: seq<Row>, error: string)
    | Settling(todo: seq<Row>, rejected: set<Pair>)

  /** One POST: the rows whose items it carried, and what came of it. */
  datatype Post = Post(rows: seq<Row>, reply: Reply)

  /**
   * `log`, `marked`, `deleted` and `posts` are histories: every message ever stored (id n at n - 1),
   * every id ever seen sent, the sum of what cleanup returned, and every POST made.
   */
  datatype State = State(
    table: Table,
    stage: Stage,
    log: seq<Message>,
    marked: set<nat>,
    deleted: nat,
    posts: seq<Post>)

  datatype Step =
    | Enqueue(messageId: MessageId, deviceId: int, tagId: int, value: Float, quality: string, timestamp: string)
    | FlushThread(reply: Reply)
    | Crash
    | Cleanup(keepLatest: int)
    | StrayFailure(messageId: MessageId, error: string)

  function Init(): State {
    State(EmptyTable(), Idle, [], {}, 0, [])
  }

  /** A generated UUID has never been used before; nothing else restricts a run. */
  ghost predicate Enabled(s: State, step: Step) {
    step.Enqueue? ==> forall m :: m in s.log ==> m.messageId != step.messageId
  }

  function SentIds(rows: seq<Row>): set<nat> {
    set row | row in rows && row.status == Sent :: row.id
  }

  function WithTable(s: State, t: Table): State {
    s.(table := t, marked := s.marked + SentIds(t.rows))
  }

  /** The next call of the flush thread; `reply` matters only when that call is the POST. */
  function FlushStep(s: State, reply: Reply): State {
    match s.stage
    case Idle =>
      var batch := Select(s.table, BATCH_FLUSH_SIZE);
      if batch == [] then s else s.(stage := Building(batch, []))
    case Building(todo, valid) =>
      if todo != [] then
        if ReadItem(todo[0].message).None? then
          WithTable(s, MarkFailed(s.table, todo[0].message.messageId, PayloadError(todo[0].message.payload)))
            .(stage := Building(todo[1..], valid))
        else s.(stage := Building(todo[1..], valid + [todo[0]]))
      else if valid == [] then s.(stage := Idle)
      else
        s.(posts := s.posts + [Post(valid, reply)],
           stage := match reply
             case NetworkError(error, _) => Failing(valid, error)
             case Aborted(_) => Idle
             case Answer(rejected) => Settling(valid, RejectedPairs(rejected)))
    case Failing(todo, error) =>
      if todo == [] then s.(stage := Idle)
      else WithTable(s, MarkFailed(s.table, todo[0].message.messageId, error)).(stage := Failing(todo[1..], error))
    case Settling(todo, rejected) =>
      if todo == [] then s.(stage := Idle)
      else
        WithTable(s,
                  if InRejected(todo[0].message, rejected)
                  then MarkFailed(s.table, todo[0].message.messageId, REJECTED_TEXT)
                  else MarkSent(s.table, todo[0].message.messageId))
          .(stage := Settling(todo[1..], rejected))
  }

  /** The step that makes the POST. */
  predicate IsPost(s: State, step: Step) {
    step.FlushThread? && s.stage.Building? && s.stage.todo == [] && s.stage.valid != []
  }

  predicate InRejected(m: Message, rejected: set<Pair>) {
    ReadItem(m).Some? && PairOf(ReadItem(m).value) in rejected
  }

  /** Cleanup leaves `t`; what `delete_sent_messages` returns is added to the total. */
  function CleanupStep(s: State, t: Table): State {
    WithTable(s, t).(deleted := s.deleted + Max(0, |s.table.rows| - |t.rows|))
  }

  function Apply(s: State, step: Step): State {
    match step
    case Enqueue(messageId, deviceId, tagId, value, quality, timestamp) =>
      var m := NewMessage(messageId, deviceId, tagId, value, quality, timestamp);
      (match Insert(s.table, m)
       case Ok(t) => WithTable(s, t).(log := s.log + [m])
       case Err(_) => s)
    case FlushThread(reply) => FlushStep(s, reply)
    case Crash => s.(stage := Idle)
    case Cleanup(keepLatest) => CleanupStep(s, DeleteSent(s.table, keepLatest))
    case StrayFailure(messageId, error) => WithTable(s, MarkFailed(s.table, messageId, error))
  }

  ghost predicate Possible(s: State, steps: seq<Step>)
    decreases |steps|
  {
    steps == [] || (Enabled(s, steps[0]) && Possible(Apply(s, steps[0]), steps[1..]))
  }

  function Run(s: State, steps: seq<Step>): State
    decreases |steps|
  {
    if steps == [] then s else Run(Apply(s, steps[0]), steps[1..])
  }

  // ----- The invariant -----

  function Key(m: Message): Pair {
    (m.deviceId, m.tagId)
  }

  predicate InLog(log: seq<Message>, id: nat) {
    1 <= id <= |log|
  }

  /** `ids` is closed downward within every (device, tag) pair of the log. */
  ghost predicate PerKeyPrefix(log: seq<Message>, ids: set<nat>) {
    forall i: nat, j: nat | InLog(log, i) && InLog(log, j) && i < j ::
      Key(log[i - 1]) == Key(log[j - 1]) && j in ids ==> i in ids
  }

  ghost predicate LogOk(log: seq<Message>) {
    && (forall i :: 0 <= i < |log| ==>
          log[i].payload == Fields(log[i].deviceId, log[i].tagId, log[i].value, log[i].quality))
    && (forall i, j | 0 <= i < |log| && 0 <= j < |log| :: log[i].messageId == log[j].messageId ==> i == j)
  }

  /** Every row is the logged message of its id, and shows sent exactly when its id was marked. */
  ghost predicate TableOk(t: Table, log: seq<Message>, marked: set<nat>) {
    && WellFormed(t) && t.lastId == |log|
    && (forall row :: row in t.rows ==> row.message == log[row.id - 1] && (row.status == Sent <==> row.id in marked))
    && (forall id :: id in marked ==> InLog(log, id))
    && (forall id: nat :: InLog(log, id) && id !in marked ==> HasId(t.rows, id))
  }

  ghost predicate HasId(rows: seq<Row>, id: nat) {
    exists row :: row in rows && row.id == id
  }

  ghost predicate CountsOk(s: State) {
    && CountPending(s.table.rows) + |s.marked| == |s.log|
    && |s.table.rows| + s.deleted == |s.log|
  }

  /** The ids of the rows whose pair is not rejected. */
  function NotRejectedIds(rows: seq<Row>, rejected: set<Pair>): set<nat> {
    set row | row in rows && Key(row.message) !in rejected :: row.id
  }

  function AcceptedIds(post: Post): set<nat> {
    if post.reply.Answer? then NotRejectedIds(post.rows, RejectedPairs(post.reply.rejected)) else {}
  }

  /** Every id the cloud has taken: in a POST that was answered without rejecting its pair. */
  function Accepted(posts: seq<Post>): set<nat> {
    if posts == [] then {} else Accepted(posts[..|posts| - 1]) + AcceptedIds(posts[|posts| - 1])
  }

  ghost predicate PostsOk(log: seq<Message>, posts: seq<Post>) {
    forall post, row | post in posts && row in post.rows :: InLog(log, row.id) && row.message == log[row.id - 1]
  }

  /** A batch in hand: unmarked logged messages, oldest first. */
  ghost predicate BatchOk(log: seq<Message>, marked: set<nat>, batch: seq<Row>) {
    && (forall row :: row in batch ==> InLog(log, row.id) && row.message == log[row.id - 1] && row.id !in marked)
    && (forall k, k' :: 0 <= k < k' < |batch| ==> batch[k].id < batch[k'].id)
  }

  /** Whatever is older than a batch message of the same pair is marked or earlier in the batch. */
  ghost predicate NothingSkipped(log: seq<Message>, marked: set<nat>, batch: seq<Row>, exempt: set<Pair>) {
    forall k, j: nat | 0 <= k < |batch| && InLog(log, j) && j < batch[k].id && Key(batch[k].message) !in exempt ::
      Key(log[j - 1]) == Key(batch[k].message) && j !in marked ==> HasId(batch[..k], j)
  }

  ghost predicate StageOk(s: State) {
    match s.stage
    case Idle => true
    case Building(todo, valid) =>
      BatchOk(s.log, s.marked, valid + todo) && NothingSkipped(s.log, s.marked, valid + todo, {})
    case Failing(todo, error) => BatchOk(s.log, s.marked, todo)
    case Settling(todo, rejected) =>
      && BatchOk(s.log, s.marked, todo)
      && NothingSkipped(s.log, s.marked, todo, rejected)
      && (forall row :: row in todo && Key(row.message) !in rejected ==> row.id in Accepted(s.posts))
  }

  ghost predicate Inv(s: State) {
    && LogOk(s.log)
    && TableOk(s.table, s.log, s.marked)
    && CountsOk(s)
    && PerKeyPrefix(s.log, s.marked)
    && PostsOk(s.log, s.posts)
    && PerKeyPrefix(s.log, Accepted(s.posts))
    && s.marked <= Accepted(s.posts)
    && StageOk(s)
  }

  lemma InvParts(s: State)
    requires Inv(s)
    ensures LogOk(s.log) && TableOk(s.table, s.log, s.marked) && WellFormed(s.table) && CountsOk(s)
    ensures PerKeyPrefix(s.log, s.marked) && s.marked <= Accepted(s.posts)
  {
  }

  // ----- Every step keeps the invariant -----

  lemma {:induction false} AcceptedInLog(log: seq<Message>, posts: seq<Post>)
    requires PostsOk(log, posts)
    ensures forall id :: id in Accepted(posts) ==> InLog(log, id)
  {
    if posts != [] {
      AcceptedInLog(log, posts[..|posts| - 1]);
    }
  }

  /** An update that keeps every row's id, message and status keeps the pending count. */
  lemma {:induction false} SameStatusSameCount(rows: seq<Row>, rows': seq<Row>)
    requires |rows| == |rows'|
    requires forall i :: 0 <= i < |rows| ==> rows[i].status == rows'[i].status
    ensures CountPending(rows) == CountPending(rows')
  {
    if rows != [] {
      SameStatusSameCount(rows[..|rows| - 1], rows'[..|rows| - 1]);
    }
  }

  lemma {:induction false} OneMoreSent(rows: seq<Row>, rows': seq<Row>, k: nat)
    requires |rows| == |rows'| && k < |rows|
    requires rows[k].status == Pending && rows'[k].status == Sent
    requires forall i :: 0 <= i < |rows| && i != k ==> rows[i].status == rows'[i].status
    ensures CountPending(rows') == CountPending(rows) - 1
  {
    var n := |rows| - 1;
    if k == n {
      SameStatusSameCount(rows[..n], rows'[..n]);
    } else {
      OneMoreSent(rows[..n], rows'[..n], k);
    }
  }

  /** `rows'` is `rows` updated in place, with a row showing sent exactly when its id is in `marked`. */
  ghost predicate UpdatedInPlace(rows: seq<Row>, rows': seq<Row>, marked: set<nat>) {
    |rows'| == |rows| && forall i :: 0 <= i < |rows| ==>
      && rows'[i].id == rows[i].id
      && rows'[i].message == rows[i].message
      && (rows'[i].status == Sent <==> rows[i].id in marked)
  }

  lemma UpdateKeepsIds(rows: seq<Row>, rows': seq<Row>, marked: set<nat>, id: nat)
    requires UpdatedInPlace(rows, rows', marked) && HasId(rows, id)
    ensures HasId(rows', id)
  {
    var row :| row in rows && row.id == id;
    var i :| 0 <= i < |rows| && rows[i] == row;
    assert rows'[i] in rows';
  }

  lemma UpdateKeepsRows(rows: seq<Row>, rows': seq<Row>, log: seq<Message>, marked: set<nat>, row': Row)
    requires UpdatedInPlace(rows, rows', marked) && row' in rows'
    requires forall row :: row in rows ==> InLog(log, row.id) && row.message == log[row.id - 1]
    ensures InLog(log, row'.id) && row'.message == log[row'.id - 1] && (row'.status == Sent <==> row'.id in marked)
  {
    var i :| 0 <= i < |rows'| && rows'[i] == row';
    assert rows[i] in rows;
  }

  /** An update in place that changes a status only along with the marked ids keeps the table right. */
  lemma UpdateKeepsTable(t: Table, t': Table, log: seq<Message>, marked: set<nat>, marked': set<nat>)
    requires TableOk(t, log, marked) && marked <= marked'
    requires forall id :: id in marked' ==> InLog(log, id)
    requires t'.lastId == t.lastId && UpdatedInPlace(t.rows, t'.rows, marked')
    ensures TableOk(t', log, marked')
    ensures SentIds(t'.rows) <= marked'
  {
    assert WellFormed(t');
    forall row' | row' in t'.rows
      ensures row'.message == log[row'.id - 1] && (row'.status == Sent <==> row'.id in marked')
    {
      UpdateKeepsRows(t.rows, t'.rows, log, marked', row');
    }
    forall id: nat | InLog(log, id) && id !in marked' ensures HasId(t'.rows, id) {
      UpdateKeepsIds(t.rows, t'.rows, marked', id);
    }
  }

  lemma StatusShowsMarked(t: Table, log: seq<Message>, marked: set<nat>, i: nat)
    requires TableOk(t, log, marked) && i < |t.rows|
    ensures t.rows[i].status == Sent <==> t.rows[i].id in marked
    ensures InLog(log, t.rows[i].id) && t.rows[i].message == log[t.rows[i].id - 1]
  {
    assert t.rows[i] in t.rows;
  }

  /** Recording a failure changes neither the statuses nor any history. */
  lemma FailureKeepsTable(s: State, messageId: MessageId, error: string)
    requires TableOk(s.table, s.log, s.marked) && CountsOk(s)
    ensures var t := MarkFailed(s.table, messageId, error);
            && TableOk(t, s.log, s.marked)
            && WithTable(s, t) == s.(table := t)
            && CountsOk(s.(table := t))
  {
    var t := MarkFailed(s.table, messageId, error);
    SameStatusSameCount(s.table.rows, t.rows);
    forall i | 0 <= i < |t.rows| ensures s.table.rows[i].status == Sent <==> s.table.rows[i].id in s.marked {
      StatusShowsMarked(s.table, s.log, s.marked, i);
    }
    UpdateKeepsTable(s.table, t, s.log, s.marked, s.marked);
    assert s.marked + SentIds(t.rows) == s.marked;
  }

  lemma InsertKeepsWellFormed(t: Table, m: Message, t': Table)
    requires WellFormed(t) && Insert(t, m) == Ok(t')
    ensures WellFormed(t') && t'.lastId == t.lastId + 1
    ensures t'.rows == t.rows + [Row(t.lastId + 1, m, Pending, 0, None)]
    ensures CountPending(t'.rows) == CountPending(t.rows) + 1
  {
    assert t'.rows[..|t.rows|] == t.rows;
  }

  lemma StatusesInLog(t: Table, log: seq<Message>, marked: set<nat>)
    requires TableOk(t, log, marked)
    ensures forall row :: row in t.rows ==>
              InLog(log, row.id) && row.message == log[row.id - 1] && (row.status == Sent <==> row.id in marked)
  {
    forall row | row in t.rows
      ensures InLog(log, row.id) && row.message == log[row.id - 1] && (row.status == Sent <==> row.id in marked)
    {
      var i :| 0 <= i < |t.rows| && t.rows[i] == row;
      StatusShowsMarked(t, log, marked, i);
    }
  }

  lemma EnqueueKeepsTable(t: Table, log: seq<Message>, marked: set<nat>, m: Message, t': Table)
    requires LogOk(log) && TableOk(t, log, marked)
    requires Insert(t, m) == Ok(t')
    ensures TableOk(t', log + [m], marked)
    ensures SentIds(t'.rows) <= marked
    ensures CountPending(t'.rows) == CountPending(t.rows) + 1
  {
    InsertKeepsWellFormed(t, m, t');
    StatusesInLog(t, log, marked);
    hide Insert, PendingRows, LogOk, WellFormed;
    var log' := log + [m];
    var row' := t'.rows[|t.rows|];
    assert t'.rows == t.rows + [row'];
    forall row | row in t'.rows
      ensures row.message == log'[row.id - 1] && (row.status == Sent <==> row.id in marked)
    {
      assert row in t.rows || row == row';
    }
    forall id: nat | InLog(log', id) && id !in marked ensures HasId(t'.rows, id) {
      EnqueueKeepsIds(t.rows, row', id);
      assert InLog(log, id) ==> HasId(t.rows, id);
    }
  }

  lemma EnqueueKeepsIds(rows: seq<Row>, row': Row, id: nat)
    ensures HasId(rows, id) || row'.id == id ==> HasId(rows + [row'], id)
  {
    if HasId(rows, id) {
      var row :| row in rows && row.id == id;
      assert row in rows + [row'];
    } else {
      assert row' in rows + [row'];
    }
  }

  /** Longer logs do not disturb what is known of the ids already in hand. */
  lemma StageSurvivesEnqueue(s: State, s': State)
    requires StageOk(s) && s'.stage == s.stage && s'.marked == s.marked && s'.posts == s.posts
    requires s.log <= s'.log
    ensures StageOk(s')
  {
    var log, log' := s.log, s'.log;
    var batch := match s.stage
      case Idle => []
      case Building(todo, valid) => valid + todo
      case Failing(todo, error) => todo
      case Settling(todo, rejected) => todo;
    assert BatchOk(log', s.marked, batch);
  }

  lemma HistoriesSurviveEnqueue(log: seq<Message>, marked: set<nat>, posts: seq<Post>, m: Message)
    requires forall id :: id in marked ==> InLog(log, id)
    requires PerKeyPrefix(log, marked) && PostsOk(log, posts) && PerKeyPrefix(log, Accepted(posts))
    ensures PerKeyPrefix(log + [m], marked) && PostsOk(log + [m], posts) && PerKeyPrefix(log + [m], Accepted(posts))
  {
    AcceptedInLog(log, posts);
    assert forall i: nat :: InLog(log, i) ==> (log + [m])[i - 1] == log[i - 1];
  }

  lemma LogSurvivesEnqueue(s: State, step: Step, m: Message)
    requires LogOk(s.log) && step.Enqueue? && Enabled(s, step)
    requires m == NewMessage(step.messageId, step.deviceId, step.tagId, step.value, step.quality, step.timestamp)
    ensures LogOk(s.log + [m])
  {
    assert forall i :: 0 <= i < |s.log| ==> s.log[i] in s.log;
  }

  lemma EnqueueKeepsInv(s: State, step: Step)
    requires Inv(s) && step.Enqueue? && Enabled(s, step)
    ensures Inv(Apply(s, step))
  {
    InvParts(s);
    hide Inv, LogOk, TableOk, WellFormed, Fits64, HasMessage, PendingRows, Enabled, CountsOk, PerKeyPrefix;
    hide FlushStep, CleanupStep, DeleteSent, MarkFailed, SentIds, Accepted, Insert;
    var m := NewMessage(step.messageId, step.deviceId, step.tagId, step.value, step.quality, step.timestamp);
    match Insert(s.table, m)
    case Err(_) =>
    case Ok(t) =>
      InsertKeepsWellFormed(s.table, m, t);
      EnqueueKeepsTable(s.table, s.log, s.marked, m, t);
      assert s.marked + SentIds(t.rows) == s.marked;
      LogSurvivesEnqueue(s, step, m);
      EnqueuedStateOk(s, m, t);
  }

  lemma EnqueuedStateOk(s: State, m: Message, t: Table)
    requires Inv(s) && LogOk(s.log + [m]) && TableOk(t, s.log + [m], s.marked)
    requires CountPending(t.rows) == CountPending(s.table.rows) + 1 && |t.rows| == |s.table.rows| + 1
    ensures Inv(s.(table := t, log := s.log + [m]))
  {
    HistoriesSurviveEnqueue(s.log, s.marked, s.posts, m);
    StageSurvivesEnqueue(s, s.(table := t, log := s.log + [m]));
  }

  /** A freshly selected batch holds unmarked messages and skips nothing of any pair. */
  lemma SelectSkipsNothing(t: Table, log: seq<Message>, marked: set<nat>)
    requires TableOk(t, log, marked)
    ensures BatchOk(log, marked, Select(t, BATCH_FLUSH_SIZE))
    ensures NothingSkipped(log, marked, Select(t, BATCH_FLUSH_SIZE), {})
  {
    var batch := Select(t, BATCH_FLUSH_SIZE);
    SelectIsOldestFirst(t, BATCH_FLUSH_SIZE);
    forall k, j: nat | 0 <= k < |batch| && InLog(log, j) && j < batch[k].id
      && Key(log[j - 1]) == Key(batch[k].message) && j !in marked
      ensures HasId(batch[..k], j)
    {
      var row :| row in t.rows && row.id == j;
      assert row in batch[..k];
    }
  }

  lemma SelectKeepsInv(s: State, reply: Reply)
    requires Inv(s) && s.stage.Idle?
    ensures Inv(FlushStep(s, reply))
  {
    var batch := Select(s.table, BATCH_FLUSH_SIZE);
    SelectSkipsNothing(s.table, s.log, s.marked);
    assert [] + batch == batch;
  }

  lemma BuildOneKeepsInv(s: State, reply: Reply)
    requires Inv(s) && s.stage.Building? && s.stage.todo != []
    ensures Inv(FlushStep(s, reply))
  {
    hide TableOk, PerKeyPrefix, PostsOk, NothingSkipped, PendingRows, Accepted;
    var todo, valid := s.stage.todo, s.stage.valid;
    assert todo[0] in valid + todo;
    assert ReadItem(todo[0].message).Some?;
    assert valid + [todo[0]] + todo[1..] == valid + todo;
  }

  lemma BuildKeepsInv(s: State, reply: Reply)
    requires Inv(s) && s.stage.Building?
    ensures Inv(FlushStep(s, reply))
  {
    if s.stage.todo != [] {
      BuildOneKeepsInv(s, reply);
    } else if s.stage.valid != [] {
      PostKeepsInv(s, reply);
    }
  }

  /** An older message of an accepted message's pair is marked already or accepted with it. */
  lemma OlderIsAcceptedToo(
    log: seq<Message>, marked: set<nat>, batch: seq<Row>, rejected: set<Pair>, i: nat, j: nat)
    requires BatchOk(log, marked, batch) && NothingSkipped(log, marked, batch, {})
    requires InLog(log, i) && InLog(log, j) && i < j && Key(log[i - 1]) == Key(log[j - 1])
    requires j in NotRejectedIds(batch, rejected) && i !in marked
    ensures i in NotRejectedIds(batch, rejected)
  {
    var row :| row in batch && row.id == j && Key(row.message) !in rejected;
    var k :| 0 <= k < |batch| && batch[k] == row;
    assert row.message == log[j - 1];
    assert HasId(batch[..k], i);
    PrefixHasMember(log, marked, batch, k, i);
  }

  /** Taking what is not rejected of a batch that skips nothing keeps a prefix of every pair a prefix. */
  lemma BatchKeepsPrefix(log: seq<Message>, marked: set<nat>, ids: set<nat>, batch: seq<Row>, rejected: set<Pair>)
    requires BatchOk(log, marked, batch) && NothingSkipped(log, marked, batch, {})
    requires PerKeyPrefix(log, ids) && marked <= ids
    ensures PerKeyPrefix(log, ids + NotRejectedIds(batch, rejected))
  {
    hide BatchOk, NothingSkipped, NotRejectedIds;
    forall i: nat, j: nat | InLog(log, i) && InLog(log, j) && i < j
      && Key(log[i - 1]) == Key(log[j - 1]) && j in NotRejectedIds(batch, rejected) && i !in marked
      ensures i in NotRejectedIds(batch, rejected)
    {
      OlderIsAcceptedToo(log, marked, batch, rejected, i, j);
    }
  }

  lemma PrefixHasMember(log: seq<Message>, marked: set<nat>, batch: seq<Row>, k: nat, i: nat)
    requires BatchOk(log, marked, batch) && k <= |batch| && HasId(batch[..k], i)
    ensures exists row :: row in batch && row.id == i && row.message == log[i - 1]
  {
    var row :| row in batch[..k] && row.id == i;
    assert row in batch;
  }

  /** Whatever a POST is answered with, the ids the cloud has taken stay a prefix of every pair. */
  lemma PostKeepsPrefix(log: seq<Message>, marked: set<nat>, posts: seq<Post>, post: Post)
    requires BatchOk(log, marked, post.rows) && NothingSkipped(log, marked, post.rows, {})
    requires PerKeyPrefix(log, Accepted(posts)) && marked <= Accepted(posts)
    ensures Accepted(posts + [post]) == Accepted(posts) + AcceptedIds(post)
    ensures PerKeyPrefix(log, Accepted(posts + [post]))
  {
    hide BatchOk, NothingSkipped, NotRejectedIds, PerKeyPrefix;
    assert (posts + [post])[..|posts|] == posts;
    if post.reply.Answer? {
      BatchKeepsPrefix(log, marked, Accepted(posts), post.rows, RejectedPairs(post.reply.rejected));
    } else {
      assert Accepted(posts) + {} == Accepted(posts);
    }
  }

  lemma PostKeepsInv(s: State, reply: Reply)
    requires Inv(s) && s.stage.Building? && s.stage.todo == [] && s.stage.valid != []
    ensures Inv(FlushStep(s, reply))
  {
    var post := Post(s.stage.valid, reply);
    assert s.stage.valid + [] == s.stage.valid;
    PostKeepsPrefix(s.log, s.marked, s.posts, post);
    PostedStateOk(s, post, FlushStep(s, reply));
  }

  lemma PostedStateOk(s: State, post: Post, s': State)
    requires LogOk(s.log) && TableOk(s.table, s.log, s.marked) && CountsOk(s) && PerKeyPrefix(s.log, s.marked)
    requires PostsOk(s.log, s.posts) && s.marked <= Accepted(s.posts)
    requires Accepted(s.posts + [post]) == Accepted(s.posts) + AcceptedIds(post)
    requires PerKeyPrefix(s.log, Accepted(s.posts + [post]))
    requires BatchOk(s.log, s.marked, post.rows) && NothingSkipped(s.log, s.marked, post.rows, {})
    requires s' == s.(posts := s.posts + [post], stage := s'.stage)
    requires s'.stage == match post.reply
                         case NetworkError(error, _) => Failing(post.rows, error)
                         case Aborted(_) => Idle
                         case Answer(rejected) => Settling(post.rows, RejectedPairs(rejected))
    ensures Inv(s')
  {
    forall p, row | p in s'.posts && row in p.rows ensures InLog(s.log, row.id) && row.message == s.log[row.id - 1] {
      assert p in s.posts || p == post;
    }
    if post.reply.Answer? {
      assert NothingSkipped(s.log, s.marked, post.rows, RejectedPairs(post.reply.rejected));
    }
  }

  lemma FailKeepsInv(s: State, reply: Reply)
    requires Inv(s) && s.stage.Failing?
    ensures Inv(FlushStep(s, reply))
  {
    if s.stage.todo != [] {
      FailureKeepsTable(s, s.stage.todo[0].message.messageId, s.stage.error);
    }
  }

  lemma RowOfMessage(t: Table, log: seq<Message>, marked: set<nat>, id: nat) returns (k: nat)
    requires LogOk(log) && TableOk(t, log, marked) && InLog(log, id) && id !in marked
    ensures k < |t.rows| && t.rows[k].id == id && t.rows[k].status == Pending
    ensures forall i :: 0 <= i < |t.rows| ==> (t.rows[i].message.messageId == log[id - 1].messageId <==> i == k)
  {
    var row :| row in t.rows && row.id == id;
    k :| 0 <= k < |t.rows| && t.rows[k] == row;
    assert row.message == log[id - 1];
  }

  /** Marking one unmarked message sent adds exactly its id to the marked ids. */
  lemma MarkAddsOneId(t: Table, log: seq<Message>, marked: set<nat>, id: nat)
    requires LogOk(log) && TableOk(t, log, marked) && InLog(log, id) && id !in marked
    ensures var t' := MarkSent(t, log[id - 1].messageId);
            && TableOk(t', log, marked + {id})
            && marked + SentIds(t'.rows) == marked + {id}
            && CountPending(t'.rows) == CountPending(t.rows) - 1
  {
    var t' := MarkSent(t, log[id - 1].messageId);
    var k := RowOfMessage(t, log, marked, id);
    OneMoreSent(t.rows, t'.rows, k);
    forall i | 0 <= i < |t.rows| ensures t'.rows[i].status == Sent <==> t.rows[i].id in marked + {id} {
      StatusShowsMarked(t, log, marked, i);
    }
    UpdateKeepsTable(t, t', log, marked, marked + {id});
    assert t'.rows[k] in t'.rows;
    assert id in SentIds(t'.rows);
  }

  lemma TailIsBatch(log: seq<Message>, marked: set<nat>, marked': set<nat>, todo: seq<Row>)
    requires todo != [] && BatchOk(log, marked, todo) && marked' <= marked + {todo[0].id}
    ensures BatchOk(log, marked', todo[1..])
  {
    var tail := todo[1..];
    forall row | row in tail ensures row in todo && row.id != todo[0].id {
      var k :| 0 <= k < |tail| && tail[k] == row;
      assert todo[k + 1] == row;
    }
  }

  lemma TailHasId(todo: seq<Row>, k: nat, j: nat)
    requires k < |todo| - 1 && HasId(todo[..k + 1], j) && j != todo[0].id
    ensures HasId(todo[1..][..k], j)
  {
    var row :| row in todo[..k + 1] && row.id == j;
    assert todo[..k + 1] == [todo[0]] + todo[1..][..k];
  }

  /** Taking the oldest message off the batch in hand, marked or rejected, skips nothing. */
  lemma TailSkipsNothing(log: seq<Message>, marked: set<nat>, marked': set<nat>, todo: seq<Row>, rejected: set<Pair>)
    requires todo != [] && BatchOk(log, marked, todo) && NothingSkipped(log, marked, todo, rejected)
    requires marked' == if Key(todo[0].message) in rejected then marked else marked + {todo[0].id}
    ensures NothingSkipped(log, marked', todo[1..], rejected)
  {
    var tail := todo[1..];
    assert todo[0] in todo && todo[0].message == log[todo[0].id - 1];
    hide BatchOk, HasId;
    forall k, j: nat | 0 <= k < |tail| && InLog(log, j) && j < tail[k].id && Key(tail[k].message) !in rejected
      && Key(log[j - 1]) == Key(tail[k].message) && j !in marked'
      ensures HasId(tail[..k], j)
    {
      assert tail[k] == todo[k + 1];
      TailHasId(todo, k, j);
    }
  }

  lemma SettleKeepsInv(s: State, reply: Reply)
    requires Inv(s) && s.stage.Settling?
    ensures Inv(FlushStep(s, reply))
  {
    var todo, rejected := s.stage.todo, s.stage.rejected;
    if todo == [] {
      return;
    }
    assert todo[0] in todo;
    assert InRejected(todo[0].message, rejected) == (Key(todo[0].message) in rejected);
    if InRejected(todo[0].message, rejected) {
      SettleRejected(s, reply);
    } else {
      SettleAccepted(s, reply);
    }
  }

  lemma SettleRejected(s: State, reply: Reply)
    requires Inv(s) && s.stage.Settling? && s.stage.todo != [] && InRejected(s.stage.todo[0].message, s.stage.rejected)
    requires Key(s.stage.todo[0].message) in s.stage.rejected
    ensures Inv(FlushStep(s, reply))
  {
    FailureKeepsTable(s, s.stage.todo[0].message.messageId, REJECTED_TEXT);
    TailIsBatch(s.log, s.marked, s.marked, s.stage.todo);
    TailSkipsNothing(s.log, s.marked, s.marked, s.stage.todo, s.stage.rejected);
    SettledStateOk(s, FlushStep(s, reply));
  }

  lemma HeadIsUnmarked(s: State)
    requires Inv(s) && s.stage.Settling? && s.stage.todo != []
    ensures var row := s.stage.todo[0];
            && InLog(s.log, row.id) && row.message == s.log[row.id - 1] && row.id !in s.marked
            && BatchOk(s.log, s.marked, s.stage.todo)
            && NothingSkipped(s.log, s.marked, s.stage.todo, s.stage.rejected)
            && (Key(row.message) !in s.stage.rejected ==> row.id in Accepted(s.posts))
  {
    assert s.stage.todo[0] in s.stage.todo;
  }

  lemma SettleAccepted(s: State, reply: Reply)
    requires Inv(s) && s.stage.Settling? && s.stage.todo != [] && !InRejected(s.stage.todo[0].message, s.stage.rejected)
    requires Key(s.stage.todo[0].message) !in s.stage.rejected
    ensures Inv(FlushStep(s, reply))
  {
    hide Inv, TableOk, LogOk, PerKeyPrefix, BatchOk, NothingSkipped, InLog, Accepted, MarkSent, SentIds;
    var row := s.stage.todo[0];
    InvParts(s);
    HeadIsUnmarked(s);
    MarkAddsOneId(s.table, s.log, s.marked, row.id);
    OldestMayBeMarked(s.log, s.marked, s.stage.todo, s.stage.rejected);
    TailIsBatch(s.log, s.marked, s.marked + {row.id}, s.stage.todo);
    TailSkipsNothing(s.log, s.marked, s.marked + {row.id}, s.stage.todo, s.stage.rejected);
    MarkingCounts(s, row.id);
    SettledStateOk(s, FlushStep(s, reply));
  }

  lemma MarkingCounts(s: State, id: nat)
    requires Inv(s) && InLog(s.log, id) && id !in s.marked
    ensures var t := MarkSent(s.table, s.log[id - 1].messageId);
            CountsOk(s.(table := t, marked := s.marked + {id}))
  {
    MarkAddsOneId(s.table, s.log, s.marked, id);
  }

  lemma SettledStateOk(s: State, s': State)
    requires Inv(s) && s.stage.Settling? && s.stage.todo != []
    requires s' == s.(table := s'.table, marked := s'.marked,
                      stage := Settling(s.stage.todo[1..], s.stage.rejected))
    requires TableOk(s'.table, s.log, s'.marked) && CountsOk(s') && PerKeyPrefix(s.log, s'.marked)
    requires s'.marked <= Accepted(s.posts)
    requires BatchOk(s.log, s'.marked, s.stage.todo[1..])
    requires NothingSkipped(s.log, s'.marked, s.stage.todo[1..], s.stage.rejected)
    ensures Inv(s')
  {
    hide TableOk, PerKeyPrefix, LogOk, PostsOk, NothingSkipped, BatchOk;
    assert forall row :: row in s.stage.todo[1..] ==> row in s.stage.todo;
  }

  lemma OldestMayBeMarked(log: seq<Message>, marked: set<nat>, todo: seq<Row>, rejected: set<Pair>)
    requires todo != [] && BatchOk(log, marked, todo) && NothingSkipped(log, marked, todo, rejected)
    requires Key(todo[0].message) !in rejected && PerKeyPrefix(log, marked)
    ensures PerKeyPrefix(log, marked + {todo[0].id})
  {
    var row := todo[0];
    assert row in todo;
    forall i: nat | InLog(log, i) && i < row.id && Key(log[i - 1]) == Key(row.message) ensures i in marked {
      assert !HasId(todo[..0], i);
    }
  }

  lemma CleanupKeepsTable(t: Table, log: seq<Message>, marked: set<nat>, keepLatest: int)
    requires TableOk(t, log, marked)
    ensures TableOk(DeleteSent(t, keepLatest), log, marked)
    ensures SentIds(DeleteSent(t, keepLatest).rows) <= marked
  {
    var t' := DeleteSent(t, keepLatest);
    CleanupWellFormed(t, keepLatest);
    CleanupRemovesOldSent(t, keepLatest);
    forall id: nat | InLog(log, id) && id !in marked ensures HasId(t'.rows, id) {
      var row :| row in t.rows && row.id == id;
      var i :| 0 <= i < |t.rows| && t.rows[i] == row;
      StatusShowsMarked(t, log, marked, i);
      assert row in t'.rows;
    }
  }

  lemma CleanupKeepsInv(s: State, t: Table)
    requires Inv(s) && TableOk(t, s.log, s.marked) && SentIds(t.rows) <= s.marked
    requires PendingRows(t.rows) == PendingRows(s.table.rows) && |t.rows| <= |s.table.rows|
    ensures Inv(CleanupStep(s, t))
  {
    hide TableOk, LogOk, PerKeyPrefix, PostsOk, Accepted, BatchOk, NothingSkipped;
    assert s.marked + SentIds(t.rows) == s.marked;
  }

  lemma DeleteSentKeepsInv(s: State, keepLatest: int)
    requires Inv(s)
    ensures Inv(CleanupStep(s, DeleteSent(s.table, keepLatest)))
  {
    hide Inv, TableOk, WellFormed, DeleteSent, CountSent, PendingRows;
    InvParts(s);
    CleanupKeepsTable(s.table, s.log, s.marked, keepLatest);
    CleanupCounts(s.table, keepLatest);
    CleanupKeepsInv(s, DeleteSent(s.table, keepLatest));
  }

  lemma StrayFailureKeepsInv(s: State, messageId: MessageId, error: string)
    requires Inv(s)
    ensures Inv(WithTable(s, MarkFailed(s.table, messageId, error)))
  {
    FailureKeepsTable(s, messageId, error);
  }

  lemma FlushKeepsInv(s: State, reply: Reply)
    requires Inv(s)
    ensures Inv(FlushStep(s, reply))
  {
    match s.stage
    case Idle => SelectKeepsInv(s, reply);
    case Building(_, _) => BuildKeepsInv(s, reply);
    case Failing(_, _) => FailKeepsInv(s, reply);
    case Settling(_, _) => SettleKeepsInv(s, reply);
  }

  lemma CrashKeepsInv(s: State)
    requires Inv(s)
    ensures Inv(s.(stage := Idle))
  {
    hide TableOk, LogOk, PerKeyPrefix, PostsOk, Accepted;
  }

  lemma StepKeepsInv(s: State, step: Step)
    requires Inv(s) && Enabled(s, step)
    ensures Inv(Apply(s, step))
  {
    hide Inv, Enabled, FlushStep, DeleteSent, MarkFailed, Insert;
    match step
    case Enqueue(_, _, _, _, _, _) => EnqueueKeepsInv(s, step);
    case FlushThread(reply) => FlushKeepsInv(s, reply);
    case Crash => CrashKeepsInv(s);
    case Cleanup(keepLatest) => DeleteSentKeepsInv(s, keepLatest);
    case StrayFailure(messageId, error) => StrayFailureKeepsInv(s, messageId, error);
  }

  lemma {:induction false} RunKeepsInv(s: State, steps: seq<Step>)
    requires Inv(s) && Possible(s, steps)
    ensures Inv(Run(s, steps))
    decreases |steps|
  {
    if steps != [] {
      StepKeepsInv(s, steps[0]);
      RunKeepsInv(Apply(s, steps[0]), steps[1..]);
    }
  }
}
