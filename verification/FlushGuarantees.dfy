/** What holds of the queue in every reachable state of every run. */
module FlushGuarantees {
  import opened Common
  import opened OfflineBuffer
  import opened TelemetryFlush
  import opened FlushProtocol

  /** The ids of one (device, tag) pair, in the order they were enqueued. */
  function IdsOf(log: seq<Message>, key: Pair): seq<nat> {
    if log == [] then []
    else IdsOf(log[..|log| - 1], key) + (if Key(log[|log| - 1]) == key then [|log|] else [])
  }

  lemma {:induction false} IdsOfAscending(log: seq<Message>, key: Pair)
    ensures forall k :: 0 <= k < |IdsOf(log, key)| ==>
              InLog(log, IdsOf(log, key)[k]) && Key(log[IdsOf(log, key)[k] - 1]) == key
    ensures forall k, k' :: 0 <= k < k' < |IdsOf(log, key)| ==> IdsOf(log, key)[k] < IdsOf(log, key)[k']
    ensures forall id: nat :: InLog(log, id) && Key(log[id - 1]) == key ==> id in IdsOf(log, key)
  {
    if log != [] {
      var init := log[..|log| - 1];
      IdsOfAscending(init, key);
      forall id: nat | InLog(log, id) && Key(log[id - 1]) == key ensures id in IdsOf(log, key) {
        if id < |log| {
          assert InLog(init, id);
        }
      }
    }
  }

  /** The ids of `keyIds` that are in `ids` are exactly its first `n`. */
  ghost predicate FirstOnes(keyIds: seq<nat>, ids: set<nat>, n: nat) {
    n <= |keyIds| && forall k :: 0 <= k < |keyIds| ==> (keyIds[k] in ids <==> k < n)
  }

  ghost predicate IsPrefixOf(keyIds: seq<nat>, ids: set<nat>) {
    exists n :: FirstOnes(keyIds, ids, n)
  }

  lemma {:induction false} PrefixLength(keyIds: seq<nat>, ids: set<nat>) returns (n: nat)
    requires forall k, k' :: 0 <= k < k' < |keyIds| && keyIds[k'] in ids ==> keyIds[k] in ids
    ensures FirstOnes(keyIds, ids, n)
  {
    n := 0;
    while n < |keyIds| && keyIds[n] in ids
      invariant n <= |keyIds|
      invariant forall k :: 0 <= k < n ==> keyIds[k] in ids
    {
      n := n + 1;
    }
  }

  lemma ClosedIsPrefix(log: seq<Message>, ids: set<nat>, key: Pair)
    requires PerKeyPrefix(log, ids)
    ensures IsPrefixOf(IdsOf(log, key), ids)
  {
    IdsOfAscending(log, key);
    var n := PrefixLength(IdsOf(log, key), ids);
  }

  lemma InitInv()
    ensures Inv(Init())
  {
  }

  lemma ReachableInv(steps: seq<Step>)
    requires Possible(Init(), steps)
    ensures Inv(Run(Init(), steps))
  {
    InitInv();
    RunKeepsInv(Init(), steps);
  }

  /**
   * Per-pair order. In every reachable state - mid-flush, after a crash between two marks, under
   * any interleaving - the messages of a pair that were marked sent are the first n enqueued for it.
   */
  lemma SentIsPrefixOfEnqueued(steps: seq<Step>, key: Pair)
    requires Possible(Init(), steps)
    ensures var s := Run(Init(), steps);
            IsPrefixOf(IdsOf(s.log, key), s.marked)
  {
    ReachableInv(steps);
    var s := Run(Init(), steps);
    ClosedIsPrefix(s.log, s.marked, key);
  }

  lemma {:induction false} AcceptedInPost(posts: seq<Post>, id: nat) returns (post: Post)
    requires id in Accepted(posts)
    ensures post in posts && id in AcceptedIds(post)
  {
    post := posts[|posts| - 1];
    if id !in AcceptedIds(post) {
      post := AcceptedInPost(posts[..|posts| - 1], id);
    }
  }

  /**
   * A POST that carried this message's own device, tag, value and quality, and whose answer has no
   * entry with both its ids.
   */
  ghost predicate Delivers(post: Post, m: Message) {
    && post.reply.Answer?
    && RejectedEntry(Some(m.deviceId), Some(m.tagId)) !in post.reply.rejected
    && (exists row :: row in post.rows && row.message == m)
    && Item(m.deviceId, m.tagId, m.value, if m.quality == "" then "good" else m.quality) in Items(post.rows)
  }

  lemma {:induction false} ItemIsPosted(rows: seq<Row>, row: Row)
    requires row in rows && ReadItem(row.message).Some?
    ensures ReadItem(row.message).value in Items(rows)
  {
    if row != rows[|rows| - 1] {
      assert row in rows[..|rows| - 1];
      ItemIsPosted(rows[..|rows| - 1], row);
    }
  }

  lemma AcceptedIsDelivered(log: seq<Message>, posts: seq<Post>, id: nat)
    requires LogOk(log) && PostsOk(log, posts) && id in Accepted(posts)
    ensures InLog(log, id) && exists post :: post in posts && Delivers(post, log[id - 1])
  {
    var post := AcceptedInPost(posts, id);
    var row :| row in post.rows && row.id == id && Key(row.message) !in RejectedPairs(post.reply.rejected);
    assert row.message == log[id - 1];
    ItemIsPosted(post.rows, row);
    RejectedPairsMembers(post.reply.rejected, row.message.deviceId, row.message.tagId);
    assert Delivers(post, log[id - 1]);
  }

  /**
   * At least once. A message is marked sent only after a POST carrying its item came back with no
   * entry for its device and tag.
   */
  lemma MarkedOnlyAfterDelivery(steps: seq<Step>, id: nat)
    requires Possible(Init(), steps) && id in Run(Init(), steps).marked
    ensures var s := Run(Init(), steps);
            InLog(s.log, id) && exists post :: post in s.posts && Delivers(post, s.log[id - 1])
  {
    ReachableInv(steps);
    var s := Run(Init(), steps);
    AcceptedIsDelivered(s.log, s.posts, id);
  }

  /**
   * No loss. Every message ever stored is a pending row, or a sent row, or was deleted after having
   * been marked sent; the three cases exclude each other, and the row shows the message as stored.
   */
  lemma NothingIsLost(steps: seq<Step>, id: nat)
    requires Possible(Init(), steps) && InLog(Run(Init(), steps).log, id)
    ensures var s := Run(Init(), steps);
            && (id !in s.marked <==> exists row :: row in s.table.rows && row.id == id && row.status == Pending)
            && (forall row :: row in s.table.rows && row.id == id ==>
                  row.message == s.log[id - 1] && (row.status == Sent <==> id in s.marked))
            && (!HasId(s.table.rows, id) ==> id in s.marked)
  {
    ReachableInv(steps);
    InvParts(Run(Init(), steps));
    TableLosesNothing(Run(Init(), steps), id);
  }

  lemma TableLosesNothing(s: State, id: nat)
    requires TableOk(s.table, s.log, s.marked) && InLog(s.log, id)
    ensures id !in s.marked <==> exists row :: row in s.table.rows && row.id == id && row.status == Pending
    ensures forall row :: row in s.table.rows && row.id == id ==>
              row.message == s.log[id - 1] && (row.status == Sent <==> id in s.marked)
    ensures !HasId(s.table.rows, id) ==> id in s.marked
  {
    hide WellFormed;
    if id !in s.marked {
      assert HasId(s.table.rows, id);
    }
  }

  /** Conservation: rows = enqueued - deleted, and pending = enqueued - ever marked sent. */
  lemma Conservation(steps: seq<Step>)
    requires Possible(Init(), steps)
    ensures var s := Run(Init(), steps);
            && |s.table.rows| == |s.log| - s.deleted
            && CountPending(s.table.rows) == |s.log| - |s.marked|
            && s.deleted <= |s.marked|
            && s.table.lastId == |s.log|
  {
    ReachableInv(steps);
    var s := Run(Init(), steps);
    assert CountSent(s.table.rows) + CountPending(s.table.rows) == |s.table.rows|;
  }

  ghost predicate NoNewIds(rows: seq<Row>, rows': seq<Row>) {
    forall row' :: row' in rows' ==> HasId(rows, row'.id)
  }

  lemma SameIdsNoNewIds(rows: seq<Row>, rows': seq<Row>)
    requires |rows'| == |rows| && forall i :: 0 <= i < |rows| ==> rows'[i].id == rows[i].id
    ensures NoNewIds(rows, rows')
  {
    forall row' | row' in rows' ensures HasId(rows, row'.id) {
      var i :| 0 <= i < |rows'| && rows'[i] == row';
      assert rows[i] in rows;
    }
  }

  lemma FlushAddsNoIds(s: State, reply: Reply)
    ensures NoNewIds(s.table.rows, FlushStep(s, reply).table.rows)
    ensures FlushStep(s, reply).log == s.log && s.marked <= FlushStep(s, reply).marked
  {
    SameIdsNoNewIds(s.table.rows, FlushStep(s, reply).table.rows);
  }

  lemma EnqueueAddsFreshId(s: State, m: Message)
    requires s.table.lastId == |s.log|
    ensures Insert(s.table, m).Ok? ==>
              forall row' :: row' in Insert(s.table, m).value.rows ==>
                HasId(s.table.rows, row'.id) || row'.id == |s.log| + 1
  {
    if Insert(s.table, m).Ok? {
      forall row' | row' in Insert(s.table, m).value.rows && row'.id != |s.log| + 1
        ensures HasId(s.table.rows, row'.id)
      {
        assert row' in s.table.rows;
      }
    }
  }

  /** Rows only ever appear with a fresh id, one above every id handed out before. */
  lemma StepAddsFreshIdOnly(s: State, step: Step)
    requires Inv(s) && Enabled(s, step)
    ensures s.log <= Apply(s, step).log && s.marked <= Apply(s, step).marked
    ensures forall row' :: row' in Apply(s, step).table.rows ==> HasId(s.table.rows, row'.id) || row'.id == |s.log| + 1
  {
    InvParts(s);
    hide Inv, TableOk, WellFormed, FlushStep, MarkFailed, DeleteSent, CountSent, Insert;
    match step
    case Enqueue(messageId, deviceId, tagId, value, quality, timestamp) =>
      EnqueueAddsFreshId(s, NewMessage(messageId, deviceId, tagId, value, quality, timestamp));
    case FlushThread(reply) => FlushAddsNoIds(s, reply);
    case Crash => SameIdsNoNewIds(s.table.rows, s.table.rows);
    case Cleanup(keepLatest) => CleanupRemovesOldSent(s.table, keepLatest);
    case StrayFailure(messageId, error) =>
      SameIdsNoNewIds(s.table.rows, MarkFailed(s.table, messageId, error).rows);
  }

  lemma RowsMatchLog(s: State, row: Row)
    requires Inv(s) && row in s.table.rows
    ensures InLog(s.log, row.id) && row.message == s.log[row.id - 1] && (row.status == Sent <==> row.id in s.marked)
  {
  }

  lemma {:induction false} HistoriesGrow(s: State, steps: seq<Step>)
    requires Inv(s) && Possible(s, steps)
    ensures var s' := Run(s, steps);
            && s.log <= s'.log && s.marked <= s'.marked
            && (forall row' :: row' in s'.table.rows && row'.id <= |s.log| ==> HasId(s.table.rows, row'.id))
    decreases |steps|
  {
    if steps != [] {
      var s1 := Apply(s, steps[0]);
      StepAddsFreshIdOnly(s, steps[0]);
      StepKeepsInv(s, steps[0]);
      HistoriesGrow(s1, steps[1..]);
      forall row' | row' in Run(s, steps).table.rows && row'.id <= |s.log| ensures HasId(s.table.rows, row'.id) {
        var row1 :| row1 in s1.table.rows && row1.id == row'.id;
      }
    }
  }

  /**
   * `s'` continues `s`: the log only grew, an id that had left the table has not come back, every id
   * is still bound to its message, and no sent row has become pending again.
   */
  ghost predicate Continues(s: State, s': State) {
    && s.log <= s'.log
    && forall row' :: row' in s'.table.rows && row'.id <= |s.log| ==>
         && InLog(s.log, row'.id) && row'.message == s.log[row'.id - 1]
         && exists row :: row in s.table.rows && row.id == row'.id && (row.status == Sent ==> row'.status == Sent)
  }

  /** Ids are never reused and sent is absorbing, over any continuation of any reachable state. */
  lemma IdsAreNeverReused(s: State, steps: seq<Step>)
    requires Inv(s) && Possible(s, steps)
    ensures Continues(s, Run(s, steps))
  {
    HistoriesGrow(s, steps);
    RunKeepsInv(s, steps);
    GrownHistoriesContinue(s, Run(s, steps));
  }

  lemma GrownHistoriesContinue(s: State, s': State)
    requires Inv(s) && Inv(s') && s.log <= s'.log && s.marked <= s'.marked
    requires forall row' :: row' in s'.table.rows && row'.id <= |s.log| ==> HasId(s.table.rows, row'.id)
    ensures Continues(s, s')
  {
    forall row' | row' in s'.table.rows && row'.id <= |s.log|
      ensures InLog(s.log, row'.id) && row'.message == s.log[row'.id - 1]
      ensures exists row :: row in s.table.rows && row.id == row'.id && (row.status == Sent ==> row'.status == Sent)
    {
      SameRowLater(s, s', row');
    }
  }

  lemma SameRowLater(s: State, s': State, row': Row)
    requires Inv(s) && Inv(s') && s.log <= s'.log && s.marked <= s'.marked
    requires row' in s'.table.rows && HasId(s.table.rows, row'.id)
    ensures InLog(s.log, row'.id) && row'.message == s.log[row'.id - 1]
    ensures exists row :: row in s.table.rows && row.id == row'.id && (row.status == Sent ==> row'.status == Sent)
  {
    var row :| row in s.table.rows && row.id == row'.id;
    RowsMatchLog(s, row);
    RowsMatchLog(s', row');
  }

  /** Whatever `enqueue_telemetry` stored, the flush can read: its invalid-payload branches stay dead. */
  lemma StoredPayloadsAreReadable(steps: seq<Step>)
    requires Possible(Init(), steps)
    ensures forall row :: row in Run(Init(), steps).table.rows ==>
              ReadItem(row.message) == Some(Item(row.message.deviceId, row.message.tagId, row.message.value,
                                                 if row.message.quality == "" then "good" else row.message.quality))
  {
    ReachableInv(steps);
  }
}
