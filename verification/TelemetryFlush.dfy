/** One batch upload: select, POST once, then settle message by message. */
module TelemetryFlush {
  import opened Common
  import opened OfflineBuffer

  const BATCH_FLUSH_SIZE := 500

  type Pair = (int, int)

  datatype Item = Item(deviceId: int, tagId: int, value: Float, quality: string)

  /** An entry of the reply's "rejected" list; entries without both ids are ignored. */
  datatype RejectedEntry = RejectedEntry(deviceId: Option<int>, tagId: Option<int>)

  /**
   * `Aborted` stands for any exception that is not a request exception: it leaves the flush. `unseen`
   * is what the cloud rejected of a batch it took although its answer never arrived, and none when it
   * took nothing; the gateway cannot read it.
   */
  datatype Reply =
    | NetworkError(error: string, unseen: Option<seq<RejectedEntry>>)
    | Aborted(unseen: Option<seq<RejectedEntry>>)
    | Answer(rejected: seq<RejectedEntry>)

  function RejectedPairs(rejected: seq<RejectedEntry>): set<Pair> {
    set entry | entry in rejected && entry.deviceId.Some? && entry.tagId.Some?
      :: (entry.deviceId.value, entry.tagId.value)
  }

  function ReadItem(m: Message): Option<Item> {
    match m.payload
    case Fields(deviceId, tagId, value, quality) =>
      Some(Item(deviceId, tagId, value, if quality == "" then "good" else quality))
    case _ => None
  }

  function PayloadError(p: Payload): string {
    if p.Unreadable? then "Invalid or missing payload JSON" else "Invalid buffered telemetry fields"
  }

  const REJECTED_TEXT := "Rejected by cloud: device or tag not found"

  function Readable(batch: seq<Row>): seq<Row> {
    if batch == [] then []
    else
      var last := batch[|batch| - 1];
      Readable(batch[..|batch| - 1]) + (if ReadItem(last.message).Some? then [last] else [])
  }

  function Items(batch: seq<Row>): seq<Item> {
    if batch == [] then []
    else
      var item := ReadItem(batch[|batch| - 1].message);
      Items(batch[..|batch| - 1]) + (if item.Some? then [item.value] else [])
  }

  function PairOf(item: Item): Pair {
    (item.deviceId, item.tagId)
  }

  // ----- What a flush does to each row -----

  /** A row is in the batch when it is pending and fewer than 500 pending rows are older. */
  ghost predicate InBatch(rows: seq<Row>, i: nat)
    requires i < |rows|
  {
    rows[i].status == Pending && CountPending(rows[..i]) < BATCH_FLUSH_SIZE
  }

  /** The row after the flush is done with it. */
  ghost function Settled(row: Row, reply: Reply): Row {
    if ReadItem(row.message).None? then FailedRow(row, PayloadError(row.message.payload))
    else
      match reply
      case NetworkError(error, _) => FailedRow(row, error)
      case Aborted(_) => row
      case Answer(rejected) =>
        if PairOf(ReadItem(row.message).value) in RejectedPairs(rejected) then FailedRow(row, REJECTED_TEXT)
        else SentRow(row)
  }

  ghost function Flushed(rows: seq<Row>, reply: Reply): seq<Row> {
    seq(|rows|, i requires 0 <= i < |rows| => if InBatch(rows, i) then Settled(rows[i], reply) else rows[i])
  }

  function MessageIds(rows: seq<Row>): set<MessageId> {
    set row | row in rows :: row.message.messageId
  }

  // ----- What a flush does, read off the rows and the reply -----

  /** A pair is rejected exactly when some entry of the list carries exactly its two ids. */
  lemma RejectedPairsMembers(rejected: seq<RejectedEntry>, deviceId: int, tagId: int)
    ensures (deviceId, tagId) in RejectedPairs(rejected) <==> RejectedEntry(Some(deviceId), Some(tagId)) in rejected
  {
    if (deviceId, tagId) in RejectedPairs(rejected) {
      var entry :| entry in rejected && entry.deviceId == Some(deviceId) && entry.tagId == Some(tagId);
      assert entry == RejectedEntry(Some(deviceId), Some(tagId));
    }
  }

  /** Row i is pending, and fewer than 500 pending rows are ahead of it. */
  ghost predicate AmongOldest(rows: seq<Row>, i: nat)
    requires i < |rows|
  {
    rows[i].status == Pending && |Positions(rows, Pending, i)| < 500
  }

  /** The row with one more failed attempt recorded. */
  ghost predicate FailedWith(before: Row, after: Row, error: string) {
    after == before.(attempts := before.attempts + 1, lastError := Some(error))
  }

  /**
   * What becomes of a row among the oldest 500: a payload that cannot be read fails with its text;
   * otherwise the answer fails the row exactly when some entry carries both its ids, and settles it
   * as sent when none does.
   */
  ghost predicate MarkedAs(before: Row, after: Row, reply: Reply) {
    match before.message.payload
    case Unreadable => FailedWith(before, after, "Invalid or missing payload JSON")
    case BadFields => FailedWith(before, after, "Invalid buffered telemetry fields")
    case Fields(deviceId, tagId, _, _) =>
      match reply
      case NetworkError(error, _) => FailedWith(before, after, if |error| <= 1000 then error else error[..1000])
      case Aborted(_) => after == before
      case Answer(rejected) =>
        if RejectedEntry(Some(deviceId), Some(tagId)) in rejected
        then FailedWith(before, after, "Rejected by cloud: device or tag not found")
        else after == before.(status := Sent, lastError := None)
  }

  /** Exactly the pending rows among the oldest 500 are marked, by the reply. */
  ghost predicate MarksByReply(before: seq<Row>, after: seq<Row>, reply: Reply) {
    && |after| == |before|
    && forall i :: 0 <= i < |before| ==>
         if AmongOldest(before, i) then MarkedAs(before[i], after[i], reply) else after[i] == before[i]
  }

  lemma InBatchIsAmongOldest(rows: seq<Row>, i: nat)
    requires i < |rows|
    ensures InBatch(rows, i) <==> AmongOldest(rows, i)
  {
    CountsArePositions(rows, i);
  }

  lemma SettledIsMarkedAs(row: Row, reply: Reply)
    ensures MarkedAs(row, Settled(row, reply), reply)
  {
    if row.message.payload.Fields? && reply.Answer? {
      RejectedPairsMembers(reply.rejected, row.message.payload.deviceId, row.message.payload.tagId);
    }
  }

  /** The flush's effect in these terms. */
  lemma FlushedMarksByReply(rows: seq<Row>, reply: Reply)
    ensures MarksByReply(rows, Flushed(rows, reply), reply)
  {
    hide InBatch, AmongOldest, Settled, MarkedAs;
    forall i | 0 <= i < |rows|
      ensures if AmongOldest(rows, i) then MarkedAs(rows[i], Flushed(rows, reply)[i], reply)
              else Flushed(rows, reply)[i] == rows[i]
    {
      InBatchIsAmongOldest(rows, i);
      SettledIsMarkedAs(rows[i], reply);
    }
  }

  /** Row i is among the oldest 500 and its payload can be read: its item is posted. */
  ghost predicate IsPosted(rows: seq<Row>, i: nat)
    requires i < |rows|
  {
    AmongOldest(rows, i) && rows[i].message.payload.Fields?
  }

  ghost function PostedBelow(rows: seq<Row>, n: nat): set<nat>
    requires n <= |rows|
  {
    set j: nat | 0 <= j < n && IsPosted(rows, j)
  }

  /** The item of a message: the fields of its payload, with an empty quality read as good. */
  ghost predicate IsItemOf(item: Item, m: Message) {
    && m.payload.Fields?
    && item.deviceId == m.payload.deviceId && item.tagId == m.payload.tagId && item.value == m.payload.value
    && item.quality == (if m.payload.quality == "" then "good" else m.payload.quality)
  }

  /** One item for each posted row, in the order of the rows. */
  ghost predicate CarriesBatch(rows: seq<Row>, n: nat, items: seq<Item>)
    requires n <= |rows|
  {
    && |items| == |PostedBelow(rows, n)|
    && forall i :: 0 <= i < n && IsPosted(rows, i) ==> HasItemAt(items, |PostedBelow(rows, i)|, rows[i].message)
  }

  ghost predicate HasItemAt(items: seq<Item>, k: nat, m: Message) {
    k < |items| && IsItemOf(items[k], m)
  }

  function Oldest(pending: seq<Row>): seq<Row> {
    pending[..Min(BATCH_FLUSH_SIZE, |pending|)]
  }

  lemma OldestOfOneMore(rows: seq<Row>, n: nat)
    requires n < |rows|
    ensures Oldest(PendingRows(rows[..n + 1]))
         == Oldest(PendingRows(rows[..n])) + (if AmongOldest(rows, n) then [rows[n]] else [])
  {
    PendingRowsAppend(rows, n);
    CountsArePositions(rows, n);
  }

  lemma ItemsOfOneMore(batch: seq<Row>, row: Row)
    ensures Items(batch + [row]) == Items(batch) + (if ReadItem(row.message).Some? then [ReadItem(row.message).value]
                                                    else [])
    ensures ReadItem(row.message).Some? <==> row.message.payload.Fields?
    ensures ReadItem(row.message).Some? ==> IsItemOf(ReadItem(row.message).value, row.message)
  {
    assert (batch + [row])[..|batch|] == batch;
  }

  lemma CarriesOneMore(rows: seq<Row>, n: nat, items: seq<Item>, item: Option<Item>)
    requires n < |rows| && CarriesBatch(rows, n, items)
    requires if IsPosted(rows, n) then item.Some? && IsItemOf(item.value, rows[n].message) else item.None?
    ensures CarriesBatch(rows, n + 1, items + (if item.Some? then [item.value] else []))
  {
    hide IsPosted, IsItemOf, PostedBelow, HasItemAt;
    PostedGrow(rows, n);
    var items' := items + (if item.Some? then [item.value] else []);
    forall i | 0 <= i <= n && IsPosted(rows, i) ensures HasItemAt(items', |PostedBelow(rows, i)|, rows[i].message) {
      if i < n {
        ItemStays(items, items', |PostedBelow(rows, i)|, rows[i].message);
      } else {
        LastItem(items, item.value, rows[n].message);
      }
    }
  }

  lemma PostedGrow(rows: seq<Row>, n: nat)
    requires n < |rows|
    ensures |PostedBelow(rows, n + 1)| == |PostedBelow(rows, n)| + (if IsPosted(rows, n) then 1 else 0)
  {
    hide IsPosted;
    if IsPosted(rows, n) {
      assert PostedBelow(rows, n + 1) == PostedBelow(rows, n) + {n};
    } else {
      assert PostedBelow(rows, n + 1) == PostedBelow(rows, n);
    }
  }

  lemma ItemStays(items: seq<Item>, items': seq<Item>, k: nat, m: Message)
    requires HasItemAt(items, k, m) && items <= items'
    ensures HasItemAt(items', k, m)
  {
  }

  lemma LastItem(items: seq<Item>, item: Item, m: Message)
    requires IsItemOf(item, m)
    ensures HasItemAt(items + [item], |items|, m)
  {
  }

  /** The items of the selected rows are one for each posted row, in order. */
  lemma {:induction false} ItemsCarryBatch(rows: seq<Row>, n: nat)
    requires n <= |rows|
    ensures CarriesBatch(rows, n, Items(Oldest(PendingRows(rows[..n]))))
  {
    hide PendingRows, Items, ReadItem, AmongOldest, Oldest, IsItemOf, CarriesBatch;
    if n == 0 {
      NothingSelected(rows);
    } else {
      var i := n - 1;
      ItemsCarryBatch(rows, i);
      OldestOfOneMore(rows, i);
      var batch := Oldest(PendingRows(rows[..i]));
      ItemsOfOneMore(batch, rows[i]);
      CarriesOneMore(rows, i, Items(batch), if AmongOldest(rows, i) then ReadItem(rows[i].message) else None);
      assert batch + [] == batch && Items(batch) + [] == Items(batch);
    }
  }

  lemma NothingSelected(rows: seq<Row>)
    ensures CarriesBatch(rows, 0, Items(Oldest(PendingRows(rows[..0]))))
  {
    assert PostedBelow(rows, 0) == {};
  }

  lemma {:induction false} ReadableMembers(batch: seq<Row>)
    ensures forall row :: row in Readable(batch) <==> row in batch && ReadItem(row.message).Some?
    ensures |Items(batch)| == |Readable(batch)|
    ensures forall k :: 0 <= k < |Items(batch)| ==> ReadItem(Readable(batch)[k].message) == Some(Items(batch)[k])
  {
    if batch != [] {
      ReadableMembers(batch[..|batch| - 1]);
      assert batch == batch[..|batch| - 1] + [batch[|batch| - 1]];
    }
  }

  /** The selected rows are exactly the rows in the batch. */
  lemma SelectedIsInBatch(t: Table)
    requires WellFormed(t)
    ensures var batch := Select(t, BATCH_FLUSH_SIZE);
            && (forall row :: row in batch ==> row in t.rows)
            && (forall i :: 0 <= i < |t.rows| ==>
                  (t.rows[i].message.messageId in MessageIds(batch) <==> InBatch(t.rows, i)))
            && (forall i :: 0 <= i < |t.rows| ==> (t.rows[i] in batch <==> InBatch(t.rows, i)))
  {
    var batch := Select(t, BATCH_FLUSH_SIZE);
    SelectIsOldestFirst(t, BATCH_FLUSH_SIZE);
    forall i | 0 <= i < |t.rows|
      ensures t.rows[i].message.messageId in MessageIds(batch) <==> InBatch(t.rows, i)
      ensures t.rows[i] in batch <==> InBatch(t.rows, i)
    {
      if InBatch(t.rows, i) {
        PendingRowPosition(t.rows, i);
        assert batch[CountPending(t.rows[..i])] == t.rows[i];
      }
      if t.rows[i].message.messageId in MessageIds(batch) {
        var row :| row in batch && row.message.messageId == t.rows[i].message.messageId;
        var k :| 0 <= k < |batch| && batch[k] == row;
        var j := PendingRowSource(t.rows, k);
        assert j == i;
      }
    }
  }

  /** A row after the payload checks of the messages in `seen`. */
  ghost function Checked(row: Row, seen: set<MessageId>): Row {
    if row.message.messageId in seen && ReadItem(row.message).None?
    then FailedRow(row, PayloadError(row.message.payload))
    else row
  }

  lemma BatchIdsDistinct(t: Table, n: nat)
    requires WellFormed(t) && n < |Select(t, BATCH_FLUSH_SIZE)|
    ensures var batch := Select(t, BATCH_FLUSH_SIZE); batch[n].message.messageId !in MessageIds(batch[..n])
  {
    var batch := Select(t, BATCH_FLUSH_SIZE);
    SelectIsOldestFirst(t, BATCH_FLUSH_SIZE);
    assert batch[n] in t.rows;
    forall row | row in batch[..n] ensures row.message.messageId != batch[n].message.messageId {
      var k :| 0 <= k < n && batch[k] == row;
      assert batch[k] in t.rows;
    }
  }

  lemma {:induction false} ReadableIncreasing(batch: seq<Row>)
    requires forall k, k' :: 0 <= k < k' < |batch| ==> batch[k].id < batch[k'].id
    ensures forall k, k' :: 0 <= k < k' < |Readable(batch)| ==> Readable(batch)[k].id < Readable(batch)[k'].id
  {
    if batch != [] {
      var init := batch[..|batch| - 1];
      ReadableIncreasing(init);
      ReadableMembers(init);
      forall k | 0 <= k < |Readable(init)| ensures Readable(init)[k].id < batch[|batch| - 1].id {
        assert Readable(init)[k] in init;
      }
    }
  }

  lemma ReadableIdsDistinct(t: Table, n: nat)
    requires WellFormed(t) && n < |Readable(Select(t, BATCH_FLUSH_SIZE))|
    ensures var valid := Readable(Select(t, BATCH_FLUSH_SIZE));
            && valid[n] in t.rows
            && valid[n].message.messageId !in MessageIds(valid[..n])
  {
    var batch := Select(t, BATCH_FLUSH_SIZE);
    var valid := Readable(batch);
    SelectIsOldestFirst(t, BATCH_FLUSH_SIZE);
    ReadableIncreasing(batch);
    ReadableMembers(batch);
    assert valid[n] in t.rows;
    forall row | row in valid[..n] ensures row.message.messageId != valid[n].message.messageId {
      var k :| 0 <= k < n && valid[k] == row;
      assert valid[k] in t.rows;
    }
  }

  lemma MessageIdsExtend(batch: seq<Row>, n: nat)
    requires n < |batch|
    ensures batch[..n + 1][..n] == batch[..n]
    ensures MessageIds(batch[..n + 1]) == MessageIds(batch[..n]) + {batch[n].message.messageId}
  {
    assert batch[..n + 1] == batch[..n] + [batch[n]];
  }

  /** `rows` is `before` with the payload checks of the messages in `seen` done. */
  ghost predicate AllChecked(before: seq<Row>, rows: seq<Row>, seen: set<MessageId>) {
    |rows| == |before| && forall i :: 0 <= i < |rows| ==> rows[i] == Checked(before[i], seen)
  }

  /** One turn of the loop before the POST: the message is marked failed if its payload is unreadable. */
  method CheckOne(buffer: Buffer, message: Message, ghost before: seq<Row>, ghost seen: set<MessageId>)
    requires buffer.Valid() && message.messageId !in seen
    requires AllChecked(before, buffer.rows, seen)
    requires forall i :: 0 <= i < |before| && before[i].message.messageId == message.messageId
               ==> before[i].message == message
    modifies buffer
    ensures buffer.Valid() && buffer.lastId == old(buffer.lastId)
    ensures AllChecked(before, buffer.rows, seen + {message.messageId})
  {
    if ReadItem(message).None? {
      buffer.MarkMessageFailed(message.messageId, PayloadError(message.payload));
    }
  }

  /** The loop before the POST: unreadable messages are marked failed, the others become items. */
  method CheckAll(buffer: Buffer, pendingMessages: seq<Row>) returns (items: seq<Item>, validMessages: seq<Row>)
    requires buffer.Valid() && pendingMessages == Select(buffer.Contents(), BATCH_FLUSH_SIZE)
    modifies buffer
    ensures buffer.Valid() && buffer.lastId == old(buffer.lastId)
    ensures items == Items(pendingMessages) && validMessages == Readable(pendingMessages)
    ensures AllChecked(old(buffer.rows), buffer.rows, MessageIds(pendingMessages))
  {
    items, validMessages := [], [];
    ghost var before := buffer.Contents();
    var n := 0;
    while n < |pendingMessages|
      invariant 0 <= n <= |pendingMessages|
      invariant buffer.Valid() && buffer.lastId == before.lastId
      invariant items == Items(pendingMessages[..n]) && validMessages == Readable(pendingMessages[..n])
      invariant AllChecked(before.rows, buffer.rows, MessageIds(pendingMessages[..n]))
    {
      var message := pendingMessages[n];
      BatchIdsDistinct(before, n);
      SnapshotMatches(before, message);
      MessageIdsExtend(pendingMessages, n);
      CheckOne(buffer, message.message, before.rows, MessageIds(pendingMessages[..n]));
      match ReadItem(message.message) {
        case None =>
        case Some(item) =>
          items := items + [item];
          validMessages := validMessages + [message];
      }
      n := n + 1;
    }
    assert pendingMessages[..n] == pendingMessages;
  }

  lemma SnapshotMatches(t: Table, row: Row)
    requires WellFormed(t) && row in Select(t, BATCH_FLUSH_SIZE)
    ensures forall i :: 0 <= i < |t.rows| && t.rows[i].message.messageId == row.message.messageId ==> t.rows[i] == row
  {
    SelectedIsInBatch(t);
    assert row in t.rows;
  }

  /** A row once the messages in `seen` have been settled. */
  ghost function SettledSoFar(before: Row, checked: Row, reply: Reply, seen: set<MessageId>): Row {
    if before.message.messageId in seen then Settled(before, reply) else checked
  }

  /** `rows` is `checked` with the messages in `seen` settled. */
  ghost predicate SettledUpTo(
    before: seq<Row>, checked: seq<Row>, rows: seq<Row>, reply: Reply, seen: set<MessageId>)
  {
    && |rows| == |before| == |checked|
    && forall i :: 0 <= i < |rows| ==>
         checked[i].message == before[i].message && rows[i] == SettledSoFar(before[i], checked[i], reply, seen)
  }

  /** One turn of the loop after the POST. */
  method SettleOne(
    buffer: Buffer, message: Message, reply: Reply,
    ghost before: seq<Row>, ghost checked: seq<Row>, ghost seen: set<MessageId>)
    requires buffer.Valid() && !reply.Aborted? && ReadItem(message).Some? && message.messageId !in seen
    requires SettledUpTo(before, checked, buffer.rows, reply, seen)
    requires forall i :: 0 <= i < |before| && before[i].message.messageId == message.messageId
               ==> before[i].message == message && checked[i] == before[i]
    modifies buffer
    ensures buffer.Valid() && buffer.lastId == old(buffer.lastId)
    ensures SettledUpTo(before, checked, buffer.rows, reply, seen + {message.messageId})
  {
    match reply {
      case NetworkError(error, _) =>
        buffer.MarkMessageFailed(message.messageId, error);
      case Answer(rejected) =>
        if PairOf(ReadItem(message).value) in RejectedPairs(rejected) {
          buffer.MarkMessageFailed(message.messageId, REJECTED_TEXT);
        } else {
          buffer.MarkMessageSent(message.messageId);
        }
    }
  }

  /** The loop after the POST: every readable message of the batch is marked, oldest first. */
  method SettleAll(buffer: Buffer, validMessages: seq<Row>, reply: Reply, ghost before: Table)
    requires buffer.Valid() && WellFormed(before) && !reply.Aborted?
    requires validMessages == Readable(Select(before, BATCH_FLUSH_SIZE))
    requires AllChecked(before.rows, buffer.rows, MessageIds(Select(before, BATCH_FLUSH_SIZE)))
    modifies buffer
    ensures buffer.Valid() && buffer.lastId == old(buffer.lastId)
    ensures SettledUpTo(before.rows, old(buffer.rows), buffer.rows, reply, MessageIds(validMessages))
  {
    ghost var checked := buffer.rows;
    var n := 0;
    while n < |validMessages|
      invariant 0 <= n <= |validMessages|
      invariant buffer.Valid() && buffer.lastId == old(buffer.lastId)
      invariant SettledUpTo(before.rows, checked, buffer.rows, reply, MessageIds(validMessages[..n]))
    {
      ReadableIdsDistinct(before, n);
      MessageIdsExtend(validMessages, n);
      ReadableSnapshot(before, checked, validMessages[n]);
      SettleOne(buffer, validMessages[n].message, reply, before.rows, checked, MessageIds(validMessages[..n]));
      n := n + 1;
    }
    assert validMessages[..n] == validMessages;
  }

  lemma ReadableSnapshot(t: Table, checked: seq<Row>, row: Row)
    requires WellFormed(t) && row in Readable(Select(t, BATCH_FLUSH_SIZE))
    requires AllChecked(t.rows, checked, MessageIds(Select(t, BATCH_FLUSH_SIZE)))
    ensures ReadItem(row.message).Some?
    ensures forall i :: 0 <= i < |t.rows| && t.rows[i].message.messageId == row.message.messageId
              ==> t.rows[i].message == row.message && checked[i] == t.rows[i]
  {
    ReadableMembers(Select(t, BATCH_FLUSH_SIZE));
    SnapshotMatches(t, row);
  }

  lemma BothLoopsFlush(t: Table, checked: seq<Row>, rows: seq<Row>, reply: Reply)
    requires WellFormed(t) && AllChecked(t.rows, checked, MessageIds(Select(t, BATCH_FLUSH_SIZE)))
    requires SettledUpTo(t.rows, checked, rows, reply,
                         if reply.Aborted? then {} else MessageIds(Readable(Select(t, BATCH_FLUSH_SIZE))))
    ensures rows == Flushed(t.rows, reply)
  {
    var batch := Select(t, BATCH_FLUSH_SIZE);
    SelectedIsInBatch(t);
    ReadableMembers(batch);
    forall i | 0 <= i < |rows| ensures rows[i] == Flushed(t.rows, reply)[i] {
      if t.rows[i].message.messageId in MessageIds(Readable(batch)) {
        var row :| row in Readable(batch) && row.message.messageId == t.rows[i].message.messageId;
        assert row in t.rows;
        assert InBatch(t.rows, i);
      }
      if InBatch(t.rows, i) && ReadItem(t.rows[i].message).Some? {
        assert t.rows[i] in Readable(batch);
      }
    }
  }

  /** Without a POST that comes back, a flush ends with the payload checks. */
  lemma ChecksAlone(t: Table, checked: seq<Row>, reply: Reply)
    requires WellFormed(t) && AllChecked(t.rows, checked, MessageIds(Select(t, BATCH_FLUSH_SIZE)))
    requires reply.Aborted? || Items(Select(t, BATCH_FLUSH_SIZE)) == []
    ensures checked == Flushed(t.rows, reply)
  {
    hide Select, Items, Settled, WellFormed;
    ReadableMembers(Select(t, BATCH_FLUSH_SIZE));
    BothLoopsFlush(t, checked, checked, reply);
  }

  lemma NothingWaits(t: Table, reply: Reply)
    requires WellFormed(t) && Select(t, BATCH_FLUSH_SIZE) == []
    ensures t.rows == Flushed(t.rows, reply) && Items([]) == []
  {
    hide Select, WellFormed;
    ChecksAlone(t, t.rows, reply);
  }

  lemma FlushIsAsAnswered(t: Table, cloud: seq<Item> -> Reply)
    ensures var items := Items(Select(t, BATCH_FLUSH_SIZE));
            && CarriesBatch(t.rows, |t.rows|, items)
            && MarksByReply(t.rows, Flushed(t.rows, cloud(items)), cloud(items))
  {
    ItemsCarryBatch(t.rows, |t.rows|);
    assert t.rows[..|t.rows|] == t.rows;
    FlushedMarksByReply(t.rows, cloud(Items(Select(t, BATCH_FLUSH_SIZE))));
  }

  /**
   * A whole flush with nothing interleaved. It posts at most once, exactly the readable rows of
   * the batch in order, and leaves every row outside the batch as it was.
   */
  method FlushPendingBatch(buffer: Buffer, cloud: seq<Item> -> Reply) returns (posts: seq<seq<Item>>)
    requires buffer.Valid()
    modifies buffer
    ensures buffer.Valid() && buffer.lastId == old(buffer.lastId)
    ensures var items := Items(Select(old(buffer.Contents()), BATCH_FLUSH_SIZE));
            && posts == (if items == [] then [] else [items])
            && buffer.rows == Flushed(old(buffer.rows), cloud(items))
            && CarriesBatch(old(buffer.rows), |old(buffer.rows)|, items)
            && MarksByReply(old(buffer.rows), buffer.rows, cloud(items))
  {
    ghost var before := buffer.Contents();
    FlushIsAsAnswered(before, cloud);
    hide CarriesBatch, MarksByReply, Flushed, Select, Items, AllChecked, SettledUpTo, InBatch, WellFormed, Positions;
    var pendingMessages := buffer.GetPendingMessages(BATCH_FLUSH_SIZE);
    if pendingMessages == [] {
      NothingWaits(before, cloud([]));
      return [];
    }
    var items, validMessages := CheckAll(buffer, pendingMessages);
    ghost var checked := buffer.rows;
    if items == [] {
      ChecksAlone(before, checked, cloud(items));
      return [];
    }
    posts := [items];
    var reply := cloud(items);
    if reply.Aborted? {
      ChecksAlone(before, checked, reply);
    } else {
      SettleAll(buffer, validMessages, reply, before);
      BothLoopsFlush(before, checked, buffer.rows, reply);
    }
  }
}
