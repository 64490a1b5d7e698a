/** The local telemetry queue: one table, one atomic step per locked database call. */
module OfflineBuffer {
  import opened Common

  /** The number behind the UUID text of a message. */
  type MessageId = nat

  /** What `json.loads` and the field conversions make of the stored payload text. */
  datatype Payload =
    | Unreadable
    | BadFields
    | Fields(deviceId: int, tagId: int, value: Float, quality: string)

  datatype Message = Message(
    messageId: MessageId,
    deviceId: int,
    tagId: int,
    value: Float,
    quality: string,
    sourceTimestamp: string,
    payload: Payload)

  datatype Status = Pending | Sent

  datatype Row = Row(id: nat, message: Message, status: Status, attempts: nat, lastError: Option<string>)

  /** The table and the high-water mark that AUTOINCREMENT keeps for it. */
  datatype Table = Table(rows: seq<Row>, lastId: nat)

  datatype InsertError = NotNullViolation | UniqueViolation | IntegerTooLarge

  const ERROR_TEXT_LIMIT := 1000
  const SELECT_LIMIT := 1000

  // ----- The table as a value -----

  /** Rows are in id order, ids never exceed the high-water mark, message ids are unique. */
  ghost predicate WellFormed(t: Table) {
    && (forall i, j :: 0 <= i < j < |t.rows| ==> t.rows[i].id < t.rows[j].id)
    && (forall i :: 0 <= i < |t.rows| ==> 1 <= t.rows[i].id <= t.lastId)
    && UniqueMessages(t.rows)
  }

  ghost predicate UniqueMessages(rows: seq<Row>) {
    forall i, j | 0 <= i < |rows| && 0 <= j < |rows| ::
      rows[i].message.messageId == rows[j].message.messageId ==> i == j
  }

  function EmptyTable(): Table {
    Table([], 0)
  }

  /** The message that one call of `enqueue_telemetry` builds, its payload text included. */
  function NewMessage(
    messageId: MessageId, deviceId: int, tagId: int, value: Float, quality: string, sourceTimestamp: string): Message
  {
    Message(messageId, deviceId, tagId, value, quality, sourceTimestamp,
            Fields(deviceId, tagId, value, quality))
  }

  predicate HasMessage(rows: seq<Row>, messageId: MessageId) {
    exists i :: 0 <= i < |rows| && rows[i].message.messageId == messageId
  }

  function Insert(t: Table, m: Message): Result<Table, InsertError> {
    if !Fits64(m.deviceId) || !Fits64(m.tagId) then Err(IntegerTooLarge)
    else if m.value.NotANumber? then Err(NotNullViolation)
    else if HasMessage(t.rows, m.messageId) then Err(UniqueViolation)
    else Ok(Table(t.rows + [Row(t.lastId + 1, m, Pending, 0, None)], t.lastId + 1))
  }

  function Truncated(text: string): string {
    if |text| <= ERROR_TEXT_LIMIT then text else text[..ERROR_TEXT_LIMIT]
  }

  function SentRow(row: Row): Row {
    row.(status := Sent, lastError := None)
  }

  function FailedRow(row: Row, error: string): Row {
    row.(attempts := row.attempts + 1, lastError := Some(Truncated(error)))
  }

  function MarkSent(t: Table, messageId: MessageId): Table {
    t.(rows := seq(|t.rows|, i requires 0 <= i < |t.rows| =>
      if t.rows[i].message.messageId == messageId then SentRow(t.rows[i]) else t.rows[i]))
  }

  function MarkFailed(t: Table, messageId: MessageId, error: string): Table {
    t.(rows := seq(|t.rows|, i requires 0 <= i < |t.rows| =>
      if t.rows[i].message.messageId == messageId then FailedRow(t.rows[i], error) else t.rows[i]))
  }

  function PendingRows(rows: seq<Row>): seq<Row> {
    if rows == [] then []
    else
      PendingRows(rows[..|rows| - 1]) + (if rows[|rows| - 1].status == Pending then [rows[|rows| - 1]] else [])
  }

  function CountPending(rows: seq<Row>): nat {
    |PendingRows(rows)|
  }

  function CountSent(rows: seq<Row>): (n: nat)
    ensures n + CountPending(rows) == |rows|
  {
    if rows == [] then 0
    else CountSent(rows[..|rows| - 1]) + (if rows[|rows| - 1].status == Sent then 1 else 0)
  }

  function SafeLimit(limit: int): nat {
    Max(1, Min(limit, SELECT_LIMIT))
  }

  function Select(t: Table, limit: int): seq<Row> {
    var pending := PendingRows(t.rows);
    pending[..Min(SafeLimit(limit), |pending|)]
  }

  /** The ids of the `keep` newest sent rows: ORDER BY id DESC LIMIT keep over a table in id order. */
  function NewestSentIds(rows: seq<Row>, keep: nat): set<nat> {
    if rows == [] || keep == 0 then {}
    else
      var last := rows[|rows| - 1];
      if last.status == Sent then {last.id} + NewestSentIds(rows[..|rows| - 1], keep - 1)
      else NewestSentIds(rows[..|rows| - 1], keep)
  }

  /** DELETE of the sent rows whose id is not among `kept`. */
  function DeleteSentExcept(rows: seq<Row>, kept: set<nat>): seq<Row> {
    if rows == [] then []
    else
      var last := rows[|rows| - 1];
      DeleteSentExcept(rows[..|rows| - 1], kept) +
      (if last.status == Sent && last.id !in kept then [] else [last])
  }

  function DeleteSent(t: Table, keepLatest: int): Table {
    t.(rows := DeleteSentExcept(t.rows, NewestSentIds(t.rows, Max(0, keepLatest))))
  }

  // ----- What selection returns -----

  lemma {:induction false} PendingRowsAppend(rows: seq<Row>, n: nat)
    requires n < |rows|
    ensures PendingRows(rows[..n + 1]) ==
            PendingRows(rows[..n]) + (if rows[n].status == Pending then [rows[n]] else [])
  {
    assert rows[..n + 1][..n] == rows[..n];
  }

  /** The k-th pending row sits at the table position that has exactly k pending rows before it. */
  lemma {:induction false} PendingRowPosition(rows: seq<Row>, i: nat)
    requires i < |rows| && rows[i].status == Pending
    ensures CountPending(rows[..i]) < CountPending(rows)
    ensures PendingRows(rows)[CountPending(rows[..i])] == rows[i]
  {
    var init := rows[..|rows| - 1];
    if i < |init| {
      PendingRowPosition(init, i);
      assert init[..i] == rows[..i];
    } else {
      assert rows[..i] == init;
    }
  }

  /** Every pending row returned is a pending row of the table, found at its own position. */
  lemma {:induction false} PendingRowSource(rows: seq<Row>, k: nat) returns (i: nat)
    requires k < CountPending(rows)
    ensures i < |rows| && rows[i].status == Pending && rows[i] == PendingRows(rows)[k]
    ensures CountPending(rows[..i]) == k
  {
    var init := rows[..|rows| - 1];
    if k < CountPending(init) {
      i := PendingRowSource(init, k);
      assert init[..i] == rows[..i];
    } else {
      i := |rows| - 1;
      assert rows[..i] == init;
    }
  }

  lemma {:induction false} CountPendingMonotone(rows: seq<Row>, i: nat, j: nat)
    requires i <= j <= |rows|
    ensures CountPending(rows[..i]) <= CountPending(rows[..j])
    ensures i < j && rows[i].status == Pending ==> CountPending(rows[..i]) < CountPending(rows[..j])
    decreases j
  {
    if i < j {
      PendingRowsAppend(rows, j - 1);
      CountPendingMonotone(rows, i, j - 1);
    }
  }

  /** The positions below n of the rows with this status. */
  ghost function Positions(rows: seq<Row>, status: Status, n: nat): set<nat>
    requires n <= |rows|
  {
    set j: nat | 0 <= j < n && rows[j].status == status
  }

  /** The two counts count positions. */
  lemma {:induction false} CountsArePositions(rows: seq<Row>, n: nat)
    requires n <= |rows|
    ensures |Positions(rows, Pending, n)| == CountPending(rows[..n])
    ensures |Positions(rows, Sent, n)| == CountSent(rows[..n])
  {
    if n == 0 {
      assert Positions(rows, Pending, 0) == {} && Positions(rows, Sent, 0) == {};
    } else {
      CountsArePositions(rows, n - 1);
      PositionsGrow(rows, Pending, n - 1);
      PositionsGrow(rows, Sent, n - 1);
      hide Positions;
      assert rows[..n][..n - 1] == rows[..n - 1];
    }
  }

  lemma PositionsGrow(rows: seq<Row>, status: Status, n: nat)
    requires n < |rows|
    ensures |Positions(rows, status, n + 1)|
         == |Positions(rows, status, n)| + (if rows[n].status == status then 1 else 0)
  {
    var below, upTo := Positions(rows, status, n), Positions(rows, status, n + 1);
    assert forall j: nat :: j in upTo <==> j in below || (j == n && rows[n].status == status);
    assert n !in below;
    if rows[n].status == status {
      assert upTo == below + {n};
    } else {
      assert upTo == below;
    }
  }

  lemma {:induction false} OlderPendingRowIsAhead(t: Table, limit: int, k: nat, r: Row)
    requires WellFormed(t) && k < |Select(t, limit)| && r in t.rows && r.status == Pending
    requires r.id < Select(t, limit)[k].id
    ensures r in Select(t, limit)[..k]
  {
    var i := PendingRowSource(t.rows, k);
    var j :| 0 <= j < |t.rows| && t.rows[j] == r;
    PendingRowPosition(t.rows, j);
    CountPendingMonotone(t.rows, j, i);
    assert Select(t, limit)[..k][CountPending(t.rows[..j])] == r;
  }

  /** Selection is oldest first: ids increase, and no older pending row is passed over. */
  lemma SelectIsOldestFirst(t: Table, limit: int)
    requires WellFormed(t)
    ensures |Select(t, limit)| == Min(SafeLimit(limit), CountPending(t.rows))
    ensures forall r :: r in Select(t, limit) ==> r in t.rows && r.status == Pending
    ensures forall k, k' :: 0 <= k < k' < |Select(t, limit)| ==> Select(t, limit)[k].id < Select(t, limit)[k'].id
    ensures forall k, r | 0 <= k < |Select(t, limit)| && r in t.rows && r.status == Pending ::
              r.id < Select(t, limit)[k].id ==> r in Select(t, limit)[..k]
  {
    var batch := Select(t, limit);
    forall k | 0 <= k < |batch| ensures batch[k] in t.rows && batch[k].status == Pending {
      var i := PendingRowSource(t.rows, k);
    }
    forall k, k' | 0 <= k < k' < |batch| ensures batch[k].id < batch[k'].id {
      var i := PendingRowSource(t.rows, k);
      var i' := PendingRowSource(t.rows, k');
      if i' <= i {
        CountPendingMonotone(t.rows, i', i);
      }
    }
    forall k, r | 0 <= k < |batch| && r in t.rows && r.status == Pending && r.id < batch[k].id
      ensures r in batch[..k]
    {
      OlderPendingRowIsAhead(t, limit, k, r);
    }
  }

  // ----- What cleanup removes -----

  /** A sent row is among the newest `keep` exactly when fewer than `keep` sent rows follow it. */
  lemma {:induction false} NewestSentMembership(rows: seq<Row>, keep: nat, i: nat)
    requires i < |rows| && rows[i].status == Sent
    requires forall a, b :: 0 <= a < b < |rows| ==> rows[a].id < rows[b].id
    ensures rows[i].id in NewestSentIds(rows, keep) <==> CountSent(rows[i + 1..]) < keep
    decreases |rows|
  {
    var init := rows[..|rows| - 1];
    var last := rows[|rows| - 1];
    if i == |rows| - 1 {
      NewestSentBelow(init, keep, last.id);
    } else {
      assert rows[i + 1..][..|rows[i + 1..]| - 1] == init[i + 1..];
      if keep > 0 {
        NewestSentMembership(init, if last.status == Sent then keep - 1 else keep, i);
      }
    }
  }

  lemma {:induction false} NewestSentBelow(rows: seq<Row>, keep: nat, bound: nat)
    requires forall a :: 0 <= a < |rows| ==> rows[a].id < bound
    ensures forall id :: id in NewestSentIds(rows, keep) ==> id < bound
  {
    if rows != [] && keep > 0 {
      var last := rows[|rows| - 1];
      NewestSentBelow(rows[..|rows| - 1], if last.status == Sent then keep - 1 else keep, bound);
    }
  }

  /** Deleting against the newest `keep` sent ids leaves every pending row and min(keep, sent) sent rows. */
  lemma {:induction false} DeleteSentCounts(rows: seq<Row>, keep: nat, kept: set<nat>)
    requires forall a, b :: 0 <= a < b < |rows| ==> rows[a].id < rows[b].id
    requires forall a :: 0 <= a < |rows| ==> (rows[a].id in kept <==> rows[a].id in NewestSentIds(rows, keep))
    ensures PendingRows(DeleteSentExcept(rows, kept)) == PendingRows(rows)
    ensures CountSent(DeleteSentExcept(rows, kept)) == Min(keep, CountSent(rows))
  {
    if rows != [] {
      var init := rows[..|rows| - 1];
      var last := rows[|rows| - 1];
      NewestSentBelow(init, keep, last.id);
      var keep' := if last.status == Sent && keep > 0 then keep - 1 else keep;
      assert forall a :: 0 <= a < |init| ==> init[a].id == rows[a].id && rows[a].id < last.id;
      DeleteSentCounts(init, keep', kept);
      var rest := DeleteSentExcept(init, kept);
      var all := DeleteSentExcept(rows, kept);
      if all != rest {
        assert all[..|all| - 1] == rest;
      }
    }
  }

  lemma {:induction false} DeleteSentMembers(rows: seq<Row>, kept: set<nat>)
    requires forall a, b :: 0 <= a < b < |rows| ==> rows[a].id < rows[b].id
    ensures forall r :: r in DeleteSentExcept(rows, kept) <==> r in rows && (r.status == Pending || r.id in kept)
    ensures forall a, b :: 0 <= a < b < |DeleteSentExcept(rows, kept)| ==>
              DeleteSentExcept(rows, kept)[a].id < DeleteSentExcept(rows, kept)[b].id
  {
    if rows != [] {
      DeleteSentMembers(rows[..|rows| - 1], kept);
      assert rows == rows[..|rows| - 1] + [rows[|rows| - 1]];
      var rest := DeleteSentExcept(rows[..|rows| - 1], kept);
      forall a | 0 <= a < |rest| ensures rest[a].id < rows[|rows| - 1].id {
        assert rest[a] in rows[..|rows| - 1];
      }
    }
  }

  lemma CleanupWellFormed(t: Table, keepLatest: int)
    requires WellFormed(t)
    ensures WellFormed(DeleteSent(t, keepLatest))
  {
    DeleteSentMembers(t.rows, NewestSentIds(t.rows, Max(0, keepLatest)));
    var rows' := DeleteSent(t, keepLatest).rows;
    forall i, j | 0 <= i < |rows'| && 0 <= j < |rows'| && rows'[i].message.messageId == rows'[j].message.messageId
      ensures i == j
    {
      assert rows'[i] in t.rows && rows'[j] in t.rows;
    }
    forall i | 0 <= i < |rows'| ensures 1 <= rows'[i].id <= t.lastId {
      assert rows'[i] in t.rows;
    }
  }

  /**
   * Cleanup with `keepLatest` removes exactly the sent rows that have at least `keepLatest` newer
   * sent rows, and nothing else.
   */
  lemma CleanupRemovesOldSent(t: Table, keepLatest: int)
    requires WellFormed(t)
    ensures forall i :: 0 <= i < |t.rows| ==>
              (t.rows[i] !in DeleteSent(t, keepLatest).rows
               <==> t.rows[i].status == Sent && CountSent(t.rows[i + 1..]) >= Max(0, keepLatest))
    ensures forall r :: r in DeleteSent(t, keepLatest).rows ==> r in t.rows
  {
    var keep := Max(0, keepLatest);
    var kept := NewestSentIds(t.rows, keep);
    DeleteSentMembers(t.rows, kept);
    forall i | 0 <= i < |t.rows|
      ensures t.rows[i] !in DeleteSent(t, keepLatest).rows
              <==> t.rows[i].status == Sent && CountSent(t.rows[i + 1..]) >= keep
    {
      if t.rows[i].status == Sent {
        NewestSentMembership(t.rows, keep, i);
      }
    }
  }

  /** The number of rows removed is max(0, sent - keep), and pending rows are untouched. */
  lemma CleanupCounts(t: Table, keepLatest: int)
    requires WellFormed(t)
    ensures PendingRows(DeleteSent(t, keepLatest).rows) == PendingRows(t.rows)
    ensures |t.rows| - |DeleteSent(t, keepLatest).rows| == Max(0, CountSent(t.rows) - Max(0, keepLatest))
  {
    DeleteSentCounts(t.rows, Max(0, keepLatest), NewestSentIds(t.rows, Max(0, keepLatest)));
  }

  // ----- The module's functions, each one locked call -----

  class Buffer {
    var rows: seq<Row>
    var lastId: nat

    function Contents(): Table
      reads this
    {
      Table(rows, lastId)
    }

    ghost predicate Valid()
      reads this
    {
      WellFormed(Contents())
    }

    constructor ()
      ensures Valid() && Contents() == EmptyTable()
    {
      rows, lastId := [], 0;
    }

    /** A rejected insert raises; AUTOINCREMENT never hands out an id twice. */
    method EnqueueTelemetry(
      messageId: MessageId, deviceId: int, tagId: int, value: Float, quality: string,
      sourceTimestamp: Option<string>, now: string) returns (outcome: Result<MessageId, InsertError>)
      requires Valid()
      modifies this
      ensures Valid()
      ensures outcome.Ok? <==>
                && -0x8000_0000_0000_0000 <= deviceId <= 0x7FFF_FFFF_FFFF_FFFF
                && -0x8000_0000_0000_0000 <= tagId <= 0x7FFF_FFFF_FFFF_FFFF
                && value != NotANumber
                && forall i :: 0 <= i < |old(rows)| ==> old(rows)[i].message.messageId != messageId
      ensures outcome.Err? ==> rows == old(rows) && lastId == old(lastId)
      ensures outcome.Ok? ==> outcome.value == messageId && lastId == old(lastId) + 1
      ensures outcome.Ok? ==> |rows| == |old(rows)| + 1 && rows[..|old(rows)|] == old(rows)
      ensures outcome.Ok? ==>
                var row := rows[|old(rows)|];
                && row.id == lastId && row.status == Pending && row.attempts == 0 && row.lastError == None
                && row.message ==
                   Message(messageId, deviceId, tagId, value, quality,
                           if sourceTimestamp in {None, Some("")} then now else sourceTimestamp.value,
                           Fields(deviceId, tagId, value, quality))
    {
      var timestamp := if sourceTimestamp.Some? && sourceTimestamp.value != "" then sourceTimestamp.value else now;
      var message := NewMessage(messageId, deviceId, tagId, value, quality, timestamp);
      match Insert(Contents(), message) {
        case Ok(table) =>
          rows, lastId := table.rows, table.lastId;
          outcome := Ok(messageId);
        case Err(error) =>
          outcome := Err(error);
      }
    }

    method GetPendingMessages(limit: int) returns (messages: seq<Row>)
      requires Valid()
      ensures var pending := |Positions(rows, Pending, |rows|)|;
              var most := if limit < 1 then 1 else if limit > 1000 then 1000 else limit;
              |messages| == if pending < most then pending else most
      ensures messages == Select(Contents(), limit)
      ensures forall row :: row in messages ==> row in rows && row.status == Pending
      ensures forall k, k' :: 0 <= k < k' < |messages| ==> messages[k].id < messages[k'].id
      ensures forall k, row | 0 <= k < |messages| && row in rows && row.status == Pending ::
                row.id < messages[k].id ==> row in messages[..k]
    {
      hide PendingRows, WellFormed;
      CountsArePositions(rows, |rows|);
      assert rows[..|rows|] == rows;
      SelectIsOldestFirst(Contents(), limit);
      messages := Select(Contents(), limit);
    }

    method MarkMessageSent(messageId: MessageId)
      requires Valid()
      modifies this
      ensures Valid() && lastId == old(lastId) && |rows| == |old(rows)|
      ensures forall i :: 0 <= i < |rows| ==>
                rows[i] == if old(rows)[i].message.messageId == messageId
                           then old(rows)[i].(status := Sent, lastError := None)
                           else old(rows)[i]
    {
      rows := MarkSent(Contents(), messageId).rows;
    }

    /** A failed attempt is only recorded: the status of the row, sent or pending, does not change. */
    method MarkMessageFailed(messageId: MessageId, error: string)
      requires Valid()
      modifies this
      ensures Valid() && lastId == old(lastId) && |rows| == |old(rows)|
      ensures forall i :: 0 <= i < |rows| ==>
                rows[i] == if old(rows)[i].message.messageId == messageId
                           then old(rows)[i].(attempts := old(rows)[i].attempts + 1,
                                              lastError := Some(if |error| <= 1000 then error else error[..1000]))
                           else old(rows)[i]
    {
      rows := MarkFailed(Contents(), messageId, error).rows;
    }

    method CountPendingMessages() returns (total: nat)
      ensures total == |Positions(rows, Pending, |rows|)| == |rows| - |Positions(rows, Sent, |rows|)|
    {
      CountsArePositions(rows, |rows|);
      assert rows[..|rows|] == rows;
      total := CountPending(rows);
    }

    method CountAllMessages() returns (total: nat)
      ensures total == |rows| == |Positions(rows, Pending, |rows|)| + |Positions(rows, Sent, |rows|)|
    {
      CountsArePositions(rows, |rows|);
      assert rows[..|rows|] == rows;
      total := |rows|;
    }

    method DeleteSentMessages(keepLatest: int) returns (deleted: nat)
      requires Valid()
      modifies this
      ensures Valid() && lastId == old(lastId)
      ensures deleted == |old(rows)| - |rows|
      ensures var sent, keep := |Positions(old(rows), Sent, |old(rows)|)|, if keepLatest < 0 then 0 else keepLatest;
              deleted == if sent <= keep then 0 else sent - keep
      ensures PendingRows(rows) == PendingRows(old(rows))
      ensures forall i :: 0 <= i < |old(rows)| ==>
                (old(rows)[i] !in rows
                 <==> old(rows)[i].status == Sent
                      && CountSent(old(rows)[i + 1..]) >= if keepLatest < 0 then 0 else keepLatest)
      ensures forall r :: r in rows ==> r in old(rows)
    {
      hide WellFormed, DeleteSentExcept, NewestSentIds, CountSent, PendingRows, Positions;
      CountsArePositions(rows, |rows|);
      assert rows[..|rows|] == rows;
      CleanupWellFormed(Contents(), keepLatest);
      CleanupRemovesOldSent(Contents(), keepLatest);
      CleanupCounts(Contents(), keepLatest);
      var table := DeleteSent(Contents(), keepLatest);
      deleted := |rows| - |table.rows|;
      rows := table.rows;
    }
  }
}
