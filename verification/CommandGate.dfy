/** Remote commands: which ones may write, and which ones are answered. */
module CommandGate {
  import opened Common

  /**
   * A configuration or command field as `int` and `or` see it: what `int` makes of it, and whether it
   * is truthy, as the text "0" is and the number 0 is not. `Refused` raises a type or value error;
   * `TooLarge`, an infinite float, raises an overflow error, which is neither. A field that is null or
   * empty is refused and falsy; `Missing` is one that is not there.
   */
  datatype Field = Missing | Number(value: int, truthy: bool) | Refused(truthy: bool) | TooLarge

  /** Only the JSON value true opens the gate. */
  datatype Flag = Absent | JsonTrue | JsonFalse | OtherValue

  datatype Tag = Tag(id: Field, writable: Flag, address: Field, functionCode: Field)

  datatype Device = Device(id: Field, slaveId: Field, tags: seq<Tag>)

  /** A command value: what `int` makes of it, if anything, and what `bool` makes of it. */
  datatype Value = Value(register: Option<int>, coil: bool)

  datatype Command = Command(deviceId: Field, tagId: Field, kind: string, value: Value)

  const VALID_COMMAND_TYPES := {"write_register", "write_coil"}

  const INPUT_REGISTER := 4

  predicate TakesDefault(field: Field) {
    field.Missing? || ((field.Number? || field.Refused?) && !field.truthy)
  }

  /** `int(field or default)`: only a truthy field is read. */
  function OrDefault(field: Field, default: int): Option<int> {
    if TakesDefault(field) then Some(default)
    else if field.Number? then Some(field.value)
    else None
  }

  // ----- The search for a writable tag -----

  datatype Lookup = Raised | NotFound | Found(device: Device, tag: Tag)

  predicate Readable(id: Field) {
    id.Missing? || id.Number?
  }

  /** `int(entry.get("id", -1))`. */
  function IdOf(id: Field): int
    requires Readable(id)
  {
    if id.Missing? then -1 else id.value
  }

  /** What the search answers when it stops at this tag. */
  function AnswerAt(device: Device, tag: Tag): Lookup {
    if !Readable(tag.id) then Raised
    else if tag.writable == JsonTrue then Found(device, tag)
    else NotFound
  }

  predicate StopsAtTag(tag: Tag, tagId: int) {
    !Readable(tag.id) || IdOf(tag.id) == tagId
  }

  function SearchTags(device: Device, tags: seq<Tag>, tagId: int): Option<Lookup> {
    if tags == [] then None
    else if StopsAtTag(tags[0], tagId) then Some(AnswerAt(device, tags[0]))
    else SearchTags(device, tags[1..], tagId)
  }

  function Search(devices: seq<Device>, deviceId: int, tagId: int): Lookup {
    if devices == [] then NotFound
    else if !Readable(devices[0].id) then Raised
    else if IdOf(devices[0].id) != deviceId then Search(devices[1..], deviceId, tagId)
    else
      match SearchTags(devices[0], devices[0].tags, tagId)
      case Some(lookup) => lookup
      case None => Search(devices[1..], deviceId, tagId)
  }

  /** The nested search with its early returns. */
  method FindWritableTag(devices: seq<Device>, deviceId: int, tagId: int) returns (found: Lookup)
    ensures found == Search(devices, deviceId, tagId)
    ensures AnswersFirstStop(devices, deviceId, tagId, found)
  {
    ghost var stopDevice, stopTag := SearchAnswersFirstStop(devices, deviceId, tagId);
    hide AnswerAtStop, FirstStop, StopsAt;
    var i := 0;
    while i < |devices|
      invariant 0 <= i <= |devices|
      invariant Search(devices, deviceId, tagId) == Search(devices[i..], deviceId, tagId)
    {
      var device := devices[i];
      assert devices[i..][1..] == devices[i + 1..];
      i := i + 1;
      if !Readable(device.id) {
        return Raised;
      }
      if IdOf(device.id) != deviceId {
        continue;
      }
      var j := 0;
      while j < |device.tags|
        invariant 0 <= j <= |device.tags|
        invariant SearchTags(device, device.tags, tagId) == SearchTags(device, device.tags[j..], tagId)
      {
        var tag := device.tags[j];
        assert device.tags[j..][1..] == device.tags[j + 1..];
        j := j + 1;
        if !Readable(tag.id) {
          return Raised;
        }
        if IdOf(tag.id) != tagId {
          continue;
        }
        if tag.writable == JsonTrue {
          return Found(device, tag);
        }
        return NotFound;
      }
    }
    return NotFound;
  }

  /** The id field is the number n; a field that is not there goes by -1. */
  predicate IsId(field: Field, n: int) {
    (field.Number? && field.value == n) || (field.Missing? && n == -1)
  }

  predicate IsUnreadable(field: Field) {
    field.Refused? || field.TooLarge?
  }

  /**
   * The search stops at position (i, j): tag j of device i, or its device id when j is -1. It
   * stops where an id cannot be read and where both ids are the numbers asked for.
   */
  predicate StopsAt(devices: seq<Device>, deviceId: int, tagId: int, i: int, j: int) {
    && 0 <= i < |devices|
    && if IsUnreadable(devices[i].id) then j == -1
       else
         && IsId(devices[i].id, deviceId)
         && 0 <= j < |devices[i].tags|
         && (IsUnreadable(devices[i].tags[j].id) || IsId(devices[i].tags[j].id, tagId))
  }

  predicate Before(i: int, j: int, i': int, j': int) {
    i < i' || (i == i' && j < j')
  }

  ghost predicate FirstStop(devices: seq<Device>, deviceId: int, tagId: int, i: int, j: int) {
    && StopsAt(devices, deviceId, tagId, i, j)
    && forall i', j' | Before(i', j', i, j) :: !StopsAt(devices, deviceId, tagId, i', j')
  }

  function AnswerAtStop(devices: seq<Device>, i: int, j: int): Lookup
    requires 0 <= i < |devices| && -1 <= j < |devices[i].tags|
  {
    if j == -1 || IsUnreadable(devices[i].tags[j].id) then Raised
    else if devices[i].tags[j].writable == JsonTrue then Found(devices[i], devices[i].tags[j])
    else NotFound
  }

  /** The answer is that of the first stopping position; nothing is found when there is none. */
  ghost predicate AnswersFirstStop(devices: seq<Device>, deviceId: int, tagId: int, found: Lookup) {
    || (exists i, j :: FirstStop(devices, deviceId, tagId, i, j) && found == AnswerAtStop(devices, i, j))
    || ((forall i, j :: !StopsAt(devices, deviceId, tagId, i, j)) && found == NotFound)
  }

  /** Where a list of tags is first stopped at: its length if nowhere. */
  lemma {:induction false} FirstTagStop(device: Device, tags: seq<Tag>, tagId: int) returns (j: nat)
    ensures j <= |tags| && forall k :: 0 <= k < j ==> !IsUnreadable(tags[k].id) && !IsId(tags[k].id, tagId)
    ensures j == |tags| ==> SearchTags(device, tags, tagId) == None
    ensures j < |tags| ==>
              && (IsUnreadable(tags[j].id) || IsId(tags[j].id, tagId))
              && SearchTags(device, tags, tagId) == Some(AnswerAt(device, tags[j]))
  {
    if tags == [] || StopsAtTag(tags[0], tagId) {
      j := 0;
    } else {
      j := FirstTagStop(device, tags[1..], tagId);
      j := j + 1;
    }
  }

  /** The search answers from its first stopping position, and finds nothing when there is none. */
  lemma {:induction false} SearchAnswersFirstStop(devices: seq<Device>, deviceId: int, tagId: int)
    returns (i: nat, j: int)
    ensures i <= |devices|
    ensures i == |devices| ==>
              && (forall i', j' :: !StopsAt(devices, deviceId, tagId, i', j'))
              && Search(devices, deviceId, tagId) == NotFound
    ensures i < |devices| ==>
              && FirstStop(devices, deviceId, tagId, i, j)
              && Search(devices, deviceId, tagId) == AnswerAtStop(devices, i, j)
  {
    if devices == [] {
      return 0, -1;
    }
    if !Readable(devices[0].id) {
      return 0, -1;
    }
    if IdOf(devices[0].id) == deviceId {
      j := FirstTagStop(devices[0], devices[0].tags, tagId);
      if j < |devices[0].tags| {
        return 0, j;
      }
    }
    i, j := SearchAnswersFirstStop(devices[1..], deviceId, tagId);
    i := i + 1;
    forall i', j' | Before(i', j', i, j) ensures !StopsAt(devices, deviceId, tagId, i', j') {
      assert i' > 0 ==> !StopsAt(devices[1..], deviceId, tagId, i' - 1, j');
    }
    if i == |devices| {
      forall i', j' ensures !StopsAt(devices, deviceId, tagId, i', j') {
        assert i' > 0 ==> !StopsAt(devices[1..], deviceId, tagId, i' - 1, j');
      }
    }
  }

  lemma FirstStopIsUnique(devices: seq<Device>, deviceId: int, tagId: int, i: int, j: int, i': int, j': int)
    requires FirstStop(devices, deviceId, tagId, i, j) && FirstStop(devices, deviceId, tagId, i', j')
    ensures i == i' && j == j'
  {
    assert !Before(i, j, i', j') && !Before(i', j', i, j);
  }

  // ----- Executing one command -----

  datatype Request =
    | WriteRegister(address: int, value: int, slaveId: int)
    | WriteCoil(address: int, on: bool, slaveId: int)

  /** A write is answered, answered with a Modbus error, or raises. */
  datatype Answer = Done | ErrorReply | NoReply

  /** What the outside world does: whether a client can be built, connects, and how it answers. */
  datatype Link = Link(opens: bool, connects: bool, answer: Answer)

  datatype Effect = Opened | Wrote(request: Request) | Closed | Acked(success: bool)

  datatype Outcome = Outcome(trace: seq<Effect>, raised: bool)

  /** The request a command stands for, or none when building it raises. */
  function RequestFor(tag: Tag, kind: string, value: Value, slaveId: int): Option<Request> {
    if !tag.address.Number? then None
    else if kind == "write_register" then
      var code := OrDefault(tag.functionCode, 3);
      if code.None? || code.value == INPUT_REGISTER || value.register.None? then None
      else Some(WriteRegister(tag.address.value, value.register.value, slaveId))
    else if kind == "write_coil" then Some(WriteCoil(tag.address.value, value.coil, slaveId))
    else None
  }

  function Attempted(device: Device, tag: Tag, command: Command, link: Link): seq<Effect> {
    if !link.opens then [Acked(false)]
    else
      var slaveId := OrDefault(device.slaveId, 1);
      var request := if slaveId.None? then None else RequestFor(tag, command.kind, command.value, slaveId.value);
      if !link.connects || request.None? then [Opened, Acked(false), Closed]
      else if link.answer != Done then [Opened, Wrote(request.value), Acked(false), Closed]
      else [Opened, Wrote(request.value), Closed, Acked(true)]
  }

  function Executed(devices: seq<Device>, command: Command, link: Link): Outcome {
    if command.deviceId.TooLarge? then Outcome([], true)
    else if !command.deviceId.Number? then Outcome([Acked(false)], false)
    else if command.tagId.TooLarge? then Outcome([], true)
    else if !command.tagId.Number? || command.kind !in VALID_COMMAND_TYPES then Outcome([Acked(false)], false)
    else
      match Search(devices, command.deviceId.value, command.tagId.value)
      case Raised => Outcome([], true)
      case NotFound => Outcome([Acked(false)], false)
      case Found(device, tag) =>
        if device.id.Missing? then Outcome([], true)
        else Outcome(Attempted(device, tag, command, link), false)
  }

  /** Sends the write; the result is false when anything on the way raised. */
  method WriteCommandValue(tag: Tag, kind: string, value: Value, slaveId: int, link: Link)
    returns (sent: seq<Effect>, ok: bool)
    ensures var request := RequestFor(tag, kind, value, slaveId);
            && sent == (if request.Some? then [Wrote(request.value)] else [])
            && (ok <==> request.Some? && link.answer == Done)
  {
    if !tag.address.Number? {
      return [], false;
    }
    var registerAddress := tag.address.value;
    if kind == "write_register" {
      var code := OrDefault(tag.functionCode, 3);
      if code.None? || code.value == INPUT_REGISTER || value.register.None? {
        return [], false;
      }
      sent := [Wrote(WriteRegister(registerAddress, value.register.value, slaveId))];
    } else if kind == "write_coil" {
      sent := [Wrote(WriteCoil(registerAddress, value.coil, slaveId))];
    } else {
      return [], false;
    }
    ok := link.answer == Done;
  }

  /** One command from the checks of its fields to its acknowledgement. */
  method ExecuteCommand(devices: seq<Device>, command: Command, link: Link) returns (trace: seq<Effect>, raised: bool)
    ensures Outcome(trace, raised) == Executed(devices, command, link)
    ensures forall request ::
              Wrote(request) in trace <==> Permits(devices, command, request) && link.opens && link.connects
    ensures raised <==> Unanswerable(devices, command)
  {
    GateHolds(devices, command, link);
    hide Permits, Unanswerable, AnswersFirstStop;
    if command.deviceId.TooLarge? || (command.deviceId.Number? && command.tagId.TooLarge?) {
      return [], true;
    }
    if !command.deviceId.Number? || !command.tagId.Number? {
      return [Acked(false)], false;
    }
    if command.kind !in VALID_COMMAND_TYPES {
      return [Acked(false)], false;
    }
    var found := FindWritableTag(devices, command.deviceId.value, command.tagId.value);
    if found.Raised? {
      return [], true;
    }
    if found.NotFound? {
      return [Acked(false)], false;
    }
    if found.device.id.Missing? {
      return [], true;
    }
    trace, raised := [], false;
    var hasClient, ok := link.opens, false;
    if hasClient {
      trace := trace + [Opened];
      var slaveId := OrDefault(found.device.slaveId, 1);
      if link.connects && slaveId.Some? {
        var sent;
        sent, ok := WriteCommandValue(found.tag, command.kind, command.value, slaveId.value, link);
        trace := trace + sent;
      }
    }
    if !ok {
      trace := trace + [Acked(false)];
    }
    if hasClient {
      trace := trace + [Closed];
    }
    if ok {
      trace := trace + [Acked(true)];
    }
    SearchKeepsId(devices, command.deviceId.value, command.tagId.value);
  }

  /** A device the search returns has the id asked for, or none where -1 was asked for. */
  lemma {:induction false} SearchKeepsId(devices: seq<Device>, deviceId: int, tagId: int)
    ensures var found := Search(devices, deviceId, tagId);
            found.Found? ==> IsId(found.device.id, deviceId)
  {
    var i, j := SearchAnswersFirstStop(devices, deviceId, tagId);
  }

  // ----- What a command may do -----

  /**
   * Permission to send a request, read off the configuration: the command is complete and of a
   * valid type, the first position where both ids match comes before any unreadable id, its tag is
   * marked writable with the value true, and the request is the one the command asks of that tag -
   * never a register write on an input register.
   */
  ghost predicate Permits(devices: seq<Device>, command: Command, request: Request) {
    && command.deviceId.Number? && command.tagId.Number?
    && exists i, j ::
         && FirstStop(devices, command.deviceId.value, command.tagId.value, i, j)
         && j >= 0
         && devices[i].id.Number?
         && IsId(devices[i].tags[j].id, command.tagId.value)
         && Serves(devices[i], devices[i].tags[j], command, request)
  }

  /** Python's falsehood of a field. */
  predicate IsFalsy(field: Field) {
    match field
    case Missing => true
    case Number(_, truthy) => !truthy
    case Refused(truthy) => !truthy
    case TooLarge => false
  }

  predicate Serves(device: Device, tag: Tag, command: Command, request: Request) {
    && tag.writable == JsonTrue
    && tag.address.Number? && tag.address.value == request.address
    && (if IsFalsy(device.slaveId) then request.slaveId == 1
        else device.slaveId.Number? && request.slaveId == device.slaveId.value)
    && match request
       case WriteRegister(_, value, _) =>
         && command.kind == "write_register"
         && command.value.register == Some(value)
         && (IsFalsy(tag.functionCode) || (tag.functionCode.Number? && tag.functionCode.value != 4))
       case WriteCoil(_, on, _) => command.kind == "write_coil" && command.value.coil == on
  }

  /** A command that raises out of its handling: see `AnsweredExactlyOnce`. */
  ghost predicate Unanswerable(devices: seq<Device>, command: Command) {
    || command.deviceId.TooLarge?
    || (command.deviceId.Number? && command.tagId.TooLarge?)
    || (&& command.deviceId.Number? && command.tagId.Number? && command.kind in {"write_register", "write_coil"}
        && exists i, j ::
             && FirstStop(devices, command.deviceId.value, command.tagId.value, i, j)
             && (|| j == -1
                 || IsUnreadable(devices[i].tags[j].id)
                 || (devices[i].id.Missing? && devices[i].tags[j].writable == JsonTrue)))
  }

  datatype Kind = Opening | Write | Closing | Ack

  function KindOf(effect: Effect): Kind {
    match effect
    case Opened => Opening
    case Wrote(_) => Write
    case Closed => Closing
    case Acked(_) => Ack
  }

  function Kinds(trace: seq<Effect>): seq<Kind> {
    seq(|trace|, i requires 0 <= i < |trace| => KindOf(trace[i]))
  }

  function Count(trace: seq<Effect>, kind: Kind): nat {
    multiset(Kinds(trace))[kind]
  }

  /** The kinds of effects a command can have, in order. */
  predicate IsShape(kinds: seq<Kind>) {
    || kinds == []
    || kinds == [Ack]
    || kinds == [Opening, Ack, Closing]
    || kinds == [Opening, Write, Ack, Closing]
    || kinds == [Opening, Write, Closing, Ack]
  }

  lemma TraceShape(devices: seq<Device>, command: Command, link: Link)
    ensures var outcome := Executed(devices, command, link);
            && IsShape(Kinds(outcome.trace))
            && (outcome.raised <==> outcome.trace == [])
            && (|outcome.trace| == 4 <==> exists request :: Wrote(request) in outcome.trace)
  {
    hide Search, RequestFor;
    var trace := Executed(devices, command, link).trace;
    var kinds := Kinds(trace);
    if |trace| == 1 {
      assert kinds == [Ack];
    } else if |trace| == 3 {
      assert kinds == [Opening, Ack, Closing];
    } else if |trace| == 4 {
      assert trace[1].Wrote? && trace[1] in trace;
      assert kinds == [Opening, Write, Ack, Closing] || kinds == [Opening, Write, Closing, Ack];
    }
  }

  lemma KindCounts(kinds: seq<Kind>)
    requires IsShape(kinds)
    ensures multiset(kinds)[Ack] == (if kinds == [] then 0 else 1)
    ensures multiset(kinds)[Write] == (if |kinds| == 4 then 1 else 0)
    ensures multiset(kinds)[Opening] == multiset(kinds)[Closing] <= 1
  {
  }

  lemma TraceCounts(devices: seq<Device>, command: Command, link: Link)
    ensures var outcome := Executed(devices, command, link);
            && Count(outcome.trace, Ack) == (if outcome.raised then 0 else 1)
            && Count(outcome.trace, Write) == (if exists request :: Wrote(request) in outcome.trace then 1 else 0)
            && Count(outcome.trace, Opening) == Count(outcome.trace, Closing) <= 1
  {
    hide Executed, IsShape;
    TraceShape(devices, command, link);
    KindCounts(Kinds(Executed(devices, command, link).trace));
  }

  /** The gate. A request is sent exactly when the configuration permits it and the link is up; at most one is. */
  lemma WritesOnlyWhatIsPermitted(devices: seq<Device>, command: Command, link: Link, request: Request)
    ensures var trace := Executed(devices, command, link).trace;
            && (Wrote(request) in trace <==> Permits(devices, command, request) && link.opens && link.connects)
            && Count(trace, Write) <= 1
  {
    hide Search, Before, Count, Kinds;
    TraceCounts(devices, command, link);
    if command.deviceId.Number? && command.tagId.Number? && command.kind in VALID_COMMAND_TYPES {
      var deviceId, tagId := command.deviceId.value, command.tagId.value;
      var i, j := SearchAnswersFirstStop(devices, deviceId, tagId);
      if i < |devices| {
        forall i', j' | FirstStop(devices, deviceId, tagId, i', j') ensures i' == i && j' == j {
          FirstStopIsUnique(devices, deviceId, tagId, i, j, i', j');
        }
      }
    }
  }

  /**
   * A write never goes to another tag: the tag written is marked writable and its own id is the number
   * asked for, on a device whose id is the number asked for, and no earlier tag has both.
   */
  lemma WriteGoesToNamedTag(devices: seq<Device>, command: Command, link: Link, request: Request)
    requires Wrote(request) in Executed(devices, command, link).trace
    ensures command.deviceId.Number? && command.tagId.Number?
    ensures exists i, j ::
              && 0 <= i < |devices| && 0 <= j < |devices[i].tags|
              && devices[i].id.Number? && devices[i].id.value == command.deviceId.value
              && IsId(devices[i].tags[j].id, command.tagId.value)
              && devices[i].tags[j].writable == JsonTrue
              && devices[i].tags[j].address.Number? && devices[i].tags[j].address.value == request.address
              && forall i', j' | 0 <= i' < |devices| && 0 <= j' < |devices[i'].tags| && Before(i', j', i, j) ::
                   IsId(devices[i'].id, command.deviceId.value) ==>
                     !IsId(devices[i'].tags[j'].id, command.tagId.value)
  {
    hide Executed, Serves;
    WritesOnlyWhatIsPermitted(devices, command, link, request);
    var deviceId, tagId := command.deviceId.value, command.tagId.value;
    var i, j :| FirstStop(devices, deviceId, tagId, i, j) && j >= 0 && devices[i].id.Number?
      && IsId(devices[i].tags[j].id, tagId) && Serves(devices[i], devices[i].tags[j], command, request);
    ServesThisTag(devices[i], devices[i].tags[j], command, request);
    forall i', j' | 0 <= i' < |devices| && 0 <= j' < |devices[i'].tags| && Before(i', j', i, j)
      ensures IsId(devices[i'].id, deviceId) ==> !IsId(devices[i'].tags[j'].id, tagId)
    {
      assert !StopsAt(devices, deviceId, tagId, i', j');
    }
  }

  lemma ServesThisTag(device: Device, tag: Tag, command: Command, request: Request)
    requires Serves(device, tag, command, request)
    ensures tag.writable == JsonTrue && tag.address.Number? && tag.address.value == request.address
  {
  }

  /**
   * Acknowledgements. A command is acknowledged exactly once unless it is unanswerable, and then it
   * is not acknowledged and its exception leaves the handler. Success is reported exactly when a
   * write was sent and answered without error.
   */
  lemma AnsweredExactlyOnce(devices: seq<Device>, command: Command, link: Link)
    ensures var outcome := Executed(devices, command, link);
            && (outcome.raised <==> Unanswerable(devices, command))
            && Count(outcome.trace, Ack) == (if Unanswerable(devices, command) then 0 else 1)
            && (Acked(true) in outcome.trace <==> Count(outcome.trace, Write) == 1 && link.answer == Done)
  {
    TraceCounts(devices, command, link);
    if command.deviceId.Number? && command.tagId.Number? && command.kind in VALID_COMMAND_TYPES {
      var deviceId, tagId := command.deviceId.value, command.tagId.value;
      var i, j := SearchAnswersFirstStop(devices, deviceId, tagId);
      if i < |devices| {
        forall i', j' | FirstStop(devices, deviceId, tagId, i', j') ensures i' == i && j' == j {
          FirstStopIsUnique(devices, deviceId, tagId, i, j, i', j');
        }
      }
    }
  }

  lemma GateHolds(devices: seq<Device>, command: Command, link: Link)
    ensures var outcome := Executed(devices, command, link);
            && (outcome.raised <==> Unanswerable(devices, command))
            && forall request ::
                 Wrote(request) in outcome.trace
                 <==> Permits(devices, command, request) && link.opens && link.connects
  {
    hide Executed, Permits, Unanswerable;
    AnsweredExactlyOnce(devices, command, link);
    forall request
      ensures Wrote(request) in Executed(devices, command, link).trace
              <==> Permits(devices, command, request) && link.opens && link.connects
    {
      WritesOnlyWhatIsPermitted(devices, command, link, request);
    }
  }

  /** A client that was opened is closed exactly once, after any write; without a client nothing is closed. */
  lemma ClientIsClosedAfterUse(devices: seq<Device>, command: Command, link: Link)
    ensures var trace := Executed(devices, command, link).trace;
            && Count(trace, Opening) == Count(trace, Closing) <= 1
            && forall i, j | 0 <= i < j < |trace| :: trace[i].Closed? ==> trace[j].Acked?
  {
    TraceCounts(devices, command, link);
  }

  /**
   * What happens to a permitted command, in order: a failure is acknowledged before the client is
   * closed, a success after it, and without a client only the failure is acknowledged.
   */
  lemma PermittedTrace(devices: seq<Device>, command: Command, link: Link, request: Request)
    requires Permits(devices, command, request)
    ensures Executed(devices, command, link)
         == Outcome(
              if !link.opens then [Acked(false)]
              else if !link.connects then [Opened, Acked(false), Closed]
              else if link.answer == Done then [Opened, Wrote(request), Closed, Acked(true)]
              else [Opened, Wrote(request), Acked(false), Closed],
              false)
  {
    hide Search, Before;
    var deviceId, tagId := command.deviceId.value, command.tagId.value;
    var i, j := SearchAnswersFirstStop(devices, deviceId, tagId);
    assert i < |devices|;
    forall i', j' | FirstStop(devices, deviceId, tagId, i', j') ensures i' == i && j' == j {
      FirstStopIsUnique(devices, deviceId, tagId, i, j, i', j');
    }
  }

  /** A command that is neither permitted nor unanswerable is only acknowledged as failed, a client opened or not. */
  lemma RefusedTrace(devices: seq<Device>, command: Command, link: Link)
    requires !Unanswerable(devices, command) && forall request :: !Permits(devices, command, request)
    ensures var trace := Executed(devices, command, link).trace;
            trace == [Acked(false)] || (link.opens && trace == [Opened, Acked(false), Closed])
  {
    hide Executed, Permits, Unanswerable, Count;
    GateHolds(devices, command, link);
    TraceOrder(devices, command, link);
  }

  lemma TraceOrder(devices: seq<Device>, command: Command, link: Link)
    ensures var outcome := Executed(devices, command, link);
            || outcome == Outcome([], true)
            || outcome == Outcome([Acked(false)], false)
            || (link.opens && outcome == Outcome([Opened, Acked(false), Closed], false))
            || exists request :: Wrote(request) in outcome.trace
  {
    hide Search, RequestFor;
    var trace := Executed(devices, command, link).trace;
    if |trace| == 4 {
      assert trace[1] in trace && trace[1].Wrote?;
    }
  }

  /** An unreadable id on the first device leaves every complete command of a valid type unanswered. */
  lemma UnreadableIdSilencesAll(devices: seq<Device>, command: Command)
    requires devices != [] && IsUnreadable(devices[0].id)
    requires command.deviceId.Number? && command.tagId.Number? && command.kind in {"write_register", "write_coil"}
    ensures Unanswerable(devices, command)
  {
    assert FirstStop(devices, command.deviceId.value, command.tagId.value, 0, -1);
  }

  /** A device without an id answers to -1 in the search, but not afterwards. */
  lemma MissingIdIsUnanswered(slaveId: Field, tag: Tag, kind: string, value: Value, link: Link)
    requires tag.id.Number? && tag.writable == JsonTrue && kind in {"write_register", "write_coil"}
    ensures Executed([Device(Missing, slaveId, [tag])], Command(Number(-1, true), tag.id, kind, value), link)
         == Outcome([], true)
  {
    assert Search([Device(Missing, slaveId, [tag])], -1, tag.id.value).Found?;
  }

  // ----- One fetched batch of commands -----

  /** A pending command with the configuration in force when its turn comes. */
  datatype Turn = Turn(devices: seq<Device>, command: Command, link: Link)

  /** The commands that get their turn: an exception ends the batch. */
  function Handled(turns: seq<Turn>): (outcomes: seq<Outcome>)
    ensures |outcomes| <= |turns|
  {
    if turns == [] then []
    else
      var first := Executed(turns[0].devices, turns[0].command, turns[0].link);
      [first] + if first.raised then [] else Handled(turns[1..])
  }

  method RunPendingCommands(turns: seq<Turn>) returns (outcomes: seq<Outcome>)
    ensures outcomes == Handled(turns)
  {
    hide Executed;
    outcomes := [];
    var i := 0;
    while i < |turns|
      invariant 0 <= i <= |turns|
      invariant outcomes + Handled(turns[i..]) == Handled(turns)
    {
      var trace, raised := ExecuteCommand(turns[i].devices, turns[i].command, turns[i].link);
      outcomes := outcomes + [Outcome(trace, raised)];
      assert turns[i..][1..] == turns[i + 1..];
      if raised {
        return;
      }
      i := i + 1;
    }
  }

  /** Acknowledgements command k of a batch gets. */
  function AcksOf(turns: seq<Turn>, k: nat): nat {
    if k < |Handled(turns)| then Count(Handled(turns)[k].trace, Ack) else 0
  }

  /**
   * One unanswerable command costs the whole rest of its batch: command k is acknowledged exactly
   * once when no command up to and including it is unanswerable, and not at all otherwise.
   */
  lemma {:induction false} AcknowledgedUpToFirstRaise(turns: seq<Turn>, k: nat)
    requires k < |turns|
    ensures AcksOf(turns, k)
         == if exists m :: 0 <= m <= k && Unanswerable(turns[m].devices, turns[m].command) then 0 else 1
  {
    hide Unanswerable, Executed, Count;
    AnsweredExactlyOnce(turns[0].devices, turns[0].command, turns[0].link);
    if k > 0 {
      AcknowledgedUpToFirstRaise(turns[1..], k - 1);
      assert forall m :: 0 < m <= k ==> turns[m] == turns[1..][m - 1];
      if m :| 0 < m <= k && Unanswerable(turns[m].devices, turns[m].command) {
        assert Unanswerable(turns[1..][m - 1].devices, turns[1..][m - 1].command);
      }
    }
  }
}
