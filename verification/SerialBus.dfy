/**
 * Locks, serial handles and abandoned close threads, for any number of threads and devices.
 * A thread is a program counter; each of its steps takes at most one lock or drops one.
 */
module SerialBus {
  import opened Common

  // ----- Threads -----

  datatype Leaf = QueueDb | HistoryDb | Readings | Rules | PendingCloses | Configuration

  datatype Lock = Device(id: int) | Bus | LeafLock(leaf: Leaf)

  datatype Role = Poll | Command

  datatype Session = Session(role: Role, device: int, serial: bool)

  type Client = nat

  /** Where a thread is inside `run_device` or `execute_command`. `held` says whether a leaf lock is taken. */
  datatype Stage =
    | WantDevice
    | Entered
    | WantBus
    | Reaping(held: bool)
    | Creating
    | Connecting(client: Client)
    | Using(client: Client, left: nat)
    | Saving(client: Client, left: nat, leaf: Leaf, held: bool)
    | LeavingBus(leftOpen: Option<Client>)
    | Outside(client: Client)
    | CloseReaping(client: Client, held: bool)
    | Joining(client: Client)
    | Appending(client: Client, held: bool)
    | LeavingDevice

  /** `Leafing` is any call that takes one leaf lock on its own: flush, cleanup, evaluator, configuration. */
  datatype Pc = Resting | Leafing(leaf: Leaf, held: bool) | In(session: Session, stage: Stage)

  /**
   * `open` holds the clients whose serial handle is open, `closers` those whose close thread is alive,
   * `pending` is the list of abandoned close threads; `connected`, a history, holds the clients whose
   * serial connect succeeded.
   */
  datatype State = State(
    threads: seq<Pc>,
    owner: map<Lock, nat>,
    nextClient: Client,
    open: set<Client>,
    closers: set<Client>,
    pending: seq<Client>,
    connected: set<Client>)

  /** `Go` carries the outcome of whatever the thread is waiting for, and how many tags are due. */
  datatype Move =
    | StartPoll(device: int, serial: bool)
    | StartCommand(device: int, serial: bool)
    | StartLeaf(leaf: Leaf)
    | Go(ok: bool, due: nat)

  datatype Step = Thread(t: nat, move: Move) | CloserDone(client: Client)

  datatype LockChange = Keep | Take(lock: Lock) | Drop(lock: Lock)

  datatype Doing = Nothing | Create | Open(client: Client) | Reap | StartClose(client: Client) | Abandon(client: Client)

  datatype Effect = Effect(pc: Pc, change: LockChange, doing: Doing)

  function Init(n: nat): State {
    State(seq(n, _ => Resting), map[], 0, {}, {}, [], {})
  }

  // ----- What a thread does next -----

  function Closed(session: Session): Pc {
    In(session, if session.role == Poll then LeavingBus(None) else LeavingDevice)
  }

  /** `save_telemetry` takes the queue, history and readings locks one after the other. */
  function AfterSave(session: Session, client: Client, left: nat, leaf: Leaf, ok: bool): Pc {
    match leaf
    case QueueDb => In(session, if ok then Saving(client, left, HistoryDb, false) else Using(client, left))
    case HistoryDb => In(session, Saving(client, left, Readings, false))
    case _ => In(session, Using(client, left))
  }

  function AfterUse(session: Session, client: Client, left: nat, ok: bool): Pc {
    if session.role == Poll then
      In(session, if left == 0 then CloseReaping(client, false)
                  else if ok then Saving(client, left - 1, QueueDb, false)
                  else Using(client, left - 1))
    else In(session, if left > 0 && ok then Using(client, left - 1) else LeavingBus(Some(client)))
  }

  function Advance(s: State, session: Session, stage: Stage, ok: bool, due: nat): Effect {
    match stage
    case WantDevice => Effect(In(session, Entered), Take(Device(session.device)), Nothing)
    case Entered =>
      if session.role == Poll && !ok then Effect(In(session, LeavingDevice), Keep, Nothing)
      else Effect(In(session, if session.serial then WantBus else Creating), Keep, Nothing)
    case WantBus => Effect(In(session, Reaping(false)), Take(Bus), Nothing)
    case Reaping(held) =>
      if !held then Effect(In(session, Reaping(true)), Take(LeafLock(PendingCloses)), Nothing)
      else Effect(In(session, Creating), Drop(LeafLock(PendingCloses)), Reap)
    case Creating =>
      if ok then Effect(In(session, Connecting(s.nextClient)), Keep, Create)
      else Effect(In(session, LeavingBus(None)), Keep, Nothing)
    case Connecting(client) =>
      if ok then
        Effect(In(session, Using(client, if session.role == Poll then due else 1)), Keep,
               if session.serial then Open(client) else Nothing)
      else Effect(In(session, LeavingBus(if session.role == Poll then None else Some(client))), Keep, Nothing)
    case Using(client, left) => Effect(AfterUse(session, client, left, ok), Keep, Nothing)
    case Saving(client, left, leaf, held) =>
      if !held then Effect(In(session, Saving(client, left, leaf, true)), Take(LeafLock(leaf)), Nothing)
      else Effect(AfterSave(session, client, left, leaf, ok), Drop(LeafLock(leaf)), Nothing)
    case LeavingBus(leftOpen) =>
      Effect(In(session, if leftOpen.Some? then Outside(leftOpen.value) else LeavingDevice),
             if session.serial then Drop(Bus) else Keep, Nothing)
    case Outside(client) => Effect(In(session, CloseReaping(client, false)), Keep, Nothing)
    case CloseReaping(client, held) =>
      if !held then Effect(In(session, CloseReaping(client, true)), Take(LeafLock(PendingCloses)), Nothing)
      else Effect(In(session, Joining(client)), Drop(LeafLock(PendingCloses)), StartClose(client))
    case Joining(client) =>
      if client in s.closers then Effect(In(session, Appending(client, false)), Keep, Nothing)
      else Effect(Closed(session), Keep, Nothing)
    case Appending(client, held) =>
      if !held then Effect(In(session, Appending(client, true)), Take(LeafLock(PendingCloses)), Nothing)
      else Effect(Closed(session), Drop(LeafLock(PendingCloses)), Abandon(client))
    case LeavingDevice => Effect(Resting, Drop(Device(session.device)), Nothing)
  }

  /** The effect of a thread's move; the poller only tries the device lock, a command waits for it. */
  function Next(s: State, pc: Pc, move: Move): Effect {
    match (pc, move)
    case (Resting, StartPoll(device, serial)) =>
      if Device(device) in s.owner then Effect(Resting, Keep, Nothing)
      else Effect(In(Session(Poll, device, serial), Entered), Take(Device(device)), Nothing)
    case (Resting, StartCommand(device, serial)) =>
      Effect(In(Session(Command, device, serial), WantDevice), Keep, Nothing)
    case (Resting, StartLeaf(leaf)) => Effect(Leafing(leaf, false), Keep, Nothing)
    case (Leafing(leaf, held), Go(_, _)) =>
      if !held then Effect(Leafing(leaf, true), Take(LeafLock(leaf)), Nothing)
      else Effect(Resting, Drop(LeafLock(leaf)), Nothing)
    case (In(session, stage), Go(ok, due)) => Advance(s, session, stage, ok, due)
    case _ => Effect(pc, Keep, Nothing)
  }

  function Alive(pending: seq<Client>, closers: set<Client>): seq<Client> {
    if pending == [] then []
    else
      var last := pending[|pending| - 1];
      Alive(pending[..|pending| - 1], closers) + (if last in closers then [last] else [])
  }

  function ChangeLocks(owner: map<Lock, nat>, change: LockChange, t: nat): map<Lock, nat> {
    match change
    case Keep => owner
    case Take(lock) => owner[lock := t]
    case Drop(lock) => owner - {lock}
  }

  function Do(s: State, doing: Doing): State {
    match doing
    case Nothing => s
    case Create => s.(nextClient := s.nextClient + 1)
    case Open(client) => s.(open := s.open + {client}, connected := s.connected + {client})
    case Reap => s.(pending := Alive(s.pending, s.closers))
    case StartClose(client) =>
      s.(pending := Alive(s.pending, s.closers), closers := s.closers + {client})
    case Abandon(client) => s.(pending := s.pending + [client])
  }

  predicate Enabled(s: State, step: Step) {
    match step
    case Thread(t, move) =>
      t < |s.threads| &&
      var change := Next(s, s.threads[t], move).change;
      change.Take? ==> change.lock !in s.owner
    case CloserDone(client) => client in s.closers
  }

  function Apply(s: State, step: Step): State
    requires Enabled(s, step)
  {
    match step
    case Thread(t, move) =>
      var effect := Next(s, s.threads[t], move);
      Do(s.(threads := s.threads[t := effect.pc], owner := ChangeLocks(s.owner, effect.change, t)), effect.doing)
    case CloserDone(client) => s.(closers := s.closers - {client}, open := s.open - {client})
  }

  ghost predicate Possible(s: State, steps: seq<Step>)
    decreases |steps|
  {
    steps == [] || (Enabled(s, steps[0]) && Possible(Apply(s, steps[0]), steps[1..]))
  }

  ghost function Run(s: State, steps: seq<Step>): State
    requires Possible(s, steps)
    decreases |steps|
  {
    if steps == [] then s else Run(Apply(s, steps[0]), steps[1..])
  }

  // ----- Who holds what -----

  predicate BusStage(role: Role, stage: Stage) {
    match stage
    case Reaping(_) => true
    case Creating => true
    case Connecting(_) => true
    case Using(_, _) => true
    case Saving(_, _, _, _) => true
    case LeavingBus(_) => true
    case CloseReaping(_, _) => role == Poll
    case Joining(_) => role == Poll
    case Appending(_, _) => role == Poll
    case _ => false
  }

  function LeafOf(stage: Stage): Option<(Leaf, bool)> {
    match stage
    case Reaping(held) => Some((PendingCloses, held))
    case Saving(_, _, leaf, held) => Some((leaf, held))
    case CloseReaping(_, held) => Some((PendingCloses, held))
    case Appending(_, held) => Some((PendingCloses, held))
    case _ => None
  }

  function Held(pc: Pc): set<Lock> {
    match pc
    case Resting => {}
    case Leafing(leaf, held) => if held then {LeafLock(leaf)} else {}
    case In(session, stage) =>
      (if stage.WantDevice? then {} else {Device(session.device)})
      + (if session.serial && BusStage(session.role, stage) then {Bus} else {})
      + (if LeafOf(stage).Some? && LeafOf(stage).value.1 then {LeafLock(LeafOf(stage).value.0)} else {})
  }

  /** The lock a thread is blocked on until it is free. */
  function Wants(pc: Pc): Option<Lock> {
    match pc
    case Resting => None
    case Leafing(leaf, held) => if held then None else Some(LeafLock(leaf))
    case In(session, stage) =>
      if stage.WantDevice? then Some(Device(session.device))
      else if stage.WantBus? then Some(Bus)
      else if LeafOf(stage).Some? && !LeafOf(stage).value.1 then Some(LeafLock(LeafOf(stage).value.0))
      else None
  }

  ghost predicate Owns(s: State, lock: Lock, t: nat) {
    lock in s.owner && s.owner[lock] == t
  }

  /** The owner table says exactly what the program counters say. */
  ghost predicate LocksAgree(s: State) {
    forall lock, t: nat :: Owns(s, lock, t) <==> t < |s.threads| && lock in Held(s.threads[t])
  }

  /** A command never saves, the poller never waits for a device or leaves the bus with a client still to close. */
  predicate PcOk(pc: Pc) {
    pc.In? ==>
      match pc.stage
      case Saving(_, _, _, _) => pc.session.role == Poll
      case LeavingBus(leftOpen) => pc.session.role == Poll ==> leftOpen.None?
      case Outside(_) => pc.session.role == Command
      case WantDevice => pc.session.role == Command
      case WantBus => pc.session.serial
      case Reaping(_) => pc.session.serial
      case _ => true
  }

  lemma ThreadEffectKeepsLocks(s: State, pc: Pc, move: Move)
    requires PcOk(pc)
    ensures var effect := Next(s, pc, move);
            && PcOk(effect.pc)
            && (match effect.change
                case Keep => Held(effect.pc) == Held(pc)
                case Take(lock) => lock !in Held(pc) && Held(effect.pc) == Held(pc) + {lock}
                case Drop(lock) => lock in Held(pc) && Held(effect.pc) == Held(pc) - {lock})
  {
  }

  ghost predicate ThreadsOk(s: State) {
    LocksAgree(s) && forall t :: 0 <= t < |s.threads| ==> PcOk(s.threads[t])
  }

  lemma StepKeepsThreads(s: State, step: Step)
    requires ThreadsOk(s) && Enabled(s, step)
    ensures ThreadsOk(Apply(s, step)) && |Apply(s, step).threads| == |s.threads|
  {
    var s' := Apply(s, step);
    if step.CloserDone? {
      assert forall lock, t: nat :: Owns(s', lock, t) <==> Owns(s, lock, t);
      return;
    }
    var t, move := step.t, step.move;
    var effect := Next(s, s.threads[t], move);
    ThreadEffectKeepsLocks(s, s.threads[t], move);
    assert s'.threads == s.threads[t := effect.pc] && s'.owner == ChangeLocks(s.owner, effect.change, t);
    forall lock, t': nat ensures Owns(s', lock, t') <==> t' < |s'.threads| && lock in Held(s'.threads[t']) {
      assert Owns(s, lock, t') <==> t' < |s.threads| && lock in Held(s.threads[t']);
      assert Owns(s, lock, t) <==> lock in Held(s.threads[t]);
      if effect.change != Keep {
        assert Owns(s, effect.change.lock, t') <==> t' < |s.threads| && effect.change.lock in Held(s.threads[t']);
      }
    }
  }

  lemma {:induction false} RunKeepsThreads(s: State, steps: seq<Step>)
    requires ThreadsOk(s) && Possible(s, steps)
    ensures ThreadsOk(Run(s, steps)) && |Run(s, steps).threads| == |s.threads|
    decreases |steps|
  {
    if steps != [] {
      StepKeepsThreads(s, steps[0]);
      RunKeepsThreads(Apply(s, steps[0]), steps[1..]);
    }
  }

  lemma ReachableThreadsOk(n: nat, steps: seq<Step>)
    requires Possible(Init(n), steps)
    ensures ThreadsOk(Run(Init(n), steps)) && |Run(Init(n), steps).threads| == n
  {
    RunKeepsThreads(Init(n), steps);
  }

  // ----- Mutual exclusion and deadlock -----

  /** The thread is issuing a connect, read or write request on the serial bus. */
  predicate OnTheWire(pc: Pc) {
    pc.In? && pc.session.serial && (pc.stage.Connecting? || (pc.stage.Using? && pc.stage.left > 0))
  }

  /** In every reachable state at most one thread is connecting, reading or writing on the bus. */
  lemma OneThreadOnTheWire(n: nat, steps: seq<Step>, t: nat, t': nat)
    requires Possible(Init(n), steps) && t < |Run(Init(n), steps).threads| && t' < |Run(Init(n), steps).threads|
    requires OnTheWire(Run(Init(n), steps).threads[t]) && OnTheWire(Run(Init(n), steps).threads[t'])
    ensures t == t'
  {
    ReachableThreadsOk(n, steps);
    var s := Run(Init(n), steps);
    assert Owns(s, Bus, t) && Owns(s, Bus, t');
  }

  /**
   * Who takes which lock, in every reachable state: only a command ever waits for a device, holding
   * nothing; only serial sessions wait for the bus or hold it, each with its own device held; only the
   * poller keeps the bus once its client is being closed.
   */
  lemma LockDiscipline(n: nat, steps: seq<Step>, t: nat)
    requires Possible(Init(n), steps) && t < |Run(Init(n), steps).threads|
    ensures var s := Run(Init(n), steps);
            var pc := s.threads[t];
            && (Wants(pc).Some? && Wants(pc).value.Device? ==>
                  pc.In? && pc.session.role == Command && forall lock :: !Owns(s, lock, t))
            && (Owns(s, Bus, t) || Wants(pc) == Some(Bus) ==>
                  pc.In? && pc.session.serial && Owns(s, Device(pc.session.device), t))
            && (pc.In? && pc.session.serial && pc.stage.Joining? ==>
                  (Owns(s, Bus, t) <==> pc.session.role == Poll))
  {
    ReachableThreadsOk(n, steps);
    var s := Run(Init(n), steps);
    var pc := s.threads[t];
    forall lock ensures Owns(s, lock, t) <==> lock in Held(pc) {
    }
  }

  // ----- The locks of one session, in order -----

  /** Where a thread gets with these moves while everything else stands still. */
  function PcAfter(s: State, pc: Pc, moves: seq<Move>): Pc
    decreases |moves|
  {
    if moves == [] then pc else PcAfter(s, Next(s, pc, moves[0]).pc, moves[1..])
  }

  /** The locks it takes and drops on the way. */
  function LockChanges(s: State, pc: Pc, moves: seq<Move>): seq<LockChange>
    decreases |moves|
  {
    if moves == [] then []
    else
      var effect := Next(s, pc, moves[0]);
      (if effect.change == Keep then [] else [effect.change]) + LockChanges(s, effect.pc, moves[1..])
  }

  function Gos(n: nat, due: nat): seq<Move> {
    seq(n, _ => Go(true, due))
  }

  lemma OneMove(s: State, pc: Pc, move: Move, moves: seq<Move>)
    ensures var effect := Next(s, pc, move);
            && PcAfter(s, pc, [move] + moves) == PcAfter(s, effect.pc, moves)
            && LockChanges(s, pc, [move] + moves)
               == (if effect.change == Keep then [] else [effect.change]) + LockChanges(s, effect.pc, moves)
  {
    hide Next;
    assert ([move] + moves)[1..] == moves;
  }

  lemma OneGo(s: State, pc: Pc, n: nat, due: nat)
    requires n > 0
    ensures var effect := Next(s, pc, Go(true, due));
            && PcAfter(s, pc, Gos(n, due)) == PcAfter(s, effect.pc, Gos(n - 1, due))
            && LockChanges(s, pc, Gos(n, due))
               == (if effect.change == Keep then [] else [effect.change]) + LockChanges(s, effect.pc, Gos(n - 1, due))
  {
    hide Next;
    OneMove(s, pc, Go(true, due), Gos(n - 1, due));
    assert Gos(n, due) == [Go(true, due)] + Gos(n - 1, due);
  }

  /** These n moves lead from one program counter to the other, with these changes of locks. */
  predicate Leads(s: State, pc: Pc, n: nat, due: nat, pc': Pc, changes: seq<LockChange>) {
    PcAfter(s, pc, Gos(n, due)) == pc' && LockChanges(s, pc, Gos(n, due)) == changes
  }

  lemma NoGo(s: State, pc: Pc, due: nat)
    ensures Leads(s, pc, 0, due, pc, [])
  {
    assert Gos(0, due) == [];
  }

  lemma {:induction false} LeadsOn(
    s: State, pc: Pc, n: nat, m: nat, due: nat, pc1: Pc, changes1: seq<LockChange>, pc2: Pc, changes2: seq<LockChange>)
    requires Leads(s, pc, n, due, pc1, changes1) && Leads(s, pc1, m, due, pc2, changes2)
    ensures Leads(s, pc, n + m, due, pc2, changes1 + changes2)
    decreases n
  {
    hide Next, PcAfter, LockChanges, Gos;
    if n == 0 {
      NoGo(s, pc, due);
      assert [] + changes2 == changes2;
    } else {
      OneGo(s, pc, n, due);
      OneGo(s, pc, n + m, due);
      var effect := Next(s, pc, Go(true, due));
      var first := if effect.change == Keep then [] else [effect.change];
      var rest := LockChanges(s, effect.pc, Gos(n - 1, due));
      LeadsOn(s, effect.pc, n - 1, m, due, pc1, rest, pc2, changes2);
      assert first + rest + changes2 == first + (rest + changes2);
    }
  }

  lemma GoFirst(s: State, pc: Pc, n: nat, due: nat, pc1: Pc, pc': Pc, changes: seq<LockChange>)
    requires Next(s, pc, Go(true, due)).pc == pc1 && Next(s, pc, Go(true, due)).change == Keep
    requires Leads(s, pc1, n, due, pc', changes)
    ensures Leads(s, pc, n + 1, due, pc', changes)
  {
    hide Next;
    OneGo(s, pc, n + 1, due);
    assert [] + changes == changes;
  }

  lemma LockFirst(s: State, pc: Pc, n: nat, due: nat, pc1: Pc, lock: Lock, pc': Pc, changes: seq<LockChange>)
    requires Next(s, pc, Go(true, due)).pc == pc1 && Next(s, pc, Go(true, due)).change == Take(lock)
    requires Leads(s, pc1, n, due, pc', changes)
    ensures Leads(s, pc, n + 1, due, pc', [Take(lock)] + changes)
  {
    hide Next;
    OneGo(s, pc, n + 1, due);
  }

  lemma DropFirst(s: State, pc: Pc, n: nat, due: nat, pc1: Pc, lock: Lock, pc': Pc, changes: seq<LockChange>)
    requires Next(s, pc, Go(true, due)).pc == pc1 && Next(s, pc, Go(true, due)).change == Drop(lock)
    requires Leads(s, pc1, n, due, pc', changes)
    ensures Leads(s, pc, n + 1, due, pc', [Drop(lock)] + changes)
  {
    hide Next;
    OneGo(s, pc, n + 1, due);
  }

  function TakeDrop(leaf: Leaf): seq<LockChange> {
    [Take(LeafLock(leaf)), Drop(LeafLock(leaf))]
  }

  /** A reading that works out is saved under the queue, history and readings locks, one after the other. */
  function SavedReadings(n: nat): seq<LockChange> {
    if n == 0 then []
    else TakeDrop(QueueDb) + TakeDrop(HistoryDb) + TakeDrop(Readings) + SavedReadings(n - 1)
  }

  lemma LeafFirst(
    s: State, pc: Pc, n: nat, due: nat, pc1: Pc, leaf: Leaf, pc2: Pc, pc': Pc, changes: seq<LockChange>)
    requires Next(s, pc, Go(true, due)).pc == pc1 && Next(s, pc, Go(true, due)).change == Take(LeafLock(leaf))
    requires Next(s, pc1, Go(true, due)).pc == pc2 && Next(s, pc1, Go(true, due)).change == Drop(LeafLock(leaf))
    requires Leads(s, pc2, n, due, pc', changes)
    ensures Leads(s, pc, n + 2, due, pc', TakeDrop(leaf) + changes)
  {
    hide Next, Leads;
    DropFirst(s, pc1, n, due, pc2, LeafLock(leaf), pc', changes);
    LockFirst(s, pc, n + 1, due, pc1, LeafLock(leaf), pc', [Drop(LeafLock(leaf))] + changes);
    assert [Take(LeafLock(leaf))] + ([Drop(LeafLock(leaf))] + changes) == TakeDrop(leaf) + changes;
  }

  lemma OneReading(s: State, session: Session, client: Client, left: nat, due: nat)
    requires session.role == Poll && left > 0
    ensures Leads(s, In(session, Using(client, left)), 7, due, In(session, Using(client, left - 1)),
                  TakeDrop(QueueDb) + (TakeDrop(HistoryDb) + (TakeDrop(Readings) + [])))
  {
    hide Leads, TakeDrop;
    var saving := (leaf, held) => In(session, Saving(client, left - 1, leaf, held));
    var done := In(session, Using(client, left - 1));
    var readings := TakeDrop(Readings) + [];
    NoGo(s, done, due);
    LeafFirst(s, saving(Readings, false), 0, due, saving(Readings, true), Readings, done, done, []);
    LeafFirst(s, saving(HistoryDb, false), 2, due, saving(HistoryDb, true), HistoryDb, saving(Readings, false), done,
              readings);
    LeafFirst(s, saving(QueueDb, false), 4, due, saving(QueueDb, true), QueueDb, saving(HistoryDb, false), done,
              TakeDrop(HistoryDb) + readings);
    GoFirst(s, In(session, Using(client, left)), 6, due, saving(QueueDb, false), done,
            TakeDrop(QueueDb) + (TakeDrop(HistoryDb) + readings));
  }

  lemma {:induction false} AllReadings(s: State, session: Session, client: Client, left: nat, due: nat)
    requires session.role == Poll
    ensures Leads(s, In(session, Using(client, left)), 7 * left, due, In(session, Using(client, 0)),
                  SavedReadings(left))
    decreases left
  {
    hide Leads, TakeDrop;
    if left == 0 {
      NoGo(s, In(session, Using(client, 0)), due);
    } else {
      OneReading(s, session, client, left, due);
      AllReadings(s, session, client, left - 1, due);
      var saved := TakeDrop(QueueDb) + (TakeDrop(HistoryDb) + (TakeDrop(Readings) + []));
      assert saved == TakeDrop(QueueDb) + TakeDrop(HistoryDb) + TakeDrop(Readings);
      LeadsOn(s, In(session, Using(client, left)), 7, 7 * (left - 1), due, In(session, Using(client, left - 1)), saved,
              In(session, Using(client, 0)), SavedReadings(left - 1));
    }
  }

  /** From wanting the bus to using a client. */
  lemma Connects(s: State, session: Session, due: nat)
    requires session.serial
    ensures Leads(s, In(session, WantBus), 5, due,
                  In(session, Using(s.nextClient, if session.role == Poll then due else 1)),
                  [Take(Bus)] + (TakeDrop(PendingCloses) + []))
  {
    hide Leads, TakeDrop;
    var at := (stage: Stage) => In(session, stage);
    var using := at(Using(s.nextClient, if session.role == Poll then due else 1));
    NoGo(s, using, due);
    GoFirst(s, at(Connecting(s.nextClient)), 0, due, using, using, []);
    GoFirst(s, at(Creating), 1, due, at(Connecting(s.nextClient)), using, []);
    LeafFirst(s, at(Reaping(false)), 2, due, at(Reaping(true)), PendingCloses, at(Creating), using, []);
    LockFirst(s, at(WantBus), 4, due, at(Reaping(false)), Bus, using, TakeDrop(PendingCloses) + []);
  }

  lemma PollerCloses(s: State, session: Session, client: Client, due: nat)
    requires session.role == Poll && session.serial && client !in s.closers
    ensures Leads(s, In(session, Using(client, 0)), 6, due, Resting,
                  TakeDrop(PendingCloses) + ([Drop(Bus)] + ([Drop(Device(session.device))] + [])))
  {
    hide Leads, TakeDrop;
    var at := (stage: Stage) => In(session, stage);
    var leaving := [Drop(Device(session.device))] + [];
    NoGo(s, Resting, due);
    DropFirst(s, at(LeavingDevice), 0, due, Resting, Device(session.device), Resting, []);
    DropFirst(s, at(LeavingBus(None)), 1, due, at(LeavingDevice), Bus, Resting, leaving);
    GoFirst(s, at(Joining(client)), 2, due, at(LeavingBus(None)), Resting, [Drop(Bus)] + leaving);
    LeafFirst(s, at(CloseReaping(client, false)), 3, due, at(CloseReaping(client, true)), PendingCloses,
              at(Joining(client)), Resting, [Drop(Bus)] + leaving);
    GoFirst(s, at(Using(client, 0)), 5, due, at(CloseReaping(client, false)), Resting,
            TakeDrop(PendingCloses) + ([Drop(Bus)] + leaving));
  }

  lemma CommandCloses(s: State, session: Session, client: Client, due: nat)
    requires session.role == Command && session.serial && client !in s.closers
    ensures Leads(s, In(session, Using(client, 1)), 8, due, Resting,
                  [Drop(Bus)] + (TakeDrop(PendingCloses) + ([Drop(Device(session.device))] + [])))
  {
    hide Leads, TakeDrop;
    var at := (stage: Stage) => In(session, stage);
    var leaving := [Drop(Device(session.device))] + [];
    NoGo(s, Resting, due);
    DropFirst(s, at(LeavingDevice), 0, due, Resting, Device(session.device), Resting, []);
    GoFirst(s, at(Joining(client)), 1, due, at(LeavingDevice), Resting, leaving);
    LeafFirst(s, at(CloseReaping(client, false)), 2, due, at(CloseReaping(client, true)), PendingCloses,
              at(Joining(client)), Resting, leaving);
    GoFirst(s, at(Outside(client)), 4, due, at(CloseReaping(client, false)), Resting,
            TakeDrop(PendingCloses) + leaving);
    DropFirst(s, at(LeavingBus(Some(client))), 5, due, at(Outside(client)), Bus, Resting,
              TakeDrop(PendingCloses) + leaving);
    GoFirst(s, at(Using(client, 0)), 6, due, at(LeavingBus(Some(client))), Resting,
            [Drop(Bus)] + (TakeDrop(PendingCloses) + leaving));
    GoFirst(s, at(Using(client, 1)), 7, due, at(Using(client, 0)), Resting,
            [Drop(Bus)] + (TakeDrop(PendingCloses) + leaving));
  }

  /**
   * The locks of a poll of `due` tags that all work out: device, bus, each leaf on its own, and the bus
   * is dropped only when the client is closed.
   */
  lemma PollSessionLocks(s: State, device: int, due: nat)
    requires Device(device) !in s.owner && s.nextClient !in s.closers
    ensures var moves := [StartPoll(device, true), Go(true, due)] + Gos(5 + 7 * due + 6, due);
            && PcAfter(s, Resting, moves) == Resting
            && LockChanges(s, Resting, moves)
               == [Take(Device(device)), Take(Bus)] + TakeDrop(PendingCloses) + SavedReadings(due)
                  + TakeDrop(PendingCloses) + [Drop(Bus), Drop(Device(device))]
  {
    var session, client := Session(Poll, device, true), s.nextClient;
    var gos := Gos(5 + 7 * due + 6, due);
    assert Next(s, Resting, StartPoll(device, true)) == Effect(In(session, Entered), Take(Device(device)), Nothing);
    assert Next(s, In(session, Entered), Go(true, due)) == Effect(In(session, WantBus), Keep, Nothing);
    hide Next, PcAfter, LockChanges, TakeDrop, SavedReadings, Gos;
    assert [StartPoll(device, true), Go(true, due)] + gos == [StartPoll(device, true)] + ([Go(true, due)] + gos);
    OneMove(s, Resting, StartPoll(device, true), [Go(true, due)] + gos);
    OneMove(s, In(session, Entered), Go(true, due), gos);
    PollLeads(s, session, due);
    PollerCloses(s, session, client, due);
    var opening := [Take(Bus)] + (TakeDrop(PendingCloses) + []) + SavedReadings(due);
    var closing := TakeDrop(PendingCloses) + ([Drop(Bus)] + ([Drop(Device(device))] + []));
    LeadsOn(s, In(session, WantBus), 5 + 7 * due, 6, due, In(session, Using(client, 0)), opening, Resting, closing);
    InOrder(device, TakeDrop(PendingCloses), SavedReadings(due));
  }

  lemma InOrder(device: int, reaping: seq<LockChange>, saved: seq<LockChange>)
    ensures [Take(Device(device))]
            + ([] + ([Take(Bus)] + (reaping + []) + saved + (reaping + ([Drop(Bus)] + ([Drop(Device(device))] + [])))))
         == [Take(Device(device)), Take(Bus)] + reaping + saved + reaping + [Drop(Bus), Drop(Device(device))]
  {
    assert [Drop(Bus)] + ([Drop(Device(device))] + []) == [Drop(Bus), Drop(Device(device))];
    assert [Take(Device(device))] + [Take(Bus)] == [Take(Device(device)), Take(Bus)];
    assert reaping + [] == reaping;
  }

  lemma PollLeads(s: State, session: Session, due: nat)
    requires session.role == Poll && session.serial
    ensures Leads(s, In(session, WantBus), 5 + 7 * due, due, In(session, Using(s.nextClient, 0)),
                  [Take(Bus)] + (TakeDrop(PendingCloses) + []) + SavedReadings(due))
  {
    hide Leads, TakeDrop, SavedReadings;
    Connects(s, session, due);
    AllReadings(s, session, s.nextClient, due, due);
    LeadsOn(s, In(session, WantBus), 5, 7 * due, due, In(session, Using(s.nextClient, due)),
            [Take(Bus)] + (TakeDrop(PendingCloses) + []), In(session, Using(s.nextClient, 0)), SavedReadings(due));
  }

  /** The locks of a command: one write, and the bus is dropped before its client is closed. */
  lemma CommandSessionLocks(s: State, device: int, ok: bool, due: nat)
    requires s.nextClient !in s.closers
    ensures var moves := [StartCommand(device, true), Go(ok, due), Go(ok, due)] + Gos(5 + 8, due);
            && PcAfter(s, Resting, moves) == Resting
            && LockChanges(s, Resting, moves)
               == [Take(Device(device)), Take(Bus)] + TakeDrop(PendingCloses)
                  + [Drop(Bus)] + TakeDrop(PendingCloses) + [Drop(Device(device))]
  {
    var session, client := Session(Command, device, true), s.nextClient;
    var gos := Gos(5 + 8, due);
    assert Next(s, Resting, StartCommand(device, true)) == Effect(In(session, WantDevice), Keep, Nothing);
    assert Next(s, In(session, WantDevice), Go(ok, due))
        == Effect(In(session, Entered), Take(Device(device)), Nothing);
    assert Next(s, In(session, Entered), Go(ok, due)) == Effect(In(session, WantBus), Keep, Nothing);
    hide Next, PcAfter, LockChanges, TakeDrop, Gos;
    assert [StartCommand(device, true), Go(ok, due), Go(ok, due)] + gos
        == [StartCommand(device, true)] + ([Go(ok, due)] + ([Go(ok, due)] + gos));
    OneMove(s, Resting, StartCommand(device, true), [Go(ok, due)] + ([Go(ok, due)] + gos));
    OneMove(s, In(session, WantDevice), Go(ok, due), [Go(ok, due)] + gos);
    OneMove(s, In(session, Entered), Go(ok, due), gos);
    Connects(s, session, due);
    CommandCloses(s, session, client, due);
    LeadsOn(s, In(session, WantBus), 5, 8, due, In(session, Using(client, 1)),
            [Take(Bus)] + (TakeDrop(PendingCloses) + []), Resting,
            [Drop(Bus)] + (TakeDrop(PendingCloses) + ([Drop(Device(device))] + [])));
  }

  // ----- The order of the locks -----

  function Rank(lock: Lock): nat {
    match lock
    case Device(_) => 0
    case Bus => 1
    case LeafLock(_) => 2
  }

  /** Locks are taken in order: device, then bus, then one leaf. */
  lemma LockOrder(pc: Pc)
    ensures Wants(pc).Some? ==> forall lock :: lock in Held(pc) ==> Rank(lock) < Rank(Wants(pc).value)
    ensures forall lock, lock' :: lock in Held(pc) && lock' in Held(pc) && Rank(lock) == Rank(lock') ==> lock == lock'
  {
  }

  ghost predicate Blocked(s: State, t: nat)
    requires t < |s.threads|
  {
    Wants(s.threads[t]).Some? && Wants(s.threads[t]).value in s.owner
  }

  /** Follow a blocked holder to the holder of what it wants: the rank grows, so the chain ends. */
  lemma {:induction false} SomeHolderIsFree(s: State, t: nat, rank: nat) returns (t': nat)
    requires ThreadsOk(s) && t < |s.threads|
    requires exists lock :: lock in Held(s.threads[t]) && Rank(lock) >= rank
    ensures t' < |s.threads| && Held(s.threads[t']) != {} && !Blocked(s, t')
    decreases 3 - rank
  {
    LockOrder(s.threads[t]);
    if Blocked(s, t) {
      var wanted := Wants(s.threads[t]).value;
      var holder := s.owner[wanted];
      assert Owns(s, wanted, holder);
      t' := SomeHolderIsFree(s, holder, rank + 1);
    } else {
      t' := t;
    }
  }

  lemma UnblockedCanStep(s: State, t: nat)
    requires ThreadsOk(s) && t < |s.threads| && !Blocked(s, t)
    ensures Enabled(s, Thread(t, Go(false, 0)))
  {
  }

  lemma SomeHolderCanStep(s: State, lock: Lock)
    requires ThreadsOk(s) && lock in s.owner
    ensures exists t :: 0 <= t < |s.threads| && Held(s.threads[t]) != {} && Enabled(s, Thread(t, Go(false, 0)))
  {
    assert Owns(s, lock, s.owner[lock]);
    var t := SomeHolderIsFree(s, s.owner[lock], 0);
    UnblockedCanStep(s, t);
  }

  /** No deadlock: in every reachable state where a lock is held, some thread that holds one can step. */
  lemma NoDeadlock(n: nat, steps: seq<Step>, lock: Lock)
    requires Possible(Init(n), steps) && lock in Run(Init(n), steps).owner
    ensures var s := Run(Init(n), steps);
            exists t :: 0 <= t < |s.threads| && Held(s.threads[t]) != {} && Enabled(s, Thread(t, Go(false, 0)))
  {
    ReachableThreadsOk(n, steps);
    SomeHolderCanStep(Run(Init(n), steps), lock);
  }

  // ----- Every lock can always be released -----

  /** A bound on the steps left in a session when no connection finds more than `due` tags due. */
  function Remaining(pc: Pc, due: nat): nat {
    match pc
    case Resting => 0
    case Leafing(_, held) => if held then 1 else 2
    case In(_, stage) =>
      match stage
      case LeavingDevice => 1
      case LeavingBus(leftOpen) => if leftOpen.None? then 2 else 10
      case Appending(_, held) => if held then 3 else 4
      case Joining(_) => 5
      case CloseReaping(_, held) => if held then 7 else 8
      case Outside(_) => 9
      case Using(_, left) => 11 + 8 * left
      case Saving(_, left, leaf, held) =>
        11 + 8 * left + (if leaf == QueueDb then 5 else if leaf == HistoryDb then 3 else 1) + (if held then 0 else 1)
      case Connecting(_) => 12 + 8 * Max(due, 1)
      case Creating => 13 + 8 * Max(due, 1)
      case Reaping(held) => 8 * Max(due, 1) + (if held then 14 else 15)
      case WantBus => 16 + 8 * Max(due, 1)
      case Entered => 17 + 8 * Max(due, 1)
      case WantDevice => 18 + 8 * Max(due, 1)
  }

  function TotalRemaining(threads: seq<Pc>, due: nat): nat {
    if threads == [] then 0
    else TotalRemaining(threads[..|threads| - 1], due) + Remaining(threads[|threads| - 1], due)
  }

  lemma {:induction false} TotalUpdate(threads: seq<Pc>, t: nat, pc: Pc, due: nat)
    requires t < |threads|
    ensures TotalRemaining(threads[t := pc], due)
            == TotalRemaining(threads, due) - Remaining(threads[t], due) + Remaining(pc, due)
  {
    var n := |threads| - 1;
    if t == n {
      assert threads[t := pc][..n] == threads[..n];
    } else {
      assert threads[t := pc][..n] == threads[..n][t := pc];
      TotalUpdate(threads[..n], t, pc, due);
    }
  }

  /** A step of a session shortens it by one, and by two when it starts a close thread. */
  lemma GoShortens(s: State, pc: Pc, ok: bool, now: nat, due: nat)
    requires PcOk(pc) && pc != Resting && now <= due
    ensures var effect := Next(s, pc, Go(ok, now));
            Remaining(effect.pc, due) + (if effect.doing.StartClose? then 1 else 0) < Remaining(pc, due)
  {
  }

  predicate OnlyGoes(steps: seq<Step>) {
    forall step :: step in steps ==> step.Thread? && step.move.Go?
  }

  lemma GoingOnShortens(s: State, t: nat)
    requires ThreadsOk(s) && t < |s.threads| && Held(s.threads[t]) != {} && Enabled(s, Thread(t, Go(false, 0)))
    ensures TotalRemaining(Apply(s, Thread(t, Go(false, 0))).threads, 0) < TotalRemaining(s.threads, 0)
  {
    var pc := Next(s, s.threads[t], Go(false, 0)).pc;
    GoShortens(s, s.threads[t], false, 0, 0);
    assert Apply(s, Thread(t, Go(false, 0))).threads == s.threads[t := pc];
    TotalUpdate(s.threads, t, pc, 0);
  }

  lemma {:induction false} ThreadsCanRunOn(s: State) returns (steps: seq<Step>)
    requires ThreadsOk(s)
    ensures OnlyGoes(steps) && Possible(s, steps) && Run(s, steps).owner == map[]
    decreases TotalRemaining(s.threads, 0)
  {
    hide ThreadsOk, Remaining, TotalRemaining, LocksAgree, PcOk;
    steps := [];
    if s.owner != map[] {
      var lock :| lock in s.owner;
      SomeHolderCanStep(s, lock);
      var t :| 0 <= t < |s.threads| && Held(s.threads[t]) != {} && Enabled(s, Thread(t, Go(false, 0)));
      var step := Thread(t, Go(false, 0));
      var s' := Apply(s, step);
      StepKeepsThreads(s, step);
      GoingOnShortens(s, t);
      var rest := ThreadsCanRunOn(s');
      steps := [step] + rest;
      assert steps[1..] == rest;
    }
  }

  /**
   * From every reachable state, with no new session started and no close thread ever finishing, the
   * threads can run on to a state in which every lock is free.
   */
  lemma LocksCanAlwaysBeFreed(n: nat, steps: seq<Step>) returns (more: seq<Step>)
    requires Possible(Init(n), steps)
    ensures OnlyGoes(more) && Possible(Run(Init(n), steps), more)
    ensures Run(Run(Init(n), steps), more).owner == map[]
  {
    ReachableThreadsOk(n, steps);
    more := ThreadsCanRunOn(Run(Init(n), steps));
  }

  /** A step that starts nothing: a busy thread goes on, with at most `due` tags due, or a close finishes. */
  predicate Winds(s: State, step: Step, due: nat) {
    match step
    case CloserDone(_) => true
    case Thread(t, move) => t < |s.threads| && s.threads[t] != Resting && move.Go? && move.due <= due
  }

  ghost predicate WindsDown(s: State, steps: seq<Step>, due: nat)
    requires Possible(s, steps)
    decreases |steps|
  {
    steps == [] || (Winds(s, steps[0], due) && WindsDown(Apply(s, steps[0]), steps[1..], due))
  }

  function StepsLeft(s: State, due: nat): nat {
    TotalRemaining(s.threads, due) + |s.closers|
  }

  lemma WindingShortens(s: State, step: Step, due: nat)
    requires ThreadsOk(s) && Enabled(s, step) && Winds(s, step, due)
    ensures StepsLeft(Apply(s, step), due) < StepsLeft(s, due)
  {
    var s' := Apply(s, step);
    match step
    case CloserDone(client) =>
      assert s.closers == s'.closers + {client};
    case Thread(t, move) =>
      hide Remaining, TotalRemaining;
      var effect := Next(s, s.threads[t], move);
      GoShortens(s, s.threads[t], move.ok, move.due, due);
      assert s'.threads == s.threads[t := effect.pc];
      TotalUpdate(s.threads, t, effect.pc, due);
      hide Next;
      assert effect.doing.StartClose? ==> |s'.closers| <= |s.closers| + 1;
      assert !effect.doing.StartClose? ==> s'.closers == s.closers;
  }

  lemma {:induction false} WindingRunIsShort(s: State, steps: seq<Step>, due: nat)
    requires ThreadsOk(s) && Possible(s, steps) && WindsDown(s, steps, due)
    ensures |steps| + StepsLeft(Run(s, steps), due) <= StepsLeft(s, due)
    decreases |steps|
  {
    hide StepsLeft, Winds;
    if steps != [] {
      WindingShortens(s, steps[0], due);
      StepKeepsThreads(s, steps[0]);
      WindingRunIsShort(Apply(s, steps[0]), steps[1..], due);
    }
  }

  /** All threads rest, every lock is free and no close is at work. */
  ghost predicate AtRest(s: State) {
    s.owner == map[] && s.closers == {} && forall t :: 0 <= t < |s.threads| ==> s.threads[t] == Resting
  }

  lemma SomethingLeftToDo(s: State, due: nat) returns (step: Step)
    requires ThreadsOk(s) && !AtRest(s)
    ensures Enabled(s, step) && Winds(s, step, due)
  {
    if lock :| lock in s.owner {
      SomeHolderCanStep(s, lock);
      var t :| 0 <= t < |s.threads| && Held(s.threads[t]) != {} && Enabled(s, Thread(t, Go(false, 0)));
      step := Thread(t, Go(false, 0));
    } else if client :| client in s.closers {
      step := CloserDone(client);
    } else {
      var t :| 0 <= t < |s.threads| && s.threads[t] != Resting;
      UnblockedCanStep(s, t);
      step := Thread(t, Go(false, 0));
    }
  }

  /**
   * Every schedule ends with the locks free. From every reachable state, whatever the calls return and
   * however the threads and close threads take turns, a run that starts no new session and finds at
   * most `due` tags due has a bounded number of steps, and until all is at rest it can go on.
   */
  lemma EveryScheduleFreesTheLocks(n: nat, steps: seq<Step>, more: seq<Step>, due: nat)
    requires Possible(Init(n), steps) && Possible(Run(Init(n), steps), more)
    requires WindsDown(Run(Init(n), steps), more, due)
    ensures |more| <= StepsLeft(Run(Init(n), steps), due)
    ensures var s := Run(Run(Init(n), steps), more);
            AtRest(s) || exists step :: Enabled(s, step) && Winds(s, step, due)
  {
    hide StepsLeft, Winds, AtRest, Enabled;
    ReachableThreadsOk(n, steps);
    var s := Run(Init(n), steps);
    WindingRunIsShort(s, more, due);
    RunKeepsThreads(s, more);
    if !AtRest(Run(s, more)) {
      var step := SomethingLeftToDo(Run(s, more), due);
    }
  }
}
