/** Exactly which serial handles are open, and so exactly when a second one is opened. */
module SerialOverlap {
  import opened Common
  import opened SerialBus
  import opened SerialHandles

  // ----- Which handles are open -----

  /** The thread's own close of its client has not finished. */
  predicate StillToClose(s: State, t: nat, client: Client)
    requires t < |s.threads|
  {
    CloseStarted(s.threads[t]) ==> client in s.closers
  }

  /** A client that connected has its handle open until its close finishes, wherever that close has got to. */
  ghost predicate LedgerOk(s: State) {
    && s.open <= s.connected
    && (forall client: Client :: client in s.connected ==> client < s.nextClient)
    && (forall t: nat, client: Client | UsedBy(s, t, client) && client in s.connected ::
          !s.threads[t].stage.Connecting? && (StillToClose(s, t, client) ==> client in s.open))
    && (forall client: Client :: client in s.connected && Abandoned(s, client) ==> client in s.open)
    && (forall t: nat, client: Client | UsedBy(s, t, client) && client in s.closers :: CloseStarted(s.threads[t]))
  }

  /** What a thread's step does to the histories: only its own client can be connected, closed or abandoned. */
  lemma OnlyItsOwnClient(s: State, t: nat, move: Move, client: Client)
    requires HandlesOk(s) && Enabled(s, Thread(t, move)) && !UsedBy(s, t, client)
    ensures var s' := Apply(s, Thread(t, move));
            && (client in s'.connected <==> client in s.connected)
            && (client in s'.open <==> client in s.open)
            && (client in s'.closers <==> client in s.closers)
            && (client in s'.pending ==> client in s.pending)
  {
    AliveMembers(s.pending, s.closers);
  }

  lemma OthersStayInLedger(s: State, t: nat, move: Move, t': nat, client: Client)
    requires HandlesOk(s) && LedgerOk(s) && Enabled(s, Thread(t, move)) && t' != t
    requires var s' := Apply(s, Thread(t, move)); UsedBy(s', t', client) && client in s'.connected
    ensures var s' := Apply(s, Thread(t, move));
            !s'.threads[t'].stage.Connecting? && (StillToClose(s', t', client) ==> client in s'.open)
  {
    OthersUseTheSame(s, t, move);
    assert UsedBy(s, t', client) && !UsedBy(s, t, client);
    OnlyItsOwnClient(s, t, move, client);
    assert Apply(s, Thread(t, move)).threads[t'] == s.threads[t'];
  }

  lemma MoverStaysInLedger(s: State, t: nat, move: Move, client: Client)
    requires HandlesOk(s) && LedgerOk(s) && Enabled(s, Thread(t, move))
    requires var s' := Apply(s, Thread(t, move)); UsedBy(s', t, client) && client in s'.connected
    ensures var s' := Apply(s, Thread(t, move));
            !s'.threads[t].stage.Connecting? && (StillToClose(s', t, client) ==> client in s'.open)
  {
    if Uses(s.threads[t]) == Some(client) {
      assert UsedBy(s, t, client);
      assert client in s.connected ==> !s.threads[t].stage.Connecting?;
    }
  }

  lemma AbandonedStaysInLedger(s: State, t: nat, move: Move, client: Client)
    requires HandlesOk(s) && LedgerOk(s) && Enabled(s, Thread(t, move))
    requires var s' := Apply(s, Thread(t, move)); client in s'.connected && Abandoned(s', client)
    ensures client in Apply(s, Thread(t, move)).open
  {
    AbandonedComesFrom(s, t, move, client);
    if UsedBy(s, t, client) {
      AliveMembers(s.pending, s.closers);
      assert client !in s.pending;
      assert s.threads[t].stage.Appending?;
    } else {
      OnlyItsOwnClient(s, t, move, client);
    }
  }

  lemma ThreadKeepsLedger(s: State, t: nat, move: Move)
    requires HandlesOk(s) && LedgerOk(s) && Enabled(s, Thread(t, move))
    ensures LedgerOk(Apply(s, Thread(t, move)))
  {
    var s' := Apply(s, Thread(t, move));
    forall t': nat, client: Client | UsedBy(s', t', client) && client in s'.connected
      ensures !s'.threads[t'].stage.Connecting? && (StillToClose(s', t', client) ==> client in s'.open)
    {
      if t' == t {
        MoverStaysInLedger(s, t, move, client);
      } else {
        OthersStayInLedger(s, t, move, t', client);
      }
    }
    forall client: Client | client in s'.connected && Abandoned(s', client) ensures client in s'.open {
      AbandonedStaysInLedger(s, t, move, client);
    }
    forall t': nat, client: Client | UsedBy(s', t', client) && client in s'.closers
      ensures CloseStarted(s'.threads[t'])
    {
      CloserHasStarted(s, t, move, t', client);
    }
    ConnectedComesFrom(s, t, move);
  }

  lemma CloserHasStarted(s: State, t: nat, move: Move, t': nat, client: Client)
    requires HandlesOk(s) && LedgerOk(s) && Enabled(s, Thread(t, move))
    requires var s' := Apply(s, Thread(t, move)); UsedBy(s', t', client) && client in s'.closers
    ensures CloseStarted(Apply(s, Thread(t, move)).threads[t'])
  {
    OthersUseTheSame(s, t, move);
    if t' != t {
      assert UsedBy(s, t', client) && !UsedBy(s, t, client);
      OnlyItsOwnClient(s, t, move, client);
      assert Apply(s, Thread(t, move)).threads[t'] == s.threads[t'];
    } else if Uses(s.threads[t]) == Some(client) {
      assert UsedBy(s, t, client);
    }
  }

  lemma ConnectedComesFrom(s: State, t: nat, move: Move)
    requires HandlesOk(s) && LedgerOk(s) && Enabled(s, Thread(t, move))
    ensures var s' := Apply(s, Thread(t, move));
            s'.open <= s'.connected && forall client: Client :: client in s'.connected ==> client < s'.nextClient
  {
    var pc := s.threads[t];
    assert Uses(pc).Some? ==> UsedBy(s, t, Uses(pc).value);
  }

  lemma CloserKeepsLedger(s: State, client: Client)
    requires HandlesOk(s) && LedgerOk(s) && client in s.closers
    ensures LedgerOk(Apply(s, CloserDone(client)))
  {
    var s' := Apply(s, CloserDone(client));
    forall t: nat, c: Client | UsedBy(s', t, c) && c in s'.connected
      ensures !s'.threads[t].stage.Connecting? && (StillToClose(s', t, c) ==> c in s'.open)
    {
      assert UsedBy(s, t, c);
    }
    forall t: nat, c: Client | UsedBy(s', t, c) && c in s'.closers ensures CloseStarted(s'.threads[t]) {
      assert UsedBy(s, t, c);
    }
  }

  lemma StepKeepsLedger(s: State, step: Step)
    requires HandlesOk(s) && LedgerOk(s) && Enabled(s, step)
    ensures LedgerOk(Apply(s, step))
  {
    match step
    case Thread(t, move) => ThreadKeepsLedger(s, t, move);
    case CloserDone(client) => CloserKeepsLedger(s, client);
  }

  lemma {:induction false} RunKeepsLedger(s: State, steps: seq<Step>)
    requires HandlesOk(s) && LedgerOk(s) && Possible(s, steps)
    ensures HandlesOk(Run(s, steps)) && LedgerOk(Run(s, steps))
    decreases |steps|
  {
    hide HandlesOk, LedgerOk, Apply, Enabled;
    if steps != [] {
      StepKeepsHandles(s, steps[0]);
      StepKeepsLedger(s, steps[0]);
      RunKeepsLedger(Apply(s, steps[0]), steps[1..]);
    }
  }

  lemma ReachableLedger(n: nat, steps: seq<Step>)
    requires Possible(Init(n), steps)
    ensures HandlesOk(Run(Init(n), steps)) && LedgerOk(Run(Init(n), steps))
  {
    InitHandlesOk(n);
    RunKeepsLedger(Init(n), steps);
  }

  /** A session under way is responsible for this client and has not finished closing it. */
  ghost predicate InSession(s: State, client: Client) {
    exists t: nat :: UsedBy(s, t, client) && StillToClose(s, t, client)
  }

  /** A command that has left the bus has not finished closing this client. */
  ghost predicate CommandStillCloses(s: State, client: Client) {
    exists t: nat :: UsedBy(s, t, client) && Bus !in Held(s.threads[t]) && s.threads[t].session.serial
                && s.threads[t].session.role == Command && StillToClose(s, t, client)
  }

  /**
   * Exactly which handles are open, read off the threads and close threads: those of the clients that
   * connected and that a session has still to close, or whose abandoned close thread is alive.
   */
  lemma OpenExactlyWhen(n: nat, steps: seq<Step>, client: Client)
    requires Possible(Init(n), steps)
    ensures var s := Run(Init(n), steps);
            client in s.open <==> client in s.connected && (InSession(s, client) || Abandoned(s, client))
  {
    ReachableLedger(n, steps);
    OpenIsLedger(Run(Init(n), steps), client);
  }

  lemma OpenIsLedger(s: State, client: Client)
    requires HandlesOk(s) && LedgerOk(s)
    ensures client in s.open <==> client in s.connected && (InSession(s, client) || Abandoned(s, client))
  {
    hide ThreadsOk, ClientsOk;
    if client in s.open && !Abandoned(s, client) {
      var t: nat :| UsedBy(s, t, client) && s.threads[t].session.serial;
      assert StillToClose(s, t, client);
    }
  }

  // ----- Exactly when a second handle is opened, and when nobody notices -----

  /** The thread has the bus for a serial session and has not opened its own handle yet. */
  predicate BeforeOpening(pc: Pc) {
    pc.In? && pc.session.serial && (pc.stage.Reaping? || pc.stage.Creating? || pc.stage.Connecting?)
  }

  /** The check after taking the bus: some abandoned close thread is alive, so a warning is logged. */
  predicate CheckWarns(s: State) {
    Alive(s.pending, s.closers) != []
  }

  lemma CheckSeesAbandoned(s: State, client: Client)
    requires Abandoned(s, client)
    ensures CheckWarns(s)
  {
    AliveMembers(s.pending, s.closers);
  }

  lemma BusHolderKeeps(s: State, t: nat, client: Client)
    requires HandlesOk(s) && t < |s.threads| && BeforeOpening(s.threads[t])
    ensures UnderBus(s, client) ==> UsedBy(s, t, client)
  {
    if UnderBus(s, client) {
      var t': nat :| UsedBy(s, t', client) && Bus in Held(s.threads[t']);
      assert Owns(s, Bus, t) && Owns(s, Bus, t');
    }
  }

  /** A command's close window, or an abandoned close, keeps a connected client's handle open. */
  ghost predicate LeftOver(s: State, client: Client) {
    client in s.connected && (CommandStillCloses(s, client) || Abandoned(s, client))
  }

  /** The holder of the bus that has not opened keeps no open handle, so every open handle is left over. */
  lemma OpenHandlesAreLeftOver(s: State, t: nat, client: Client)
    requires HandlesOk(s) && LedgerOk(s) && t < |s.threads| && BeforeOpening(s.threads[t])
    ensures client in s.open <==> LeftOver(s, client)
  {
    OpenIsLedger(s, client);
    if client in s.open {
      KeeperExists(s, client);
      BusHolderKeeps(s, t, client);
      if InCommandWindow(s, client) {
        var t': nat :| UsedBy(s, t', client) && Bus !in Held(s.threads[t'])
                    && s.threads[t'].session.role == Command && s.threads[t'].session.serial;
        assert StillToClose(s, t', client);
      }
    } else if CommandStillCloses(s, client) {
      assert InSession(s, client);
    }
  }

  /**
   * Exactly when a session that is about to open finds a handle open already: when the close window of
   * a command that connected is unfinished, or the abandoned close of a connected client is still at
   * work. When the check after taking the bus is silent, only the command is left.
   */
  lemma HandleAlreadyOpenExactlyWhen(n: nat, steps: seq<Step>, t: nat)
    requires Possible(Init(n), steps) && t < |Run(Init(n), steps).threads|
    requires BeforeOpening(Run(Init(n), steps).threads[t])
    ensures var s := Run(Init(n), steps);
            && (s.open != {} <==> exists client :: LeftOver(s, client))
            && (!CheckWarns(s) ==>
                  (s.open != {} <==> exists client :: client in s.connected && CommandStillCloses(s, client)))
  {
    ReachableLedger(n, steps);
    var s := Run(Init(n), steps);
    hide HandlesOk, LedgerOk, BeforeOpening, CommandStillCloses, Abandoned, CheckWarns, Run, Possible;
    forall client: Client ensures client in s.open <==> LeftOver(s, client) {
      OpenHandlesAreLeftOver(s, t, client);
    }
    forall client: Client | Abandoned(s, client) ensures CheckWarns(s) {
      CheckSeesAbandoned(s, client);
    }
  }

  /** The step that opens leaves two or more handles open exactly in the same case. */
  lemma OpensSecondHandleExactlyWhen(n: nat, steps: seq<Step>, t: nat, due: nat)
    requires Possible(Init(n), steps) && t < |Run(Init(n), steps).threads|
    requires BeforeOpening(Run(Init(n), steps).threads[t]) && Run(Init(n), steps).threads[t].stage.Connecting?
    ensures var s := Run(Init(n), steps);
            var s' := Apply(s, Thread(t, Go(true, due)));
            && s'.open == s.open + {s.threads[t].stage.client}
            && (|s'.open| >= 2 <==> exists client :: LeftOver(s, client))
  {
    InitHandlesOk(n);
    RunKeepsHandles(Init(n), steps);
    HandleAlreadyOpenExactlyWhen(n, steps, t);
    OneMoreHandle(Run(Init(n), steps), t, due);
  }

  lemma OneMoreHandle(s: State, t: nat, due: nat)
    requires HandlesOk(s) && t < |s.threads| && BeforeOpening(s.threads[t]) && s.threads[t].stage.Connecting?
    ensures var s' := Apply(s, Thread(t, Go(true, due)));
            s'.open == s.open + {s.threads[t].stage.client} && (|s'.open| >= 2 <==> s.open != {})
  {
    assert UsedBy(s, t, s.threads[t].stage.client);
  }

  /** Thread `t` has not opened its handle, nor given up, anywhere in the run. */
  ghost predicate StaysBeforeOpening(s: State, steps: seq<Step>, t: nat)
    requires Possible(s, steps)
    decreases |steps|
  {
    && t < |s.threads| && BeforeOpening(s.threads[t])
    && (steps != [] ==> StaysBeforeOpening(Apply(s, steps[0]), steps[1..], t))
  }

  /** While one thread has the bus and has not opened, no handle is opened at all. */
  lemma NobodyElseOpens(s: State, step: Step, t: nat)
    requires HandlesOk(s) && Enabled(s, step) && t < |s.threads| && BeforeOpening(s.threads[t])
    requires t < |Apply(s, step).threads| && BeforeOpening(Apply(s, step).threads[t])
    ensures Apply(s, step).open <= s.open
  {
    if step.Thread? && step.t != t && step.t < |s.threads| {
      assert Owns(s, Bus, t);
      assert !Owns(s, Bus, step.t);
    }
  }

  lemma {:induction false} OpenOnlyShrinks(s: State, steps: seq<Step>, t: nat)
    requires HandlesOk(s) && Possible(s, steps) && StaysBeforeOpening(s, steps, t)
    ensures Run(s, steps).open <= s.open
    decreases |steps|
  {
    if steps != [] {
      NobodyElseOpens(s, steps[0], t);
      StepKeepsHandles(s, steps[0]);
      OpenOnlyShrinks(Apply(s, steps[0]), steps[1..], t);
    }
  }

  /**
   * Whoever checked in silence and has gone on to the point of opening meets only handles whose
   * commands had connected and were in their close window at the moment of the check - however long
   * that took and whatever was abandoned meanwhile.
   */
  lemma SilentCheckMissesCommandsOnly(n: nat, steps: seq<Step>, rest: seq<Step>, t: nat, client: Client)
    requires Possible(Init(n), steps) && Possible(Run(Init(n), steps), rest)
    requires StaysBeforeOpening(Run(Init(n), steps), rest, t)
    requires Run(Init(n), steps).threads[t].stage == Reaping(true) && !CheckWarns(Run(Init(n), steps))
    requires client in Run(Run(Init(n), steps), rest).open
    ensures var s := Run(Init(n), steps); client in s.connected && CommandStillCloses(s, client)
  {
    ReachableLedger(n, steps);
    var s := Run(Init(n), steps);
    OpenOnlyShrinks(s, rest, t);
    OpenHandlesAreLeftOver(s, t, client);
    if Abandoned(s, client) {
      CheckSeesAbandoned(s, client);
    }
  }

  // ----- How many -----

  /** The threads whose command is in its close window. */
  function WindowThreads(threads: seq<Pc>): set<nat> {
    set t | 0 <= t < |threads| && threads[t].In? && threads[t].session.serial
            && threads[t].session.role == Command && Bus !in Held(threads[t]) && Uses(threads[t]).Some?
  }

  /** The clients whose abandoned close thread is alive. */
  function AbandonedClients(s: State): set<Client> {
    set client | client in s.pending && client in s.closers
  }

  lemma {:induction false} FewClients(s: State, ts: set<nat>, clients: set<Client>)
    requires forall client :: client in clients ==> exists t: nat :: t in ts && UsedBy(s, t, client)
    ensures |clients| <= |ts|
    decreases clients
  {
    if client :| client in clients {
      var t: nat :| t in ts && UsedBy(s, t, client);
      forall c | c in clients - {client} ensures exists t': nat :: t' in ts - {t} && UsedBy(s, t', c) {
        var t': nat :| t' in ts && UsedBy(s, t', c);
        assert t' != t;
      }
      FewClients(s, ts - {t}, clients - {client});
    }
  }

  lemma AtMostOneUnderBus(s: State, clients: set<Client>)
    requires HandlesOk(s) && forall client :: client in clients ==> UnderBus(s, client)
    ensures |clients| <= 1
  {
    hide ClientsOk, OpenOk;
    if client :| client in clients {
      forall c | c in clients ensures c == client {
        var t: nat :| UsedBy(s, t, client) && Bus in Held(s.threads[t]);
        var t': nat :| UsedBy(s, t', c) && Bus in Held(s.threads[t']);
        assert Owns(s, Bus, t) && Owns(s, Bus, t');
      }
      assert clients == {client};
    }
  }

  /**
   * In every reachable state at most one handle is open for the bus holder, one for each command in its
   * close window, and one for each live abandoned close.
   */
  lemma OpenHandlesAreFew(n: nat, steps: seq<Step>)
    requires Possible(Init(n), steps)
    ensures var s := Run(Init(n), steps);
            |s.open| <= 1 + |WindowThreads(s.threads)| + |AbandonedClients(s)|
  {
    InitHandlesOk(n);
    RunKeepsHandles(Init(n), steps);
    OpenIsCovered(Run(Init(n), steps));
  }

  lemma WindowIsCounted(s: State, clients: set<Client>)
    requires forall client :: client in clients ==> InCommandWindow(s, client)
    ensures |clients| <= |WindowThreads(s.threads)|
  {
    forall client | client in clients
      ensures exists t: nat :: t in WindowThreads(s.threads) && UsedBy(s, t, client)
    {
      WindowHasThread(s, client);
    }
    FewClients(s, WindowThreads(s.threads), clients);
  }

  lemma WindowHasThread(s: State, client: Client)
    requires InCommandWindow(s, client)
    ensures exists t: nat :: t in WindowThreads(s.threads) && UsedBy(s, t, client)
  {
    var t: nat :| UsedBy(s, t, client) && Bus !in Held(s.threads[t])
               && s.threads[t].session.role == Command && s.threads[t].session.serial;
    hide Held;
    assert t in WindowThreads(s.threads);
  }

  lemma OpenIsCovered(s: State)
    requires HandlesOk(s)
    ensures |s.open| <= 1 + |WindowThreads(s.threads)| + |AbandonedClients(s)|
  {
    hide HandlesOk, UnderBus, InCommandWindow, WindowThreads;
    var bus := set client | client in s.open && UnderBus(s, client);
    var window := set client | client in s.open && InCommandWindow(s, client);
    AtMostOneUnderBus(s, bus);
    WindowIsCounted(s, window);
    forall client | client in s.open ensures client in bus + window + AbandonedClients(s) {
      KeeperExists(s, client);
    }
    SizeOfUnion(bus, window, AbandonedClients(s), s.open);
  }

  lemma SizeOfUnion(a: set<Client>, b: set<Client>, c: set<Client>, all: set<Client>)
    requires all <= a + b + c
    ensures |all| <= |a| + |b| + |c|
  {
    assert |a + b + c| <= |a| + |b| + |c|;
    assert |a + b + c - all| == |a + b + c| - |all|;
  }
}
