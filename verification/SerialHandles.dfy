/** Who is responsible for every open serial handle, in every run of the bus protocol. */
module SerialHandles {
  import opened Common
  import opened SerialBus

  /** The client a session is responsible for. */
  function Uses(pc: Pc): Option<Client> {
    if !pc.In? then None
    else
      match pc.stage
      case Connecting(client) => Some(client)
      case Using(client, _) => Some(client)
      case Saving(client, _, _, _) => Some(client)
      case LeavingBus(leftOpen) => leftOpen
      case Outside(client) => Some(client)
      case CloseReaping(client, _) => Some(client)
      case Joining(client) => Some(client)
      case Appending(client, _) => Some(client)
      case _ => None
  }

  predicate CloseStarted(pc: Pc) {
    pc.In? && (pc.stage.Joining? || pc.stage.Appending?)
  }

  ghost predicate UsedBy(s: State, t: nat, client: Client) {
    t < |s.threads| && Uses(s.threads[t]) == Some(client)
  }

  /** Clients are numbered; sessions have different clients; an abandoned client has no session. */
  ghost predicate ClientsOk(s: State) {
    && (forall t: nat, client: Client :: UsedBy(s, t, client) ==> client < s.nextClient && client !in s.pending)
    && (forall t: nat, t': nat, client: Client :: UsedBy(s, t, client) && UsedBy(s, t', client) ==> t == t')
    && (forall client: Client | client in s.open || client in s.closers || client in s.pending ::
          client < s.nextClient)
  }

  ghost predicate Kept(s: State, client: Client) {
    || (client in s.pending && client in s.closers)
    || exists t: nat :: UsedBy(s, t, client) && s.threads[t].session.serial
  }

  /** An open handle has a serial session, or a live close thread on the abandoned list. */
  ghost predicate OpenOk(s: State) {
    && (forall client :: client in s.open ==> Kept(s, client))
    && (forall t: nat, client: Client :: UsedBy(s, t, client) && s.threads[t].stage.Connecting? ==> client !in s.open)
    && (forall t: nat, client: Client | UsedBy(s, t, client) && CloseStarted(s.threads[t]) && client in s.open ::
          client in s.closers)
  }

  ghost predicate HandlesOk(s: State) {
    ThreadsOk(s) && ClientsOk(s) && OpenOk(s)
  }

  lemma {:induction false} AliveMembers(pending: seq<Client>, closers: set<Client>)
    ensures forall client :: client in Alive(pending, closers) <==> client in pending && client in closers
  {
    if pending != [] {
      AliveMembers(pending[..|pending| - 1], closers);
      assert pending == pending[..|pending| - 1] + [pending[|pending| - 1]];
    }
  }

  lemma CloserDoneKeepsHandles(s: State, client: Client)
    requires HandlesOk(s) && client in s.closers
    ensures HandlesOk(Apply(s, CloserDone(client)))
  {
    var s' := Apply(s, CloserDone(client));
    StepKeepsThreads(s, CloserDone(client));
    assert forall t: nat, c: Client :: UsedBy(s', t, c) <==> UsedBy(s, t, c);
    forall c | c in s'.open ensures Kept(s', c) {
      if !(c in s.pending && c in s.closers) {
        var t: nat :| UsedBy(s, t, c) && s.threads[t].session.serial;
        assert UsedBy(s', t, c);
      }
    }
  }

  /** After a thread's step every other thread uses what it used before. */
  lemma OthersUseTheSame(s: State, t: nat, move: Move)
    requires Enabled(s, Thread(t, move))
    ensures var s' := Apply(s, Thread(t, move));
            && |s'.threads| == |s.threads| && s'.threads[t] == Next(s, s.threads[t], move).pc
            && forall t': nat, c: Client {:trigger UsedBy(s', t', c)} | t' != t ::
                 UsedBy(s', t', c) <==> UsedBy(s, t', c)
  {
  }

  /** A thread goes on with its client, drops it, or takes the next number. */
  lemma ClientComesFrom(s: State, t: nat, move: Move, c: Client)
    requires HandlesOk(s) && Enabled(s, Thread(t, move)) && UsedBy(Apply(s, Thread(t, move)), t, c)
    ensures var s' := Apply(s, Thread(t, move));
            (UsedBy(s, t, c) || (c == s.nextClient && c < s'.nextClient)) && c !in s'.pending
  {
    AliveMembers(s.pending, s.closers);
    if Uses(s.threads[t]) == Some(c) {
      assert UsedBy(s, t, c);
    }
  }

  /** What is abandoned was abandoned before, or is the moving thread's own client. */
  lemma AbandonedComesFrom(s: State, t: nat, move: Move, c: Client)
    requires HandlesOk(s) && Enabled(s, Thread(t, move)) && c in Apply(s, Thread(t, move)).pending
    ensures c in s.pending || UsedBy(s, t, c)
  {
    AliveMembers(s.pending, s.closers);
  }

  lemma ThreadStepKeepsClients(s: State, t: nat, move: Move)
    requires HandlesOk(s) && Enabled(s, Thread(t, move))
    ensures ClientsOk(Apply(s, Thread(t, move)))
  {
    var s' := Apply(s, Thread(t, move));
    OthersUseTheSame(s, t, move);
    NumbersKeepUp(s, t, move);
    forall t': nat, c: Client | UsedBy(s', t', c)
      ensures c < s'.nextClient && c !in s'.pending
      ensures UsedBy(s, t', c) || (t' == t && c == s.nextClient)
    {
      if t' == t {
        ClientComesFrom(s, t, move, c);
      } else {
        assert UsedBy(s, t', c);
        if c in s'.pending {
          AbandonedComesFrom(s, t, move, c);
        }
      }
    }
  }

  lemma NumbersKeepUp(s: State, t: nat, move: Move)
    requires HandlesOk(s) && Enabled(s, Thread(t, move))
    ensures var s' := Apply(s, Thread(t, move));
            && s.nextClient <= s'.nextClient
            && forall c: Client :: c in s'.open || c in s'.closers || c in s'.pending ==> c < s'.nextClient
  {
    AliveMembers(s.pending, s.closers);
    var pc := s.threads[t];
    assert Uses(pc).Some? ==> UsedBy(s, t, Uses(pc).value);
  }

  lemma ThreadStepKeepsKeepers(s: State, t: nat, move: Move, c: Client)
    requires HandlesOk(s) && Enabled(s, Thread(t, move)) && c in Apply(s, Thread(t, move)).open
    ensures Kept(Apply(s, Thread(t, move)), c)
  {
    var s' := Apply(s, Thread(t, move));
    OthersUseTheSame(s, t, move);
    AliveMembers(s.pending, s.closers);
    if c !in s.open {
      assert UsedBy(s', t, c);
    } else if !(c in s.pending && c in s.closers) {
      var t': nat :| UsedBy(s, t', c) && s.threads[t'].session.serial;
      assert t' != t ==> UsedBy(s', t', c);
      assert t' == t && Uses(s'.threads[t]) == Some(c) ==> UsedBy(s', t, c);
    }
  }

  /** What the moving thread itself does to the handle it is responsible for. */
  lemma MovedThreadHandles(s: State, t: nat, move: Move, c: Client)
    requires HandlesOk(s) && Enabled(s, Thread(t, move))
    requires UsedBy(Apply(s, Thread(t, move)), t, c)
    ensures var s' := Apply(s, Thread(t, move));
            && (s'.threads[t].stage.Connecting? ==> c !in s'.open)
            && (CloseStarted(s'.threads[t]) && c in s'.open ==> c in s'.closers)
  {
    var pc := s.threads[t];
    if Uses(pc) == Some(c) {
      assert UsedBy(s, t, c);
    } else {
      assert pc.In? && pc.stage.Creating? && c == s.nextClient;
    }
  }

  lemma ThreadStepKeepsOpen(s: State, t: nat, move: Move)
    requires HandlesOk(s) && Enabled(s, Thread(t, move))
    ensures OpenOk(Apply(s, Thread(t, move)))
  {
    var s' := Apply(s, Thread(t, move));
    OthersUseTheSame(s, t, move);
    forall c | c in s'.open ensures Kept(s', c) {
      ThreadStepKeepsKeepers(s, t, move, c);
    }
    forall t': nat, c: Client | UsedBy(s', t', c)
      ensures s'.threads[t'].stage.Connecting? ==> c !in s'.open
      ensures CloseStarted(s'.threads[t']) && c in s'.open ==> c in s'.closers
    {
      if t' == t {
        MovedThreadHandles(s, t, move, c);
      } else {
        OtherThreadHandles(s, t, move, t', c);
      }
    }
  }

  lemma OtherThreadHandles(s: State, t: nat, move: Move, t': nat, c: Client)
    requires HandlesOk(s) && Enabled(s, Thread(t, move)) && t' != t
    requires UsedBy(Apply(s, Thread(t, move)), t', c)
    ensures var s' := Apply(s, Thread(t, move));
            && (s'.threads[t'].stage.Connecting? ==> c !in s'.open)
            && (CloseStarted(s'.threads[t']) && c in s'.open ==> c in s'.closers)
  {
    assert UsedBy(s, t', c);
    var pc := s.threads[t];
    assert Uses(pc).Some? ==> UsedBy(s, t, Uses(pc).value);
  }

  lemma StepKeepsHandles(s: State, step: Step)
    requires HandlesOk(s) && Enabled(s, step)
    ensures HandlesOk(Apply(s, step))
  {
    match step
    case CloserDone(client) => CloserDoneKeepsHandles(s, client);
    case Thread(t, move) =>
      StepKeepsThreads(s, step);
      ThreadStepKeepsClients(s, t, move);
      ThreadStepKeepsOpen(s, t, move);
  }

  lemma {:induction false} RunKeepsHandles(s: State, steps: seq<Step>)
    requires HandlesOk(s) && Possible(s, steps)
    ensures HandlesOk(Run(s, steps))
    decreases |steps|
  {
    if steps != [] {
      StepKeepsHandles(s, steps[0]);
      RunKeepsHandles(Apply(s, steps[0]), steps[1..]);
    }
  }

  lemma InitHandlesOk(n: nat)
    ensures HandlesOk(Init(n))
  {
  }

  // ----- The accounting -----

  /** A session that holds the bus lock is responsible for the handle. */
  ghost predicate UnderBus(s: State, client: Client) {
    exists t: nat :: UsedBy(s, t, client) && Bus in Held(s.threads[t])
  }

  /** A command that has left the bus and not yet finished closing is responsible for the handle. */
  ghost predicate InCommandWindow(s: State, client: Client) {
    exists t: nat :: UsedBy(s, t, client) && Bus !in Held(s.threads[t])
                && s.threads[t].session.role == Command && s.threads[t].session.serial
  }

  /** The handle's close was abandoned and its thread is still alive. */
  ghost predicate Abandoned(s: State, client: Client) {
    client in s.pending && client in s.closers
  }

  /**
   * Handle accounting. In every reachable state each open serial handle has exactly one keeper: the
   * holder of the bus lock, a command in its close window, or a live abandoned close thread.
   */
  lemma EveryHandleHasOneKeeper(n: nat, steps: seq<Step>, client: Client)
    requires Possible(Init(n), steps) && client in Run(Init(n), steps).open
    ensures var s := Run(Init(n), steps);
            && (UnderBus(s, client) || InCommandWindow(s, client) || Abandoned(s, client))
            && !(UnderBus(s, client) && InCommandWindow(s, client))
            && !(UnderBus(s, client) && Abandoned(s, client))
            && !(InCommandWindow(s, client) && Abandoned(s, client))
  {
    InitHandlesOk(n);
    RunKeepsHandles(Init(n), steps);
    KeeperExists(Run(Init(n), steps), client);
    KeepersExclude(Run(Init(n), steps), client);
  }

  lemma KeepersExclude(s: State, client: Client)
    requires ClientsOk(s)
    ensures !(UnderBus(s, client) && InCommandWindow(s, client))
    ensures !(UnderBus(s, client) && Abandoned(s, client))
    ensures !(InCommandWindow(s, client) && Abandoned(s, client))
  {
    forall t: nat, t': nat | UsedBy(s, t, client) && UsedBy(s, t', client) ensures t == t' {
    }
  }

  lemma KeeperExists(s: State, client: Client)
    requires HandlesOk(s) && client in s.open
    ensures UnderBus(s, client) || InCommandWindow(s, client) || Abandoned(s, client)
  {
    if !Abandoned(s, client) {
      var t: nat :| UsedBy(s, t, client) && s.threads[t].session.serial;
      var pc := s.threads[t];
      assert PcOk(pc);
      if Bus !in Held(pc) {
        assert pc.session.role == Command;
      }
    }
  }

  /** At most one open handle is kept under the bus lock. */
  lemma OneHandleUnderBus(n: nat, steps: seq<Step>, client: Client, client': Client)
    requires Possible(Init(n), steps)
    requires UnderBus(Run(Init(n), steps), client) && UnderBus(Run(Init(n), steps), client')
    ensures client == client'
  {
    InitHandlesOk(n);
    RunKeepsHandles(Init(n), steps);
    var s := Run(Init(n), steps);
    var t: nat :| UsedBy(s, t, client) && Bus in Held(s.threads[t]);
    var t': nat :| UsedBy(s, t', client') && Bus in Held(s.threads[t']);
    assert Owns(s, Bus, t) && Owns(s, Bus, t');
  }

  // ----- Polling alone with timely closes -----

  /** Not a command, and not a close that is given up on. */
  predicate Calm(s: State, step: Step) {
    step.Thread? ==>
      && !step.move.StartCommand?
      && (step.t < |s.threads| && s.threads[step.t].In? && s.threads[step.t].stage.Joining?
          ==> s.threads[step.t].stage.client !in s.closers)
  }

  ghost predicate CalmRun(s: State, steps: seq<Step>)
    requires Possible(s, steps)
    decreases |steps|
  {
    steps == [] || (Calm(s, steps[0]) && CalmRun(Apply(s, steps[0]), steps[1..]))
  }

  ghost predicate PollsOnly(s: State) {
    && s.pending == []
    && forall t :: 0 <= t < |s.threads| && s.threads[t].In? ==>
         s.threads[t].session.role == Poll && !s.threads[t].stage.Appending?
  }

  lemma CalmStepPollsOnly(s: State, step: Step)
    requires PollsOnly(s) && Enabled(s, step) && Calm(s, step)
    ensures PollsOnly(Apply(s, step))
  {
  }

  lemma {:induction false} CalmRunPollsOnly(s: State, steps: seq<Step>)
    requires PollsOnly(s) && Possible(s, steps) && CalmRun(s, steps)
    ensures PollsOnly(Run(s, steps))
    decreases |steps|
  {
    if steps != [] {
      CalmStepPollsOnly(s, steps[0]);
      CalmRunPollsOnly(Apply(s, steps[0]), steps[1..]);
    }
  }

  lemma PollsOnlyUnderBus(s: State, client: Client)
    requires HandlesOk(s) && PollsOnly(s) && client in s.open
    ensures UnderBus(s, client) && Bus in s.owner
  {
    KeeperExists(s, client);
    assert !Abandoned(s, client) && !InCommandWindow(s, client);
    var t: nat :| UsedBy(s, t, client) && Bus in Held(s.threads[t]);
    assert Owns(s, Bus, t);
  }

  /**
   * In a run without commands and without abandoned closes, at most one serial handle is open, and
   * only while the bus lock is held.
   */
  lemma CalmRunsHaveOneHandle(n: nat, steps: seq<Step>)
    requires Possible(Init(n), steps) && CalmRun(Init(n), steps)
    ensures var s := Run(Init(n), steps);
            && (s.open != {} ==> Bus in s.owner)
            && (forall client, client' :: client in s.open && client' in s.open ==> client == client')
  {
    InitHandlesOk(n);
    RunKeepsHandles(Init(n), steps);
    CalmRunPollsOnly(Init(n), steps);
    var s := Run(Init(n), steps);
    forall client | client in s.open ensures UnderBus(s, client) && Bus in s.owner {
      PollsOnlyUnderBus(s, client);
    }
    forall client, client' | client in s.open && client' in s.open ensures client == client' {
      OneHandleUnderBus(n, steps, client, client');
    }
  }

  // ----- Commands break the one-handle rule -----

  lemma {:induction false} OneMore(s: State, steps: seq<Step>, step: Step)
    requires Possible(s, steps) && Enabled(Run(s, steps), step)
    ensures Possible(s, steps + [step]) && Run(s, steps + [step]) == Apply(Run(s, steps), step)
    decreases |steps|
  {
    if steps == [] {
      assert [] + [step] == [step];
    } else {
      assert (steps + [step])[1..] == steps[1..] + [step];
      OneMore(Apply(s, steps[0]), steps[1..], step);
    }
  }

  ghost predicate Reaches(s: State, goal: State) {
    exists steps :: Possible(s, steps) && Run(s, steps) == goal
  }

  /** One more step of a concrete run: thread `t` moves from `pc` with the given effect. */
  lemma Then(s: State, before: State, t: nat, pc: Pc, move: Move, effect: Effect) returns (after: State)
    requires Reaches(s, before) && t < |before.threads| && before.threads[t] == pc
    requires Next(before, pc, move) == effect
    requires effect.change.Take? ==> effect.change.lock !in before.owner
    ensures Reaches(s, after)
    ensures after == Do(before.(threads := before.threads[t := effect.pc],
                                owner := ChangeLocks(before.owner, effect.change, t)), effect.doing)
  {
    var steps :| Possible(s, steps) && Run(s, steps) == before;
    OneMore(s, steps, Thread(t, move));
    after := Apply(before, Thread(t, move));
  }

  /** A serial session of thread `t` takes the bus and gets as far as creating its client. */
  lemma ReachWire(s0: State, s: State, t: nat, session: Session) returns (s': State)
    requires Reaches(s0, s) && t < |s.threads| && session.serial && s.threads[t] == In(session, Entered)
    requires Bus !in s.owner && LeafLock(PendingCloses) !in s.owner && s.pending == []
    ensures Reaches(s0, s') && s' == s.(threads := s.threads[t := In(session, Creating)], owner := s.owner[Bus := t])
  {
    var leaf := LeafLock(PendingCloses);
    var go := Go(true, 1);
    var s1 := Then(s0, s, t, In(session, Entered), go, Effect(In(session, WantBus), Keep, Nothing));
    var s2 := Then(s0, s1, t, In(session, WantBus), go, Effect(In(session, Reaping(false)), Take(Bus), Nothing));
    var s3 := Then(s0, s2, t, In(session, Reaping(false)), go, Effect(In(session, Reaping(true)), Take(leaf), Nothing));
    s' := Then(s0, s3, t, In(session, Reaping(true)), go, Effect(In(session, Creating), Drop(leaf), Reap));
    assert s'.owner == s.owner[Bus := t];
    assert s'.threads == s.threads[t := In(session, Creating)];
  }

  /** A serial session that has the bus connects: its handle is open. */
  lemma Connect(s0: State, s: State, t: nat, session: Session) returns (s': State)
    requires Reaches(s0, s) && t < |s.threads| && session.serial && s.threads[t] == In(session, Creating)
    ensures Reaches(s0, s')
    ensures s' == s.(threads := s.threads[t := In(session, Using(s.nextClient, 1))],
                     nextClient := s.nextClient + 1, open := s.open + {s.nextClient},
                     connected := s.connected + {s.nextClient})
  {
    var c := s.nextClient;
    var go := Go(true, 1);
    var s1 := Then(s0, s, t, In(session, Creating), go, Effect(In(session, Connecting(c)), Keep, Create));
    s' := Then(s0, s1, t, In(session, Connecting(c)), go, Effect(In(session, Using(c, 1)), Keep, Open(c)));
    assert s'.threads == s.threads[t := In(session, Using(c, 1))];
  }

  /** A command writes and releases the bus; it has not closed its client yet. */
  lemma LeaveBus(s0: State, s: State, t: nat, session: Session, c: Client) returns (s': State)
    requires Reaches(s0, s) && t < |s.threads| && session.serial && session.role == Command
    requires s.threads[t] == In(session, Using(c, 1))
    ensures Reaches(s0, s')
    ensures s' == s.(threads := s.threads[t := In(session, Outside(c))], owner := s.owner - {Bus})
  {
    var go := Go(true, 1);
    var s1 := Then(s0, s, t, In(session, Using(c, 1)), go, Effect(In(session, Using(c, 0)), Keep, Nothing));
    var s2 := Then(s0, s1, t, In(session, Using(c, 0)), go, Effect(In(session, LeavingBus(Some(c))), Keep, Nothing));
    s' := Then(s0, s2, t, In(session, LeavingBus(Some(c))), go, Effect(In(session, Outside(c)), Drop(Bus), Nothing));
    assert s'.threads == s.threads[t := In(session, Outside(c))];
  }

  /** A command has its device and the bus, and is about to create its client. */
  lemma CommandTakesBus(command: Session) returns (s: State)
    requires command == Session(Command, 1, true)
    ensures Reaches(Init(2), s) && s.threads == [In(command, Creating), Resting]
    ensures s == Init(2).(threads := s.threads, owner := map[Device(1) := 0, Bus := 0])
  {
    var s0 := Init(2);
    assert Possible(s0, []) && Run(s0, []) == s0;
    s := Then(s0, s0, 0, Resting, StartCommand(1, true), Effect(In(command, WantDevice), Keep, Nothing));
    s := Then(s0, s, 0, In(command, WantDevice), Go(true, 1), Effect(In(command, Entered), Take(Device(1)), Nothing));
    s := ReachWire(s0, s, 0, command);
  }

  /** The first half of the overlap: a command has released the bus with its handle still open. */
  lemma CommandLeavesHandleOpen() returns (s: State)
    ensures Reaches(Init(2), s) && |s.threads| == 2 && s.threads[1] == Resting
    ensures s.owner.Keys == {Device(1)} && s.nextClient == 1
    ensures s.open == {0} && s.pending == [] && s.closers == {}
  {
    hide Reaches;
    var command := Session(Command, 1, true);
    s := CommandTakesBus(command);
    s := Connect(Init(2), s, 0, command);
    s := LeaveBus(Init(2), s, 0, command, 0);
  }

  /**
   * With one command and one poll two serial handles can be open at once although no close ever
   * timed out and none is abandoned, so the check made after taking the bus lock stays silent.
   */
  lemma CommandOverlapsPoll() returns (s: State)
    ensures Reaches(Init(2), s)
    ensures |s.open| == 2 && s.pending == [] && s.closers == {}
  {
    var s0 := Init(2);
    var poll := Session(SerialBus.Poll, 2, true);
    s := CommandLeavesHandleOpen();
    s := Then(s0, s, 1, Resting, StartPoll(2, true), Effect(In(poll, Entered), Take(Device(2)), Nothing));
    s := ReachWire(s0, s, 1, poll);
    s := Connect(s0, s, 1, poll);
    assert s.open == {0, 1};
  }
}
