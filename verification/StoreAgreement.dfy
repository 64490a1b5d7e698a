/**
 * One reading, three stores: the upload queue, the local history and the latest-readings map. The
 * poll thread writes them one after the other while every other thread goes on.
 */
module StoreAgreement {
  import opened Common
  import opened OfflineBuffer
  import opened AlarmEvaluator
  import opened Historian
  import IsoTime
  import Queue = FlushProtocol

  /** How far the poll thread is with the reading in hand. */
  datatype Save = NoSave | ToHistory(m: Message) | ToLatest(m: Message)

  /** `born` is the length of the enqueue log when the process started, a history variable. */
  datatype State = State(
    queue: Queue.State,
    save: Save,
    latest: map<Key, Reading>,
    history: seq<HistoryRow>,
    lastHistoryId: nat,
    born: nat)

  /**
   * Only the save path enqueues. `Crash` takes the whole process, the map included; a crash of the
   * queue thread alone, an exception that its loop catches, is among its own steps.
   */
  datatype Step =
    | SaveBegins(
        works: bool, messageId: MessageId, deviceId: int, tagId: int, value: Float, quality: string, timestamp: string)
    | HistoryWrite(works: bool, createdAt: string)
    | LatestWrite(now: int)
    | QueueThread(step: Queue.Step)
    | Prune(cutoff: string)
    | Crash

  function Init(): State {
    State(Queue.Init(), NoSave, map[], [], 0, 0)
  }

  function EnqueueOf(step: Step): Queue.Step
    requires step.SaveBegins?
  {
    Queue.Enqueue(step.messageId, step.deviceId, step.tagId, step.value, step.quality, step.timestamp)
  }

  ghost predicate Enabled(s: State, step: Step) {
    match step
    case SaveBegins(_, _, _, _, _, _, _) => s.save.NoSave? && Queue.Enabled(s.queue, EnqueueOf(step))
    case HistoryWrite(_, _) => s.save.ToHistory?
    case LatestWrite(_) => s.save.ToLatest?
    case QueueThread(queueStep) => !queueStep.Enqueue?
    case Prune(_) => true
    case Crash => true
  }

  /** The queue steps that a step of the whole process amounts to: none or one. */
  function QueuePart(step: Step): seq<Queue.Step> {
    match step
    case SaveBegins(works, _, _, _, _, _, _) => if works then [EnqueueOf(step)] else []
    case QueueThread(queueStep) => [queueStep]
    case Crash => [Queue.Crash]
    case _ => []
  }

  function QueueAfter(s: Queue.State, step: Step): Queue.State {
    if QueuePart(step) == [] then s else Queue.Apply(s, QueuePart(step)[0])
  }

  function RowOf(id: nat, m: Message, createdAt: string): HistoryRow {
    HistoryRow(id, m.deviceId, m.tagId, m.value, m.quality, m.sourceTimestamp, createdAt)
  }

  /** A failed enqueue raises before the other stores are touched; a failed history write does not. */
  function Apply(s: State, step: Step): State {
    var s' := s.(queue := QueueAfter(s.queue, step));
    match step
    case SaveBegins(_, messageId, deviceId, tagId, value, quality, timestamp) =>
      if s'.queue.log == s.queue.log then s'
      else s'.(save := ToHistory(NewMessage(messageId, deviceId, tagId, value, quality, timestamp)))
    case HistoryWrite(works, createdAt) =>
      if !s.save.ToHistory? then s'
      else if works then
        s'.(save := ToLatest(s.save.m),
            history := s.history + [RowOf(s.lastHistoryId + 1, s.save.m, createdAt)],
            lastHistoryId := s.lastHistoryId + 1)
      else s'.(save := ToLatest(s.save.m))
    case LatestWrite(now) =>
      if !s.save.ToLatest? then s'
      else
        var m := s.save.m;
        s'.(save := NoSave, latest := s.latest[(m.deviceId, m.tagId) := Reading(m.value, m.quality, now)])
    case QueueThread(_) => s'
    case Prune(cutoff) => s'.(history := KeepFrom(s.history, cutoff))
    case Crash => s'.(save := NoSave, latest := map[], born := |s.queue.log|)
  }

  ghost predicate Possible(s: State, steps: seq<Step>)
    decreases |steps|
  {
    steps == [] || (Enabled(s, steps[0]) && Possible(Apply(s, steps[0]), steps[1..]))
  }

  function Run(s: State, steps: seq<Step>): State
    decreases |steps|
  {
    if steps == [] then s else Run(Apply(s, steps[0]), steps[1..])
  }

  // ----- The queue inside the process is the queue of FlushProtocol -----

  function QueueSteps(steps: seq<Step>): seq<Queue.Step> {
    if steps == [] then [] else QueuePart(steps[0]) + QueueSteps(steps[1..])
  }

  /**
   * The queue of a running process goes through a run of the queue protocol, so everything proved
   * of that protocol's runs holds beside saves, history writes and pruning.
   */
  lemma {:induction false} QueueRunsTheProtocol(s: State, steps: seq<Step>)
    requires Possible(s, steps)
    ensures Queue.Possible(s.queue, QueueSteps(steps))
    ensures Run(s, steps).queue == Queue.Run(s.queue, QueueSteps(steps))
    decreases |steps|
  {
    hide Queue.Apply, Queue.Enabled;
    if steps != [] {
      QueueRunsTheProtocol(Apply(s, steps[0]), steps[1..]);
      assert QueuePart(steps[0]) == [] ==> QueueSteps(steps) == QueueSteps(steps[1..]);
      if QueuePart(steps[0]) != [] {
        assert QueueSteps(steps)[0] == QueuePart(steps[0])[0] && QueueSteps(steps)[1..] == QueueSteps(steps[1..]);
        OneQueueStepIsEnabled(s, steps[0]);
      }
    }
  }

  lemma OneQueueStepIsEnabled(s: State, step: Step)
    requires Enabled(s, step) && QueuePart(step) != []
    ensures Queue.Enabled(s.queue, QueuePart(step)[0])
  {
  }

  // ----- The latest-readings map -----

  /** The last message of a key, if any. */
  function LastOf(log: seq<Message>, key: Key): Option<Message> {
    if log == [] then None
    else if Queue.Key(log[|log| - 1]) == key then Some(log[|log| - 1])
    else LastOf(log[..|log| - 1], key)
  }

  /** The map holds the last reading of every key of a list of messages, and no other key. */
  ghost predicate Agrees(latest: map<Key, Reading>, log: seq<Message>) {
    forall key: Key ::
      && (key in latest <==> LastOf(log, key).Some?)
      && (key in latest ==>
            && latest[key].value == LastOf(log, key).value.value
            && latest[key].quality == LastOf(log, key).value.quality)
  }

  /** The messages saved by this process: all it enqueued, less the one in hand. */
  function Saved(s: State): seq<Message>
    requires s.born + (if s.save.NoSave? then 0 else 1) <= |s.queue.log|
  {
    s.queue.log[s.born..|s.queue.log| - (if s.save.NoSave? then 0 else 1)]
  }

  // ----- The history -----

  predicate Describes(row: HistoryRow, m: Message) {
    && row.deviceId == m.deviceId && row.tagId == m.tagId
    && row.value == m.value && row.quality == m.quality && row.sourceTimestamp == m.sourceTimestamp
  }

  /** Row k was written for the message with id `origins[k]`, ids ascend, and none is above n. */
  ghost predicate WrittenFor(history: seq<HistoryRow>, origins: seq<nat>, log: seq<Message>, n: nat) {
    && |origins| == |history| && n <= |log|
    && (forall k :: 0 <= k < |history| ==> 1 <= origins[k] <= n && Describes(history[k], log[origins[k] - 1]))
    && (forall k, k' :: 0 <= k < k' < |origins| ==> origins[k] < origins[k'])
  }

  /** The rows are a subsequence of the first n messages of the log. */
  ghost predicate Subsequence(history: seq<HistoryRow>, log: seq<Message>, n: nat) {
    exists origins :: WrittenFor(history, origins, log, n)
  }

  /** The messages the history write of which is over. */
  function Handled(s: State): nat
    requires s.save.NoSave? || s.queue.log != []
  {
    if s.save.ToHistory? then |s.queue.log| - 1 else |s.queue.log|
  }

  ghost predicate Inv(s: State) {
    && s.born + (if s.save.NoSave? then 0 else 1) <= |s.queue.log|
    && (!s.save.NoSave? ==> s.queue.log[|s.queue.log| - 1] == s.save.m)
    && Agrees(s.latest, Saved(s))
    && Subsequence(s.history, s.queue.log, Handled(s))
  }

  /** Only an enqueue lengthens the log, and by the message it was given. */
  lemma LogAfter(s: State, step: Step)
    requires Enabled(s, step)
    ensures var log, log' := s.queue.log, QueueAfter(s.queue, step).log;
            || log' == log
            || (&& step.SaveBegins?
                && log' == log + [NewMessage(step.messageId, step.deviceId, step.tagId, step.value, step.quality,
                                             step.timestamp)])
  {
  }

  lemma LaterKeepsHistory(history: seq<HistoryRow>, log: seq<Message>, n: nat, log': seq<Message>, n': nat)
    requires Subsequence(history, log, n) && log <= log' && n <= n' <= |log'|
    ensures Subsequence(history, log', n')
  {
    var origins: seq<nat> :| WrittenFor(history, origins, log, n);
    assert WrittenFor(history, origins, log', n');
  }

  lemma SaveKeepsInv(s: State, step: Step)
    requires Inv(s) && Enabled(s, step) && step.SaveBegins?
    ensures Inv(Apply(s, step))
  {
    hide QueueAfter, LastOf, Subsequence;
    LogAfter(s, step);
    var s' := Apply(s, step);
    if s'.queue.log != s.queue.log {
      LaterKeepsHistory(s.history, s.queue.log, Handled(s), s'.queue.log, Handled(s'));
      assert Saved(s') == Saved(s);
    }
  }

  lemma LatestKeepsInv(s: State, step: Step)
    requires Inv(s) && Enabled(s, step) && step.LatestWrite?
    ensures Inv(Apply(s, step))
  {
    hide Subsequence;
    var s' := Apply(s, step);
    assert Saved(s')[..|Saved(s')| - 1] == Saved(s);
    assert Saved(s')[|Saved(s')| - 1] == s.save.m;
  }

  lemma {:induction false} PrunedOrigins(
    history: seq<HistoryRow>, origins: seq<nat>, log: seq<Message>, n: nat, cutoff: string)
    returns (origins': seq<nat>)
    requires WrittenFor(history, origins, log, n)
    ensures WrittenFor(KeepFrom(history, cutoff), origins', log, n)
  {
    hide IsoTime.TextLess, Describes;
    origins' := [];
    if history != [] {
      var m := |history| - 1;
      origins' := PrunedOrigins(history[..m], origins[..m], log, origins[m] - 1, cutoff);
      if KeepFrom(history, cutoff) != KeepFrom(history[..m], cutoff) {
        origins' := origins' + [origins[m]];
      }
    }
  }

  lemma PruneKeepsInv(s: State, cutoff: string)
    requires Inv(s)
    ensures Inv(Apply(s, Prune(cutoff)))
  {
    hide Agrees, KeepFrom, WrittenFor;
    var origins: seq<nat> :| WrittenFor(s.history, origins, s.queue.log, Handled(s));
    var origins' := PrunedOrigins(s.history, origins, s.queue.log, Handled(s), cutoff);
  }

  lemma RowAdded(history: seq<HistoryRow>, log: seq<Message>, row: HistoryRow)
    requires log != [] && Subsequence(history, log, |log| - 1) && Describes(row, log[|log| - 1])
    ensures Subsequence(history + [row], log, |log|)
  {
    hide Describes;
    var origins: seq<nat> :| WrittenFor(history, origins, log, |log| - 1);
    assert WrittenFor(history + [row], origins + [|log|], log, |log|);
  }

  lemma HistoryWriteKeepsInv(s: State, step: Step)
    requires Inv(s) && Enabled(s, step) && step.HistoryWrite?
    ensures Inv(Apply(s, step))
  {
    hide Agrees, Subsequence;
    var s' := Apply(s, step);
    assert Saved(s') == Saved(s);
    if step.works {
      RowAdded(s.history, s.queue.log, RowOf(s.lastHistoryId + 1, s.save.m, step.createdAt));
    } else {
      LaterKeepsHistory(s.history, s.queue.log, Handled(s), s'.queue.log, Handled(s'));
    }
  }

  lemma OthersKeepInv(s: State, step: Step)
    requires Inv(s) && Enabled(s, step) && (step.QueueThread? || step.Crash?)
    ensures Inv(Apply(s, step))
  {
    hide Subsequence, QueueAfter;
    LogAfter(s, step);
    var s' := Apply(s, step);
    LaterKeepsHistory(s.history, s.queue.log, Handled(s), s'.queue.log, Handled(s'));
  }

  lemma StepKeepsInv(s: State, step: Step)
    requires Inv(s) && Enabled(s, step)
    ensures Inv(Apply(s, step))
  {
    hide Inv, Apply, Enabled;
    match step
    case SaveBegins(_, _, _, _, _, _, _) => SaveKeepsInv(s, step);
    case HistoryWrite(_, _) => HistoryWriteKeepsInv(s, step);
    case LatestWrite(_) => LatestKeepsInv(s, step);
    case QueueThread(_) => OthersKeepInv(s, step);
    case Prune(cutoff) => PruneKeepsInv(s, cutoff);
    case Crash => OthersKeepInv(s, step);
  }

  lemma {:induction false} RunKeepsInv(s: State, steps: seq<Step>)
    requires Inv(s) && Possible(s, steps)
    ensures Inv(Run(s, steps))
    decreases |steps|
  {
    hide Inv, Enabled, Apply;
    if steps != [] {
      StepKeepsInv(s, steps[0]);
      RunKeepsInv(Apply(s, steps[0]), steps[1..]);
    }
  }

  lemma InitInv()
    ensures Inv(Init()) && Complete(Init())
  {
    assert WrittenFor([], [], [], 0);
  }

  /**
   * Whenever no save is in flight, the latest-readings map holds, for every key, exactly the reading
   * this process enqueued last - whatever history writes failed and whatever was sent or deleted.
   */
  lemma LatestIsLastEnqueued(steps: seq<Step>, key: Key)
    requires Possible(Init(), steps) && Run(Init(), steps).save.NoSave?
    ensures var s := Run(Init(), steps);
            && s.born <= |s.queue.log|
            && var last := LastOf(s.queue.log[s.born..], key);
               && (key in s.latest <==> last.Some?)
               && (last.Some? ==>
                     s.latest[key].value == last.value.value && s.latest[key].quality == last.value.quality)
  {
    InitInv();
    RunKeepsInv(Init(), steps);
    var s := Run(Init(), steps);
    assert Saved(s) == s.queue.log[s.born..];
  }

  /** The history is always a subsequence of the enqueue log: no row invented, doubled or out of order. */
  lemma HistoryIsSubsequence(steps: seq<Step>)
    requires Possible(Init(), steps)
    ensures Subsequence(Run(Init(), steps).history, Run(Init(), steps).queue.log, |Run(Init(), steps).queue.log|)
  {
    InitInv();
    RunKeepsInv(Init(), steps);
    var s := Run(Init(), steps);
    LaterKeepsHistory(s.history, s.queue.log, Handled(s), s.queue.log, |s.queue.log|);
  }

  // ----- When nothing fails, nothing is missing -----

  predicate Undisturbed(steps: seq<Step>) {
    forall step :: step in steps ==> !step.Prune? && !step.Crash? && (step.HistoryWrite? ==> step.works)
  }

  /** One row for every message the history write of which is over. */
  ghost predicate Complete(s: State) {
    && (s.save.NoSave? || s.queue.log != [])
    && |s.history| == Handled(s)
    && forall k :: 0 <= k < |s.history| ==> Describes(s.history[k], s.queue.log[k])
  }

  lemma UndisturbedStepIsComplete(s: State, step: Step)
    requires Inv(s) && Complete(s) && Enabled(s, step) && Undisturbed([step])
    ensures Complete(Apply(s, step))
  {
    hide QueueAfter, Agrees, Subsequence;
    assert step in [step];
    LogAfter(s, step);
  }

  lemma {:induction false} UndisturbedRunIsComplete(s: State, steps: seq<Step>)
    requires Inv(s) && Complete(s) && Possible(s, steps) && Undisturbed(steps)
    ensures Complete(Run(s, steps))
    decreases |steps|
  {
    hide Inv, Complete, Enabled, Apply;
    if steps != [] {
      assert Undisturbed([steps[0]]) && Undisturbed(steps[1..]);
      UndisturbedStepIsComplete(s, steps[0]);
      StepKeepsInv(s, steps[0]);
      UndisturbedRunIsComplete(Apply(s, steps[0]), steps[1..]);
    }
  }

  /** Without failures, pruning and crashes the history has one row for every message ever enqueued. */
  lemma UndisturbedHistoryMissesNothing(steps: seq<Step>)
    requires Possible(Init(), steps) && Undisturbed(steps) && Run(Init(), steps).save.NoSave?
    ensures var s := Run(Init(), steps);
            && |s.history| == |s.queue.log|
            && forall k :: 0 <= k < |s.history| ==> Describes(s.history[k], s.queue.log[k])
  {
    InitInv();
    UndisturbedRunIsComplete(Init(), steps);
  }
}
