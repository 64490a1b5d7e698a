/**
 * The save path and the evaluator in one process: what a pass samples is the reading that was last
 * enqueued.
 */
module SampledReadings {
  import opened Common
  import opened OfflineBuffer
  import opened AlarmEvaluator
  import Store = StoreAgreement
  import Alarms = AlarmRuns

  datatype State = State(store: Store.State, alarms: Alarms.State)

  /** Readings reach the evaluator only through the save path. */
  datatype Step = StoreStep(store: Store.Step) | AlarmStep(alarms: Alarms.Step)

  function Init(): State {
    State(Store.Init(), Alarms.Init())
  }

  ghost predicate Enabled(s: State, step: Step) {
    match step
    case StoreStep(store) => Store.Enabled(s.store, store)
    case AlarmStep(alarms) => !alarms.Record?
  }

  /** What a step of the save path means to the evaluator: a record, a restart, or nothing. */
  function AlarmsAfter(s: State, step: Store.Step): Alarms.State {
    match step
    case LatestWrite(now) =>
      if s.store.save.ToLatest? then
        var m := s.store.save.m;
        Alarms.Apply(s.alarms, Alarms.Record((m.deviceId, m.tagId), Reading(m.value, m.quality, now)))
      else s.alarms
    case Crash => Alarms.Init()
    case _ => s.alarms
  }

  function Apply(s: State, step: Step): State {
    match step
    case StoreStep(store) => State(Store.Apply(s.store, store), AlarmsAfter(s, store))
    case AlarmStep(alarms) => s.(alarms := Alarms.Apply(s.alarms, alarms))
  }

  ghost predicate Possible(s: State, steps: seq<Step>)
    decreases |steps|
  {
    steps == [] || (Enabled(s, steps[0]) && Possible(Apply(s, steps[0]), steps[1..]))
  }

  function Run(s: State, steps: seq<Step>): State
    decreases |steps|
  {
    if steps == [] then s else Run(Apply(s, steps[0]), steps[1..])
  }

  // ----- The evaluator's readings are the store's -----

  /** The last message of a key that this process enqueued. */
  function LastEnqueued(s: State, key: Key): Option<Message>
    requires s.store.born <= |s.store.queue.log|
  {
    Store.LastOf(s.store.queue.log[s.store.born..], key)
  }

  /** These readings are, for every key, the value and quality of the message this process enqueued last. */
  ghost predicate AreLastEnqueued(readings: map<Key, Reading>, s: State) {
    && s.store.born <= |s.store.queue.log|
    && Store.Agrees(readings, s.store.queue.log[s.store.born..])
  }

  ghost predicate Inv(s: State) {
    Store.Inv(s.store) && s.alarms.readings == s.store.latest
  }

  lemma StepKeepsInv(s: State, step: Step)
    requires Inv(s) && Enabled(s, step)
    ensures Inv(Apply(s, step))
  {
    hide Store.Inv, Store.QueueAfter, Store.Enabled, Alarms.EvaluateRule;
    match step
    case StoreStep(store) => Store.StepKeepsInv(s.store, store);
    case AlarmStep(alarms) => EvaluatorKeepsReadings(s.alarms, alarms);
  }

  lemma EvaluatorKeepsReadings(s: Alarms.State, step: Alarms.Step)
    requires !step.Record?
    ensures Alarms.Apply(s, step).readings == s.readings
  {
  }

  lemma {:induction false} RunKeepsInv(s: State, steps: seq<Step>)
    requires Inv(s) && Possible(s, steps)
    ensures Inv(Run(s, steps))
    decreases |steps|
  {
    hide Inv, Apply, Enabled;
    if steps != [] {
      StepKeepsInv(s, steps[0]);
      RunKeepsInv(Apply(s, steps[0]), steps[1..]);
    }
  }

  lemma InitInv()
    ensures Inv(Init())
  {
    Store.InitInv();
  }

  lemma ReadingsAreLast(s: State)
    requires Inv(s) && s.store.save.NoSave?
    ensures AreLastEnqueued(s.alarms.readings, s)
  {
    assert Store.Saved(s.store) == s.store.queue.log[s.store.born..];
  }

  // ----- What a pass samples -----

  /** The pass keeps its copy of the readings until it ends. */
  ghost predicate PassGoesOn(s: State, steps: seq<Step>)
    decreases |steps|
  {
    s.alarms.pass.Running? && (steps == [] || PassGoesOn(Apply(s, steps[0]), steps[1..]))
  }

  lemma StepKeepsSnapshot(s: State, step: Step)
    requires s.alarms.pass.Running? && Apply(s, step).alarms.pass.Running?
    ensures Apply(s, step).alarms.pass.readings == s.alarms.pass.readings
  {
    hide Store.Apply;
  }

  lemma {:induction false} SnapshotStays(s: State, steps: seq<Step>)
    requires PassGoesOn(s, steps)
    ensures Run(s, steps).alarms.pass.Running?
    ensures Run(s, steps).alarms.pass.readings == s.alarms.pass.readings
    decreases |steps|
  {
    hide Apply;
    if steps != [] {
      StepKeepsSnapshot(s, steps[0]);
      SnapshotStays(Apply(s, steps[0]), steps[1..]);
    }
  }

  /** The sample of a rule on the value last enqueued of its key, none where nothing was enqueued. */
  ghost predicate SamplesLast(sample: Option<Sample>, rule: Rule, last: Option<Message>, timestamp: int, now: int) {
    && (sample.Some? <==> last.Some?)
    && (last.Some? ==>
          sample == Some(Sample(EvaluateCondition(rule, last.value.value, timestamp, now), last.value.value)))
  }

  lemma SampleOfLast(s: State, rule: Rule, key: Key, readings: map<Key, Reading>, now: int) returns (timestamp: int)
    requires KeyOf(rule) == Some(key) && AreLastEnqueued(readings, s)
    ensures SamplesLast(TakeSample(rule, readings, now), rule, LastEnqueued(s, key), timestamp, now)
  {
    hide EvaluateCondition;
    timestamp := if key in readings then readings[key].timestamp else 0;
  }

  /**
   * A pass that takes its readings while no save is in flight samples, for as long as it lasts and
   * whatever is saved meanwhile, every rule on the value that the process had enqueued last for the
   * rule's key at that moment, and samples no rule of a key it had enqueued nothing for.
   */
  lemma PassSamplesLastEnqueued(steps: seq<Step>, more: seq<Step>, rule: Rule, key: Key, now: int)
    returns (timestamp: int)
    requires Possible(Init(), steps) && KeyOf(rule) == Some(key)
    requires var s := Run(Init(), steps); s.store.save.NoSave? && s.alarms.pass.RulesTaken?
    requires PassGoesOn(Apply(Run(Init(), steps), AlarmStep(Alarms.TakeReadings)), more)
    ensures var s := Run(Init(), steps);
            var s' := Run(Apply(s, AlarmStep(Alarms.TakeReadings)), more);
            && s.store.born <= |s.store.queue.log| && s'.alarms.pass.Running?
            && SamplesLast(TakeSample(rule, s'.alarms.pass.readings, now), rule, LastEnqueued(s, key), timestamp, now)
  {
    hide Inv, Possible, TakeSample, LastEnqueued, SamplesLast, PassGoesOn, Run;
    InitInv();
    RunKeepsInv(Init(), steps);
    var s := Run(Init(), steps);
    ReadingsAreLast(s);
    SnapshotStays(Apply(s, AlarmStep(Alarms.TakeReadings)), more);
    timestamp := SampleOfLast(s, rule, key, s.alarms.readings, now);
  }
}
