/**
 * The evaluator among the other threads: rules and readings change between, and during, passes.
 * Each step is one locked call, or one rule of the pass.
 */
module AlarmRuns {
  import opened Common
  import opened AlarmEvaluator

  /** A pass works on a copy of the rules and a later copy of the readings. */
  datatype Pass =
    | NoPass
    | RulesTaken(rules: seq<Rule>)
    | Running(rules: seq<Rule>, readings: map<Key, Reading>, next: nat)

  /** `samples` is a history: for every rule id, each sample taken of it, in order. */
  datatype State = State(
    rules: seq<Rule>,
    readings: map<Key, Reading>,
    active: map<int, bool>,
    events: seq<Event>,
    pass: Pass,
    samples: map<int, seq<Sample>>)

  datatype Step =
    | SetRules(rules: seq<Rule>)
    | Record(key: Key, reading: Reading)
    | TakeRules
    | TakeReadings
    | EvaluateNext(now: int)
    | Abort

  function Init(): State {
    State([], map[], map[], [], NoPass, map[])
  }

  function SamplesOf(s: State, ruleId: int): seq<Sample> {
    if ruleId in s.samples then s.samples[ruleId] else []
  }

  function Apply(s: State, step: Step): State {
    match step
    case SetRules(rules) => s.(rules := rules)
    case Record(key, reading) => s.(readings := s.readings[key := reading])
    case TakeRules => if s.pass.NoPass? then s.(pass := RulesTaken(s.rules)) else s
    case TakeReadings => if s.pass.RulesTaken? then s.(pass := Running(s.pass.rules, s.readings, 0)) else s
    case EvaluateNext(now) =>
      if !s.pass.Running? then s
      else if s.pass.next >= |s.pass.rules| then s.(pass := NoPass)
      else EvaluateRule(s, s.pass.rules[s.pass.next], now).(pass := s.pass.(next := s.pass.next + 1))
    case Abort => s.(pass := NoPass)
  }

  function EvaluateRule(s: State, rule: Rule, now: int): State
    requires s.pass.Running?
  {
    var sample := TakeSample(rule, s.pass.readings, now);
    s.(active := ActiveAfter(s.active, rule, sample),
       events := EventsAfter(s.active, s.events, rule, sample),
       samples := if sample.None? then s.samples
                  else s.samples[rule.id := SamplesOf(s, rule.id) + [sample.value]])
  }

  function Run(s: State, steps: seq<Step>): State
    decreases |steps|
  {
    if steps == [] then s else Run(Apply(s, steps[0]), steps[1..])
  }

  // ----- Change points -----

  /** The condition after a sequence of samples, `before` when there is none. */
  function ConditionAfter(before: bool, samples: seq<Sample>): bool {
    if samples == [] then before else samples[|samples| - 1].triggered
  }

  /** An event at every sample that differs from the one before it. */
  function ChangePoints(ruleId: int, before: bool, samples: seq<Sample>): seq<Event> {
    if samples == [] then []
    else
      var init, last := samples[..|samples| - 1], samples[|samples| - 1];
      ChangePoints(ruleId, before, init) +
      (if last.triggered != ConditionAfter(before, init)
       then [Event(ruleId, if last.triggered then Open else Close, last.value)]
       else [])
  }

  lemma {:induction false} ChangePointsConcat(ruleId: int, before: bool, a: seq<Sample>, b: seq<Sample>)
    ensures ChangePoints(ruleId, before, a + b)
            == ChangePoints(ruleId, before, a) + ChangePoints(ruleId, ConditionAfter(before, a), b)
    ensures ConditionAfter(before, a + b) == ConditionAfter(ConditionAfter(before, a), b)
  {
    if b == [] {
      assert a + b == a;
    } else {
      var n := |b| - 1;
      assert (a + b)[..|a + b| - 1] == a + b[..n];
      ChangePointsConcat(ruleId, before, a, b[..n]);
    }
  }

  /** Change points alternate, starting with an open, and end on the side the condition ends on. */
  lemma {:induction false} ChangePointsAlternate(ruleId: int, samples: seq<Sample>)
    ensures var events := ChangePoints(ruleId, false, samples);
            && (forall k :: 0 <= k < |events| ==> events[k].action == if k % 2 == 0 then Open else Close)
            && (|events| % 2 == 1 <==> ConditionAfter(false, samples))
  {
    if samples != [] {
      ChangePointsAlternate(ruleId, samples[..|samples| - 1]);
    }
  }

  // ----- The evaluator reports exactly the change points -----

  ghost predicate Refines(s: State, ruleId: int) {
    && EventsOf(s.events, ruleId) == ChangePoints(ruleId, false, SamplesOf(s, ruleId))
    && IsActive(s.active, ruleId) == ConditionAfter(false, SamplesOf(s, ruleId))
  }

  lemma SampleRefines(ruleId: int, wasActive: bool, samples: seq<Sample>, sample: Sample)
    requires wasActive == ConditionAfter(false, samples)
    ensures ChangePoints(ruleId, false, samples + [sample])
            == ChangePoints(ruleId, false, samples) + Transition(ruleId, wasActive, sample)
    ensures ConditionAfter(false, samples + [sample]) == sample.triggered
  {
    assert (samples + [sample])[..|samples|] == samples;
  }

  lemma EvaluateRuleRefines(s: State, rule: Rule, now: int, ruleId: int)
    requires s.pass.Running? && Refines(s, ruleId)
    ensures Refines(EvaluateRule(s, rule, now), ruleId)
  {
    hide ChangePoints, EventsOf, ConditionAfter, TakeSample;
    var sample := TakeSample(rule, s.pass.readings, now);
    if sample.Some? {
      EventsOfAppend(s.events, Transition(rule.id, IsActive(s.active, rule.id), sample.value), ruleId);
      if rule.id == ruleId {
        SampleRefines(ruleId, IsActive(s.active, ruleId), SamplesOf(s, ruleId), sample.value);
      }
    }
  }

  lemma StepRefines(s: State, step: Step, ruleId: int)
    requires Refines(s, ruleId)
    ensures Refines(Apply(s, step), ruleId)
  {
    hide ChangePoints, EventsOf, ConditionAfter, EvaluateRule;
    if step.EvaluateNext? && s.pass.Running? && s.pass.next < |s.pass.rules| {
      EvaluateRuleRefines(s, s.pass.rules[s.pass.next], step.now, ruleId);
    }
  }

  lemma {:induction false} RunRefines(s: State, steps: seq<Step>, ruleId: int)
    requires Refines(s, ruleId)
    ensures Refines(Run(s, steps), ruleId)
    decreases |steps|
  {
    if steps != [] {
      StepRefines(s, steps[0], ruleId);
      RunRefines(Apply(s, steps[0]), steps[1..], ruleId);
    }
  }

  /**
   * For any interleaving of rule refreshes, readings and passes, the events of a rule id are exactly
   * the change points of the samples taken of it, starting from false.
   */
  lemma EventsAreChangePoints(steps: seq<Step>, ruleId: int)
    ensures var s := Run(Init(), steps);
            EventsOf(s.events, ruleId) == ChangePoints(ruleId, false, SamplesOf(s, ruleId))
  {
    RunRefines(Init(), steps, ruleId);
  }

  /**
   * So opens and closes of a rule alternate starting with an open, and opens minus closes - 1 when
   * the number of events is odd, 0 when it is even - is the rule's active flag.
   */
  lemma OpensAndClosesAlternate(steps: seq<Step>, ruleId: int)
    ensures var s := Run(Init(), steps);
            var events := EventsOf(s.events, ruleId);
            && (forall k :: 0 <= k < |events| ==> events[k].action == if k % 2 == 0 then Open else Close)
            && (|events| % 2 == 1 <==> IsActive(s.active, ruleId))
  {
    RunRefines(Init(), steps, ruleId);
    ChangePointsAlternate(ruleId, SamplesOf(Run(Init(), steps), ruleId));
  }

  /** A step that takes no sample of a rule id leaves its flag, its events and its samples alone. */
  lemma UnsampledRulesKeepState(s: State, step: Step, ruleId: int)
    requires step.EvaluateNext? && s.pass.Running? && s.pass.next < |s.pass.rules| ==>
               var rule := s.pass.rules[s.pass.next];
               rule.id != ruleId || TakeSample(rule, s.pass.readings, step.now).None?
    ensures var s' := Apply(s, step);
            && IsActive(s'.active, ruleId) == IsActive(s.active, ruleId)
            && EventsOf(s'.events, ruleId) == EventsOf(s.events, ruleId)
            && SamplesOf(s', ruleId) == SamplesOf(s, ruleId)
  {
    if step.EvaluateNext? && s.pass.Running? && s.pass.next < |s.pass.rules| {
      var rule := s.pass.rules[s.pass.next];
      var sample := TakeSample(rule, s.pass.readings, step.now);
      if sample.Some? {
        EventsOfAppend(s.events, Transition(rule.id, IsActive(s.active, rule.id), sample.value), ruleId);
      }
    }
  }

  // ----- No flapping without new data -----

  predicate OnlyRule(rules: seq<Rule>, rule: Rule) {
    forall r :: r in rules && r.id == rule.id ==> r == rule
  }

  /** The rules a pass in progress has still to evaluate. */
  function RulesLeft(pass: Pass): seq<Rule> {
    match pass
    case NoPass => []
    case RulesTaken(rules) => rules
    case Running(rules, _, next) => if next <= |rules| then rules[next..] else []
  }

  predicate HasRule(rules: seq<Rule>, ruleId: int) {
    exists r :: r in rules && r.id == ruleId
  }

  /** The current rule with this id is `rule`, and the current reading of its key is `reading`. */
  predicate Current(s: State, rule: Rule, key: Key, reading: Reading) {
    && KeyOf(rule) == Some(key)
    && OnlyRule(s.rules, rule)
    && Lookup(s.readings, key) == Some(reading)
  }

  /** What a pass in progress may still sample of this rule id is that rule and that reading too. */
  predicate Steady(s: State, rule: Rule, key: Key, reading: Reading) {
    && Current(s, rule, key, reading)
    && OnlyRule(RulesLeft(s.pass), rule)
    && (s.pass.Running? && HasRule(RulesLeft(s.pass), rule.id) ==> Lookup(s.pass.readings, key) == Some(reading))
  }

  function Lookup(readings: map<Key, Reading>, key: Key): Option<Reading> {
    if key in readings then Some(readings[key]) else None
  }

  /** No step changes the rule or brings a reading for its key. */
  predicate Quiet(steps: seq<Step>, rule: Rule, key: Key) {
    forall step :: step in steps ==>
      && (step.SetRules? ==> OnlyRule(step.rules, rule))
      && (step.Record? ==> step.key != key)
  }

  /** The evaluator's clock readings never go back, and start no earlier than `from`. */
  predicate ClockNeverBack(steps: seq<Step>, from: int)
    decreases |steps|
  {
    steps == [] ||
    if steps[0].EvaluateNext? then from <= steps[0].now && ClockNeverBack(steps[1..], steps[0].now)
    else ClockNeverBack(steps[1..], from)
  }

  /** `added` are samples of one rule and one reading at the times `nows`. */
  predicate SampledAt(added: seq<Sample>, rule: Rule, reading: Reading, nows: seq<int>) {
    |added| == |nows| && forall k :: 0 <= k < |added| ==>
      added[k] == Sample(EvaluateCondition(rule, reading.value, reading.timestamp, nows[k]), reading.value)
  }

  predicate Ascending(nows: seq<int>) {
    forall i, j :: 0 <= i < j < |nows| ==> nows[i] <= nows[j]
  }

  /** The step evaluates the next rule of the pass. */
  predicate Evaluates(s: State, step: Step) {
    step.EvaluateNext? && s.pass.Running? && s.pass.next < |s.pass.rules|
  }

  /** What such a step does: the first of the rules left is sampled, the others stay. */
  lemma EvaluatesOne(s: State, step: Step, ruleId: int)
    requires Evaluates(s, step)
    ensures var s' := Apply(s, step);
            var rule := s.pass.rules[s.pass.next];
            var sample := TakeSample(rule, s.pass.readings, step.now);
            && s'.rules == s.rules && s'.readings == s.readings
            && s'.pass.Running? && s'.pass.readings == s.pass.readings
            && RulesLeft(s.pass) == [rule] + RulesLeft(s'.pass)
            && SamplesOf(s', ruleId)
               == SamplesOf(s, ruleId) + (if rule.id == ruleId && sample.Some? then [sample.value] else [])
  {
  }

  /** What any other step does to the pass. */
  lemma OthersSampleNothing(s: State, step: Step, ruleId: int)
    requires !Evaluates(s, step)
    ensures var s' := Apply(s, step);
            && SamplesOf(s', ruleId) == SamplesOf(s, ruleId)
            && (RulesLeft(s'.pass) == []
                || (s'.pass == s.pass)
                || (step.TakeRules? && s'.pass == RulesTaken(s.rules))
                || (step.TakeReadings? && s'.pass == Running(RulesLeft(s.pass), s.readings, 0)))
  {
  }

  /** A quiet step samples the rule at most once, on the same reading, at the time it carries. */
  lemma QuietStep(s: State, step: Step, rule: Rule, key: Key, reading: Reading)
    returns (added: seq<Sample>, nows: seq<int>)
    requires Steady(s, rule, key, reading) && Quiet([step], rule, key)
    ensures Steady(Apply(s, step), rule, key, reading)
    ensures nows == [] || (step.EvaluateNext? && nows == [step.now])
    ensures SampledAt(added, rule, reading, nows)
    ensures SamplesOf(Apply(s, step), rule.id) == SamplesOf(s, rule.id) + added
  {
    assert step in [step];
    added, nows := [], [];
    CurrentStays(s, step, rule, key, reading);
    if Evaluates(s, step) {
      EvaluatesOne(s, step, rule.id);
      hide Apply, SamplesOf, RulesLeft, Current, EvaluateCondition;
      var r := s.pass.rules[s.pass.next];
      assert r in RulesLeft(s.pass);
      if r.id == rule.id {
        OneSample(s, rule, key, reading, step.now);
        nows := [step.now];
        added := [TakeSample(rule, s.pass.readings, step.now).value];
      }
    } else {
      OthersSampleNothing(s, step, rule.id);
      hide Apply, SamplesOf;
    }
  }

  lemma OneSample(s: State, rule: Rule, key: Key, reading: Reading, now: int)
    requires KeyOf(rule) == Some(key) && s.pass.Running? && Lookup(s.pass.readings, key) == Some(reading)
    ensures TakeSample(rule, s.pass.readings, now)
         == Some(Sample(EvaluateCondition(rule, reading.value, reading.timestamp, now), reading.value))
  {
  }

  lemma CurrentStays(s: State, step: Step, rule: Rule, key: Key, reading: Reading)
    requires Current(s, rule, key, reading) && Quiet([step], rule, key)
    ensures Current(Apply(s, step), rule, key, reading)
  {
    hide EvaluateRule;
    assert step in [step];
    if Evaluates(s, step) {
      EvaluatesOne(s, step, rule.id);
    }
  }

  lemma SampledInParts(rule: Rule, reading: Reading, a: seq<Sample>, ts: seq<int>, b: seq<Sample>, us: seq<int>)
    requires SampledAt(a, rule, reading, ts) && SampledAt(b, rule, reading, us)
    ensures SampledAt(a + b, rule, reading, ts + us)
  {
  }

  predicate AscendingFrom(nows: seq<int>, from: int) {
    Ascending(nows) && forall k :: 0 <= k < |nows| ==> from <= nows[k]
  }

  /** What a quiet run adds to the samples of the rule: its condition on one reading, at rising times. */
  lemma {:induction false} QuietRun(s: State, steps: seq<Step>, rule: Rule, key: Key, reading: Reading, from: int)
    returns (added: seq<Sample>, nows: seq<int>)
    requires Steady(s, rule, key, reading) && Quiet(steps, rule, key)
    ensures SampledAt(added, rule, reading, nows)
    ensures SamplesOf(Run(s, steps), rule.id) == SamplesOf(s, rule.id) + added
    ensures ClockNeverBack(steps, from) ==> AscendingFrom(nows, from)
    decreases |steps|
  {
    hide Steady, SamplesOf, SampledAt, Apply;
    if steps == [] {
      added, nows := [], [];
      assert SampledAt(added, rule, reading, nows) by {
        NothingSampled(rule, reading);
      }
    } else {
      assert Quiet([steps[0]], rule, key) && Quiet(steps[1..], rule, key);
      var head, first := QuietStep(s, steps[0], rule, key, reading);
      var rest, later := QuietRun(Apply(s, steps[0]), steps[1..], rule, key, reading,
                                  if steps[0].EvaluateNext? then steps[0].now else from);
      added, nows := head + rest, first + later;
      SampledInParts(rule, reading, head, first, rest, later);
    }
  }

  lemma NothingSampled(rule: Rule, reading: Reading)
    ensures SampledAt([], rule, reading, [])
  {
  }

  function Actions(events: seq<Event>): seq<Action> {
    seq(|events|, k requires 0 <= k < |events| => events[k].action)
  }

  lemma ActionsAppend(events: seq<Event>, event: Event)
    ensures Actions(events + [event]) == Actions(events) + [event.action]
  {
  }

  lemma {:induction false} ConstantSamplesChangeOnce(ruleId: int, before: bool, samples: seq<Sample>, c: bool)
    requires forall k :: 0 <= k < |samples| ==> samples[k].triggered == c
    ensures Actions(ChangePoints(ruleId, before, samples)) ==
            if samples != [] && before != c then [if c then Open else Close] else []
  {
    if samples != [] {
      ConstantSamplesChangeOnce(ruleId, before, samples[..|samples| - 1], c);
    }
  }

  predicate AtMostCloseThenOpen(actions: seq<Action>) {
    actions == [] || actions == [Open] || actions == [Close] || actions == [Close, Open]
  }

  /** Samples that never fall back to false give at most a close followed by an open. */
  lemma {:induction false} RisingSamplesChange(ruleId: int, before: bool, samples: seq<Sample>)
    requires forall i, j :: 0 <= i < j < |samples| && samples[i].triggered ==> samples[j].triggered
    ensures AtMostCloseThenOpen(Actions(ChangePoints(ruleId, before, samples)))
    ensures !ConditionAfter(before, samples) ==>
              Actions(ChangePoints(ruleId, before, samples)) == []
              || Actions(ChangePoints(ruleId, before, samples)) == [Close]
  {
    if samples != [] {
      var init, last := samples[..|samples| - 1], samples[|samples| - 1];
      if !last.triggered {
        ConstantSamplesChangeOnce(ruleId, before, samples, false);
      } else {
        RisingSamplesChange(ruleId, before, init);
        if !ConditionAfter(before, init) {
          var earlier := ChangePoints(ruleId, before, init);
          ActionsAppend(earlier, Event(ruleId, Open, last.value));
          assert [] + [Open] == [Open] && [Close] + [Open] == [Close, Open];
        }
      }
    }
  }

  predicate ValueBased(rule: Rule) {
    rule.alarmType != "communication_loss"
  }

  lemma ConditionRises(rule: Rule, reading: Reading, t: int, t': int)
    requires rule.alarmType == "communication_loss" && t <= t'
    requires EvaluateCondition(rule, reading.value, reading.timestamp, t)
    ensures EvaluateCondition(rule, reading.value, reading.timestamp, t')
  {
  }

  lemma ValueSamplesChangeOnce(rule: Rule, reading: Reading, before: bool, samples: seq<Sample>, nows: seq<int>)
    requires ValueBased(rule) && SampledAt(samples, rule, reading, nows)
    ensures |ChangePoints(rule.id, before, samples)| <= 1
  {
    hide ChangePoints;
    ConstantSamplesChangeOnce(rule.id, before, samples,
                              EvaluateCondition(rule, reading.value, reading.timestamp, 0));
    assert |Actions(ChangePoints(rule.id, before, samples))| == |ChangePoints(rule.id, before, samples)|;
  }

  lemma LossSamplesRise(rule: Rule, reading: Reading, before: bool, samples: seq<Sample>, nows: seq<int>)
    requires rule.alarmType == "communication_loss" && SampledAt(samples, rule, reading, nows) && Ascending(nows)
    ensures AtMostCloseThenOpen(Actions(ChangePoints(rule.id, before, samples)))
  {
    hide ChangePoints, EvaluateCondition;
    forall i, j | 0 <= i < j < |samples| && samples[i].triggered ensures samples[j].triggered {
      ConditionRises(rule, reading, nows[i], nows[j]);
    }
    RisingSamplesChange(rule.id, before, samples);
  }

  /** The events a quiet run adds for the rule. */
  lemma QuietEvents(s: State, steps: seq<Step>, rule: Rule, key: Key, reading: Reading, from: int)
    returns (added: seq<Sample>, nows: seq<int>)
    requires Refines(s, rule.id)
    requires Steady(s, rule, key, reading) && Quiet(steps, rule, key)
    ensures SampledAt(added, rule, reading, nows)
    ensures EventsOf(Run(s, steps).events, rule.id) ==
            EventsOf(s.events, rule.id) + ChangePoints(rule.id, IsActive(s.active, rule.id), added)
    ensures ClockNeverBack(steps, from) ==> Ascending(nows)
  {
    added, nows := QuietRun(s, steps, rule, key, reading, from);
    RunRefines(s, steps, rule.id);
    ChangePointsConcat(rule.id, false, SamplesOf(s, rule.id), added);
  }

  /**
   * No flapping, value-based rules: while the rule is unchanged and its key gets no new reading, any
   * number of passes adds at most one event.
   */
  lemma ValueRulesDoNotFlap(s: State, steps: seq<Step>, rule: Rule, key: Key, reading: Reading)
    returns (more: seq<Event>)
    requires Refines(s, rule.id) && ValueBased(rule)
    requires Steady(s, rule, key, reading) && Quiet(steps, rule, key)
    ensures EventsOf(Run(s, steps).events, rule.id) == EventsOf(s.events, rule.id) + more && |more| <= 1
  {
    hide EventsOf, Refines, Steady, Quiet;
    var added, nows := QuietEvents(s, steps, rule, key, reading, 0);
    more := ChangePoints(rule.id, IsActive(s.active, rule.id), added);
    ValueSamplesChangeOnce(rule, reading, IsActive(s.active, rule.id), added, nows);
  }

  /**
   * No flapping, communication loss: with a clock that never goes back, any number of passes adds at
   * most a close followed by an open.
   */
  lemma LossRulesDoNotFlap(s: State, steps: seq<Step>, rule: Rule, key: Key, reading: Reading, from: int)
    returns (more: seq<Event>)
    requires Refines(s, rule.id) && rule.alarmType == "communication_loss" && ClockNeverBack(steps, from)
    requires Steady(s, rule, key, reading) && Quiet(steps, rule, key)
    ensures EventsOf(Run(s, steps).events, rule.id) == EventsOf(s.events, rule.id) + more
    ensures AtMostCloseThenOpen(Actions(more))
  {
    hide EventsOf, Refines, Steady, Quiet;
    var added, nows := QuietEvents(s, steps, rule, key, reading, from);
    more := ChangePoints(rule.id, IsActive(s.active, rule.id), added);
    LossSamplesRise(rule, reading, IsActive(s.active, rule.id), added, nows);
  }

  // ----- A pass left alone is the method -----

  function PassSteps(clock: nat -> int, n: nat): seq<Step> {
    if n == 0 then [TakeRules, TakeReadings] else PassSteps(clock, n - 1) + [EvaluateNext(clock(n - 1))]
  }

  lemma {:induction false} RunAppend(s: State, steps: seq<Step>, step: Step)
    ensures Run(s, steps + [step]) == Apply(Run(s, steps), step)
    decreases |steps|
  {
    if steps == [] {
      assert [] + [step] == [step];
    } else {
      assert (steps + [step])[1..] == steps[1..] + [step];
      RunAppend(Apply(s, steps[0]), steps[1..], step);
    }
  }

  /** Uninterrupted, a pass has the effect that `EvaluateAllRules` promises. */
  lemma {:induction false} UninterruptedPass(s: State, clock: nat -> int, n: nat)
    requires s.pass.NoPass? && n <= |s.rules|
    ensures var s' := Run(s, PassSteps(clock, n));
            && s'.pass == Running(s.rules, s.readings, n)
            && s'.active == PassActive(s.rules, s.readings, s.active, clock, n)
            && s'.events == s.events + PassEvents(s.rules, s.readings, s.active, clock, n)
  {
    if n == 0 {
      assert [TakeRules, TakeReadings][1..] == [TakeReadings];
      assert Run(s, [TakeRules, TakeReadings]) == Apply(Apply(s, TakeRules), TakeReadings);
    } else {
      UninterruptedPass(s, clock, n - 1);
      RunAppend(s, PassSteps(clock, n - 1), EvaluateNext(clock(n - 1)));
    }
  }
}
