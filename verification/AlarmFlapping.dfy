/**
 * Quiet spans - the rule unchanged, no new reading of its key - that may begin while a pass still works
 * on older snapshots: exactly when a rule changes more often than from current snapshots.
 */
module AlarmFlapping {
  import opened Common
  import opened AlarmEvaluator
  import opened AlarmRuns

  predicate Holds(rule: Rule, reading: Reading, now: int) {
    EvaluateCondition(rule, reading.value, reading.timestamp, now)
  }

  // ----- What a condition can become -----

  function Ceil(x: real): int {
    -((-x).Floor)
  }

  lemma AgeReaches(now: int, timestamp: int, seconds: real)
    ensures (now - timestamp) as real / MICROSECONDS >= seconds <==> now >= timestamp + Ceil(seconds * MICROSECONDS)
  {
    var age, bound := (now - timestamp) as real, seconds * MICROSECONDS;
    assert age / MICROSECONDS >= seconds <==> age >= bound;
  }

  /** The first time, from `from` on, at which the rule's condition holds of a reading; none if it never does. */
  function FirstTrue(rule: Rule, reading: Reading, from: int): Option<int> {
    if Holds(rule, reading, from) then Some(from)
    else if rule.alarmType == "communication_loss" && rule.threshold.Some? && rule.threshold.value.Finite? then
      Some(reading.timestamp + Ceil(rule.threshold.value.value * MICROSECONDS))
    else None
  }

  lemma FirstTrueIsFirst(rule: Rule, reading: Reading, from: int, now: int)
    requires from <= now
    ensures var first := FirstTrue(rule, reading, from);
            && (Holds(rule, reading, now) <==> first.Some? && first.value <= now)
            && (first.Some? ==> from <= first.value && Holds(rule, reading, first.value))
  {
    if rule.threshold.Some? && rule.threshold.value.Finite? {
      var seconds := rule.threshold.value.value;
      AgeReaches(now, reading.timestamp, seconds);
      AgeReaches(from, reading.timestamp, seconds);
      AgeReaches(reading.timestamp + Ceil(seconds * MICROSECONDS), reading.timestamp, seconds);
    }
  }

  /** The rule's condition comes out as `outcome` on some reading at some time. */
  predicate CanBe(rule: Rule, outcome: bool) {
    if rule.alarmType == "communication_loss" then
      if outcome then rule.threshold.Some? && rule.threshold.value !in {NotANumber, Infinite(false)}
      else rule.threshold != Some(Infinite(true))
    else if rule.alarmType in {"high", "high_high", "low", "low_low"} then
      outcome ==> rule.threshold.Some? && !rule.threshold.value.NotANumber?
    else outcome ==> rule.alarmType in {"digital_on", "digital_off"}
  }

  lemma CanBeIsNeeded(rule: Rule, reading: Reading, now: int)
    ensures CanBe(rule, Holds(rule, reading, now))
  {
  }

  lemma SomeReading(rule: Rule, outcome: bool, now: int) returns (reading: Reading)
    requires CanBe(rule, outcome)
    ensures Holds(rule, reading, now) == outcome
  {
    if rule.alarmType == "communication_loss" {
      reading := Reading(NotANumber, "", now);
      if rule.threshold.Some? && rule.threshold.value.Finite? {
        var seconds := rule.threshold.value.value;
        var due := now - Ceil(seconds * MICROSECONDS);
        reading := Reading(NotANumber, "", if outcome then due else due + 1);
        AgeReaches(now, reading.timestamp, seconds);
      }
    } else if !outcome {
      reading := Reading(NotANumber, "", now);
    } else if rule.alarmType == "digital_on" {
      reading := Reading(Finite(1.0), "", now);
    } else if rule.alarmType == "digital_off" {
      reading := Reading(Finite(0.0), "", now);
    } else {
      reading := Reading(rule.threshold.value, "", now);
    }
  }

  // ----- What a pass in progress can still sample -----

  /** No two rules of the list share this id. */
  predicate AtMostOnce(rules: seq<Rule>, ruleId: int) {
    forall i, j :: 0 <= i < j < |rules| && rules[i].id == ruleId ==> rules[j].id != ruleId
  }

  /** The first rule of the list with this id. */
  function RuleIn(rules: seq<Rule>, ruleId: int): Option<Rule> {
    if rules == [] then None
    else if rules[0].id == ruleId then Some(rules[0])
    else RuleIn(rules[1..], ruleId)
  }

  datatype Basis = NoReading | On(reading: Reading) | AnyReading

  /**
   * What a pass will sample the rule on: the reading in its snapshot, or, when it has not taken one yet,
   * the current reading of the key - and whatever may still be recorded for any other key.
   */
  function BasisOf(pass: Pass, rule: Rule, key: Key, reading: Reading): Basis {
    if KeyOf(rule).None? then NoReading
    else
      match pass
      case NoPass => NoReading
      case RulesTaken(_) => if KeyOf(rule).value == key then On(reading) else AnyReading
      case Running(_, readings, _) =>
        if KeyOf(rule).value in readings then On(readings[KeyOf(rule).value]) else NoReading
  }

  predicate BasisCanBe(rule: Rule, basis: Basis, outcome: bool, at: int) {
    match basis
    case NoReading => false
    case On(reading) => Holds(rule, reading, at) == outcome
    case AnyReading => CanBe(rule, outcome)
  }

  /** The pass in progress can sample this rule id as `outcome` at this time. */
  predicate Foreseen(s: State, ruleId: int, key: Key, reading: Reading, outcome: bool, at: int) {
    var rule := RuleIn(RulesLeft(s.pass), ruleId);
    rule.Some? && BasisCanBe(rule.value, BasisOf(s.pass, rule.value, key, reading), outcome, at)
  }

  /** The first time, from `from` on, at which the pass in progress can sample this rule id as true. */
  function StaleTrue(s: State, ruleId: int, key: Key, reading: Reading, from: int): Option<int> {
    var rule := RuleIn(RulesLeft(s.pass), ruleId);
    if rule.None? then None
    else
      match BasisOf(s.pass, rule.value, key, reading)
      case NoReading => None
      case On(older) => FirstTrue(rule.value, older, from)
      case AnyReading => if CanBe(rule.value, true) then Some(from) else None
  }

  /** From `from` on, the pass in progress can sample this rule id as `outcome`. */
  predicate CanSample(s: State, ruleId: int, key: Key, reading: Reading, outcome: bool, from: int) {
    if outcome then StaleTrue(s, ruleId, key, reading, from).Some?
    else Foreseen(s, ruleId, key, reading, false, from)
  }

  lemma ForeseenIsPossible(s: State, ruleId: int, key: Key, reading: Reading, outcome: bool, from: int, at: int)
    requires from <= at && Foreseen(s, ruleId, key, reading, outcome, at)
    ensures CanSample(s, ruleId, key, reading, outcome, from)
    ensures outcome ==> StaleTrue(s, ruleId, key, reading, from).value <= at
  {
    hide RulesLeft, RuleIn, Holds, FirstTrue, CanBe;
    var rule := RuleIn(RulesLeft(s.pass), ruleId).value;
    var basis := BasisOf(s.pass, rule, key, reading);
    if basis.On? {
      FirstTrueIsFirst(rule, basis.reading, from, at);
      FirstTrueIsFrom(rule, basis.reading, from);
    }
  }

  lemma FirstTrueIsFrom(rule: Rule, reading: Reading, from: int)
    ensures Holds(rule, reading, from) ==> FirstTrue(rule, reading, from) == Some(from)
  {
  }

  /** A time at which the pass samples the rule id as `outcome`: the first for true, `from` itself for false. */
  lemma PossibleIsForeseen(s: State, ruleId: int, key: Key, reading: Reading, outcome: bool, from: int)
    returns (at: int)
    requires CanSample(s, ruleId, key, reading, outcome, from)
    ensures from <= at && Foreseen(s, ruleId, key, reading, outcome, at)
    ensures outcome ==> StaleTrue(s, ruleId, key, reading, from) == Some(at)
  {
    hide RulesLeft, RuleIn, Holds, FirstTrue, CanBe;
    at := from;
    if outcome {
      at := StaleTrue(s, ruleId, key, reading, from).value;
      var rule := RuleIn(RulesLeft(s.pass), ruleId).value;
      var basis := BasisOf(s.pass, rule, key, reading);
      if basis.On? {
        FirstTrueIsFirst(rule, basis.reading, from, from);
      }
    }
  }

  // ----- What a quiet run adds -----

  lemma OnceTaken(first: Rule, left: seq<Rule>, rule: Rule)
    requires AtMostOnce([first] + left, rule.id)
    ensures AtMostOnce(left, rule.id)
    ensures first.id == rule.id ==> OnlyRule(left, rule) && !HasRule(left, rule.id) && RuleIn(left, rule.id) == None
    ensures RuleIn([first] + left, rule.id) == if first.id == rule.id then Some(first) else RuleIn(left, rule.id)
  {
    var all := [first] + left;
    assert all[1..] == left;
    assert forall k :: 0 <= k < |left| ==> left[k] == all[k + 1];
    if first.id == rule.id {
      forall k | 0 <= k < |left| ensures left[k].id != rule.id {
        assert all[0].id == rule.id && all[k + 1] == left[k];
      }
      NoRuleIn(left, rule.id);
    }
  }

  lemma {:induction false} NoRuleIn(rules: seq<Rule>, ruleId: int)
    requires forall k :: 0 <= k < |rules| ==> rules[k].id != ruleId
    ensures RuleIn(rules, ruleId) == None
  {
    if rules != [] {
      NoRuleIn(rules[1..], ruleId);
    }
  }

  /** Whatever the state after a step that samples nothing foresees, the state before foresees. */
  lemma ForesightGrows(s: State, step: Step, rule: Rule, key: Key, reading: Reading, outcome: bool, at: int)
    requires Current(s, rule, key, reading) && Quiet([step], rule, key)
    requires !s.pass.NoPass? && !Evaluates(s, step)
    requires Foreseen(Apply(s, step), rule.id, key, reading, outcome, at)
    ensures Foreseen(s, rule.id, key, reading, outcome, at)
  {
    OthersSampleNothing(s, step, rule.id);
    var s' := Apply(s, step);
    assert RulesLeft(s'.pass) != [];
    if s'.pass != s.pass {
      assert s.pass.RulesTaken? && s'.pass == Running(s.pass.rules, s.readings, 0);
      assert RulesLeft(s'.pass) == RulesLeft(s.pass);
      hide RulesLeft, RuleIn, Apply, Holds, CanBe;
      var r := RuleIn(RulesLeft(s.pass), rule.id).value;
      if KeyOf(r).value != key {
        CanBeIsNeeded(r, s.readings[KeyOf(r).value], at);
      }
    }
  }

  /**
   * A quiet step of a pass that may hold an older rule or reading: it takes no sample of the rule id and
   * makes none possible that was not, or it takes its one sample, after which the pass has nothing old
   * left to sample.
   */
  lemma QuietStaleStep(s: State, step: Step, rule: Rule, key: Key, reading: Reading) returns (stale: seq<Sample>)
    requires Current(s, rule, key, reading) && AtMostOnce(RulesLeft(s.pass), rule.id)
    requires !Steady(s, rule, key, reading) && Quiet([step], rule, key)
    ensures SamplesOf(Apply(s, step), rule.id) == SamplesOf(s, rule.id) + stale && |stale| <= 1
    ensures stale == [] ==>
              && Current(Apply(s, step), rule, key, reading)
              && AtMostOnce(RulesLeft(Apply(s, step).pass), rule.id)
              && (forall outcome, at :: Foreseen(Apply(s, step), rule.id, key, reading, outcome, at) ==>
                    Foreseen(s, rule.id, key, reading, outcome, at))
    ensures stale != [] ==>
              && Steady(Apply(s, step), rule, key, reading)
              && step.EvaluateNext? && Foreseen(s, rule.id, key, reading, stale[0].triggered, step.now)
  {
    stale := [];
    CurrentStays(s, step, rule, key, reading);
    if Evaluates(s, step) {
      stale := StaleEvaluation(s, step, rule, key, reading);
    } else {
      OthersSampleNothing(s, step, rule.id);
      assert !s.pass.NoPass?;
      forall outcome, at | Foreseen(Apply(s, step), rule.id, key, reading, outcome, at)
        ensures Foreseen(s, rule.id, key, reading, outcome, at)
      {
        ForesightGrows(s, step, rule, key, reading, outcome, at);
      }
      hide Apply, SamplesOf, Foreseen;
    }
  }

  lemma StaleEvaluation(s: State, step: Step, rule: Rule, key: Key, reading: Reading) returns (stale: seq<Sample>)
    requires Current(s, rule, key, reading) && AtMostOnce(RulesLeft(s.pass), rule.id)
    requires Evaluates(s, step) && Current(Apply(s, step), rule, key, reading)
    ensures SamplesOf(Apply(s, step), rule.id) == SamplesOf(s, rule.id) + stale && |stale| <= 1
    ensures AtMostOnce(RulesLeft(Apply(s, step).pass), rule.id)
    ensures stale == [] ==>
              forall outcome, at :: Foreseen(Apply(s, step), rule.id, key, reading, outcome, at) ==>
                Foreseen(s, rule.id, key, reading, outcome, at)
    ensures stale != [] ==>
              && Steady(Apply(s, step), rule, key, reading)
              && Foreseen(s, rule.id, key, reading, stale[0].triggered, step.now)
  {
    EvaluatesOne(s, step, rule.id);
    hide Apply, SamplesOf, RulesLeft, Current, AtMostOnce, OnlyRule, HasRule, RuleIn, EvaluateCondition, CanBe;
    stale := [];
    var r := s.pass.rules[s.pass.next];
    OnceTaken(r, RulesLeft(Apply(s, step).pass), rule);
    var sample := TakeSample(r, s.pass.readings, step.now);
    if r.id == rule.id && sample.Some? {
      stale := [sample.value];
    }
  }

  /**
   * A quiet run adds at most one sample of an older snapshot, one that was foreseen, before those of the
   * current reading.
   */
  lemma {:induction false} QuietStaleRun(
    s: State, steps: seq<Step>, rule: Rule, key: Key, reading: Reading, from: int)
    returns (stale: seq<Sample>, at: int, added: seq<Sample>, nows: seq<int>)
    requires Current(s, rule, key, reading) && AtMostOnce(RulesLeft(s.pass), rule.id) && Quiet(steps, rule, key)
    ensures |stale| <= 1 && SampledAt(added, rule, reading, nows)
    ensures SamplesOf(Run(s, steps), rule.id) == SamplesOf(s, rule.id) + stale + added
    ensures stale != [] ==> Foreseen(s, rule.id, key, reading, stale[0].triggered, at)
    ensures ClockNeverBack(steps, from) ==> from <= at && AscendingFrom(nows, at)
    decreases |steps|
  {
    hide Steady, Current, AtMostOnce, SamplesOf, SampledAt, Apply, Foreseen, RulesLeft;
    stale, at, added, nows := [], from, [], [];
    NothingSampled(rule, reading);
    if Steady(s, rule, key, reading) {
      added, nows := QuietRun(s, steps, rule, key, reading, from);
    } else if steps != [] {
      assert Quiet([steps[0]], rule, key) && Quiet(steps[1..], rule, key);
      var from' := if steps[0].EvaluateNext? then steps[0].now else from;
      var first := QuietStaleStep(s, steps[0], rule, key, reading);
      if first == [] {
        stale, at, added, nows := QuietStaleRun(Apply(s, steps[0]), steps[1..], rule, key, reading, from');
      } else {
        stale, at := first, from';
        added, nows := QuietRun(Apply(s, steps[0]), steps[1..], rule, key, reading, from');
      }
    }
  }

  lemma {:induction false} FewChanges(ruleId: int, before: bool, samples: seq<Sample>)
    ensures |ChangePoints(ruleId, before, samples)| <= |samples|
  {
    if samples != [] {
      FewChanges(ruleId, before, samples[..|samples| - 1]);
    }
  }

  /** The events a quiet run adds: those of the older sample, then those of the current reading. */
  lemma QuietStaleEvents(s: State, steps: seq<Step>, rule: Rule, key: Key, reading: Reading, from: int)
    returns (stale: seq<Sample>, at: int, added: seq<Sample>, nows: seq<int>)
    requires Refines(s, rule.id)
    requires Current(s, rule, key, reading) && AtMostOnce(RulesLeft(s.pass), rule.id) && Quiet(steps, rule, key)
    ensures |stale| <= 1 && SampledAt(added, rule, reading, nows)
    ensures var active := IsActive(s.active, rule.id);
            EventsOf(Run(s, steps).events, rule.id) ==
            EventsOf(s.events, rule.id) + ChangePoints(rule.id, active, stale)
            + ChangePoints(rule.id, ConditionAfter(active, stale), added)
    ensures stale != [] ==> Foreseen(s, rule.id, key, reading, stale[0].triggered, at)
    ensures ClockNeverBack(steps, from) ==> from <= at && AscendingFrom(nows, at)
  {
    hide ChangePoints, ConditionAfter, EventsOf, SamplesOf, SampledAt, Current, AtMostOnce, Quiet, Foreseen;
    stale, at, added, nows := QuietStaleRun(s, steps, rule, key, reading, from);
    RunRefines(s, steps, rule.id);
    ChangePointsConcat(rule.id, false, SamplesOf(s, rule.id) + stale, added);
    ChangePointsConcat(rule.id, false, SamplesOf(s, rule.id), stale);
  }

  // ----- Runs that take the samples one wants -----

  function CurrentSamples(rule: Rule, reading: Reading, nows: seq<int>): seq<Sample> {
    seq(|nows|, k requires 0 <= k < |nows| => Sample(Holds(rule, reading, nows[k]), reading.value))
  }

  function StepsToGo(pass: Pass): nat {
    match pass
    case NoPass => 0
    case RulesTaken(rules) => |rules| + 2
    case Running(_, _, _) => |RulesLeft(pass)| + 1
  }

  /** One more quiet step in front of a quiet run. */
  lemma Prepend(s: State, step: Step, rest: seq<Step>, rule: Rule, key: Key, from: int, from': int)
    requires Quiet([step], rule, key) && Quiet(rest, rule, key) && ClockNeverBack(rest, from')
    requires if step.EvaluateNext? then from <= step.now == from' else from == from'
    ensures var steps := [step] + rest;
            && Quiet(steps, rule, key) && ClockNeverBack(steps, from)
            && Run(s, steps) == Run(Apply(s, step), rest)
  {
    assert step in [step];
    assert ([step] + rest)[1..] == rest;
  }

  /** A whole pass over the one rule, at this time. */
  lemma PassOverRule(s: State, rule: Rule, key: Key, reading: Reading, now: int)
    requires s.pass.NoPass? && Current(s, rule, key, reading)
    ensures var s' := Apply(Apply(Apply(Apply(s, SetRules([rule])), TakeRules), TakeReadings), EvaluateNext(now));
            && Current(s', rule, key, reading)
            && s'.pass.Running? && RulesLeft(s'.pass) == []
            && SamplesOf(s', rule.id) == SamplesOf(s, rule.id) + [Sample(Holds(rule, reading, now), reading.value)]
  {
    var s3 := Apply(Apply(Apply(s, SetRules([rule])), TakeRules), TakeReadings);
    assert s3.pass == Running([rule], s.readings, 0) && SamplesOf(s3, rule.id) == SamplesOf(s, rule.id);
    EvaluatesOne(s3, EvaluateNext(now), rule.id);
    assert RulesLeft(s3.pass) == [rule];
    assert |RulesLeft(Apply(s3, EvaluateNext(now)).pass)| == 0;
  }

  /** A pass with nothing of the rule id left takes one of its remaining steps. */
  lemma PassGoesOn(s: State, rule: Rule, key: Key, reading: Reading, now: int) returns (step: Step)
    requires Current(s, rule, key, reading) && !s.pass.NoPass? && RuleIn(RulesLeft(s.pass), rule.id) == None
    ensures Quiet([step], rule, key) && (step == EvaluateNext(now) || step == TakeReadings)
    ensures var s' := Apply(s, step);
            && Current(s', rule, key, reading) && RuleIn(RulesLeft(s'.pass), rule.id) == None
            && SamplesOf(s', rule.id) == SamplesOf(s, rule.id)
            && StepsToGo(s'.pass) < StepsToGo(s.pass)
  {
    step := if s.pass.RulesTaken? then TakeReadings else EvaluateNext(now);
    CurrentStays(s, step, rule, key, reading);
    if Evaluates(s, step) {
      EvaluatesOne(s, step, rule.id);
      var left, left' := RulesLeft(s.pass), RulesLeft(Apply(s, step).pass);
      assert left[1..] == left' && left[0] == s.pass.rules[s.pass.next];
    }
  }

  /** The current rule and reading can be sampled at any ascending times. */
  lemma {:induction false} SampleAtTimes(
    s: State, rule: Rule, key: Key, reading: Reading, nows: seq<int>, from: int) returns (steps: seq<Step>)
    requires Current(s, rule, key, reading) && RuleIn(RulesLeft(s.pass), rule.id) == None
    requires AscendingFrom(nows, from)
    ensures Quiet(steps, rule, key) && ClockNeverBack(steps, from)
    ensures SamplesOf(Run(s, steps), rule.id) == SamplesOf(s, rule.id) + CurrentSamples(rule, reading, nows)
    decreases |nows|, StepsToGo(s.pass)
  {
    hide Current, RulesLeft, Apply, SamplesOf, Holds, Quiet, StepsToGo;
    steps := [];
    if nows == [] {
      NothingQuiet(rule, key);
    } else if s.pass.NoPass? {
      PassOverRule(s, rule, key, reading, nows[0]);
      var s1 := Apply(s, SetRules([rule]));
      var s2, s3 := Apply(s1, TakeRules), Apply(Apply(s1, TakeRules), TakeReadings);
      var rest := SampleAtTimes(Apply(s3, EvaluateNext(nows[0])), rule, key, reading, nows[1..], nows[0]);
      QuietPass(rule, key, nows[0]);
      Prepend(s3, EvaluateNext(nows[0]), rest, rule, key, from, nows[0]);
      Prepend(s2, TakeReadings, [EvaluateNext(nows[0])] + rest, rule, key, from, from);
      Prepend(s1, TakeRules, [TakeReadings] + ([EvaluateNext(nows[0])] + rest), rule, key, from, from);
      steps := [TakeRules] + ([TakeReadings] + ([EvaluateNext(nows[0])] + rest));
      Prepend(s, SetRules([rule]), steps, rule, key, from, from);
      steps := [SetRules([rule])] + steps;
      assert CurrentSamples(rule, reading, nows)
          == CurrentSamples(rule, reading, nows[..1]) + CurrentSamples(rule, reading, nows[1..]);
      assert CurrentSamples(rule, reading, nows[..1]) == [Sample(Holds(rule, reading, nows[0]), reading.value)];
    } else {
      var step := PassGoesOn(s, rule, key, reading, nows[0]);
      var from' := if step.EvaluateNext? then nows[0] else from;
      var rest := SampleAtTimes(Apply(s, step), rule, key, reading, nows, from');
      Prepend(s, step, rest, rule, key, from, from');
      steps := [step] + rest;
    }
  }

  lemma NothingQuiet(rule: Rule, key: Key)
    ensures Quiet([], rule, key)
  {
  }

  lemma QuietPass(rule: Rule, key: Key, now: int)
    ensures Quiet([SetRules([rule])], rule, key) && Quiet([TakeRules], rule, key)
    ensures Quiet([TakeReadings], rule, key) && Quiet([EvaluateNext(now)], rule, key)
  {
  }

  /** What is foreseen of a pass that has not taken its readings yet, it samples once it has the right ones. */
  lemma TakeForeseen(s: State, rule: Rule, key: Key, reading: Reading, outcome: bool, now: int)
    returns (first: Step)
    requires Current(s, rule, key, reading) && AtMostOnce(RulesLeft(s.pass), rule.id) && s.pass.RulesTaken?
    requires Foreseen(s, rule.id, key, reading, outcome, now)
    ensures !first.EvaluateNext? && Quiet([first], rule, key) && Quiet([TakeReadings], rule, key)
    ensures var s1 := Apply(s, first);
            var s2 := Apply(s1, TakeReadings);
            && Current(s2, rule, key, reading) && AtMostOnce(RulesLeft(s2.pass), rule.id)
            && Foreseen(s2, rule.id, key, reading, outcome, now)
            && SamplesOf(s2, rule.id) == SamplesOf(s, rule.id)
            && s2.pass.Running? && StepsToGo(s2.pass) < StepsToGo(s.pass)
  {
    var r := RuleIn(RulesLeft(s.pass), rule.id).value;
    var other := KeyOf(r).value;
    first := TakeRules;
    if other != key {
      var value := SomeReading(r, outcome, now);
      first := Record(other, value);
    }
    assert first != TakeReadings;
    CurrentStays(s, first, rule, key, reading);
    var s2 := Apply(Apply(s, first), TakeReadings);
    assert RulesLeft(s2.pass) == RulesLeft(s.pass);
    hide RuleIn, Holds, CanBe, AtMostOnce;
  }

  /** A foreseen sample can be taken, and then the current rule and reading sampled at any later times. */
  lemma {:induction false} StaleThenTimes(
    s: State, rule: Rule, key: Key, reading: Reading, outcome: bool, now: int, nows: seq<int>)
    returns (steps: seq<Step>, value: Float)
    requires Current(s, rule, key, reading) && AtMostOnce(RulesLeft(s.pass), rule.id)
    requires Foreseen(s, rule.id, key, reading, outcome, now) && AscendingFrom(nows, now)
    ensures Quiet(steps, rule, key) && ClockNeverBack(steps, now)
    ensures SamplesOf(Run(s, steps), rule.id)
         == SamplesOf(s, rule.id) + ([Sample(outcome, value)] + CurrentSamples(rule, reading, nows))
    decreases StepsToGo(s.pass)
  {
    hide Current, Apply, SamplesOf, Holds, Quiet, AtMostOnce, CurrentSamples, CanBe, RuleIn;
    if s.pass.RulesTaken? {
      hide StepsToGo, Foreseen, RulesLeft;
      var first := TakeForeseen(s, rule, key, reading, outcome, now);
      var s1 := Apply(s, first);
      steps, value := StaleThenTimes(Apply(s1, TakeReadings), rule, key, reading, outcome, now, nows);
      Prepend(s1, TakeReadings, steps, rule, key, now, now);
      Prepend(s, first, [TakeReadings] + steps, rule, key, now, now);
      steps := [first] + ([TakeReadings] + steps);
    } else {
      var step := EvaluateNext(now);
      QuietPass(rule, key, now);
      var sampled := EvaluateForeseen(s, rule, key, reading, outcome, now);
      hide StepsToGo, Foreseen, RulesLeft;
      if sampled.Some? {
        value := sampled.value;
        steps := SampleAtTimes(Apply(s, step), rule, key, reading, nows, now);
      } else {
        steps, value := StaleThenTimes(Apply(s, step), rule, key, reading, outcome, now, nows);
      }
      Prepend(s, step, steps, rule, key, now, now);
      steps := [step] + steps;
      var before, current := SamplesOf(s, rule.id), CurrentSamples(rule, reading, nows);
      assert before + [Sample(outcome, value)] + current == before + ([Sample(outcome, value)] + current);
    }
  }

  /** The next evaluation of a running pass takes the foreseen sample or leaves it foreseen. */
  lemma EvaluateForeseen(s: State, rule: Rule, key: Key, reading: Reading, outcome: bool, now: int)
    returns (sampled: Option<Float>)
    requires Current(s, rule, key, reading) && AtMostOnce(RulesLeft(s.pass), rule.id) && !s.pass.RulesTaken?
    requires Foreseen(s, rule.id, key, reading, outcome, now)
    ensures var s' := Apply(s, EvaluateNext(now));
            && Current(s', rule, key, reading) && AtMostOnce(RulesLeft(s'.pass), rule.id)
            && StepsToGo(s'.pass) < StepsToGo(s.pass)
            && (sampled.None? ==>
                  && Foreseen(s', rule.id, key, reading, outcome, now)
                  && SamplesOf(s', rule.id) == SamplesOf(s, rule.id))
            && (sampled.Some? ==>
                  && RuleIn(RulesLeft(s'.pass), rule.id) == None
                  && SamplesOf(s', rule.id) == SamplesOf(s, rule.id) + [Sample(outcome, sampled.value)])
  {
    var step := EvaluateNext(now);
    QuietPass(rule, key, now);
    CurrentStays(s, step, rule, key, reading);
    assert RulesLeft(s.pass) != [];
    assert Evaluates(s, step);
    EvaluatesOne(s, step, rule.id);
    hide Apply, SamplesOf, RulesLeft, Current, AtMostOnce, OnlyRule, HasRule, RuleIn, EvaluateCondition, CanBe;
    var r := s.pass.rules[s.pass.next];
    OnceTaken(r, RulesLeft(Apply(s, step).pass), rule);
    sampled := None;
    if r.id == rule.id {
      sampled := Some(s.pass.readings[KeyOf(r).value].value);
    }
  }

  lemma {:induction false} ClockMayStartEarlier(steps: seq<Step>, from: int, from': int)
    requires from <= from' && ClockNeverBack(steps, from')
    ensures ClockNeverBack(steps, from)
  {
    if steps != [] && !steps[0].EvaluateNext? {
      ClockMayStartEarlier(steps[1..], from, from');
    }
  }

  /** The events of a run that takes a foreseen sample and then these. */
  lemma StaleEvents(
    s: State, rule: Rule, key: Key, reading: Reading, outcome: bool, now: int, nows: seq<int>, from: int)
    returns (steps: seq<Step>, value: Float)
    requires Refines(s, rule.id) && Current(s, rule, key, reading) && AtMostOnce(RulesLeft(s.pass), rule.id)
    requires Foreseen(s, rule.id, key, reading, outcome, now) && AscendingFrom(nows, now) && from <= now
    ensures Quiet(steps, rule, key) && ClockNeverBack(steps, from)
    ensures EventsOf(Run(s, steps).events, rule.id)
         == EventsOf(s.events, rule.id)
            + ChangePoints(rule.id, IsActive(s.active, rule.id),
                           [Sample(outcome, value)] + CurrentSamples(rule, reading, nows))
  {
    hide Current, AtMostOnce, RulesLeft, Foreseen, AscendingFrom, Quiet;
    hide ChangePoints, ConditionAfter, EventsOf, SamplesOf, Run;
    steps, value := StaleThenTimes(s, rule, key, reading, outcome, now, nows);
    ClockMayStartEarlier(steps, from, now);
    RunRefines(s, steps, rule.id);
    ChangePointsConcat(rule.id, false, SamplesOf(s, rule.id),
                       [Sample(outcome, value)] + CurrentSamples(rule, reading, nows));
  }

  // ----- Value-based rules -----

  /** What a quiet run adds to the events of the rule. */
  ghost predicate Adds(s: State, steps: seq<Step>, ruleId: int, more: seq<Event>) {
    EventsOf(Run(s, steps).events, ruleId) == EventsOf(s.events, ruleId) + more
  }

  /**
   * However stale the snapshots of a pass in progress are, a value-based rule adds at most two events
   * while it is unchanged and gets no new reading: one from the older snapshot, one from the current.
   */
  lemma StaleValueRulesChangeTwice(s: State, steps: seq<Step>, rule: Rule, key: Key, reading: Reading)
    returns (first: seq<Event>, more: seq<Event>)
    requires Refines(s, rule.id) && ValueBased(rule)
    requires Current(s, rule, key, reading) && AtMostOnce(RulesLeft(s.pass), rule.id) && Quiet(steps, rule, key)
    ensures Adds(s, steps, rule.id, first + more) && |first| <= 1 && |more| <= 1
  {
    hide EventsOf, Refines, Current, AtMostOnce, Quiet, Foreseen;
    var stale, at, added, nows := QuietStaleEvents(s, steps, rule, key, reading, 0);
    var active := IsActive(s.active, rule.id);
    first := ChangePoints(rule.id, active, stale);
    FewChanges(rule.id, active, stale);
    more := ChangePoints(rule.id, ConditionAfter(active, stale), added);
    ValueSamplesChangeOnce(rule, reading, ConditionAfter(active, stale), added, nows);
    assert EventsOf(s.events, rule.id) + first + more == EventsOf(s.events, rule.id) + (first + more);
  }

  lemma SameTail(before: seq<Event>, first: seq<Event>, rest: seq<Event>, more: seq<Event>)
    requires before + more == before + first + rest
    ensures more == first + rest
  {
    assert more == (before + more)[|before|..];
    assert first + rest == (before + first + rest)[|before|..];
  }

  /** No quiet run with a clock that never goes back adds more than one event. */
  ghost predicate ChangesOnce(s: State, rule: Rule, key: Key, from: int) {
    forall steps, more | Quiet(steps, rule, key) && ClockNeverBack(steps, from) && Adds(s, steps, rule.id, more) ::
      |more| <= 1
  }

  /**
   * The older snapshot can still give the sample that differs from the flag, while the current reading
   * agrees with the flag.
   */
  predicate ValueRuleFlaps(s: State, rule: Rule, key: Key, reading: Reading, from: int) {
    var active := IsActive(s.active, rule.id);
    CanSample(s, rule.id, key, reading, !active, from) && Holds(rule, reading, from) == active
  }

  lemma ValueHoldsAlways(rule: Rule, reading: Reading, now: int, now': int)
    requires ValueBased(rule)
    ensures Holds(rule, reading, now) == Holds(rule, reading, now')
  {
  }

  lemma ChangesOf(ruleId: int, before: bool, a: Sample, b: Sample)
    ensures ChangePoints(ruleId, before, [a])
         == if a.triggered == before then [] else [Event(ruleId, if a.triggered then Open else Close, a.value)]
    ensures ChangePoints(ruleId, before, [a] + [b])
         == ChangePoints(ruleId, before, [a]) + ChangePoints(ruleId, a.triggered, [b])
  {
    assert [a][..0] == [];
    ChangePointsConcat(ruleId, before, [a], [b]);
  }

  lemma FlappingRunOfValueRule(s: State, rule: Rule, key: Key, reading: Reading, from: int)
    returns (steps: seq<Step>, more: seq<Event>)
    requires Refines(s, rule.id) && ValueBased(rule)
    requires Current(s, rule, key, reading) && AtMostOnce(RulesLeft(s.pass), rule.id)
    requires ValueRuleFlaps(s, rule, key, reading, from)
    ensures Quiet(steps, rule, key) && ClockNeverBack(steps, from) && Adds(s, steps, rule.id, more) && |more| == 2
  {
    hide Refines, Current, AtMostOnce, RulesLeft, Foreseen, CanSample, StaleTrue, EventsOf, Run, Holds, ChangePoints;
    var active := IsActive(s.active, rule.id);
    var now := PossibleIsForeseen(s, rule.id, key, reading, !active, from);
    var value;
    steps, value := StaleEvents(s, rule, key, reading, !active, now, [now], from);
    var a, b := Sample(!active, value), Sample(Holds(rule, reading, now), reading.value);
    assert CurrentSamples(rule, reading, [now]) == [b];
    ValueHoldsAlways(rule, reading, from, now);
    more := ChangePoints(rule.id, active, [a] + [b]);
    ChangesOf(rule.id, active, a, b);
    ChangesOf(rule.id, !active, b, b);
  }

  lemma SafeValueRuleChangesOnce(
    s: State, steps: seq<Step>, rule: Rule, key: Key, reading: Reading, from: int, more: seq<Event>)
    requires Refines(s, rule.id) && ValueBased(rule)
    requires Current(s, rule, key, reading) && AtMostOnce(RulesLeft(s.pass), rule.id)
    requires !ValueRuleFlaps(s, rule, key, reading, from)
    requires Quiet(steps, rule, key) && ClockNeverBack(steps, from) && Adds(s, steps, rule.id, more)
    ensures |more| <= 1
  {
    hide Refines, Current, AtMostOnce, RulesLeft, Foreseen, CanSample, StaleTrue, EventsOf, Run, Quiet;
    var active := IsActive(s.active, rule.id);
    var stale, at, added, nows := QuietStaleEvents(s, steps, rule, key, reading, from);
    var first := ChangePoints(rule.id, active, stale);
    var rest := ChangePoints(rule.id, ConditionAfter(active, stale), added);
    SameTail(EventsOf(s.events, rule.id), first, rest, more);
    ValueSamplesChangeOnce(rule, reading, ConditionAfter(active, stale), added, nows);
    if stale != [] {
      assert stale == [stale[0]];
      ChangesOf(rule.id, active, stale[0], stale[0]);
      if stale[0].triggered != active {
        ForeseenIsPossible(s, rule.id, key, reading, !active, from, at);
        ValueSamplesAgree(rule, reading, added, nows, from, !active);
      }
    }
  }

  /** Samples of a value-based rule that all agree with the condition before them change nothing. */
  lemma ValueSamplesAgree(
    rule: Rule, reading: Reading, samples: seq<Sample>, nows: seq<int>, from: int, before: bool)
    requires ValueBased(rule) && SampledAt(samples, rule, reading, nows) && Holds(rule, reading, from) == before
    ensures ChangePoints(rule.id, before, samples) == []
  {
    forall k | 0 <= k < |samples| ensures samples[k].triggered == before {
      ValueHoldsAlways(rule, reading, from, nows[k]);
    }
    hide ChangePoints, Holds;
    ConstantSamplesChangeOnce(rule.id, before, samples, before);
    assert |Actions(ChangePoints(rule.id, before, samples))| == |ChangePoints(rule.id, before, samples)|;
  }

  /**
   * Exactly when a value-based rule does not flap: whatever pass is in progress on whatever snapshots,
   * every quiet run adds at most one event if and only if the older snapshot cannot give a sample that
   * differs from the flag, or the current reading differs from the flag too.
   */
  lemma ValueRuleChangesOnceExactlyWhen(s: State, rule: Rule, key: Key, reading: Reading, from: int)
    requires Refines(s, rule.id) && ValueBased(rule)
    requires Current(s, rule, key, reading) && AtMostOnce(RulesLeft(s.pass), rule.id)
    ensures ChangesOnce(s, rule, key, from) <==> !ValueRuleFlaps(s, rule, key, reading, from)
  {
    hide Refines, Current, AtMostOnce, RulesLeft, ValueRuleFlaps, Adds, Quiet, ClockNeverBack;
    if ValueRuleFlaps(s, rule, key, reading, from) {
      var steps, more := FlappingRunOfValueRule(s, rule, key, reading, from);
    } else {
      forall steps, more | Quiet(steps, rule, key) && ClockNeverBack(steps, from) && Adds(s, steps, rule.id, more)
        ensures |more| <= 1
      {
        SafeValueRuleChangesOnce(s, steps, rule, key, reading, from, more);
      }
    }
  }

  // ----- Communication loss -----

  /** A communication_loss rule adds at most one event before what the current reading alone can give. */
  lemma StaleLossRulesChangeThrice(s: State, steps: seq<Step>, rule: Rule, key: Key, reading: Reading, from: int)
    returns (first: seq<Event>, more: seq<Event>)
    requires Refines(s, rule.id) && rule.alarmType == "communication_loss" && ClockNeverBack(steps, from)
    requires Current(s, rule, key, reading) && AtMostOnce(RulesLeft(s.pass), rule.id) && Quiet(steps, rule, key)
    ensures Adds(s, steps, rule.id, first + more) && |first| <= 1 && AtMostCloseThenOpen(Actions(more))
  {
    hide EventsOf, Refines, Current, AtMostOnce, Quiet, Foreseen;
    var stale, at, added, nows := QuietStaleEvents(s, steps, rule, key, reading, from);
    var active := IsActive(s.active, rule.id);
    first := ChangePoints(rule.id, active, stale);
    FewChanges(rule.id, active, stale);
    more := ChangePoints(rule.id, ConditionAfter(active, stale), added);
    LossSamplesRise(rule, reading, ConditionAfter(active, stale), added, nows);
    assert EventsOf(s.events, rule.id) + first + more == EventsOf(s.events, rule.id) + (first + more);
  }

  /** Every quiet run with a clock that never goes back adds at most a close followed by an open. */
  ghost predicate ClosesThenOpens(s: State, rule: Rule, key: Key, from: int) {
    forall steps, more | Quiet(steps, rule, key) && ClockNeverBack(steps, from) && Adds(s, steps, rule.id, more) ::
      AtMostCloseThenOpen(Actions(more))
  }

  /**
   * The rule is not active, and when the older snapshot can first open it the current reading is still
   * young enough to close it again.
   */
  predicate LossRuleFlaps(s: State, rule: Rule, key: Key, reading: Reading, from: int) {
    && !IsActive(s.active, rule.id)
    && StaleTrue(s, rule.id, key, reading, from).Some?
    && !Holds(rule, reading, StaleTrue(s, rule.id, key, reading, from).value)
  }

  /** The events of a flapping run that samples the current reading at these times after the older snapshot. */
  lemma FlappingRunOfLossRule(
    s: State, rule: Rule, key: Key, reading: Reading, nows: seq<int>, from: int)
    returns (steps: seq<Step>, value: Float)
    requires Refines(s, rule.id) && Current(s, rule, key, reading) && AtMostOnce(RulesLeft(s.pass), rule.id)
    requires LossRuleFlaps(s, rule, key, reading, from)
    requires AscendingFrom(nows, StaleTrue(s, rule.id, key, reading, from).value)
    ensures Quiet(steps, rule, key) && ClockNeverBack(steps, from)
    ensures Adds(s, steps, rule.id,
                 ChangePoints(rule.id, false, [Sample(true, value)] + CurrentSamples(rule, reading, nows)))
  {
    hide Refines, Current, AtMostOnce, RulesLeft, Foreseen, StaleTrue;
    hide EventsOf, Run, Holds, ChangePoints, AscendingFrom;
    var now := PossibleIsForeseen(s, rule.id, key, reading, true, from);
    steps, value := StaleEvents(s, rule, key, reading, true, now, nows, from);
  }

  /** Open, then close: the property fails. */
  lemma LossRuleOpensAndCloses(s: State, rule: Rule, key: Key, reading: Reading, from: int)
    returns (steps: seq<Step>, more: seq<Event>)
    requires Refines(s, rule.id) && Current(s, rule, key, reading) && AtMostOnce(RulesLeft(s.pass), rule.id)
    requires LossRuleFlaps(s, rule, key, reading, from)
    ensures Quiet(steps, rule, key) && ClockNeverBack(steps, from) && Adds(s, steps, rule.id, more)
    ensures Actions(more) == [Open, Close]
  {
    hide Refines, Current, AtMostOnce, RulesLeft, Foreseen, StaleTrue, EventsOf, Run, Holds, ChangePoints;
    var now := StaleTrue(s, rule.id, key, reading, from).value;
    var value;
    steps, value := FlappingRunOfLossRule(s, rule, key, reading, [now], from);
    var a, b := Sample(true, value), Sample(Holds(rule, reading, now), reading.value);
    assert CurrentSamples(rule, reading, [now]) == [b];
    more := ChangePoints(rule.id, false, [a] + [b]);
    ChangesOf(rule.id, false, a, b);
    ChangesOf(rule.id, true, b, b);
    assert more == [Event(rule.id, Open, value), Event(rule.id, Close, reading.value)];
  }

  /** Open, close and, once the current reading has aged, open again: three is reached. */
  lemma LossRuleChangesThrice(s: State, rule: Rule, key: Key, reading: Reading, from: int)
    returns (steps: seq<Step>, more: seq<Event>)
    requires Refines(s, rule.id) && Current(s, rule, key, reading) && AtMostOnce(RulesLeft(s.pass), rule.id)
    requires LossRuleFlaps(s, rule, key, reading, from)
    requires FirstTrue(rule, reading, from).Some?
    ensures Quiet(steps, rule, key) && ClockNeverBack(steps, from) && Adds(s, steps, rule.id, more)
    ensures Actions(more) == [Open, Close, Open]
  {
    var now := StaleTrue(s, rule.id, key, reading, from).value;
    var later := AgedLater(s, rule, key, reading, from);
    hide Refines, Current, AtMostOnce, RulesLeft, Foreseen, StaleTrue, EventsOf, Run, Holds, ChangePoints, FirstTrue;
    var value;
    steps, value := FlappingRunOfLossRule(s, rule, key, reading, [now, later], from);
    var a, b := Sample(true, value), Sample(false, reading.value);
    var c := Sample(true, reading.value);
    assert CurrentSamples(rule, reading, [now, later]) == [b] + [c];
    more := ChangePoints(rule.id, false, [a] + ([b] + [c]));
    OpenCloseOpen(rule.id, a, b, c);
  }

  lemma OpenCloseOpen(ruleId: int, a: Sample, b: Sample, c: Sample)
    requires a.triggered && !b.triggered && c.triggered
    ensures Actions(ChangePoints(ruleId, false, [a] + ([b] + [c]))) == [Open, Close, Open]
  {
    ChangePointsConcat(ruleId, false, [a], [b] + [c]);
    ChangesOf(ruleId, false, a, b);
    ChangesOf(ruleId, true, b, c);
    ChangesOf(ruleId, false, c, c);
    hide ChangePoints;
    assert ChangePoints(ruleId, false, [a] + ([b] + [c]))
        == [Event(ruleId, Open, a.value), Event(ruleId, Close, b.value), Event(ruleId, Open, c.value)];
  }

  lemma AgedLater(s: State, rule: Rule, key: Key, reading: Reading, from: int) returns (later: int)
    requires LossRuleFlaps(s, rule, key, reading, from) && FirstTrue(rule, reading, from).Some?
    ensures StaleTrue(s, rule.id, key, reading, from).value <= later && Holds(rule, reading, later)
  {
    var now := PossibleIsForeseen(s, rule.id, key, reading, true, from);
    hide StaleTrue, Holds, FirstTrue;
    later := FirstTrue(rule, reading, from).value;
    FirstTrueIsFirst(rule, reading, from, now);
  }

  lemma SafeLossRuleClosesThenOpens(
    s: State, steps: seq<Step>, rule: Rule, key: Key, reading: Reading, from: int, more: seq<Event>)
    requires Refines(s, rule.id) && rule.alarmType == "communication_loss"
    requires Current(s, rule, key, reading) && AtMostOnce(RulesLeft(s.pass), rule.id)
    requires !LossRuleFlaps(s, rule, key, reading, from)
    requires Quiet(steps, rule, key) && ClockNeverBack(steps, from) && Adds(s, steps, rule.id, more)
    ensures AtMostCloseThenOpen(Actions(more))
  {
    hide Refines, Current, AtMostOnce, RulesLeft, Foreseen, StaleTrue, EventsOf, Run, Quiet, ChangePoints, Holds;
    var active := IsActive(s.active, rule.id);
    var stale, at, added, nows := QuietStaleEvents(s, steps, rule, key, reading, from);
    var first := ChangePoints(rule.id, active, stale);
    var rest := ChangePoints(rule.id, ConditionAfter(active, stale), added);
    SameTail(EventsOf(s.events, rule.id), first, rest, more);
    LossSamplesRise(rule, reading, ConditionAfter(active, stale), added, nows);
    if stale == [] {
      NoChanges(rule.id, active);
      assert more == rest;
    } else {
      assert stale == [stale[0]];
      ChangesOf(rule.id, active, stale[0], stale[0]);
      if stale[0].triggered == active {
        assert more == rest;
      } else if active {
        FalseThenRising(rule, reading, added, nows);
        ActionsConcat(first, rest);
      } else {
        ForeseenIsPossible(s, rule.id, key, reading, true, from, at);
        LossSamplesAgree(rule, reading, added, nows, StaleTrue(s, rule.id, key, reading, from).value, at);
        assert more == first;
      }
    }
  }

  lemma NoChanges(ruleId: int, before: bool)
    ensures ChangePoints(ruleId, before, []) == []
  {
  }

  lemma ActionsConcat(a: seq<Event>, b: seq<Event>)
    ensures Actions(a + b) == Actions(a) + Actions(b)
  {
  }

  /** From false, rising samples give at most one open. */
  lemma FalseThenRising(rule: Rule, reading: Reading, samples: seq<Sample>, nows: seq<int>)
    requires rule.alarmType == "communication_loss" && SampledAt(samples, rule, reading, nows) && Ascending(nows)
    ensures var actions := Actions(ChangePoints(rule.id, false, samples)); actions == [] || actions == [Open]
  {
    hide ChangePoints;
    LossSamplesRise(rule, reading, false, samples, nows);
    ChangePointsAlternate(rule.id, samples);
    var events := ChangePoints(rule.id, false, samples);
    assert events != [] ==> Actions(events)[0] == events[0].action;
  }

  /** Once the current reading is too old it stays so: later samples change nothing. */
  lemma LossSamplesAgree(
    rule: Rule, reading: Reading, samples: seq<Sample>, nows: seq<int>, first: int, at: int)
    requires rule.alarmType == "communication_loss" && SampledAt(samples, rule, reading, nows)
    requires first <= at && AscendingFrom(nows, at) && Holds(rule, reading, first)
    ensures ChangePoints(rule.id, true, samples) == []
  {
    forall k | 0 <= k < |samples| ensures samples[k].triggered {
      ConditionRises(rule, reading, first, nows[k]);
    }
    hide ChangePoints, Holds;
    ConstantSamplesChangeOnce(rule.id, true, samples, true);
    assert |Actions(ChangePoints(rule.id, true, samples))| == |ChangePoints(rule.id, true, samples)|;
  }

  /**
   * Exactly when a communication_loss rule adds at most a close followed by an open: unless it is not
   * active, the older snapshot can open it, and the current reading is then young enough to close it.
   */
  lemma LossRuleClosesThenOpensExactlyWhen(s: State, rule: Rule, key: Key, reading: Reading, from: int)
    requires Refines(s, rule.id) && rule.alarmType == "communication_loss"
    requires Current(s, rule, key, reading) && AtMostOnce(RulesLeft(s.pass), rule.id)
    ensures ClosesThenOpens(s, rule, key, from) <==> !LossRuleFlaps(s, rule, key, reading, from)
  {
    hide Refines, Current, AtMostOnce, RulesLeft, LossRuleFlaps, Adds, Quiet, ClockNeverBack, Actions;
    if LossRuleFlaps(s, rule, key, reading, from) {
      var steps, more := LossRuleOpensAndCloses(s, rule, key, reading, from);
      assert [Open, Close] != [Close, Open];
    } else {
      forall steps, more | Quiet(steps, rule, key) && ClockNeverBack(steps, from) && Adds(s, steps, rule.id, more)
        ensures AtMostCloseThenOpen(Actions(more))
      {
        SafeLossRuleClosesThenOpens(s, steps, rule, key, reading, from, more);
      }
    }
  }

  lemma NoAgeNoOpen(rule: Rule, reading: Reading, samples: seq<Sample>, nows: seq<int>, from: int, before: bool)
    requires SampledAt(samples, rule, reading, nows) && AscendingFrom(nows, from)
    requires FirstTrue(rule, reading, from) == None
    ensures |ChangePoints(rule.id, before, samples)| <= 1
  {
    hide FirstTrue;
    forall k | 0 <= k < |samples| ensures !samples[k].triggered {
      FirstTrueIsFirst(rule, reading, from, nows[k]);
    }
    hide ChangePoints, Holds;
    ConstantSamplesChangeOnce(rule.id, before, samples, false);
    assert |Actions(ChangePoints(rule.id, before, samples))| == |ChangePoints(rule.id, before, samples)|;
  }

  /** Some quiet run with a clock that never goes back adds three events. */
  ghost predicate ChangesThrice(s: State, rule: Rule, key: Key, from: int) {
    exists steps, more :: Quiet(steps, rule, key) && ClockNeverBack(steps, from) && Adds(s, steps, rule.id, more)
                          && |more| == 3
  }

  lemma ThreeAreTooMany(more: seq<Event>)
    requires |more| == 3
    ensures !AtMostCloseThenOpen(Actions(more))
  {
    assert |Actions(more)| == 3;
  }

  lemma ThreeChangesNeedAge(
    s: State, steps: seq<Step>, rule: Rule, key: Key, reading: Reading, from: int, more: seq<Event>)
    requires Refines(s, rule.id) && rule.alarmType == "communication_loss"
    requires Current(s, rule, key, reading) && AtMostOnce(RulesLeft(s.pass), rule.id)
    requires Quiet(steps, rule, key) && ClockNeverBack(steps, from) && Adds(s, steps, rule.id, more) && |more| == 3
    ensures LossRuleFlaps(s, rule, key, reading, from) && FirstTrue(rule, reading, from).Some?
  {
    hide Refines, Current, AtMostOnce, RulesLeft, Foreseen, LossRuleFlaps;
    hide EventsOf, Run, Quiet, ChangePoints, FirstTrue;
    ThreeAreTooMany(more);
    if !LossRuleFlaps(s, rule, key, reading, from) {
      SafeLossRuleClosesThenOpens(s, steps, rule, key, reading, from, more);
    }
    var active := IsActive(s.active, rule.id);
    var stale, at, added, nows := QuietStaleEvents(s, steps, rule, key, reading, from);
    var first := ChangePoints(rule.id, active, stale);
    var rest := ChangePoints(rule.id, ConditionAfter(active, stale), added);
    SameTail(EventsOf(s.events, rule.id), first, rest, more);
    FewChanges(rule.id, active, stale);
    if FirstTrue(rule, reading, from).None? {
      NoAgeNoOpen(rule, reading, added, nows, from, ConditionAfter(active, stale));
    }
  }

  /** Exactly when the bound of three is reached: it flaps, and the current reading can age enough to open it. */
  lemma LossRuleChangesThriceExactlyWhen(s: State, rule: Rule, key: Key, reading: Reading, from: int)
    requires Refines(s, rule.id) && rule.alarmType == "communication_loss"
    requires Current(s, rule, key, reading) && AtMostOnce(RulesLeft(s.pass), rule.id)
    ensures ChangesThrice(s, rule, key, from)
            <==> LossRuleFlaps(s, rule, key, reading, from) && FirstTrue(rule, reading, from).Some?
  {
    hide Refines, Current, AtMostOnce, RulesLeft, LossRuleFlaps, Adds, Quiet, ClockNeverBack, FirstTrue;
    if LossRuleFlaps(s, rule, key, reading, from) && FirstTrue(rule, reading, from).Some? {
      var steps, more := LossRuleChangesThrice(s, rule, key, reading, from);
      assert |more| == |Actions(more)|;
    }
    if steps, more :|
      Quiet(steps, rule, key) && ClockNeverBack(steps, from) && Adds(s, steps, rule.id, more) && |more| == 3
    {
      ThreeChangesNeedAge(s, steps, rule, key, reading, from, more);
    }
  }

  // ----- Such states are reached -----

  lemma RunFive(s: State, a: Step, b: Step, c: Step, d: Step, e: Step)
    ensures Run(s, [a, b, c, d, e]) == Apply(Apply(Apply(Apply(Apply(s, a), b), c), d), e)
  {
    hide Apply;
    assert [a, b, c, d, e][1..] == [b, c, d, e] && [b, c, d, e][1..] == [c, d, e];
    assert [c, d, e][1..] == [d, e] && [d, e][1..] == [e] && [e][1..] == [];
    assert Run(s, [a, b, c, d, e]) == Run(Apply(s, a), [b, c, d, e]);
    assert Run(Apply(s, a), [b, c, d, e]) == Run(Apply(Apply(s, a), b), [c, d, e]);
    var s2 := Apply(Apply(s, a), b);
    assert Run(s2, [c, d, e]) == Run(Apply(s2, c), [d, e]);
    assert Run(Apply(s2, c), [d, e]) == Run(Apply(Apply(s2, c), d), [e]);
  }

  /** A pass takes one reading of the rule's key, and then a fresh one arrives. */
  lemma StaleStart(rule: Rule, key: Key, older: Reading, newer: Reading) returns (before: seq<Step>)
    requires KeyOf(rule) == Some(key)
    ensures var s := Run(Init(), before);
            && s == State([rule], map[key := newer], map[], [], Running([rule], map[key := older], 0), map[])
            && Refines(s, rule.id) && Current(s, rule, key, newer) && AtMostOnce(RulesLeft(s.pass), rule.id)
  {
    before := [SetRules([rule]), Record(key, older), TakeRules, TakeReadings, Record(key, newer)];
    RunFive(Init(), before[0], before[1], before[2], before[3], before[4]);
    RunRefines(Init(), before, rule.id);
    var s := Run(Init(), before);
    hide Run;
    assert s == State([rule], map[key := newer], map[], [], Running([rule], map[key := older], 0), map[]);
  }

  /** The one rule left in that state is the rule, on the older reading. */
  lemma StaleStartForesees(s: State, rule: Rule, key: Key, older: Reading, newer: Reading, from: int)
    requires KeyOf(rule) == Some(key)
    requires s == State([rule], map[key := newer], map[], [], Running([rule], map[key := older], 0), map[])
    ensures StaleTrue(s, rule.id, key, newer, from) == FirstTrue(rule, older, from)
  {
    assert RulesLeft(s.pass) == [rule];
  }

  /**
   * Two is reached: a pass takes a reading on which a value-based rule is true, one on which it is false
   * arrives, and in the quiet span after it the rule opens and closes.
   */
  lemma StaleSnapshotOpensAndCloses(rule: Rule, key: Key, older: Reading, newer: Reading, from: int)
    returns (before: seq<Step>, steps: seq<Step>, more: seq<Event>)
    requires KeyOf(rule) == Some(key) && ValueBased(rule)
    requires Holds(rule, older, from) && !Holds(rule, newer, from)
    ensures var s := Run(Init(), before);
            && Current(s, rule, key, newer) && Quiet(steps, rule, key) && ClockNeverBack(steps, from)
            && Adds(s, steps, rule.id, more) && |more| == 2
  {
    hide Refines, Current, AtMostOnce, Run, Adds, Quiet, ClockNeverBack, StaleTrue;
    before := StaleStart(rule, key, older, newer);
    var s := Run(Init(), before);
    StaleStartForesees(s, rule, key, older, newer, from);
    steps, more := FlappingRunOfValueRule(s, rule, key, newer, from);
  }

  /**
   * Three are reached: a pass takes a reading that is already too old, a fresh one arrives, and in the
   * quiet span after it the communication_loss rule opens, closes, and opens again as that one ages.
   */
  lemma StaleSnapshotChangesThrice(rule: Rule, key: Key, older: Reading, newer: Reading, from: int)
    returns (before: seq<Step>, steps: seq<Step>, more: seq<Event>)
    requires KeyOf(rule) == Some(key) && rule.alarmType == "communication_loss"
    requires Holds(rule, older, from) && !Holds(rule, newer, from)
    ensures var s := Run(Init(), before);
            && Current(s, rule, key, newer) && Quiet(steps, rule, key) && ClockNeverBack(steps, from)
            && Adds(s, steps, rule.id, more) && Actions(more) == [Open, Close, Open]
  {
    LossThresholdIsFinite(rule, older, newer, from);
    hide Refines, Current, AtMostOnce, Run, Adds, Quiet, ClockNeverBack, StaleTrue;
    before := StaleStart(rule, key, older, newer);
    var s := Run(Init(), before);
    StaleStartForesees(s, rule, key, older, newer, from);
    steps, more := LossRuleChangesThrice(s, rule, key, newer, from);
  }

  lemma LossThresholdIsFinite(rule: Rule, older: Reading, newer: Reading, from: int)
    requires rule.alarmType == "communication_loss" && Holds(rule, older, from) && !Holds(rule, newer, from)
    ensures FirstTrue(rule, newer, from).Some?
  {
  }
}
