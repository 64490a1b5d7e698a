/** The edge alarm evaluator: sampled conditions in, open and close events out. */
module AlarmEvaluator {
  import opened Common

  type Key = (int, int)

  /** A rule as configured; a missing device or tag id never matches a reading. */
  datatype Rule = Rule(
    id: int, deviceId: Option<int>, tagId: Option<int>, alarmType: string, threshold: Option<Float>)

  /** Times are microseconds of the UTC clock. */
  datatype Reading = Reading(value: Float, quality: string, timestamp: int)

  datatype Action = Open | Close

  /** Decided transitions; in shadow mode they are logged, otherwise pushed. */
  datatype Event = Event(ruleId: int, action: Action, value: Float)

  const MICROSECONDS := 1000000.0

  function KeyOf(rule: Rule): Option<Key> {
    if rule.deviceId.Some? && rule.tagId.Some? then Some((rule.deviceId.value, rule.tagId.value)) else None
  }

  function EvaluateCondition(rule: Rule, value: Float, timestamp: int, now: int): bool {
    if rule.alarmType in {"high", "high_high"} then
      rule.threshold.Some? && value.AtLeast(rule.threshold.value)
    else if rule.alarmType in {"low", "low_low"} then
      rule.threshold.Some? && rule.threshold.value.AtLeast(value)
    else if rule.alarmType == "digital_on" then value == Finite(1.0)
    else if rule.alarmType == "digital_off" then value == Finite(0.0)
    else if rule.alarmType == "communication_loss" then
      rule.threshold.Some? && Finite((now - timestamp) as real / MICROSECONDS).AtLeast(rule.threshold.value)
    else false
  }

  /** One sampling of a rule's condition; none when the rule has no reading. */
  datatype Sample = Sample(triggered: bool, value: Float)

  function TakeSample(rule: Rule, readings: map<Key, Reading>, now: int): Option<Sample> {
    if KeyOf(rule).Some? && KeyOf(rule).value in readings then
      var reading := readings[KeyOf(rule).value];
      Some(Sample(EvaluateCondition(rule, reading.value, reading.timestamp, now), reading.value))
    else None
  }

  predicate IsActive(active: map<int, bool>, ruleId: int) {
    ruleId in active && active[ruleId]
  }

  /** The event a sample causes, given whether the rule was active. */
  function Transition(ruleId: int, wasActive: bool, sample: Sample): seq<Event> {
    if sample.triggered && !wasActive then [Event(ruleId, Open, sample.value)]
    else if !sample.triggered && wasActive then [Event(ruleId, Close, sample.value)]
    else []
  }

  function ActiveAfter(active: map<int, bool>, rule: Rule, sample: Option<Sample>): map<int, bool> {
    if sample.None? || sample.value.triggered == IsActive(active, rule.id) then active
    else active[rule.id := sample.value.triggered]
  }

  function EventsAfter(active: map<int, bool>, events: seq<Event>, rule: Rule, sample: Option<Sample>): seq<Event> {
    if sample.None? then events
    else events + Transition(rule.id, IsActive(active, rule.id), sample.value)
  }

  /** What the first n rules of a pass over two snapshots leave; `clock(i)` is the time read for rule i. */
  function PassActive(
    rules: seq<Rule>, readings: map<Key, Reading>, active: map<int, bool>, clock: nat -> int, n: nat): map<int, bool>
    requires n <= |rules|
  {
    if n == 0 then active
    else
      ActiveAfter(PassActive(rules, readings, active, clock, n - 1), rules[n - 1],
                  TakeSample(rules[n - 1], readings, clock(n - 1)))
  }

  function PassEvents(
    rules: seq<Rule>, readings: map<Key, Reading>, active: map<int, bool>, clock: nat -> int, n: nat): seq<Event>
    requires n <= |rules|
  {
    if n == 0 then []
    else
      EventsAfter(PassActive(rules, readings, active, clock, n - 1),
                  PassEvents(rules, readings, active, clock, n - 1),
                  rules[n - 1], TakeSample(rules[n - 1], readings, clock(n - 1)))
  }

  // ----- One pass, rule by rule -----

  function EventsOf(events: seq<Event>, ruleId: int): seq<Event> {
    if events == [] then []
    else
      var last := events[|events| - 1];
      EventsOf(events[..|events| - 1], ruleId) + (if last.ruleId == ruleId then [last] else [])
  }

  lemma EventsOfAppend(events: seq<Event>, more: seq<Event>, ruleId: int)
    requires |more| <= 1
    ensures EventsOf(events + more, ruleId) ==
            EventsOf(events, ruleId) + (if more != [] && more[0].ruleId == ruleId then more else [])
  {
    if more == [] {
      assert events + more == events;
    } else {
      assert (events + more)[..|events|] == events;
    }
  }

  /** The comparison `v >= t` of floats: false of what is not a number, whatever is infinite included. */
  ghost predicate Reaches(v: Float, t: Float) {
    && v != NotANumber && t != NotANumber
    && (v == Infinite(false) || t == Infinite(true) || (v.Finite? && t.Finite? && v.value >= t.value))
  }

  /**
   * When the condition of a rule holds of a reading: a high rule at or above its threshold, a low one
   * at or below it, a digital one at 1 or 0, a loss rule at its threshold in seconds since the reading;
   * never without a threshold where one is needed, and never for any other type.
   */
  ghost predicate Holds(rule: Rule, reading: Reading, now: int) {
    || (rule.alarmType in {"high", "high_high"} && rule.threshold.Some?
        && Reaches(reading.value, rule.threshold.value))
    || (rule.alarmType in {"low", "low_low"} && rule.threshold.Some?
        && Reaches(rule.threshold.value, reading.value))
    || (rule.alarmType == "digital_on" && reading.value == Finite(1.0))
    || (rule.alarmType == "digital_off" && reading.value == Finite(0.0))
    || (rule.alarmType == "communication_loss" && rule.threshold.Some?
        && Reaches(Finite((now - reading.timestamp) as real / 1000000.0), rule.threshold.value))
  }

  /**
   * What a pass does to a rule: with a reading of its own device and tag, the flag becomes whether the
   * condition holds, an open is logged when it rises and a close when it falls; otherwise nothing.
   */
  ghost predicate RuleOutcome(
    rule: Rule, readings: map<Key, Reading>, now: int, before: map<int, bool>, after: map<int, bool>, added: seq<Event>)
  {
    var was := IsActive(before, rule.id);
    if rule.deviceId.Some? && rule.tagId.Some? && (rule.deviceId.value, rule.tagId.value) in readings then
      var reading := readings[(rule.deviceId.value, rule.tagId.value)];
      var holds := Holds(rule, reading, now);
      && IsActive(after, rule.id) == holds
      && EventsOf(added, rule.id) == if holds && !was then [Event(rule.id, Open, reading.value)]
                                     else if !holds && was then [Event(rule.id, Close, reading.value)]
                                     else []
    else IsActive(after, rule.id) == was && EventsOf(added, rule.id) == []
  }

  /** No other rule of the list has the id of rule i. */
  ghost predicate IdOnlyAt(rules: seq<Rule>, i: nat) {
    i < |rules| && forall k :: 0 <= k < |rules| && k != i ==> rules[k].id != rules[i].id
  }

  lemma ConditionHolds(rule: Rule, reading: Reading, now: int)
    ensures EvaluateCondition(rule, reading.value, reading.timestamp, now) <==> Holds(rule, reading, now)
  {
  }

  lemma OneRule(active: map<int, bool>, events: seq<Event>, rule: Rule, readings: map<Key, Reading>, now: int)
    requires EventsOf(events, rule.id) == []
    ensures var sample := TakeSample(rule, readings, now);
            RuleOutcome(rule, readings, now, active, ActiveAfter(active, rule, sample),
                        EventsAfter(active, events, rule, sample))
  {
    hide EvaluateCondition, Holds, EventsOf;
    var sample := TakeSample(rule, readings, now);
    if sample.Some? {
      ConditionHolds(rule, readings[KeyOf(rule).value], now);
      EventsOfAppend(events, Transition(rule.id, IsActive(active, rule.id), sample.value), rule.id);
    }
  }

  lemma OtherRule(active: map<int, bool>, events: seq<Event>, rule: Rule, sample: Option<Sample>, ruleId: int)
    requires rule.id != ruleId
    ensures IsActive(ActiveAfter(active, rule, sample), ruleId) == IsActive(active, ruleId)
    ensures EventsOf(EventsAfter(active, events, rule, sample), ruleId) == EventsOf(events, ruleId)
  {
    hide EventsOf;
    if sample.Some? {
      EventsOfAppend(events, Transition(rule.id, IsActive(active, rule.id), sample.value), ruleId);
    }
  }

  lemma {:induction false} OtherRules(
    rules: seq<Rule>, readings: map<Key, Reading>, active: map<int, bool>, clock: nat -> int,
    m: nat, n: nat, ruleId: int)
    requires m <= n <= |rules| && forall k :: m <= k < n ==> rules[k].id != ruleId
    ensures IsActive(PassActive(rules, readings, active, clock, n), ruleId)
         == IsActive(PassActive(rules, readings, active, clock, m), ruleId)
    ensures EventsOf(PassEvents(rules, readings, active, clock, n), ruleId)
         == EventsOf(PassEvents(rules, readings, active, clock, m), ruleId)
    decreases n
  {
    hide EventsOf, EventsAfter, ActiveAfter, TakeSample, IsActive;
    if m < n {
      OtherRules(rules, readings, active, clock, m, n - 1, ruleId);
      OtherRule(PassActive(rules, readings, active, clock, n - 1), PassEvents(rules, readings, active, clock, n - 1),
                rules[n - 1], TakeSample(rules[n - 1], readings, clock(n - 1)), ruleId);
    }
  }

  /** A whole pass treats every rule whose id is its own by its condition, and touches no other id. */
  lemma PassTreatsEachRule(
    rules: seq<Rule>, readings: map<Key, Reading>, active: map<int, bool>, clock: nat -> int)
    ensures var after, added := PassActive(rules, readings, active, clock, |rules|),
                                PassEvents(rules, readings, active, clock, |rules|);
            && (forall i: nat :: IdOnlyAt(rules, i) ==>
                  RuleOutcome(rules[i], readings, clock(i), active, after, added))
            && (forall ruleId | (forall rule :: rule in rules ==> rule.id != ruleId) ::
                  IsActive(after, ruleId) == IsActive(active, ruleId) && EventsOf(added, ruleId) == [])
  {
    hide EventsAfter, ActiveAfter, TakeSample, IsActive, RuleOutcome, Holds;
    var after, added := PassActive(rules, readings, active, clock, |rules|),
                        PassEvents(rules, readings, active, clock, |rules|);
    forall i: nat | IdOnlyAt(rules, i) ensures RuleOutcome(rules[i], readings, clock(i), active, after, added) {
      RuleOfPass(rules, readings, active, clock, i);
    }
    forall ruleId | forall rule :: rule in rules ==> rule.id != ruleId
      ensures IsActive(after, ruleId) == IsActive(active, ruleId) && EventsOf(added, ruleId) == []
    {
      OtherRules(rules, readings, active, clock, 0, |rules|, ruleId);
    }
  }

  lemma RuleOfPass(
    rules: seq<Rule>, readings: map<Key, Reading>, active: map<int, bool>, clock: nat -> int, i: nat)
    requires IdOnlyAt(rules, i)
    ensures RuleOutcome(rules[i], readings, clock(i), active, PassActive(rules, readings, active, clock, |rules|),
                        PassEvents(rules, readings, active, clock, |rules|))
  {
    hide EventsAfter, ActiveAfter, TakeSample, Holds, EventsOf;
    EventsOfNone(rules[i].id);
    OtherRules(rules, readings, active, clock, 0, i, rules[i].id);
    OneRule(PassActive(rules, readings, active, clock, i), PassEvents(rules, readings, active, clock, i),
            rules[i], readings, clock(i));
    OtherRules(rules, readings, active, clock, i + 1, |rules|, rules[i].id);
  }

  lemma EventsOfNone(ruleId: int)
    ensures EventsOf([], ruleId) == []
  {
  }

  class Evaluator {
    var currentRules: seq<Rule>
    var latestReadings: map<Key, Reading>
    var activeState: map<int, bool>
    var events: seq<Event>

    constructor ()
      ensures currentRules == [] && latestReadings == map[] && activeState == map[] && events == []
    {
      currentRules, latestReadings, activeState, events := [], map[], map[], [];
    }

    /** A configuration without rules clears them. */
    method SetCurrentAlarmRules(rules: Option<seq<Rule>>)
      modifies this
      ensures currentRules == if rules.Some? then rules.value else []
      ensures latestReadings == old(latestReadings) && activeState == old(activeState) && events == old(events)
    {
      currentRules := match rules case Some(list) => list case None => [];
    }

    method RecordLatestReading(deviceId: int, tagId: int, value: Float, quality: string, now: int)
      modifies this
      ensures (deviceId, tagId) in latestReadings
      ensures latestReadings[(deviceId, tagId)] == Reading(value, quality, now)
      ensures forall key :: key != (deviceId, tagId) ==>
                (key in latestReadings <==> key in old(latestReadings))
                && (key in latestReadings ==> latestReadings[key] == old(latestReadings)[key])
      ensures currentRules == old(currentRules) && activeState == old(activeState) && events == old(events)
    {
      latestReadings := latestReadings[(deviceId, tagId) := Reading(value, quality, now)];
    }

    method EvaluateAllRules(clock: nat -> int)
      modifies this
      ensures currentRules == old(currentRules) && latestReadings == old(latestReadings)
      ensures activeState == PassActive(currentRules, latestReadings, old(activeState), clock, |currentRules|)
      ensures events == old(events) + PassEvents(currentRules, latestReadings, old(activeState), clock, |currentRules|)
      ensures forall i: nat :: IdOnlyAt(currentRules, i) ==>
                RuleOutcome(currentRules[i], latestReadings, clock(i), old(activeState), activeState,
                            events[|old(events)|..])
      ensures forall ruleId | (forall rule :: rule in currentRules ==> rule.id != ruleId) ::
                IsActive(activeState, ruleId) == IsActive(old(activeState), ruleId)
                && EventsOf(events[|old(events)|..], ruleId) == []
    {
      PassTreatsEachRule(currentRules, latestReadings, activeState, clock);
      hide RuleOutcome, EventsOf, IdOnlyAt;
      var rules, readings := currentRules, latestReadings;
      ghost var before := activeState;
      var i := 0;
      while i < |rules|
        invariant 0 <= i <= |rules|
        invariant currentRules == rules && latestReadings == readings
        invariant activeState == PassActive(rules, readings, before, clock, i)
        invariant events == old(events) + PassEvents(rules, readings, before, clock, i)
      {
        var rule := rules[i];
        if KeyOf(rule).Some? && KeyOf(rule).value in readings {
          var reading := readings[KeyOf(rule).value];
          var triggered := EvaluateCondition(rule, reading.value, reading.timestamp, clock(i));
          var wasActive := rule.id in activeState && activeState[rule.id];
          if triggered && !wasActive {
            activeState := activeState[rule.id := true];
            events := events + [Event(rule.id, Open, reading.value)];
          } else if !triggered && wasActive {
            activeState := activeState[rule.id := false];
            events := events + [Event(rule.id, Close, reading.value)];
          }
        }
        i := i + 1;
      }
    }
  }
}
