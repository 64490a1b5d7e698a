/** When tags are polled: the tag loop of one device pass, and runs of passes. */
module PollSchedule {
  import opened Common

  type Key = (int, int)

  /** `Unset` covers a missing, empty or zero interval; `Malformed` one that `float` refuses. */
  datatype Interval = Unset | Every(seconds: Float) | Malformed

  datatype Tag = Tag(enabled: bool, id: Option<int>, interval: Interval)

  datatype Decision = Disabled | Skipped | Attempted

  datatype Attempt = Attempt(key: Key, time: real, interval: Interval)

  /**
   * `attempts` is a history: every read that was tried, whether it worked or not, with the interval
   * its tag was configured with.
   */
  datatype State = State(times: map<Key, real>, attempts: seq<Attempt>)

  const DEFAULT_INTERVAL := Finite(2.0)

  function IntervalOf(tag: Tag): Float
    requires !tag.interval.Malformed?
  {
    if tag.interval.Unset? then DEFAULT_INTERVAL else tag.interval.seconds
  }

  /** An enabled tag whose id is missing or no integer, or whose interval is malformed, raises out of the loop. */
  predicate Raises(tag: Tag) {
    tag.enabled && (tag.id.None? || tag.interval.Malformed?)
  }

  /** The comparison `elapsed < interval`; never true of an interval that is not a number. */
  predicate TooSoon(elapsed: real, interval: Float) {
    match interval
    case Finite(seconds) => elapsed < seconds
    case Infinite(negative) => !negative
    case NotANumber => false
  }

  function Recorded(times: map<Key, real>, key: Key): real {
    if key in times then times[key] else 0.0
  }

  function Decide(s: State, deviceId: int, tag: Tag, now: real): Decision
    requires !Raises(tag)
  {
    if !tag.enabled then Disabled
    else if TooSoon(now - Recorded(s.times, (deviceId, tag.id.value)), IntervalOf(tag)) then Skipped
    else Attempted
  }

  function AfterTag(s: State, deviceId: int, tag: Tag, now: real): State
    requires !Raises(tag)
  {
    if Decide(s, deviceId, tag, now) == Attempted then
      var key := (deviceId, tag.id.value);
      State(s.times[key := now], s.attempts + [Attempt(key, now, tag.interval)])
    else s
  }

  function AfterTags(s: State, deviceId: int, tags: seq<Tag>, now: real): State
    requires forall tag :: tag in tags ==> !Raises(tag)
  {
    if tags == [] then s
    else AfterTag(AfterTags(s, deviceId, tags[..|tags| - 1], now), deviceId, tags[|tags| - 1], now)
  }

  /** The tags a pass gets through: all of them, or those before the first that raises. */
  function Reached(tags: seq<Tag>): (reached: seq<Tag>)
    ensures reached <= tags && forall tag :: tag in reached ==> !Raises(tag)
    ensures |reached| < |tags| ==> Raises(tags[|reached|])
  {
    if tags == [] || Raises(tags[0]) then [] else [tags[0]] + Reached(tags[1..])
  }

  lemma {:induction false} ReachedStopsAt(tags: seq<Tag>, i: nat)
    requires i < |tags| && i <= |Reached(tags)| && Raises(tags[i])
    ensures |Reached(tags)| == i
  {
    if i > 0 {
      ReachedStopsAt(tags[1..], i - 1);
    }
  }

  /** Each decision is taken in the state that the tags before it have left. */
  ghost predicate Decided(decisions: seq<Decision>, s: State, deviceId: int, tags: seq<Tag>, now: real)
    requires forall tag :: tag in tags ==> !Raises(tag)
  {
    |decisions| <= |tags| && forall i :: 0 <= i < |decisions| ==>
      decisions[i] == Decide(AfterTags(s, deviceId, tags[..i], now), deviceId, tags[i], now)
  }

  lemma NoTags(s: State, deviceId: int, tags: seq<Tag>, now: real)
    requires forall tag :: tag in tags ==> !Raises(tag)
    ensures AfterTags(s, deviceId, [], now) == s && Decided([], s, deviceId, tags, now)
  {
  }

  lemma DecidedOneMore(decisions: seq<Decision>, s: State, deviceId: int, tags: seq<Tag>, now: real)
    requires forall tag :: tag in tags ==> !Raises(tag)
    requires Decided(decisions, s, deviceId, tags, now) && |decisions| < |tags|
    ensures !Raises(tags[|decisions|])
    ensures var n := |decisions|;
            var decision := Decide(AfterTags(s, deviceId, tags[..n], now), deviceId, tags[n], now);
            Decided(decisions + [decision], s, deviceId, tags, now)
  {
    hide AfterTags, Decide;
    assert tags[|decisions|] in tags;
  }

  lemma OneMoreTag(s: State, deviceId: int, tags: seq<Tag>, i: nat, now: real)
    requires i < |tags| && forall tag :: tag in tags ==> !Raises(tag)
    ensures !Raises(tags[i])
    ensures AfterTags(s, deviceId, tags[..i + 1], now)
         == AfterTag(AfterTags(s, deviceId, tags[..i], now), deviceId, tags[i], now)
  {
    assert tags[..i + 1][..i] == tags[..i];
    assert tags[i] in tags;
  }

  // ----- The loop's decisions, read off the tags and the times -----

  /**
   * A tag of this interval may be tried so many seconds after its last attempt: from two seconds on
   * when none is set; never when it is infinite, always when it is minus infinity or not a number.
   */
  predicate Allows(interval: Interval, elapsed: real) {
    match interval
    case Unset => elapsed >= 2.0
    case Every(Finite(seconds)) => elapsed >= seconds
    case Every(Infinite(negative)) => negative
    case Every(NotANumber) => true
    case Malformed => false
  }

  /** Tag j of the list was tried, under this key. */
  predicate TriedAs(decisions: seq<Decision>, deviceId: int, tags: seq<Tag>, key: Key, j: nat)
    requires |decisions| <= |tags|
  {
    j < |decisions| && decisions[j] == Attempted && deviceId == key.0 && tags[j].id == Some(key.1)
  }

  ghost predicate TriedBefore(decisions: seq<Decision>, deviceId: int, tags: seq<Tag>, key: Key, i: nat)
    requires |decisions| <= |tags|
  {
    exists j: nat :: j < i && TriedAs(decisions, deviceId, tags, key, j)
  }

  /** The last attempt on a key before tag i: in this list, or as recorded before it, or 0.0. */
  ghost function LastBefore(
    times: map<Key, real>, decisions: seq<Decision>, deviceId: int, tags: seq<Tag>, now: real, key: Key, i: nat): real
    requires |decisions| <= |tags|
  {
    if TriedBefore(decisions, deviceId, tags, key, i) then now else if key in times then times[key] else 0.0
  }

  /** A disabled tag is left alone; any other can be read and is tried exactly when its interval allows it. */
  ghost predicate DecidesByInterval(
    decisions: seq<Decision>, times: map<Key, real>, deviceId: int, tags: seq<Tag>, now: real)
    requires |decisions| <= |tags|
  {
    forall i: nat :: i < |decisions| ==>
      if tags[i].enabled then
        tags[i].id.Some? && !tags[i].interval.Malformed? &&
        var key := (deviceId, tags[i].id.value);
        var elapsed := now - LastBefore(times, decisions, deviceId, tags, now, key, i);
        decisions[i] == if Allows(tags[i].interval, elapsed) then Attempted else Skipped
      else decisions[i] == Disabled
  }

  /** The times record the attempts: now for a key that was tried, and nothing else changes. */
  ghost predicate RecordsTimes(
    decisions: seq<Decision>, deviceId: int, tags: seq<Tag>, now: real, n: nat,
    times: map<Key, real>, times': map<Key, real>)
    requires |decisions| <= |tags|
  {
    forall key :: if TriedBefore(decisions, deviceId, tags, key, n) then key in times' && times'[key] == now
                  else (key in times' <==> key in times) && (key in times ==> times'[key] == times[key])
  }

  ghost function TriedBelow(decisions: seq<Decision>, n: nat): set<nat>
    requires n <= |decisions|
  {
    set j: nat | 0 <= j < n && decisions[j] == Attempted
  }

  /** One attempt for each tag that was tried, in order, with its own key and configured interval. */
  ghost predicate RecordsAttempts(
    decisions: seq<Decision>, deviceId: int, tags: seq<Tag>, now: real, n: nat,
    attempts: seq<Attempt>, attempts': seq<Attempt>)
    requires n <= |decisions| <= |tags|
  {
    && attempts <= attempts' && |attempts'| == |attempts| + |TriedBelow(decisions, n)|
    && forall j: nat :: j < n && decisions[j] == Attempted ==>
         IsAttemptOf(deviceId, tags[j], now, attempts', |attempts| + |TriedBelow(decisions, j)|)
  }

  predicate IsAttemptOf(deviceId: int, tag: Tag, now: real, attempts: seq<Attempt>, k: nat) {
    k < |attempts| && tag.id.Some? && attempts[k] == Attempt((deviceId, tag.id.value), now, tag.interval)
  }

  lemma DecideIsAllowed(s: State, deviceId: int, tag: Tag, now: real)
    requires !Raises(tag)
    ensures Decide(s, deviceId, tag, now)
         == if !tag.enabled then Disabled
            else if Allows(tag.interval, now - Recorded(s.times, (deviceId, tag.id.value))) then Attempted
            else Skipped
  {
  }

  lemma {:induction false} LoopRecordsTimes(
    decisions: seq<Decision>, s: State, deviceId: int, tags: seq<Tag>, now: real, n: nat)
    requires forall tag :: tag in tags ==> !Raises(tag)
    requires Decided(decisions, s, deviceId, tags, now) && n <= |decisions|
    ensures RecordsTimes(decisions, deviceId, tags, now, n, s.times, AfterTags(s, deviceId, tags[..n], now).times)
  {
    hide Decide, AfterTag, RecordsTimes, TriedBefore;
    if n > 0 {
      LoopRecordsTimes(decisions, s, deviceId, tags, now, n - 1);
      OneMoreTag(s, deviceId, tags, n - 1, now);
      var before, after := AfterTags(s, deviceId, tags[..n - 1], now), AfterTags(s, deviceId, tags[..n], now);
      OneTagRecords(before, deviceId, tags[n - 1], now);
      OneMoreTime(decisions, deviceId, tags, now, n - 1, s.times, before.times, after.times);
    } else {
      NoneTried(decisions, s, deviceId, tags, now);
    }
  }

  lemma NoneTried(decisions: seq<Decision>, s: State, deviceId: int, tags: seq<Tag>, now: real)
    requires |decisions| <= |tags|
    ensures RecordsTimes(decisions, deviceId, tags, now, 0, s.times, AfterTags(s, deviceId, tags[..0], now).times)
  {
    assert tags[..0] == [];
  }

  lemma OneMoreTime(
    decisions: seq<Decision>, deviceId: int, tags: seq<Tag>, now: real, n: nat,
    times: map<Key, real>, before: map<Key, real>, after: map<Key, real>)
    requires n < |decisions| <= |tags|
    requires RecordsTimes(decisions, deviceId, tags, now, n, times, before)
    requires if decisions[n] == Attempted then
               tags[n].id.Some? && after == before[(deviceId, tags[n].id.value) := now]
             else after == before
    ensures RecordsTimes(decisions, deviceId, tags, now, n + 1, times, after)
  {
    forall key ensures TriedBefore(decisions, deviceId, tags, key, n + 1)
                       <==> TriedBefore(decisions, deviceId, tags, key, n)
                            || TriedAs(decisions, deviceId, tags, key, n)
    {
      TriedOneMore(decisions, deviceId, tags, key, n);
    }
    hide TriedBefore;
  }

  lemma TriedOneMore(decisions: seq<Decision>, deviceId: int, tags: seq<Tag>, key: Key, n: nat)
    requires |decisions| <= |tags|
    ensures TriedBefore(decisions, deviceId, tags, key, n + 1)
            <==> TriedBefore(decisions, deviceId, tags, key, n) || TriedAs(decisions, deviceId, tags, key, n)
  {
    hide TriedAs;
  }

  lemma OneTagRecords(s: State, deviceId: int, tag: Tag, now: real)
    requires !Raises(tag)
    ensures var s' := AfterTag(s, deviceId, tag, now);
            if Decide(s, deviceId, tag, now) == Attempted then
              && tag.id.Some?
              && s'.times == s.times[(deviceId, tag.id.value) := now]
              && s'.attempts == s.attempts + [Attempt((deviceId, tag.id.value), now, tag.interval)]
            else s' == s
  {
  }

  lemma OneMoreTried(decisions: seq<Decision>, n: nat)
    requires n < |decisions|
    ensures |TriedBelow(decisions, n + 1)|
         == |TriedBelow(decisions, n)| + (if decisions[n] == Attempted then 1 else 0)
  {
    var tried := decisions[n] == Attempted;
    assert TriedBelow(decisions, n + 1) == TriedBelow(decisions, n) + (if tried then {n} else {});
  }

  lemma NewAttempt(deviceId: int, tag: Tag, now: real, before: seq<Attempt>)
    requires tag.id.Some?
    ensures IsAttemptOf(deviceId, tag, now, before + [Attempt((deviceId, tag.id.value), now, tag.interval)], |before|)
  {
  }

  lemma SameAttempt(deviceId: int, tag: Tag, now: real, before: seq<Attempt>, after: seq<Attempt>, k: nat)
    requires IsAttemptOf(deviceId, tag, now, before, k) && before <= after
    ensures IsAttemptOf(deviceId, tag, now, after, k)
  {
  }

  lemma OneMoreAttempt(
    decisions: seq<Decision>, deviceId: int, tags: seq<Tag>, now: real, n: nat,
    attempts: seq<Attempt>, before: seq<Attempt>, after: seq<Attempt>)
    requires n < |decisions| <= |tags|
    requires RecordsAttempts(decisions, deviceId, tags, now, n, attempts, before)
    requires if decisions[n] == Attempted then
               tags[n].id.Some? && after == before + [Attempt((deviceId, tags[n].id.value), now, tags[n].interval)]
             else after == before
    ensures RecordsAttempts(decisions, deviceId, tags, now, n + 1, attempts, after)
  {
    hide TriedBelow, IsAttemptOf;
    OneMoreTried(decisions, n);
    if decisions[n] == Attempted {
      assert IsAttemptOf(deviceId, tags[n], now, after, |before|) by {
        NewAttempt(deviceId, tags[n], now, before);
      }
    }
    forall j: nat | j <= n && decisions[j] == Attempted
      ensures IsAttemptOf(deviceId, tags[j], now, after, |attempts| + |TriedBelow(decisions, j)|)
    {
      if j < n {
        SameAttempt(deviceId, tags[j], now, before, after, |attempts| + |TriedBelow(decisions, j)|);
      }
    }
  }

  lemma {:induction false} LoopRecordsAttempts(
    decisions: seq<Decision>, s: State, deviceId: int, tags: seq<Tag>, now: real, n: nat)
    requires forall tag :: tag in tags ==> !Raises(tag)
    requires Decided(decisions, s, deviceId, tags, now) && n <= |decisions|
    ensures RecordsAttempts(decisions, deviceId, tags, now, n, s.attempts,
                            AfterTags(s, deviceId, tags[..n], now).attempts)
  {
    hide Decide, AfterTag, RecordsAttempts;
    if n > 0 {
      LoopRecordsAttempts(decisions, s, deviceId, tags, now, n - 1);
      OneMoreTag(s, deviceId, tags, n - 1, now);
      var before, after := AfterTags(s, deviceId, tags[..n - 1], now), AfterTags(s, deviceId, tags[..n], now);
      OneTagRecords(before, deviceId, tags[n - 1], now);
      OneMoreAttempt(decisions, deviceId, tags, now, n - 1, s.attempts, before.attempts, after.attempts);
    } else {
      NothingTried(decisions, s, deviceId, tags, now);
    }
  }

  lemma NothingTried(decisions: seq<Decision>, s: State, deviceId: int, tags: seq<Tag>, now: real)
    requires |decisions| <= |tags|
    ensures RecordsAttempts(decisions, deviceId, tags, now, 0, s.attempts,
                            AfterTags(s, deviceId, tags[..0], now).attempts)
  {
    assert tags[..0] == [] && TriedBelow(decisions, 0) == {};
  }

  lemma LoopDecidesByInterval(decisions: seq<Decision>, s: State, deviceId: int, tags: seq<Tag>, now: real)
    requires forall tag :: tag in tags ==> !Raises(tag)
    requires Decided(decisions, s, deviceId, tags, now)
    ensures DecidesByInterval(decisions, s.times, deviceId, tags, now)
  {
    hide AfterTags, Allows, Decide, TriedBefore;
    forall i: nat | i < |decisions|
      ensures if tags[i].enabled then
                tags[i].id.Some? && !tags[i].interval.Malformed? &&
                var key := (deviceId, tags[i].id.value);
                var elapsed := now - LastBefore(s.times, decisions, deviceId, tags, now, key, i);
                decisions[i] == if Allows(tags[i].interval, elapsed) then Attempted else Skipped
              else decisions[i] == Disabled
    {
      assert tags[i] in tags;
      LoopRecordsTimes(decisions, s, deviceId, tags, now, i);
      DecideIsAllowed(AfterTags(s, deviceId, tags[..i], now), deviceId, tags[i], now);
    }
  }

  lemma LoopByInterval(decisions: seq<Decision>, s: State, deviceId: int, tags: seq<Tag>, now: real)
    requires |decisions| == |Reached(tags)| && Decided(decisions, s, deviceId, Reached(tags), now)
    ensures |decisions| <= |tags|
    ensures DecidesByInterval(decisions, s.times, deviceId, tags, now)
    ensures var s' := AfterTags(s, deviceId, Reached(tags), now);
            && RecordsTimes(decisions, deviceId, tags, now, |decisions|, s.times, s'.times)
            && RecordsAttempts(decisions, deviceId, tags, now, |decisions|, s.attempts, s'.attempts)
  {
    hide AfterTags, Decided, DecidesByInterval, RecordsTimes, RecordsAttempts;
    var reached, n := Reached(tags), |decisions|;
    LoopDecidesByInterval(decisions, s, deviceId, reached, now);
    LoopRecordsTimes(decisions, s, deviceId, reached, now, n);
    LoopRecordsAttempts(decisions, s, deviceId, reached, now, n);
    assert reached[..n] == reached;
    var s' := AfterTags(s, deviceId, reached, now);
    SameDecisions(decisions, s.times, deviceId, tags, now);
    SameRecords(decisions, deviceId, tags, now, s, s');
  }

  lemma SameDecisions(decisions: seq<Decision>, times: map<Key, real>, deviceId: int, tags: seq<Tag>, now: real)
    requires |decisions| == |Reached(tags)| && DecidesByInterval(decisions, times, deviceId, Reached(tags), now)
    ensures |decisions| <= |tags| && DecidesByInterval(decisions, times, deviceId, tags, now)
  {
    hide Allows, TriedBefore;
    forall i: nat | i < |decisions| && tags[i].enabled
      ensures tags[i].id.Some?
      ensures var key := (deviceId, tags[i].id.value);
              LastBefore(times, decisions, deviceId, tags, now, key, i)
              == LastBefore(times, decisions, deviceId, Reached(tags), now, key, i)
    {
      assert tags[i] == Reached(tags)[i];
      SameTries(decisions, deviceId, tags, (deviceId, tags[i].id.value), i);
    }
  }

  lemma SameRecords(decisions: seq<Decision>, deviceId: int, tags: seq<Tag>, now: real, s: State, s': State)
    requires |decisions| == |Reached(tags)|
    requires RecordsTimes(decisions, deviceId, Reached(tags), now, |decisions|, s.times, s'.times)
    requires RecordsAttempts(decisions, deviceId, Reached(tags), now, |decisions|, s.attempts, s'.attempts)
    ensures |decisions| <= |tags|
    ensures RecordsTimes(decisions, deviceId, tags, now, |decisions|, s.times, s'.times)
    ensures RecordsAttempts(decisions, deviceId, tags, now, |decisions|, s.attempts, s'.attempts)
  {
    hide TriedBefore, TriedBelow, IsAttemptOf;
    var n := |decisions|;
    forall key
      ensures TriedBefore(decisions, deviceId, tags, key, n) == TriedBefore(decisions, deviceId, Reached(tags), key, n)
    {
      SameTries(decisions, deviceId, tags, key, n);
    }
    forall j: nat | j < n ensures tags[j] == Reached(tags)[j] {
    }
  }

  lemma SameTries(decisions: seq<Decision>, deviceId: int, tags: seq<Tag>, key: Key, i: nat)
    requires |decisions| == |Reached(tags)|
    ensures |decisions| <= |tags|
    ensures TriedBefore(decisions, deviceId, tags, key, i) == TriedBefore(decisions, deviceId, Reached(tags), key, i)
  {
    forall j: nat ensures TriedAs(decisions, deviceId, tags, key, j)
                          == TriedAs(decisions, deviceId, Reached(tags), key, j)
    {
      assert j < |decisions| ==> tags[j] == Reached(tags)[j];
    }
  }

  class Poller {
    var lastPollTimes: map<Key, real>
    ghost var attempts: seq<Attempt>

    ghost function Contents(): State
      reads this
    {
      State(lastPollTimes, attempts)
    }

    constructor ()
      ensures Contents() == State(map[], [])
    {
      lastPollTimes, attempts := map[], [];
    }

    /** The clock is read once for the whole list; a failed read counts as an attempt. */
    method RunTagLoop(deviceId: int, tags: seq<Tag>, now: real) returns (decisions: seq<Decision>, completed: bool)
      modifies this
      ensures |decisions| <= |tags| && (completed <==> |decisions| == |tags|)
      ensures !completed ==>
                var tag := tags[|decisions|];
                tag.enabled && (tag.id.None? || tag.interval.Malformed?)
      ensures Contents() == AfterTags(old(Contents()), deviceId, Reached(tags), now)
      ensures |decisions| == |Reached(tags)|
      ensures Decided(decisions, old(Contents()), deviceId, Reached(tags), now)
      ensures DecidesByInterval(decisions, old(lastPollTimes), deviceId, tags, now)
      ensures RecordsTimes(decisions, deviceId, tags, now, |decisions|, old(lastPollTimes), lastPollTimes)
      ensures RecordsAttempts(decisions, deviceId, tags, now, |decisions|, old(attempts), attempts)
    {
      hide AfterTags, TooSoon, Decided, DecidesByInterval, RecordsTimes, RecordsAttempts;
      ghost var before := Contents();
      ghost var reached := Reached(tags);
      decisions := [];
      var i := 0;
      NoTags(before, deviceId, reached, now);
      assert reached[..i] == [];
      while i < |tags|
        invariant 0 <= i <= |reached| && |decisions| == i
        invariant Contents() == AfterTags(before, deviceId, reached[..i], now)
        invariant Decided(decisions, before, deviceId, reached, now)
      {
        var tag := tags[i];
        if tag.enabled && (tag.id.None? || tag.interval.Malformed?) {
          ReachedStopsAt(tags, i);
          assert reached[..i] == reached;
          assert tag in tags;
          LoopByInterval(decisions, before, deviceId, tags, now);
          return decisions, false;
        }
        OneMoreTag(before, deviceId, reached, i, now);
        DecidedOneMore(decisions, before, deviceId, reached, now);
        if !tag.enabled {
          decisions := decisions + [Disabled];
        } else {
          var pollKey := (deviceId, tag.id.value);
          var previousPoll := if pollKey in lastPollTimes then lastPollTimes[pollKey] else 0.0;
          if TooSoon(now - previousPoll, IntervalOf(tag)) {
            decisions := decisions + [Skipped];
          } else {
            attempts := attempts + [Attempt(pollKey, now, tag.interval)];
            lastPollTimes := lastPollTimes[pollKey := now];
            decisions := decisions + [Attempted];
          }
        }
        i := i + 1;
      }
      assert reached[..i] == reached == tags;
      LoopByInterval(decisions, before, deviceId, tags, now);
      completed := true;
    }
  }

  // ----- Runs -----

  /** One pass over one device's list. */
  datatype Pass = Pass(deviceId: int, tags: seq<Tag>, now: real)

  function Run(passes: seq<Pass>): State {
    if passes == [] then State(map[], [])
    else
      var last := passes[|passes| - 1];
      AfterTags(Run(passes[..|passes| - 1]), last.deviceId, Reached(last.tags), last.now)
  }

  /** The time of the last attempt on a key, read from the history. */
  function LastAttempt(attempts: seq<Attempt>, key: Key): Option<real> {
    if attempts == [] then None
    else if attempts[|attempts| - 1].key == key then Some(attempts[|attempts| - 1].time)
    else LastAttempt(attempts[..|attempts| - 1], key)
  }

  /** Attempt j of a key comes no sooner after the last one before it than its interval allows. */
  ghost predicate Spaced(attempts: seq<Attempt>) {
    forall j :: 0 <= j < |attempts| ==>
      LastAttempt(attempts[..j], attempts[j].key).Some? ==>
        Allows(attempts[j].interval, attempts[j].time - LastAttempt(attempts[..j], attempts[j].key).value)
  }

  ghost predicate Inv(s: State) {
    && (forall key :: key in s.times <==> LastAttempt(s.attempts, key).Some?)
    && (forall key :: key in s.times ==> s.times[key] == LastAttempt(s.attempts, key).value)
    && Spaced(s.attempts)
  }

  lemma AfterTagKeepsInv(s: State, deviceId: int, tag: Tag, now: real)
    requires Inv(s) && !Raises(tag)
    ensures Inv(AfterTag(s, deviceId, tag, now))
  {
    if Decide(s, deviceId, tag, now) == Attempted {
      var s' := AfterTag(s, deviceId, tag, now);
      var n := |s.attempts|;
      assert s'.attempts[..n] == s.attempts;
      forall j | 0 <= j < n ensures s'.attempts[..j] == s.attempts[..j] {
      }
    }
  }

  lemma {:induction false} AfterTagsKeepInv(s: State, deviceId: int, tags: seq<Tag>, now: real)
    requires Inv(s) && forall tag :: tag in tags ==> !Raises(tag)
    ensures Inv(AfterTags(s, deviceId, tags, now))
  {
    if tags != [] {
      AfterTagsKeepInv(s, deviceId, tags[..|tags| - 1], now);
      AfterTagKeepsInv(AfterTags(s, deviceId, tags[..|tags| - 1], now), deviceId, tags[|tags| - 1], now);
    }
  }

  lemma {:induction false} RunKeepsInv(passes: seq<Pass>)
    ensures Inv(Run(passes))
  {
    if passes != [] {
      var last := passes[|passes| - 1];
      RunKeepsInv(passes[..|passes| - 1]);
      AfterTagsKeepInv(Run(passes[..|passes| - 1]), last.deviceId, Reached(last.tags), last.now);
    }
  }

  /** An attempt of a pass: of an enabled tag of its list, at its time, with the tag's own interval. */
  ghost predicate FromPass(pass: Pass, attempt: Attempt) {
    exists tag :: tag in pass.tags && tag.enabled && tag.id == Some(attempt.key.1)
                  && attempt.key.0 == pass.deviceId && attempt.time == pass.now && attempt.interval == tag.interval
  }

  lemma {:induction false} AfterTagsFromPass(s: State, pass: Pass, tags: seq<Tag>)
    requires forall tag :: tag in tags ==> tag in pass.tags && !Raises(tag)
    ensures forall attempt :: attempt in AfterTags(s, pass.deviceId, tags, pass.now).attempts ==>
              attempt in s.attempts || FromPass(pass, attempt)
  {
    if tags != [] {
      AfterTagsFromPass(s, pass, tags[..|tags| - 1]);
      OneTagRecords(AfterTags(s, pass.deviceId, tags[..|tags| - 1], pass.now), pass.deviceId, tags[|tags| - 1],
                    pass.now);
    }
  }

  /** Every attempt of a run was made by one of its passes, with the interval its tag had there. */
  lemma {:induction false} AttemptsAreConfigured(passes: seq<Pass>, attempt: Attempt)
    requires attempt in Run(passes).attempts
    ensures exists pass :: pass in passes && FromPass(pass, attempt)
  {
    var init, last := passes[..|passes| - 1], passes[|passes| - 1];
    AfterTagsFromPass(Run(init), last, Reached(last.tags));
    if attempt in Run(init).attempts {
      AttemptsAreConfigured(init, attempt);
    }
  }

  lemma {:induction false} LastAttemptIsLast(attempts: seq<Attempt>, key: Key, i: nat)
    requires i < |attempts| && attempts[i].key == key
    requires forall k :: i < k < |attempts| ==> attempts[k].key != key
    ensures LastAttempt(attempts, key) == Some(attempts[i].time)
  {
    if i < |attempts| - 1 {
      LastAttemptIsLast(attempts[..|attempts| - 1], key, i);
    }
  }

  /**
   * Poll spacing. In every run, whatever the clock does, two successive attempts on a key are never
   * closer than the interval configured at the later one - failed reads and duplicate tags included.
   */
  lemma SuccessiveAttemptsAreSpaced(passes: seq<Pass>, i: nat, j: nat)
    requires i < j < |Run(passes).attempts| && Run(passes).attempts[i].key == Run(passes).attempts[j].key
    requires forall k :: i < k < j ==> Run(passes).attempts[k].key != Run(passes).attempts[j].key
    ensures var attempts := Run(passes).attempts;
            Allows(attempts[j].interval, attempts[j].time - attempts[i].time)
  {
    RunKeepsInv(passes);
    LastAttemptIsLast(Run(passes).attempts[..j], Run(passes).attempts[j].key, i);
  }

  predicate ClockNeverBack(passes: seq<Pass>) {
    forall i, j :: 0 <= i < j < |passes| ==> passes[i].now <= passes[j].now
  }

  ghost predicate TimesAscend(attempts: seq<Attempt>, now: real) {
    && (forall i, j :: 0 <= i < j < |attempts| ==> attempts[i].time <= attempts[j].time)
    && (forall i :: 0 <= i < |attempts| ==> attempts[i].time <= now)
  }

  lemma {:induction false} AfterTagsAscend(s: State, deviceId: int, tags: seq<Tag>, now: real)
    requires TimesAscend(s.attempts, now) && forall tag :: tag in tags ==> !Raises(tag)
    ensures TimesAscend(AfterTags(s, deviceId, tags, now).attempts, now)
  {
    if tags != [] {
      AfterTagsAscend(s, deviceId, tags[..|tags| - 1], now);
    }
  }

  lemma {:induction false} RunAscends(passes: seq<Pass>)
    requires ClockNeverBack(passes)
    ensures passes != [] ==> TimesAscend(Run(passes).attempts, passes[|passes| - 1].now)
  {
    if passes != [] {
      var init, last := passes[..|passes| - 1], passes[|passes| - 1];
      RunAscends(init);
      assert init != [] ==> init[|init| - 1].now <= last.now;
      assert TimesAscend(Run(init).attempts, last.now);
      AfterTagsAscend(Run(init), last.deviceId, Reached(last.tags), last.now);
    }
  }

  function CountKey(attempts: seq<Attempt>, key: Key): nat {
    if attempts == [] then 0
    else CountKey(attempts[..|attempts| - 1], key) + (if attempts[|attempts| - 1].key == key then 1 else 0)
  }

  lemma {:induction false} PreviousOfKey(attempts: seq<Attempt>, key: Key, i: nat, j: nat) returns (k: nat)
    requires i < j < |attempts| && attempts[i].key == key
    ensures i <= k < j && attempts[k].key == key && forall m :: k < m < j ==> attempts[m].key != key
    decreases j - i
  {
    k := j - 1;
    while attempts[k].key != key
      invariant i <= k < j && forall m :: k < m < j ==> attempts[m].key != key
      decreases k
    {
      k := k - 1;
    }
  }

  lemma {:induction false} NoneOfKey(attempts: seq<Attempt>, key: Key)
    requires forall m :: 0 <= m < |attempts| ==> attempts[m].key != key
    ensures CountKey(attempts, key) == 0
  {
    if attempts != [] {
      NoneOfKey(attempts[..|attempts| - 1], key);
    }
  }

  lemma {:induction false} CountKeyAdds(a: seq<Attempt>, b: seq<Attempt>, key: Key)
    ensures CountKey(a + b, key) == CountKey(a, key) + CountKey(b, key)
  {
    if b == [] {
      assert a + b == a;
    } else {
      assert (a + b)[..|a + b| - 1] == a + b[..|b| - 1];
      CountKeyAdds(a, b[..|b| - 1], key);
    }
  }

  /** Every configured interval was at least `least` seconds, one not set counting as two. */
  predicate IntervalsAtLeast(attempts: seq<Attempt>, least: real) {
    forall k :: 0 <= k < |attempts| ==> LastsAtLeast(attempts[k].interval, least)
  }

  predicate LastsAtLeast(interval: Interval, least: real) {
    match interval
    case Unset => least <= 2.0
    case Every(Finite(seconds)) => least <= seconds
    case Every(Infinite(negative)) => !negative
    case _ => false
  }

  /**
   * Poll rate. When every interval is at least `least` seconds, m further attempts on a key take at
   * least m * least seconds.
   */
  lemma {:induction false} AttemptsTakeTime(passes: seq<Pass>, i: nat, j: nat, least: real)
    requires i <= j < |Run(passes).attempts| && Run(passes).attempts[i].key == Run(passes).attempts[j].key
    requires IntervalsAtLeast(Run(passes).attempts, least)
    ensures var attempts := Run(passes).attempts;
            attempts[j].time - attempts[i].time
            >= CountKey(attempts[i + 1..j + 1], attempts[j].key) as real * least
    decreases j - i
  {
    hide Run, CountKey, Allows, LastsAtLeast;
    var attempts := Run(passes).attempts;
    var key := attempts[j].key;
    if i == j {
      assert attempts[i + 1..j + 1] == [];
      NoneOfKey([], key);
    } else {
      var k := PreviousOfKey(attempts, key, i, j);
      AttemptsTakeTime(passes, i, k, least);
      SuccessiveAttemptsAreSpaced(passes, k, j);
      AllowedAfterLeast(attempts[j].interval, attempts[j].time - attempts[k].time, least);
      CountBetween(attempts, key, i, k, j);
      OneMoreInterval(CountKey(attempts[i + 1..k + 1], key), least);
    }
  }

  lemma AllowedAfterLeast(interval: Interval, elapsed: real, least: real)
    requires Allows(interval, elapsed) && LastsAtLeast(interval, least)
    ensures elapsed >= least
  {
  }

  lemma OneMoreInterval(n: nat, least: real)
    ensures (n + 1) as real * least == n as real * least + least
  {
  }

  lemma OneOfKey(attempt: Attempt)
    ensures CountKey([attempt], attempt.key) == 1
  {
    NoneOfKey([], attempt.key);
  }

  lemma {:induction false} CountBetween(attempts: seq<Attempt>, key: Key, i: nat, k: nat, j: nat)
    requires i <= k < j < |attempts| && attempts[j].key == key
    requires forall m :: k < m < j ==> attempts[m].key != key
    ensures CountKey(attempts[i + 1..j + 1], key) == CountKey(attempts[i + 1..k + 1], key) + 1
  {
    hide CountKey;
    assert attempts[i + 1..j + 1] == attempts[i + 1..k + 1] + attempts[k + 1..j + 1];
    assert attempts[k + 1..j + 1] == attempts[k + 1..j] + [attempts[j]];
    CountKeyAdds(attempts[i + 1..k + 1], attempts[k + 1..j + 1], key);
    CountKeyAdds(attempts[k + 1..j], [attempts[j]], key);
    NoneOfKey(attempts[k + 1..j], key);
    OneOfKey(attempts[j]);
  }

  /** With a clock that never goes back, any two attempts on a key are spaced, successive or not. */
  lemma AllAttemptsAreSpaced(passes: seq<Pass>, i: nat, j: nat)
    requires ClockNeverBack(passes)
    requires i < j < |Run(passes).attempts| && Run(passes).attempts[i].key == Run(passes).attempts[j].key
    ensures var attempts := Run(passes).attempts;
            Allows(attempts[j].interval, attempts[j].time - attempts[i].time)
  {
    var attempts := Run(passes).attempts;
    var k := PreviousOfKey(attempts, attempts[j].key, i, j);
    SuccessiveAttemptsAreSpaced(passes, k, j);
    RunAscends(passes);
  }

  /**
   * Nothing is skipped without reason: in any run, an enabled tag that a further pass gets to is
   * tried exactly when its configured interval allows it so long after its last attempt, earlier in
   * the same list included, an attempt at 0.0 standing in for none, and skipped otherwise.
   */
  lemma SkippedOnlyWhenTooSoon(passes: seq<Pass>, deviceId: int, tags: seq<Tag>, now: real, i: nat)
    requires i < |Reached(tags)| && tags[i].enabled
    ensures !Raises(tags[i])
    ensures var s := AfterTags(Run(passes), deviceId, Reached(tags)[..i], now);
            var last := LastAttempt(s.attempts, (deviceId, tags[i].id.value));
            var elapsed := now - (if last.Some? then last.value else 0.0);
            Decide(s, deviceId, tags[i], now)
            == if Allows(tags[i].interval, elapsed) then Attempted else Skipped
  {
    hide AfterTags, Run, Spaced, LastAttempt, Reached, Allows, Decide;
    RunKeepsInv(passes);
    assert tags[i] == Reached(tags)[i] && Reached(tags)[i] in Reached(tags);
    AfterTagsKeepInv(Run(passes), deviceId, Reached(tags)[..i], now);
    DecideIsAllowed(AfterTags(Run(passes), deviceId, Reached(tags)[..i], now), deviceId, tags[i], now);
  }
}
