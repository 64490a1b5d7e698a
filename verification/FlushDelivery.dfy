/** What the cloud has taken, whether or not the gateway ever learned of it, and how often. */
module FlushDelivery {
  import opened Common
  import opened OfflineBuffer
  import opened TelemetryFlush
  import opened FlushProtocol
  import opened FlushGuarantees

  // ----- The cloud's side -----

  /** The pairs the cloud rejected of a POST; none when it never took the batch. */
  function Verdict(reply: Reply): Option<set<Pair>> {
    match reply
    case Answer(rejected) => Some(RejectedPairs(rejected))
    case NetworkError(_, unseen) => if unseen.Some? then Some(RejectedPairs(unseen.value)) else None
    case Aborted(unseen) => if unseen.Some? then Some(RejectedPairs(unseen.value)) else None
  }

  function TakenIds(post: Post): set<nat> {
    if Verdict(post.reply).Some? then NotRejectedIds(post.rows, Verdict(post.reply).value) else {}
  }

  /** The ids of one POST: all the cloud took, or those the gateway saw accepted. */
  function IdsOfPost(post: Post, unseen: bool): set<nat> {
    if unseen then TakenIds(post) else AcceptedIds(post)
  }

  /** Every id the cloud has taken. */
  function Taken(posts: seq<Post>): set<nat> {
    if posts == [] then {} else Taken(posts[..|posts| - 1]) + TakenIds(posts[|posts| - 1])
  }

  function Union(posts: seq<Post>, unseen: bool): set<nat> {
    if unseen then Taken(posts) else Accepted(posts)
  }

  /** The cloud took the batch - whether its answer arrived or not - and listed no entry with both ids. */
  ghost predicate Takes(reply: Reply, deviceId: int, tagId: int) {
    match reply
    case Answer(rejected) => RejectedEntry(Some(deviceId), Some(tagId)) !in rejected
    case NetworkError(_, Some(rejected)) => RejectedEntry(Some(deviceId), Some(tagId)) !in rejected
    case Aborted(Some(rejected)) => RejectedEntry(Some(deviceId), Some(tagId)) !in rejected
    case _ => false
  }

  ghost predicate TakenIn(post: Post, id: nat) {
    exists row :: row in post.rows && row.id == id && Takes(post.reply, row.message.deviceId, row.message.tagId)
  }

  lemma TakenInPost(post: Post, id: nat)
    ensures id in TakenIds(post) <==> TakenIn(post, id)
    ensures id in AcceptedIds(post) <==> post.reply.Answer? && TakenIn(post, id)
  {
    var rejected := match post.reply
      case Answer(rejected) => rejected
      case NetworkError(_, Some(rejected)) => rejected
      case Aborted(Some(rejected)) => rejected
      case _ => [];
    forall row | row in post.rows
      ensures Key(row.message) in RejectedPairs(rejected)
              <==> RejectedEntry(Some(row.message.deviceId), Some(row.message.tagId)) in rejected
    {
      RejectedPairsMembers(rejected, row.message.deviceId, row.message.tagId);
    }
    hide RejectedPairs;
  }

  /** An id is taken when some POST of it was, and seen accepted when that POST was answered. */
  lemma {:induction false} TakenMembers(posts: seq<Post>, id: nat)
    ensures id in Taken(posts) <==> exists post :: post in posts && TakenIn(post, id)
    ensures id in Accepted(posts) <==> exists post :: post in posts && post.reply.Answer? && TakenIn(post, id)
  {
    hide TakenIds, AcceptedIds, TakenIn;
    if posts != [] {
      var init, last := posts[..|posts| - 1], posts[|posts| - 1];
      TakenMembers(init, id);
      TakenInPost(last, id);
      assert forall post :: post in posts <==> post in init || post == last;
    }
  }

  lemma AcceptedIdsAreTaken(post: Post)
    ensures AcceptedIds(post) <= TakenIds(post)
  {
  }

  lemma {:induction false} AcceptedIsTaken(posts: seq<Post>)
    ensures Accepted(posts) <= Taken(posts)
  {
    hide AcceptedIds, TakenIds;
    if posts != [] {
      AcceptedIsTaken(posts[..|posts| - 1]);
      AcceptedIdsAreTaken(posts[|posts| - 1]);
    }
  }

  lemma {:induction false} TakenInLog(log: seq<Message>, posts: seq<Post>)
    requires PostsOk(log, posts)
    ensures forall id :: id in Taken(posts) ==> InLog(log, id)
  {
    if posts != [] {
      TakenInLog(log, posts[..|posts| - 1]);
    }
  }

  lemma OneMorePost(posts: seq<Post>, post: Post)
    ensures Taken(posts + [post]) == Taken(posts) + TakenIds(post)
  {
    assert (posts + [post])[..|posts|] == posts;
  }

  // ----- No gap, seen or unseen -----

  /** What one step does to the log and the POSTs. */
  lemma HistoriesAfter(s: State, step: Step)
    ensures var s' := Apply(s, step);
            && (s'.log == s.log || (step.Enqueue? && |s'.log| == |s.log| + 1 && s.log == s'.log[..|s.log|]))
            && s'.posts == if IsPost(s, step) then s.posts + [Post(s.stage.valid, step.reply)] else s.posts
  {
    hide MarkSent, MarkFailed, DeleteSent;
  }

  lemma LongerLogKeepsPrefix(log: seq<Message>, log': seq<Message>, ids: set<nat>)
    requires PerKeyPrefix(log, ids) && |log'| == |log| + 1 && log'[..|log|] == log
    requires forall id :: id in ids ==> InLog(log, id)
    ensures PerKeyPrefix(log', ids)
  {
    assert forall i: nat :: InLog(log, i) ==> log'[i - 1] == log[i - 1];
  }

  lemma PostTakesPrefix(s: State, post: Post)
    requires Inv(s) && s.stage.Building? && s.stage.todo == [] && post.rows == s.stage.valid
    requires PerKeyPrefix(s.log, Taken(s.posts))
    ensures PerKeyPrefix(s.log, Taken(s.posts + [post]))
  {
    OneMorePost(s.posts, post);
    AcceptedIsTaken(s.posts);
    assert s.stage.valid + [] == s.stage.valid;
    if Verdict(post.reply).Some? {
      BatchKeepsPrefix(s.log, s.marked, Taken(s.posts), post.rows, Verdict(post.reply).value);
    } else {
      assert Taken(s.posts) + {} == Taken(s.posts);
    }
  }

  lemma StepTakesPrefix(s: State, step: Step)
    requires Inv(s) && Enabled(s, step) && PerKeyPrefix(s.log, Taken(s.posts))
    ensures PerKeyPrefix(Apply(s, step).log, Taken(Apply(s, step).posts))
  {
    HistoriesAfter(s, step);
    hide Apply, PerKeyPrefix;
    var s' := Apply(s, step);
    if IsPost(s, step) {
      PostTakesPrefix(s, Post(s.stage.valid, step.reply));
    } else if s'.log != s.log {
      TakenInLog(s.log, s.posts);
      LongerLogKeepsPrefix(s.log, s'.log, Taken(s.posts));
    }
  }

  lemma {:induction false} RunTakesPrefix(s: State, steps: seq<Step>)
    requires Inv(s) && Possible(s, steps) && PerKeyPrefix(s.log, Taken(s.posts))
    ensures PerKeyPrefix(Run(s, steps).log, Taken(Run(s, steps).posts))
    decreases |steps|
  {
    hide Inv, Apply, Enabled, PerKeyPrefix;
    if steps != [] {
      StepTakesPrefix(s, steps[0]);
      StepKeepsInv(s, steps[0]);
      RunTakesPrefix(Apply(s, steps[0]), steps[1..]);
    }
  }

  /**
   * The cloud never sees a gap: in every reachable state what it has taken of a pair - replies lost and
   * crashes after it took a batch included - is a prefix of what was enqueued for the pair. So is what
   * it was seen to accept, and both cover what is marked sent.
   */
  lemma CloudTakesPrefix(steps: seq<Step>, key: Pair)
    requires Possible(Init(), steps)
    ensures var s := Run(Init(), steps);
            && s.marked <= Accepted(s.posts) <= Taken(s.posts)
            && IsPrefixOf(IdsOf(s.log, key), Taken(s.posts))
            && IsPrefixOf(IdsOf(s.log, key), Accepted(s.posts))
  {
    InitInv();
    ReachableInv(steps);
    RunTakesPrefix(Init(), steps);
    var s := Run(Init(), steps);
    AcceptedIsTaken(s.posts);
    ClosedIsPrefix(s.log, Taken(s.posts), key);
    ClosedIsPrefix(s.log, Accepted(s.posts), key);
  }

  // ----- How often -----

  /** How many ids the POSTs count together, an id taken twice counting twice. */
  function Total(posts: seq<Post>, unseen: bool): nat {
    if posts == [] then 0 else Total(posts[..|posts| - 1], unseen) + |IdsOfPost(posts[|posts| - 1], unseen)|
  }

  /** The accepted rows in hand that are still to be marked. */
  function Unsettled(stage: Stage): set<nat> {
    if stage.Settling? then NotRejectedIds(stage.todo, stage.rejected) else {}
  }

  function InHand(stage: Stage): nat {
    match stage
    case Building(todo, valid) => |valid| + |todo|
    case Settling(todo, _) => |todo|
    case _ => 0
  }

  /** A crash, or a POST whose verdict the gateway never sees where those are counted. */
  predicate Interrupts(s: State, step: Step, unseen: bool) {
    || step.Crash?
    || (unseen && IsPost(s, step) && !step.reply.Answer? && step.reply.unseen.Some?)
  }

  function Interruptions(s: State, steps: seq<Step>, unseen: bool): nat
    decreases |steps|
  {
    if steps == [] then 0
    else (if Interrupts(s, steps[0], unseen) then 1 else 0) + Interruptions(Apply(s, steps[0]), steps[1..], unseen)
  }

  /** Every id counted is marked, or about to be, or was lost with the batch of an interruption. */
  ghost predicate Tally(s: State, unseen: bool, lost: nat) {
    && Total(s.posts, unseen) <= |s.marked| + |Unsettled(s.stage)| + 500 * lost
    && InHand(s.stage) <= 500
  }

  lemma {:induction false} FewIds(rows: seq<Row>, rejected: set<Pair>)
    ensures |NotRejectedIds(rows, rejected)| <= |rows|
  {
    if rows == [] {
      assert NotRejectedIds(rows, rejected) == {};
    } else {
      var init, last := rows[..|rows| - 1], rows[|rows| - 1];
      FewIds(init, rejected);
      assert rows == init + [last];
      assert NotRejectedIds(rows, rejected)
          == NotRejectedIds(init, rejected) + (if Key(last.message) !in rejected then {last.id} else {});
    }
  }

  lemma OneMoreTotal(posts: seq<Post>, post: Post, unseen: bool)
    ensures Total(posts + [post], unseen) == Total(posts, unseen) + |IdsOfPost(post, unseen)|
  {
    assert (posts + [post])[..|posts|] == posts;
  }

  lemma PostTallies(s: State, step: Step, unseen: bool, lost: nat)
    requires Tally(s, unseen, lost) && IsPost(s, step)
    ensures Tally(Apply(s, step), unseen, if Interrupts(s, step, unseen) then lost + 1 else lost)
  {
    var post := Post(s.stage.valid, step.reply);
    OneMoreTotal(s.posts, post, unseen);
    hide Total, NotRejectedIds;
    assert Unsettled(s.stage) == {};
    if step.reply.Answer? {
      assert IdsOfPost(post, unseen) == Unsettled(Apply(s, step).stage);
    } else if Verdict(step.reply).Some? {
      FewIds(post.rows, Verdict(step.reply).value);
    }
  }

  lemma SetGrows(a: set<nat>, b: set<nat>)
    requires a <= b
    ensures |a| <= |b|
  {
    assert |b - a| == |b| - |a|;
  }

  lemma UnsettledTail(row: Row, tail: seq<Row>, rejected: set<Pair>)
    ensures NotRejectedIds([row] + tail, rejected)
         == NotRejectedIds(tail, rejected) + (if Key(row.message) in rejected then {} else {row.id})
  {
  }

  /** Settling the first row marks its id unless its pair is rejected. */
  lemma SettlingMarks(s: State, reply: Reply)
    requires Inv(s) && s.stage.Settling? && s.stage.todo != []
    ensures var row, s' := s.stage.todo[0], FlushStep(s, reply);
            && s'.stage == Settling(s.stage.todo[1..], s.stage.rejected) && s'.posts == s.posts
            && row.id !in s.marked
            && s.marked + (if Key(row.message) in s.stage.rejected then {} else {row.id}) <= s'.marked
  {
    hide TableOk, PerKeyPrefix, NothingSkipped, Accepted, PostsOk, MarkSent, MarkFailed, SentIds;
    var row := s.stage.todo[0];
    HeadIsUnmarked(s);
    assert ReadItem(row.message).Some? && PairOf(ReadItem(row.message).value) == Key(row.message);
    if Key(row.message) !in s.stage.rejected {
      MarkAddsOneId(s.table, s.log, s.marked, row.id);
    }
  }

  /** So it moves the id from those in hand to the marked ones. */
  lemma SettlingTallies(s: State, reply: Reply, unseen: bool, lost: nat)
    requires Inv(s) && Tally(s, unseen, lost) && s.stage.Settling? && s.stage.todo != []
    ensures Tally(FlushStep(s, reply), unseen, lost)
  {
    hide Inv, FlushStep, Total, NotRejectedIds;
    var row, tail, rejected := s.stage.todo[0], s.stage.todo[1..], s.stage.rejected;
    var s' := FlushStep(s, reply);
    SettlingMarks(s, reply);
    assert s.stage.todo == [row] + tail;
    UnsettledTail(row, tail, rejected);
    if Key(row.message) in rejected {
      assert Unsettled(s.stage) == Unsettled(s'.stage) + {};
      SetGrows(s.marked, s'.marked);
    } else {
      SetGrows(s.marked + {row.id}, s'.marked);
    }
  }

  lemma FlushTallies(s: State, reply: Reply, unseen: bool, lost: nat)
    requires Inv(s) && Tally(s, unseen, lost) && !IsPost(s, FlushThread(reply))
    ensures Tally(FlushStep(s, reply), unseen, lost)
  {
    hide Inv, Total, NotRejectedIds, MarkSent, MarkFailed, SentIds;
    if s.stage.Settling? && s.stage.todo != [] {
      SettlingTallies(s, reply, unseen, lost);
    } else {
      FlushAddsNoIds(s, reply);
      if s.stage.Settling? {
        FewIds(s.stage.todo, s.stage.rejected);
      }
      SetGrows(s.marked, FlushStep(s, reply).marked);
    }
  }

  lemma StepTallies(s: State, step: Step, unseen: bool, lost: nat)
    requires Inv(s) && Enabled(s, step) && Tally(s, unseen, lost)
    ensures Tally(Apply(s, step), unseen, if Interrupts(s, step, unseen) then lost + 1 else lost)
  {
    if IsPost(s, step) {
      PostTallies(s, step, unseen, lost);
    } else if step.FlushThread? {
      FlushTallies(s, step.reply, unseen, lost);
    } else {
      hide Inv, Total, NotRejectedIds;
      SetGrows(s.marked, Apply(s, step).marked);
      if step.Crash? && s.stage.Settling? {
        FewIds(s.stage.todo, s.stage.rejected);
      }
    }
  }

  lemma {:induction false} RunTallies(s: State, steps: seq<Step>, unseen: bool, lost: nat)
    requires Inv(s) && Possible(s, steps) && Tally(s, unseen, lost)
    ensures Tally(Run(s, steps), unseen, lost + Interruptions(s, steps, unseen))
    decreases |steps|
  {
    hide Inv, Tally, Apply, Enabled, Interrupts;
    if steps != [] {
      StepTallies(s, steps[0], unseen, lost);
      StepKeepsInv(s, steps[0]);
      RunTallies(Apply(s, steps[0]), steps[1..], unseen, if Interrupts(s, steps[0], unseen) then lost + 1 else lost);
    }
  }

  lemma UnsettledIsAccepted(s: State)
    requires Inv(s)
    ensures |s.marked| + |Unsettled(s.stage)| <= |Accepted(s.posts)|
  {
    var unsettled := Unsettled(s.stage);
    assert s.marked !! unsettled;
    assert |s.marked + unsettled| == |s.marked| + |unsettled|;
    assert s.marked + unsettled <= Accepted(s.posts);
    SetGrows(s.marked + unsettled, Accepted(s.posts));
  }

  /**
   * At most one batch of repeats per interruption. Whatever the cloud takes again is bounded by 500
   * for each crash and each batch it took without its answer arriving; whatever the gateway sees
   * accepted again, by 500 for each crash.
   */
  lemma RepeatsAreBounded(steps: seq<Step>, unseen: bool)
    requires Possible(Init(), steps)
    ensures var s := Run(Init(), steps);
            Total(s.posts, unseen)
            <= |Union(s.posts, unseen)| + 500 * Interruptions(Init(), steps, unseen)
  {
    hide Inv, Run, Possible, Accepted, Taken, Total, Unsettled, Interruptions;
    InitInv();
    InitTally(unseen);
    ReachableInv(steps);
    RunTallies(Init(), steps, unseen, 0);
    var s := Run(Init(), steps);
    UnsettledIsAccepted(s);
    AcceptedIsTaken(s.posts);
    SetGrows(Accepted(s.posts), Taken(s.posts));
  }

  lemma InitTally(unseen: bool)
    ensures Tally(Init(), unseen, 0)
  {
  }

  lemma UnionSplits(posts: seq<Post>, unseen: bool)
    requires posts != []
    ensures var init := posts[..|posts| - 1];
            Union(posts, unseen) == Union(init, unseen) + IdsOfPost(posts[|posts| - 1], unseen)
  {
    hide TakenIds, AcceptedIds;
  }

  lemma {:induction false} UnionBelowTotal(posts: seq<Post>, unseen: bool)
    ensures |Union(posts, unseen)| <= Total(posts, unseen)
    ensures forall i :: 0 <= i < |posts| ==> IdsOfPost(posts[i], unseen) <= Union(posts, unseen)
  {
    hide IdsOfPost, Taken, Accepted;
    if posts != [] {
      hide Union;
      var init, ids := posts[..|posts| - 1], IdsOfPost(posts[|posts| - 1], unseen);
      UnionBelowTotal(init, unseen);
      UnionSplits(posts, unseen);
      forall i | 0 <= i < |posts| ensures IdsOfPost(posts[i], unseen) <= Union(posts, unseen) {
        assert i < |posts| - 1 ==> posts[i] == init[i];
      }
    } else {
      NothingTaken(unseen);
    }
  }

  lemma NothingTaken(unseen: bool)
    ensures Union([], unseen) == {}
  {
  }

  lemma PartsOfDisjoint(a: set<nat>, b: set<nat>, c: set<nat>)
    requires a <= b && |b + c| >= |b| + |c|
    ensures a !! c
  {
    assert |b + c| == |b| + |c| - |b * c|;
    forall x | x in a ensures x !in c {
      assert x in c ==> x in b * c;
    }
  }

  /** When nothing is counted twice, different POSTs have no id in common. */
  lemma {:induction false} TightTotalIsDisjoint(posts: seq<Post>, unseen: bool, i: nat, j: nat)
    requires Total(posts, unseen) <= |Union(posts, unseen)| && i < j < |posts|
    ensures IdsOfPost(posts[i], unseen) !! IdsOfPost(posts[j], unseen)
  {
    hide IdsOfPost, Union;
    var init, ids := posts[..|posts| - 1], IdsOfPost(posts[|posts| - 1], unseen);
    UnionBelowTotal(init, unseen);
    UnionSplits(posts, unseen);
    assert |Union(init, unseen) + ids| <= |Union(init, unseen)| + |ids|;
    assert init[i] == posts[i];
    if j < |posts| - 1 {
      assert init[j] == posts[j];
      TightTotalIsDisjoint(init, unseen, i, j);
    } else {
      PartsOfDisjoint(IdsOfPost(init[i], unseen), Union(init, unseen), ids);
    }
  }

  /**
   * Exactly once without interruptions. In a run without crashes no message is accepted twice, and if
   * also every batch the cloud took was answered, it takes no message twice.
   */
  lemma UninterruptedIsExactlyOnce(steps: seq<Step>, unseen: bool, i: nat, j: nat)
    requires Possible(Init(), steps) && Interruptions(Init(), steps, unseen) == 0
    requires i < j < |Run(Init(), steps).posts|
    ensures var posts := Run(Init(), steps).posts;
            IdsOfPost(posts[i], unseen) !! IdsOfPost(posts[j], unseen)
  {
    RepeatsAreBounded(steps, unseen);
    TightTotalIsDisjoint(Run(Init(), steps).posts, unseen, i, j);
  }
}
