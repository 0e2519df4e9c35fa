/** Which nodes a lookup gets to query. A round that has enough productive answers stops at a
    node it has marked as asked; that node is never queried. Here: exactly which nodes these
    are, and that a lookup which ends by itself has asked everybody in its result. */
module LookupCoverage {
  import opened Distance
  import opened Nodes
  import opened NearestNodes
  import opened LookupProtocol

  function QueryIds(qs: seq<Query>): set<Id> {
    set q | q in qs :: q.node.id
  }

  /** The main loop is at a node with the id, which it may still query. */
  predicate IsAtHand(s: State, id: Id) {
    (s.main.Waiting? || s.main.Holding?) && s.main.i < |List(s)| && List(s)[s.main.i].id == id
  }

  /** Marked as asked, not queried, and not at hand. */
  predicate Lost(s: State, id: Id) {
    id in s.asked && id !in QueryIds(s.queried) && !IsAtHand(s, id)
  }

  /** The round that is going on can still query, or ended without a productive answer. */
  predicate NothingSkippedYet(s: State) {
    || s.main.Head? || s.main.Waiting? || s.main.Holding?
    || (s.main.Joining? && s.done == 0)
    || (s.main == Stopped(false) && s.depth != 0)
  }

  /** Every asked id was queried, skipped or is at hand, and only one of these; each round
      skips at most one node, of its own list. */
  ghost predicate AskedInv(s: State) {
    && (forall id :: id in s.asked <==> id in QueryIds(s.queried) || id in QueryIds(s.skipped) || IsAtHand(s, id))
    && QueryIds(s.queried) !! QueryIds(s.skipped)
    && (forall id :: IsAtHand(s, id) ==> id !in QueryIds(s.queried) && id !in QueryIds(s.skipped))
    && SkipsOk(s)
  }

  ghost predicate SkipsOk(s: State) {
    && (forall k :: 0 <= k < |s.skipped| ==> s.skipped[k].round < |s.lists| && s.skipped[k].node in s.lists[s.skipped[k].round])
    && (forall k, k' :: 0 <= k < k' < |s.skipped| ==> s.skipped[k].round < s.skipped[k'].round)
    && (NothingSkippedYet(s) ==> forall k :: 0 <= k < |s.skipped| ==> s.skipped[k].round < |s.lists| - 1)
  }

  lemma QueryIdsSnoc(qs: seq<Query>, q: Query)
    ensures QueryIds(qs + [q]) == QueryIds(qs) + {q.node.id}
  {
    forall id | id in QueryIds(qs) + {q.node.id}
      ensures id in QueryIds(qs + [q])
    {
      if id == q.node.id {
        assert (qs + [q])[|qs|] == q;
      } else {
        var x :| x in qs && x.node.id == id;
        assert x in qs + [q];
      }
    }
  }

  // ---------- one step ----------

  /** What a step does to the record of asked, queried and skipped nodes. */
  lemma Change(s: State, a: Action)
    requires Enabled(s, a)
    ensures var r := Apply(s, a);
      && r.queried == s.queried + (if a.Check? && s.done != s.p.alpha then [AtHand(s)] else [])
      && r.skipped == s.skipped + (if a.Cancel? || (a.Check? && s.done == s.p.alpha) then [AtHand(s)] else [])
      && r.asked == s.asked + (if a.Next? && s.main.i < |List(s)| then {List(s)[s.main.i].id} else {})
      && r.lists == s.lists + (if a.Enter? && s.depth != 0 then [s.result] else [])
  {
    hide PushAll, Fresh, Ids;
  }

  /** What a step does to the node at hand. */
  lemma AtHandChange(s: State, a: Action, id: Id)
    requires Enabled(s, a)
    ensures IsAtHand(Apply(s, a), id) <==>
      if a.Next? then s.main.i < |List(s)| && List(s)[s.main.i].id !in s.asked && List(s)[s.main.i].id == id
      else IsAtHand(s, id) && !a.Check? && !a.Cancel?
  {
    hide PushAll, Fresh, Ids;
  }

  /** The node at hand is queried or skipped. */
  lemma HandedOn(s: State, a: Action)
    requires Enabled(s, a) && AskedInv(s) && SkipsOk(Apply(s, a)) && (a.Check? || a.Cancel?)
    ensures AskedInv(Apply(s, a))
  {
    var r, x := Apply(s, a), AtHand(s);
    Change(s, a);
    QueryIdsSnoc(s.queried, x);
    QueryIdsSnoc(s.skipped, x);
    assert s.queried + [] == s.queried && s.skipped + [] == s.skipped && s.asked + {} == s.asked;
    assert forall id :: IsAtHand(s, id) <==> id == x.node.id;
    forall id
      ensures !IsAtHand(r, id)
    {
      AtHandChange(s, a, id);
    }
    hide Apply, SkipsOk, QueryIds, IsAtHand, Enabled;
  }

  lemma AskedStep(s: State, a: Action)
    requires Enabled(s, a) && AskedInv(s) && SkipsOk(Apply(s, a))
    ensures AskedInv(Apply(s, a))
  {
    var r := Apply(s, a);
    if a.Check? || a.Cancel? {
      HandedOn(s, a);
    } else {
      Change(s, a);
      assert s.queried + [] == s.queried && s.skipped + [] == s.skipped && s.asked + {} == s.asked;
      forall id
        ensures IsAtHand(r, id) <==>
          if a.Next? then s.main.i < |List(s)| && List(s)[s.main.i].id !in s.asked && List(s)[s.main.i].id == id
          else IsAtHand(s, id)
      {
        AtHandChange(s, a, id);
      }
      if a.Next? {
        NobodyAtHand(s);
      }
      hide Apply, SkipsOk, QueryIds, IsAtHand, Enabled;
    }
  }

  lemma NobodyAtHand(s: State)
    requires s.main.Head?
    ensures forall id :: !IsAtHand(s, id)
  {
  }

  lemma SkipsStep(s: State, a: Action)
    requires Enabled(s, a) && SkipsOk(s) && TokenInv(s)
    ensures SkipsOk(Apply(s, a))
  {
    hide PushAll, Fresh, Ids;
    Change(s, a);
  }

  // ---------- the end of a round ----------

  ghost predicate AllAsked(s: State, ns: seq<Node>) {
    forall k :: 0 <= k < |ns| ==> ns[k].id in s.asked
  }

  /** The part of the list the main loop has passed was asked; a round without a productive
      answer has asked its whole list, which is the result. */
  ghost predicate RoundInv(s: State) {
    && (s.main.Head? || s.main.Waiting? || s.main.Holding? || s.main.Joining? ==> s.lists != [] && s.result == List(s))
    && (s.main.Head? ==> s.main.i <= |s.result| && AllAsked(s, s.result[..s.main.i]))
    && (s.main.Waiting? || s.main.Holding? ==> s.main.i < |s.result| && AllAsked(s, s.result[..s.main.i + 1]))
    && (s.main.Joining? && s.done == 0 ==> AllAsked(s, s.result))
    && (s.main == Stopped(false) && s.depth != 0 ==> AllAsked(s, s.result))
  }

  lemma RoundStepMain(s: State, a: Action)
    requires OfMain(a) && Enabled(s, a) && RoundInv(s) && TokenInv(s)
    ensures RoundInv(Apply(s, a))
  {
    hide PushAll, Fresh, Ids;
    var r := Apply(s, a);
    if s.main.Head? && s.main.i < |s.result| {
      assert s.result[..s.main.i + 1] == s.result[..s.main.i] + [s.result[s.main.i]];
    }
    assert s.result[..|s.result|] == s.result;
  }

  lemma RoundStepWorker(s: State, a: Action)
    requires !OfMain(a) && Enabled(s, a) && RoundInv(s)
    ensures RoundInv(Apply(s, a))
  {
    var w, x := WorkerStep(s, a);
    Change(s, a);
    WorkerKeeps(s, a);
    hide Apply;
  }

  lemma WorkerKeeps(s: State, a: Action)
    requires !OfMain(a) && Enabled(s, a)
    ensures Apply(s, a).result == s.result && Apply(s, a).depth == s.depth
  {
    hide PushAll, Fresh, Ids;
  }

  // ---------- whole runs ----------

  ghost predicate CoverInv(s: State) {
    TokenInv(s) && AskedInv(s) && RoundInv(s)
  }

  lemma CoverStep(s: State, a: Action)
    requires Enabled(s, a) && CoverInv(s)
    ensures CoverInv(Apply(s, a))
  {
    TokenStep(s, a);
    SkipsStep(s, a);
    AskedStep(s, a);
    if OfMain(a) {
      RoundStepMain(s, a);
    } else {
      RoundStepWorker(s, a);
    }
    hide *;
  }

  lemma {:induction false} CoverOfRun(s: State, actions: seq<Action>, r: State)
    requires CoverInv(s) && Reaches(s, actions, r)
    ensures CoverInv(r)
    decreases actions
  {
    hide CoverInv, Apply, Enabled;
    if actions != [] {
      CoverStep(s, actions[0]);
      CoverOfRun(Apply(s, actions[0]), actions[1..], r);
    }
  }

  lemma CoverOfReachable(p: Params, actions: seq<Action>, s: State)
    requires p.alpha > 0 && Reaches(Start(p), actions, s)
    ensures CoverInv(s)
  {
    CoverOfRun(Start(p), actions, s);
  }

  /** The node at the check is lost if and only if enough productive answers are in. */
  lemma LostAtCheckIff(p: Params, actions: seq<Action>, s: State)
    requires p.alpha > 0 && Reaches(Start(p), actions, s) && Enabled(s, Check)
    ensures Lost(Apply(s, Check), List(s)[s.main.i].id) <==> s.done == p.alpha
  {
    CoverOfReachable(p, actions, s);
    SameParams(Start(p), actions, s);
    assert IsAtHand(s, List(s)[s.main.i].id);
    Change(s, Check);
    QueryIdsSnoc(s.queried, AtHand(s));
  }

  lemma {:induction false} SameParams(s: State, actions: seq<Action>, r: State)
    requires Reaches(s, actions, r)
    ensures r.p == s.p
    decreases actions
  {
    hide PushAll, Fresh, Ids;
    if actions != [] {
      SameParams(Apply(s, actions[0]), actions[1..], r);
    }
  }

  /** The lost nodes are exactly the skipped ones: those a check with enough answers or a
      cancellation stopped at, at most one a round, from the list of that round. */
  lemma LostIffSkipped(p: Params, actions: seq<Action>, s: State, id: Id)
    requires p.alpha > 0 && Reaches(Start(p), actions, s)
    ensures Lost(s, id) <==> id in QueryIds(s.skipped)
    ensures SkipsOk(s) && |s.skipped| <= |s.lists|
  {
    CoverOfReachable(p, actions, s);
    if s.skipped != [] {
      RoundsGrow(s, |s.skipped| - 1);
    }
  }

  lemma {:induction false} RoundsGrow(s: State, k: nat)
    requires SkipsOk(s) && k < |s.skipped|
    ensures s.skipped[k].round >= k
  {
    if k > 0 {
      RoundsGrow(s, k - 1);
    }
  }

  /** A lost node stays lost: no continuation queries it. */
  lemma {:induction false} LostForGood(s: State, more: seq<Action>, r: State, id: Id)
    requires CoverInv(s) && Reaches(s, more, r) && Lost(s, id)
    ensures Lost(r, id)
    decreases more
  {
    hide CoverInv, Lost, Apply, Enabled;
    if more != [] {
      CoverStep(s, more[0]);
      LostStep(s, more[0], id);
      LostForGood(Apply(s, more[0]), more[1..], r, id);
    }
  }

  lemma LostStep(s: State, a: Action, id: Id)
    requires Enabled(s, a) && CoverInv(s) && Lost(s, id)
    ensures Lost(Apply(s, a), id)
  {
    Change(s, a);
    AtHandChange(s, a, id);
    if a.Check? || a.Cancel? {
      QueryIdsSnoc(s.queried, AtHand(s));
      assert IsAtHand(s, AtHand(s).node.id);
    }
    hide Apply, QueryIds;
  }

  /** A node lost in a reachable state is in no query of any continuation. */
  lemma NeverQueried(p: Params, actions: seq<Action>, s: State, more: seq<Action>, r: State, id: Id)
    requires p.alpha > 0 && Reaches(Start(p), actions, s) && Reaches(s, more, r) && Lost(s, id)
    ensures forall q :: q in r.queried ==> q.node.id != id
  {
    CoverOfReachable(p, actions, s);
    LostForGood(s, more, r, id);
  }

  /** A lookup that ends by itself before its depth is used up has asked its whole result:
      each of these nodes was queried, or is the one an earlier round stopped at. */
  lemma FinishedLookup(p: Params, actions: seq<Action>, s: State)
    requires p.alpha > 0 && Reaches(Start(p), actions, s)
    requires s.main == Stopped(false) && s.depth != 0
    ensures forall n :: n in s.result ==>
      n.id in s.asked && (n.id in QueryIds(s.queried) || n.id in QueryIds(s.skipped))
    ensures forall k :: 0 <= k < |s.skipped| ==> s.skipped[k].round < |s.lists| - 1
    ensures s.skipped != [] ==> |s.skipped| < |s.lists|
  {
    CoverOfReachable(p, actions, s);
    if s.skipped != [] {
      RoundsGrow(s, |s.skipped| - 1);
    }
  }

  // ---------- it happens ----------

  lemma {:induction false} OneMore(s: State, actions: seq<Action>, r: State, a: Action)
    requires Reaches(s, actions, r) && Enabled(r, a)
    ensures Reaches(s, actions + [a], Apply(r, a))
    decreases actions
  {
    hide Apply, Enabled;
    var longer := actions + [a];
    if actions == [] {
      assert longer[1..] == [] && longer[0] == a;
      assert Reaches(Apply(r, a), [], Apply(r, a));
    } else {
      assert longer[1..] == actions[1..] + [a] && longer[0] == actions[0];
      OneMore(Apply(s, actions[0]), actions[1..], r, a);
    }
  }

  lemma {:induction false} Joined(s: State, actions: seq<Action>, r: State, more: seq<Action>, t: State)
    requires Reaches(s, actions, r) && Reaches(r, more, t)
    ensures Reaches(s, actions + more, t)
    decreases more
  {
    hide Apply, Enabled;
    if more == [] {
      assert actions + more == actions;
    } else {
      OneMore(s, actions, r, more[0]);
      Joined(s, actions + [more[0]], Apply(r, more[0]), more[1..], t);
      assert actions + [more[0]] + more[1..] == actions + more;
    }
  }

  /** The first node is queried, and the main loop waits at the second one. */
  function Opening(): seq<Action> {
    [Enter, Next] + [Receive, Check] + [Next]
  }

  /** The first node answers, and the channel is closed. */
  function Answering(node: Node): seq<Action> {
    [Answer(0, [node]), Append(0)] + [Count(0), Close(0)] + [Receive]
  }

  lemma TwoSteps(s: State, a: Action, b: Action)
    requires Enabled(s, a) && Enabled(Apply(s, a), b)
    ensures Reaches(s, [a, b], Apply(Apply(s, a), b))
  {
    hide Apply, Enabled;
    var r := Apply(Apply(s, a), b);
    assert Reaches(r, [], r);
    assert [b][1..] == [] && [a, b][1..] == [b];
    assert Reaches(Apply(s, a), [b], r);
  }

  lemma Opened(s: State) returns (r: State)
    requires s.main.Entering? && s.depth != 0 && s.p.alpha == 1 && s.asked == {} && s.buffer == [] && s.lists == []
    requires |s.result| == 2 && s.result[0].id != s.result[1].id
    ensures Reaches(s, Opening(), r)
    ensures r.main == Waiting(1) && List(r) == s.result && r.p == s.p
    ensures r.buffer == [] && r.done == 0 && !r.closed && r.tokens == 0
    ensures r.workers == [Worker(s.result[0], Querying)]
  {
    hide PushAll, Fresh, Ids, Reaches;
    var s1 := Apply(s, Enter);
    assert s1.main == Head(0) && List(s1) == s.result && s1.tokens == 1 && s1.workers == [];
    var s2 := Apply(s1, Next);
    assert s2.main == Waiting(0) && s2.asked == {s.result[0].id};
    TwoSteps(s, Enter, Next);
    var s3 := Apply(s2, Receive);
    var s4 := Apply(s3, Check);
    assert s4.workers == [Worker(s.result[0], Querying)];
    TwoSteps(s2, Receive, Check);
    r := Apply(s4, Next);
    Joined(s, [Enter, Next], s2, [Receive, Check], s4);
    OneMore(s, [Enter, Next] + [Receive, Check], s4, Next);
  }

  lemma Answered(s: State, node: Node) returns (r: State)
    requires s.main == Waiting(1) && |List(s)| == 2 && s.p.alpha == 1
    requires s.buffer == [] && s.done == 0 && !s.closed && s.tokens == 0
    requires |s.workers| == 1 && s.workers[0].pc == Querying
    ensures Reaches(s, Answering(node), r)
    ensures r.main == Holding(1, false) && List(r) == List(s) && r.p == s.p && r.done == 1
  {
    hide PushAll, Fresh, Ids, Reaches;
    OneFresh(s.buffer, node);
    var s1 := Apply(s, Answer(0, [node]));
    var s2 := Apply(s1, Append(0));
    assert s2.workers[0].pc == Counting && |s2.workers| == 1;
    TwoSteps(s, Answer(0, [node]), Append(0));
    var s3 := Apply(s2, Count(0));
    var s4 := Apply(s3, Close(0));
    assert s4.closed && s4.done == 1 && s4.main == Waiting(1) && s4.tokens == 0 && List(s4) == List(s);
    TwoSteps(s2, Count(0), Close(0));
    r := Apply(s4, Receive);
    Joined(s, [Answer(0, [node]), Append(0)], s2, [Count(0), Close(0)], s4);
    OneMore(s, [Answer(0, [node]), Append(0)] + [Count(0), Close(0)], s4, Receive);
  }

  lemma OneFresh(buffer: seq<Node>, node: Node)
    requires buffer == []
    ensures Fresh(Ids(buffer), [node]) == [node]
  {
  }

  /** It happens in every lookup with one worker and two distinct seeds: when the first of
      them answers in time, the second one is lost. */
  lemma SecondSeedLost(p: Params, node: Node)
    requires p.alpha == 1 && p.depth != 0 && p.wants >= 2
    requires |p.seeds| == 2 && DistinctIds(p.seeds)
    ensures exists s, n ::
      && Reaches(Start(p), Opening() + Answering(node) + [Check], s)
      && n in s.result && Lost(s, n.id)
  {
    NearestMeaning(p.seeds, p.target, p.wants);
    NearestDistinct(p.seeds, p.target, p.wants);
    hide Nearest, NearestNodes.Sorted, Opening, Answering;
    var r1 := Opened(Start(p));
    var r := Answered(r1, node);
    Joined(Start(p), Opening(), r1, Answering(node), r);
    OneMore(Start(p), Opening() + Answering(node), r, Check);
    LostAtCheckIff(p, Opening() + Answering(node), r);
    CoverOfReachable(p, Opening() + Answering(node), r);
    var s := Apply(r, Check);
    assert s.result == r.result && r.result == List(r);
    assert List(r)[1] in s.result;
  }
}
