/** The iterative lookup as an interleaved system: the main loop, the query workers, the
    token channel, the done counter and the shared buffer.

  Every action is one step that the scheduler cannot split: a channel operation, an atomic
  counter operation, one locked call of the buffer, the return of a query. Answers of
  queries are arbitrary. */
module LookupProtocol {
  import opened Distance
  import opened Nodes
  import opened NearestNodes

  datatype Params = Params(seeds: seq<Node>, target: Id, depth: int, wants: nat, alpha: nat)

  datatype WorkerPc =
    | Querying
    | Appending(nodes: seq<Node>)  // the query answered; about to lock the buffer
    | Refunding                    // about to put the token back
    | Counting                     // about to add one to the done counter
    | Closing                      // counted up to alpha; about to close the channel
    | Leaving                      // about to leave the wait group
    | Gone

  datatype Worker = Worker(node: Node, pc: WorkerPc)

  datatype Main =
    | Entering                     // before the call of queryNewNodes
    | Head(i: nat)                 // the loop over the round's list
    | Waiting(i: nat)              // at the select on the token channel
    | Holding(i: nat, owned: bool)  // received; `owned` unless the channel was closed and empty
    | Joining                      // waiting for the workers
    | Stopped(cancelled: bool)

  datatype Query = Query(round: nat, node: Node)

  datatype State = State(
    p: Params,
    main: Main,
    depth: int,
    asked: set<Id>,
    seen: set<Id>,
    buffer: seq<Node>,
    result: seq<Node>,
    tokens: nat,
    closed: bool,
    done: nat,
    workers: seq<Worker>,
    panicked: bool,
    // what happened so far
    lists: seq<seq<Node>>,         // the list each round worked on
    queried: seq<Query>,
    skipped: seq<Query>,           // nodes a round stopped at, marked as asked but not queried
    answered: seq<Node>,           // nodes returned in completed rounds
    answers: seq<Node>)            // nodes returned in the current round

  datatype Action =
    | Enter
    | Next
    | Receive
    | Cancel
    | Check
    | Join
    | Answer(w: nat, nodes: seq<Node>)
    | Fail(w: nat)
    | Append(w: nat)
    | Refund(w: nat)
    | Count(w: nat)
    | Close(w: nat)
    | Leave(w: nat)

  function Start(p: Params): State {
    State(p, Entering, p.depth, {}, Ids(p.seeds), [], Nearest(p.seeds, p.target, p.wants),
          0, false, 0, [], false, [], [], [], [], [])
  }

  predicate At(s: State, w: nat, pc: WorkerPc) {
    w < |s.workers| && s.workers[w].pc == pc
  }

  predicate AllGone(s: State) {
    forall w :: 0 <= w < |s.workers| ==> s.workers[w].pc == Gone
  }

  function List(s: State): seq<Node> {
    if s.lists == [] then [] else s.lists[|s.lists| - 1]
  }

  predicate Enabled(s: State, a: Action) {
    match a
    case Enter => s.main.Entering?
    case Next => s.main.Head?
    case Receive => s.main.Waiting? && (s.tokens > 0 || s.closed)
    case Cancel => s.main.Waiting? && s.main.i < |List(s)|
    case Check => s.main.Holding? && s.main.i < |List(s)|
    case Join => s.main.Joining? && AllGone(s)
    case Answer(w, _) => At(s, w, Querying)
    case Fail(w) => At(s, w, Querying)
    case Append(w) => w < |s.workers| && s.workers[w].pc.Appending?
    case Refund(w) => At(s, w, Refunding) && (s.closed || s.tokens < s.p.alpha)
    case Count(w) => At(s, w, Counting)
    case Close(w) => At(s, w, Closing)
    case Leave(w) => At(s, w, Leaving)
  }

  /** The query of the node the main loop is at. */
  function AtHand(s: State): Query
    requires (s.main.Waiting? || s.main.Holding?) && s.main.i < |List(s)|
  {
    Query(|s.lists| - 1, List(s)[s.main.i])
  }

  function Moved(s: State, w: nat, pc: WorkerPc): seq<Worker>
    requires w < |s.workers|
  {
    s.workers[w := s.workers[w].(pc := pc)]
  }

  function Apply(s: State, a: Action): State
    requires Enabled(s, a)
  {
    match a
    case Enter =>
      if s.depth == 0 then s.(main := Stopped(false))
      else s.(depth := s.depth - 1, tokens := s.p.alpha, closed := false, done := 0, workers := [],
              main := Head(0), lists := s.lists + [s.result])
    case Next =>
      var i := s.main.i;
      if i >= |List(s)| then s.(main := Joining)
      else if List(s)[i].id in s.asked then s.(main := Head(i + 1))
      else s.(asked := s.asked + {List(s)[i].id}, main := Waiting(i))
    case Receive =>
      if s.tokens > 0 then s.(tokens := s.tokens - 1, main := Holding(s.main.i, true))
      else s.(main := Holding(s.main.i, false))
    case Cancel => s.(main := Stopped(true), skipped := s.skipped + [AtHand(s)])
    case Check =>
      var i := s.main.i;
      if s.done == s.p.alpha then s.(main := Joining, skipped := s.skipped + [AtHand(s)])
      else s.(workers := s.workers + [Worker(List(s)[i], Querying)],
              queried := s.queried + [AtHand(s)], main := Head(i + 1))
    case Join =>
      if s.done == 0 then s.(main := Stopped(false))
      else s.(result := PushAll(s.result, Fresh(s.seen, s.buffer), s.p.target, s.p.wants),
              seen := s.seen + Ids(s.buffer), buffer := [], main := Entering,
              answered := s.answered + s.answers, answers := [])
    case Answer(w, nodes) => s.(workers := Moved(s, w, Appending(nodes)))
    case Fail(w) => s.(workers := Moved(s, w, Refunding))
    case Append(w) =>
      var nodes := s.workers[w].pc.nodes;
      var added := Fresh(Ids(s.buffer), nodes);
      s.(buffer := s.buffer + added, answers := s.answers + nodes,
         workers := Moved(s, w, if |added| > 0 then Counting else Refunding))
    case Refund(w) =>
      if s.closed then s.(panicked := true, workers := Moved(s, w, Gone))
      else s.(tokens := s.tokens + 1, workers := Moved(s, w, Leaving))
    case Count(w) =>
      s.(done := s.done + 1, workers := Moved(s, w, if s.done + 1 == s.p.alpha then Closing else Leaving))
    case Close(w) =>
      if s.closed then s.(panicked := true, workers := Moved(s, w, Gone))
      else s.(closed := true, workers := Moved(s, w, Leaving))
    case Leave(w) => s.(workers := Moved(s, w, Gone))
  }

  ghost predicate Reaches(s: State, actions: seq<Action>, r: State)
    decreases actions
  {
    if actions == [] then r == s
    else Enabled(s, actions[0]) && Reaches(Apply(s, actions[0]), actions[1..], r)
  }

  // ---------- counting workers ----------

  predicate IsRunning(pc: WorkerPc) {
    pc.Querying? || pc.Appending? || pc.Refunding? || pc.Counting?
  }

  function Running(ws: seq<Worker>): nat {
    if ws == [] then 0 else (if IsRunning(ws[|ws| - 1].pc) then 1 else 0) + Running(ws[..|ws| - 1])
  }

  function Closers(ws: seq<Worker>): nat {
    if ws == [] then 0 else (if ws[|ws| - 1].pc.Closing? then 1 else 0) + Closers(ws[..|ws| - 1])
  }

  function Counters(ws: seq<Worker>): nat {
    if ws == [] then 0 else (if ws[|ws| - 1].pc.Counting? then 1 else 0) + Counters(ws[..|ws| - 1])
  }

  /** Steps a worker may still take. */
  function Left(pc: WorkerPc): nat {
    match pc
    case Querying => 6
    case Appending(_) => 5
    case Counting => 4
    case Closing => 3
    case Refunding => 2
    case Leaving => 1
    case Gone => 0
  }

  function AllLeft(ws: seq<Worker>): nat {
    if ws == [] then 0 else Left(ws[|ws| - 1].pc) + AllLeft(ws[..|ws| - 1])
  }

  lemma {:induction false} CountMoved(ws: seq<Worker>, w: nat, x: Worker)
    requires w < |ws|
    ensures Running(ws[w := x]) == Running(ws)
      - (if IsRunning(ws[w].pc) then 1 else 0) + (if IsRunning(x.pc) then 1 else 0)
    ensures Closers(ws[w := x]) == Closers(ws)
      - (if ws[w].pc.Closing? then 1 else 0) + (if x.pc.Closing? then 1 else 0)
    ensures Counters(ws[w := x]) == Counters(ws)
      - (if ws[w].pc.Counting? then 1 else 0) + (if x.pc.Counting? then 1 else 0)
    ensures AllLeft(ws[w := x]) == AllLeft(ws) - Left(ws[w].pc) + Left(x.pc)
  {
    var n := |ws| - 1;
    if w == n {
      assert ws[w := x][..n] == ws[..n];
    } else {
      CountMoved(ws[..n], w, x);
      assert ws[w := x][..n] == ws[..n][w := x];
    }
  }

  lemma CountAdded(ws: seq<Worker>, x: Worker)
    ensures Running(ws + [x]) == Running(ws) + if IsRunning(x.pc) then 1 else 0
    ensures Closers(ws + [x]) == Closers(ws) + if x.pc.Closing? then 1 else 0
    ensures Counters(ws + [x]) == Counters(ws) + if x.pc.Counting? then 1 else 0
    ensures AllLeft(ws + [x]) == AllLeft(ws) + Left(x.pc)
  {
    assert (ws + [x])[..|ws + [x]| - 1] == ws;
  }

  lemma {:induction false} CountAt(ws: seq<Worker>, w: nat)
    requires w < |ws|
    ensures IsRunning(ws[w].pc) ==> Running(ws) > 0
    ensures ws[w].pc.Closing? ==> Closers(ws) > 0
    ensures ws[w].pc.Counting? ==> Counters(ws) > 0
  {
    if w < |ws| - 1 {
      CountAt(ws[..|ws| - 1], w);
    }
  }

  lemma {:induction false} SomeRunning(ws: seq<Worker>) returns (w: nat)
    requires Running(ws) + Closers(ws) > 0
    ensures w < |ws| && (IsRunning(ws[w].pc) || ws[w].pc.Closing?)
    ensures Running(ws) == 0 ==> ws[w].pc.Closing?
  {
    var n := |ws| - 1;
    if IsRunning(ws[n].pc) || (ws[n].pc.Closing? && Running(ws) == 0) {
      w := n;
    } else {
      w := SomeRunning(ws[..n]);
    }
  }

  lemma {:induction false} NoneCounting(ws: seq<Worker>)
    requires forall w :: 0 <= w < |ws| ==> ws[w].pc == Gone
    ensures Running(ws) == 0 && Closers(ws) == 0 && Counters(ws) == 0
  {
    if ws != [] {
      NoneCounting(ws[..|ws| - 1]);
    }
  }

  // ---------- the token protocol ----------

  function Held(s: State): nat {
    if s.main.Holding? && s.main.owned then 1 else 0
  }

  /** Free tokens, the token the main loop holds, running queries and the done counter
      always add up to alpha; the channel is closed by the one worker that counted to alpha,
      and nobody has sent on it or closed it again since. */
  ghost predicate TokenInv(s: State) {
    && !s.panicked
    && s.p.alpha > 0
    && (s.main.Entering? ==> AllGone(s))
    && (s.lists != [] ==>
         && s.tokens + Held(s) + Running(s.workers) + s.done == s.p.alpha
         && Closers(s.workers) == (if s.done == s.p.alpha && !s.closed then 1 else 0)
         && (s.closed ==> s.done == s.p.alpha))
    && (s.main.Holding? && !s.main.owned ==> s.closed)
    && (s.lists == [] ==> s.workers == [] && (s.main.Entering? || s.main == Stopped(false)))
  }

  predicate OfMain(a: Action) {
    a.Enter? || a.Next? || a.Receive? || a.Cancel? || a.Check? || a.Join?
  }

  lemma NoWorkers()
    ensures Running([]) == 0 && Closers([]) == 0 && Counters([]) == 0 && AllLeft([]) == 0
  {
  }

  lemma TokenStepCheck(s: State)
    requires Enabled(s, Check) && TokenInv(s)
    ensures TokenInv(Apply(s, Check))
  {
    var x := Worker(List(s)[s.main.i], Querying);
    CountAdded(s.workers, x);
    hide Running, Closers, Counters, AllLeft, AllGone, List;
    var r := Apply(s, Check);
    if s.done == s.p.alpha {
      assert r == s.(main := Joining, skipped := r.skipped);
    } else {
      assert r.workers == s.workers + [x] && r.main.Head? && r.tokens == s.tokens && r.done == s.done;
    }
  }

  lemma TokenStepMain(s: State, a: Action)
    requires OfMain(a) && Enabled(s, a) && TokenInv(s)
    ensures TokenInv(Apply(s, a))
  {
    NoWorkers();
    if a.Check? {
      TokenStepCheck(s);
    } else {
      hide PushAll, Fresh, Ids, Running, Closers, Counters, AllLeft, List;
      var r := Apply(s, a);
      assert r.p == s.p && r.panicked == s.panicked && (r.workers == s.workers || r.workers == []);
    }
  }

  /** What a worker action does to the worker and to the token channel. */
  lemma WorkerStep(s: State, a: Action) returns (w: nat, x: Worker)
    requires !OfMain(a) && Enabled(s, a)
    ensures w < |s.workers| && s.workers[w].pc != Gone
    ensures Apply(s, a).workers == s.workers[w := x] && x.node == s.workers[w].node
    ensures Left(x.pc) < Left(s.workers[w].pc)
    ensures var r := Apply(s, a);
      && r.main == s.main && r.lists == s.lists && r.p == s.p
      && r.tokens == s.tokens + (if a.Refund? && !s.closed then 1 else 0)
      && r.done == s.done + (if a.Count? then 1 else 0)
      && r.closed == (s.closed || a.Close?)
      && r.panicked == (s.panicked || (s.closed && (a.Refund? || a.Close?)))
    ensures IsRunning(s.workers[w].pc) <==> !a.Close? && !a.Leave?
    ensures IsRunning(x.pc) <==> a.Answer? || a.Fail? || a.Append?
    ensures s.workers[w].pc.Closing? <==> a.Close?
    ensures x.pc.Closing? <==> a.Count? && s.done + 1 == s.p.alpha
  {
    hide PushAll, Fresh, Ids;
    w := a.w;
    x := Apply(s, a).workers[w];
  }

  lemma TokenStep(s: State, a: Action)
    requires Enabled(s, a) && TokenInv(s)
    ensures TokenInv(Apply(s, a))
  {
    hide Apply, Enabled;
    if OfMain(a) {
      TokenStepMain(s, a);
    } else {
      var w, x := WorkerStep(s, a);
      CountAt(s.workers, w);
      CountMoved(s.workers, w, x);
    }
  }

  // ---------- the result ----------

  /** All nodes the result is chosen from: the seeds and every new node that a completed
      round returned. */
  function Candidates(s: State): seq<Node> {
    s.p.seeds + Fresh(Ids(s.p.seeds), s.answered)
  }

  ghost predicate ResultInv(s: State) {
    && s.result == Nearest(Candidates(s), s.p.target, s.p.wants)
    && s.seen == Ids(s.p.seeds) + Ids(s.answered)
    && s.buffer == Dedup(s.answers)
    && (s.main.Entering? || s.lists == [] ==> s.answers == [])
    && (s.lists != [] ==> NoFarther(s.result, List(s), s.p.target))
    && (forall r :: 0 <= r < |s.lists| - 1 ==> NoFarther(s.lists[r + 1], s.lists[r], s.p.target))
    && (forall r :: 0 <= r < |s.lists| ==> |s.lists[r]| <= s.p.wants)
  }

  lemma {:induction false} FreshOfFresh(k: set<Id>, b: set<Id>, ns: seq<Node>)
    ensures Fresh(k, Fresh(b, ns)) == Fresh(k + b, ns)
    decreases ns
  {
    if ns != [] {
      var n, t := ns[0], ns[1..];
      if n.id in b {
        FreshOfFresh(k, b, t);
      } else {
        var f := [n] + Fresh(b + {n.id}, t);
        assert f[1..] == Fresh(b + {n.id}, t);
        FreshOfFresh(if n.id in k then k else k + {n.id}, b + {n.id}, t);
        assert (if n.id in k then k else k + {n.id}) + (b + {n.id}) == k + b + {n.id};
        if n.id in k {
          assert k + b + {n.id} == k + b;
        }
      }
    }
  }

  lemma MergeResult(s: State)
    requires ResultInv(s)
    ensures PushAll(s.result, Fresh(s.seen, s.buffer), s.p.target, s.p.wants)
         == Nearest(s.p.seeds + Fresh(Ids(s.p.seeds), s.answered + s.answers), s.p.target, s.p.wants)
    ensures NoFarther(PushAll(s.result, Fresh(s.seen, s.buffer), s.p.target, s.p.wants), s.result, s.p.target)
  {
    hide PushAll, Nearest, NoFarther;
    var news := Fresh(s.seen, s.buffer);
    FreshOfFresh(s.seen, {}, s.answers);
    assert s.seen + {} == s.seen;
    FreshConcat(Ids(s.p.seeds), s.answered, s.answers);
    NearestExtends(Candidates(s), news, s.p.target, s.p.wants);
    NearestImproves(Candidates(s), news, s.p.target, s.p.wants);
    assert Candidates(s) + news == s.p.seeds + Fresh(Ids(s.p.seeds), s.answered + s.answers);
  }

  lemma NoFartherTransitive(a: seq<Node>, b: seq<Node>, c: seq<Node>, t: Id)
    requires NoFarther(a, b, t) && NoFarther(b, c, t)
    ensures NoFarther(a, c, t)
  {
  }

  lemma ResultStepMain(s: State, a: Action)
    requires OfMain(a) && Enabled(s, a) && TokenInv(s) && ResultInv(s)
    ensures ResultInv(Apply(s, a))
  {
    hide PushAll, Nearest, NoFarther, Fresh;
    match a {
      case Enter =>
        ListBound(s);
      case Join =>
        if s.done != 0 {
          JoinResult(s);
        }
      case _ =>
    }
  }

  lemma JoinResult(s: State)
    requires s.main.Joining? && AllGone(s) && s.done != 0 && ResultInv(s)
    ensures ResultInv(Apply(s, Join))
  {
    MergeResult(s);
    BufferIds(s);
    hide PushAll, Nearest, NoFarther, Fresh, Ids, AllGone;
    var r := Apply(s, Join);
    if s.lists != [] {
      NoFartherTransitive(r.result, s.result, List(s), s.p.target);
    }
  }

  lemma BufferIds(s: State)
    requires ResultInv(s)
    ensures s.seen + Ids(s.buffer) == Ids(s.p.seeds) + Ids(s.answered + s.answers)
    ensures Dedup([]) == []
  {
    hide PushAll, Nearest, NoFarther;
    IdsConcat(s.answered, s.answers);
    FreshKeeps({}, s.answers);
  }

  lemma ResultStepWorker(s: State, a: Action)
    requires !OfMain(a) && Enabled(s, a) && TokenInv(s) && ResultInv(s)
    ensures ResultInv(Apply(s, a))
  {
    hide PushAll, Nearest, NoFarther, Fresh, TokenInv;
    if a.Append? {
      var nodes := s.workers[a.w].pc.nodes;
      NoWorkersOutsideRounds(s, a.w);
      BufferGrows(s.answers, nodes);
    }
  }

  lemma BufferGrows(answers: seq<Node>, nodes: seq<Node>)
    ensures Dedup(answers) + Fresh(Ids(Dedup(answers)), nodes) == Dedup(answers + nodes)
  {
    FreshConcat({}, answers, nodes);
    FreshKeeps({}, answers);
    assert {} + Ids(answers) == Ids(Dedup(answers));
  }

  lemma ResultStep(s: State, a: Action)
    requires Enabled(s, a) && TokenInv(s) && ResultInv(s)
    ensures ResultInv(Apply(s, a))
  {
    hide Apply, ResultInv, TokenInv, Enabled;
    if OfMain(a) {
      ResultStepMain(s, a);
    } else {
      ResultStepWorker(s, a);
    }
  }

  lemma ListBound(s: State)
    requires ResultInv(s)
    ensures |s.result| <= s.p.wants && NoFarther(s.result, s.result, s.p.target)
  {
  }

  lemma NoWorkersOutsideRounds(s: State, w: nat)
    requires TokenInv(s) && w < |s.workers| && s.workers[w].pc != Gone
    ensures !s.main.Entering? && s.lists != []
  {
  }

  // ---------- the work ----------

  /** The position of the main loop in the round's list. */
  function Position(s: State): nat {
    match s.main
    case Head(i) => i
    case Waiting(i) => i
    case Holding(i, _) => i
    case _ => s.p.wants
  }

  /** Nobody is queried twice, and only nodes of the list the round started with. */
  ghost predicate WorkInv(s: State) {
    && s.depth + |s.lists| == s.p.depth
    && (s.main.Head? || s.main.Waiting? || s.main.Holding? || s.main.Joining? ==> s.lists != [])
    && |s.queried| <= Budget(s)
    && (s.main.Waiting? || s.main.Holding? ==> s.main.i < |List(s)| && Unqueried(s, List(s)[s.main.i]))
    && (s.main.Head? ==> s.main.i <= |List(s)|)
    && (forall q :: 0 <= q < |s.queried| ==> QueryOk(s, s.queried[q]))
    && (forall q, q' :: 0 <= q < q' < |s.queried| ==> s.queried[q].node.id != s.queried[q'].node.id)
  }

  /** Marked as asked, but not queried yet. */
  ghost predicate Unqueried(s: State, n: Node) {
    && n.id in s.asked
    && forall q :: 0 <= q < |s.queried| ==> s.queried[q].node.id != n.id
  }

  ghost predicate QueryOk(s: State, q: Query) {
    q.round < |s.lists| && q.node in s.lists[q.round] && q.node.id in s.asked
  }

  /** What an action does to the record of rounds and queries. */
  lemma WorkChange(s: State, a: Action)
    requires Enabled(s, a) && WorkInv(s) && !a.Enter?
    ensures var r := Apply(s, a);
      && r.lists == s.lists && r.depth == s.depth && r.p == s.p
      && s.asked <= r.asked
      && (r.queried != s.queried ==> a.Check? && r.queried == s.queried + [Query(|s.lists| - 1, List(s)[s.main.i])])
  {
    hide PushAll, Fresh, Ids, WorkInv;
  }

  lemma QueriesStep(s: State, a: Action)
    requires Enabled(s, a) && WorkInv(s)
    ensures forall q :: 0 <= q < |Apply(s, a).queried| ==> QueryOk(Apply(s, a), Apply(s, a).queried[q])
    ensures forall q, q' :: 0 <= q < q' < |Apply(s, a).queried| ==>
      Apply(s, a).queried[q].node.id != Apply(s, a).queried[q'].node.id
  {
    hide PushAll, Fresh, Ids;
    var r := Apply(s, a);
    if !a.Enter? {
      WorkChange(s, a);
    }
    hide Apply;
    forall q | 0 <= q < |r.queried|
      ensures QueryOk(r, r.queried[q])
    {
      if q < |s.queried| {
        assert QueryOk(s, s.queried[q]);
      }
    }
  }

  /** How many queries the rounds before the current position allow. */
  function Budget(s: State): nat {
    if s.lists == [] then 0 else (|s.lists| - 1) * s.p.wants + Position(s)
  }

  lemma BudgetStep(s: State, a: Action)
    requires Enabled(s, a) && ResultInv(s) && WorkInv(s)
    ensures |Apply(s, a).queried| <= Budget(Apply(s, a))
  {
    hide PushAll, Nearest, NoFarther, Fresh, QueryOk, Unqueried, Candidates, Dedup, Ids;
    if s.lists != [] {
      assert |s.lists[|s.lists| - 1]| <= s.p.wants;
    }
    if a.Enter? {
      var n, k := |s.lists|, s.p.wants;
      assert n > 0 ==> (n - 1) * k + k == n * k;
    } else {
      WorkChange(s, a);
    }
  }

  lemma WorkStep(s: State, a: Action)
    requires Enabled(s, a) && ResultInv(s) && WorkInv(s)
    ensures WorkInv(Apply(s, a))
  {
    hide PushAll, Nearest, NoFarther, Fresh, Candidates, Dedup, Ids, Budget, ResultInv;
    QueriesStep(s, a);
    BudgetStep(s, a);
    if a.Next? && s.main.i < |List(s)| && List(s)[s.main.i].id !in s.asked {
      forall q | 0 <= q < |s.queried|
        ensures s.queried[q].node.id != List(s)[s.main.i].id
      {
        assert QueryOk(s, s.queried[q]);
      }
    }
    hide QueryOk;
  }

  // ---------- no answer is forgotten ----------

  /** New nodes in the buffer were counted, or a worker is about to count them; a lookup
      that was not cancelled stops with no worker and no answer left over. */
  ghost predicate CountedInv(s: State) {
    && (s.buffer != [] && !s.main.Stopped? ==> s.done + Counters(s.workers) > 0)
    && (s.main == Stopped(false) ==> s.answers == [] && AllGone(s))
  }

  lemma CountedStep(s: State, a: Action)
    requires Enabled(s, a) && TokenInv(s) && ResultInv(s) && CountedInv(s)
    ensures CountedInv(Apply(s, a))
  {
    hide PushAll, Nearest, NoFarther, Fresh, Ids, TokenInv, Candidates;
    if OfMain(a) {
      if a.Check? {
        CountAdded(s.workers, Worker(List(s)[s.main.i], Querying));
      } else if a.Join? {
        NoneCounting(s.workers);
        FreshOfSome(s.answers);
      } else if a.Enter? {
        NoneLeft(s);
        FreshOfSome(s.answers);
      }
    } else {
      var w, x := WorkerStep(s, a);
      CountMoved(s.workers, w, x);
      CountAt(s.workers[w := x], w);
    }
  }

  lemma FreshOfSome(ns: seq<Node>)
    ensures Dedup(ns) == [] <==> ns == []
  {
  }

  lemma NoneLeft(s: State)
    requires TokenInv(s) && s.main.Entering?
    ensures AllGone(s)
  {
  }

  // ---------- all of it, in every run ----------

  ghost predicate Inv(s: State) {
    TokenInv(s) && ResultInv(s) && WorkInv(s) && CountedInv(s)
  }

  lemma StartInv(p: Params)
    requires p.alpha > 0
    ensures Inv(Start(p))
  {
    assert p.seeds + [] == p.seeds;
    assert Ids(p.seeds) + Ids([]) == Ids(p.seeds);
  }

  lemma InvStep(s: State, a: Action)
    requires Enabled(s, a) && Inv(s)
    ensures Inv(Apply(s, a)) && Apply(s, a).p == s.p
  {
    hide TokenInv, ResultInv, WorkInv, CountedInv;
    TokenStep(s, a);
    ResultStep(s, a);
    WorkStep(s, a);
    CountedStep(s, a);
  }

  lemma {:induction false} InvOfRun(s: State, actions: seq<Action>, r: State)
    requires Inv(s) && Reaches(s, actions, r)
    ensures Inv(r) && r.p == s.p
    decreases actions
  {
    hide Inv;
    if actions != [] {
      InvStep(s, actions[0]);
      InvOfRun(Apply(s, actions[0]), actions[1..], r);
    }
  }

  // ---------- what the run delivered ----------

  /** The nodes delivered by the workers of a run, in order of `Append`, read from its actions
      alone: a worker delivers what its last `Answer` gave it. */
  function Delivered(actions: seq<Action>, hands: map<nat, seq<Node>>): seq<Node>
    decreases actions
  {
    if actions == [] then []
    else
      match actions[0]
      case Answer(w, nodes) => Delivered(actions[1..], hands[w := nodes])
      case Append(w) => (if w in hands then hands[w] else []) + Delivered(actions[1..], hands)
      case _ => Delivered(actions[1..], hands)
  }

  /** The part of it that was delivered by the last `Join`: the answers of completed rounds. */
  function Completed(actions: seq<Action>, hands: map<nat, seq<Node>>, round: seq<Node>): seq<Node>
    decreases actions
  {
    if actions == [] then []
    else
      match actions[0]
      case Answer(w, nodes) => Completed(actions[1..], hands[w := nodes], round)
      case Append(w) => Completed(actions[1..], hands, round + if w in hands then hands[w] else [])
      case Join => round + Completed(actions[1..], hands, [])
      case _ => Completed(actions[1..], hands, round)
  }

  /** A worker about to append holds what it was given. */
  ghost predicate HandsOk(s: State, hands: map<nat, seq<Node>>) {
    forall w: nat :: w < |s.workers| && s.workers[w].pc.Appending? ==> w in hands && hands[w] == s.workers[w].pc.nodes
  }

  function HandsAfter(a: Action, hands: map<nat, seq<Node>>): map<nat, seq<Node>> {
    if a.Answer? then hands[a.w := a.nodes] else hands
  }

  /** What a step appends. */
  function AppendedBy(a: Action, hands: map<nat, seq<Node>>): seq<Node> {
    if a.Append? && a.w in hands then hands[a.w] else []
  }

  lemma HandsStep(s: State, a: Action, hands: map<nat, seq<Node>>)
    requires Enabled(s, a) && HandsOk(s, hands)
    ensures HandsOk(Apply(s, a), HandsAfter(a, hands))
  {
    if OfMain(a) {
      MainHands(s, a);
    } else {
      hide PushAll, Fresh, Ids;
    }
  }

  lemma MainHands(s: State, a: Action)
    requires OfMain(a) && Enabled(s, a)
    ensures forall w: nat :: w < |Apply(s, a).workers| && Apply(s, a).workers[w].pc.Appending? ==>
      w < |s.workers| && s.workers[w] == Apply(s, a).workers[w]
  {
    hide PushAll, Fresh, Ids;
  }

  lemma DeliveringStep(s: State, a: Action, hands: map<nat, seq<Node>>)
    requires Enabled(s, a) && HandsOk(s, hands)
    ensures HandsOk(Apply(s, a), HandsAfter(a, hands))
    ensures var r := Apply(s, a);
      if a.Join? && s.done != 0 then r.answered == s.answered + s.answers && r.answers == []
      else r.answered == s.answered && r.answers == s.answers + AppendedBy(a, hands)
  {
    HandsStep(s, a, hands);
    assert a.Append? ==> AppendedBy(a, hands) == s.workers[a.w].pc.nodes;
    hide PushAll, Fresh, Ids, HandsOk;
    assert s.answers + [] == s.answers;
  }

  lemma DeliveredHead(actions: seq<Action>, hands: map<nat, seq<Node>>)
    requires actions != []
    ensures Delivered(actions, hands) == AppendedBy(actions[0], hands) + Delivered(actions[1..], HandsAfter(actions[0], hands))
  {
  }

  lemma CompletedHead(actions: seq<Action>, hands: map<nat, seq<Node>>, round: seq<Node>)
    requires actions != []
    ensures Completed(actions, hands, round) ==
      if actions[0].Join? then round + Completed(actions[1..], hands, [])
      else Completed(actions[1..], HandsAfter(actions[0], hands), round + AppendedBy(actions[0], hands))
  {
    assert round + [] == round;
  }

  /** A round without a new node leaves nothing behind. */
  lemma LastJoin(s: State)
    requires Inv(s) && Enabled(s, Join) && s.done == 0
    ensures s.answers == []
  {
    InvStep(s, Join);
    hide TokenInv, ResultInv, WorkInv;
    assert Apply(s, Join).main == Stopped(false);
  }

  lemma AnswersStep(s: State, a: Action, hands: map<nat, seq<Node>>)
    requires Inv(s) && Enabled(s, a) && HandsOk(s, hands)
    ensures var r := Apply(s, a);
      if a.Join? then r.answered == s.answered + s.answers && r.answers == []
      else r.answered == s.answered && r.answers == s.answers + AppendedBy(a, hands)
  {
    DeliveringStep(s, a, hands);
    if a.Join? && s.done == 0 {
      LastJoin(s);
    }
    hide Apply, Enabled, HandsOk, Inv;
    assert s.answered + [] == s.answered;
  }

  lemma {:induction false} DeliveredFrom(s: State, actions: seq<Action>, r: State, hands: map<nat, seq<Node>>)
    requires Inv(s) && HandsOk(s, hands) && Reaches(s, actions, r)
    ensures r.answered + r.answers == s.answered + s.answers + Delivered(actions, hands)
    ensures r.answered == s.answered + Completed(actions, hands, s.answers)
    decreases actions
  {
    hide Apply, Enabled, HandsOk, Inv, AppendedBy;
    if actions != [] {
      var a := actions[0];
      var t := Apply(s, a);
      DeliveringStep(s, a, hands);
      AnswersStep(s, a, hands);
      InvStep(s, a);
      DeliveredFrom(t, actions[1..], r, HandsAfter(a, hands));
      DeliveredHead(actions, hands);
      CompletedHead(actions, hands, s.answers);
      hide Delivered, Completed, Reaches;
      var d, x := Delivered(actions[1..], HandsAfter(a, hands)), AppendedBy(a, hands);
      if a.Join? {
        assert x == [] && HandsAfter(a, hands) == hands by {
          NothingByJoin(a, hands);
        }
        assert s.answered + s.answers + [] == s.answered + s.answers && [] + d == d;
        Associative(s.answered, s.answers, Completed(actions[1..], hands, []));
      } else {
        Associative(s.answered, s.answers, x);
        Associative(s.answered + s.answers, x, d);
      }
    } else {
      assert s.answered + [] == s.answered;
    }
  }

  lemma NothingByJoin(a: Action, hands: map<nat, seq<Node>>)
    requires a.Join?
    ensures AppendedBy(a, hands) == [] && HandsAfter(a, hands) == hands
  {
  }

  lemma Associative<T>(a: seq<T>, b: seq<T>, c: seq<T>)
    ensures a + b + c == a + (b + c)
  {
  }

  /** In every run nothing a query returned is lost on the way: what the model calls the
      answers is exactly what the `Answer` steps gave and the `Append` steps delivered. */
  lemma AnswersAreDelivered(p: Params, actions: seq<Action>, s: State)
    requires p.alpha > 0 && Reaches(Start(p), actions, s)
    ensures s.answered + s.answers == Delivered(actions, map[])
    ensures s.answered == Completed(actions, map[], [])
  {
    StartInv(p);
    DeliveredFrom(Start(p), actions, s, map[]);
  }

  /** A worker counts exactly if its answer has a node the buffer does not have. */
  lemma CountsIffNew(s: State, w: nat)
    requires Enabled(s, Append(w))
    ensures Apply(s, Append(w)).workers[w].pc == Counting <==>
      exists n :: n in s.workers[w].pc.nodes && n.id !in Ids(s.buffer)
    ensures Ids(Apply(s, Append(w)).buffer) == Ids(s.buffer) + Ids(s.workers[w].pc.nodes)
  {
    var nodes := s.workers[w].pc.nodes;
    var added := Fresh(Ids(s.buffer), nodes);
    FreshKeeps(Ids(s.buffer), nodes);
    IdsConcat(s.buffer, added);
    if added != [] {
      assert added[0] in added;
      IdsAt(added, 0);
      assert added[0] in nodes;
    }
    if n :| n in nodes && n.id !in Ids(s.buffer) {
      assert n.id in Ids(added);
    }
  }

  predicate BringsNew(round: seq<Node>, nodes: seq<Node>) {
    exists n :: n in nodes && n.id !in Ids(round)
  }

  /** How many answers of the round the run is in brought a node that no earlier answer of it
      had, read from the actions alone. */
  function Productive(actions: seq<Action>, hands: map<nat, seq<Node>>, round: seq<Node>, count: nat): nat
    decreases actions
  {
    if actions == [] then count
    else
      var a := actions[0];
      var nodes := AppendedBy(a, hands);
      if a.Join? then Productive(actions[1..], hands, [], 0)
      else Productive(actions[1..], HandsAfter(a, hands), round + nodes, if BringsNew(round, nodes) then count + 1 else count)
  }

  /** The productive answers of the round are counted or about to be. */
  predicate CountIs(s: State, count: nat) {
    && (!s.main.Entering? && s.main != Stopped(false) ==> s.done + Counters(s.workers) == count)
    && (s.main.Entering? ==> count == 0)
  }

  lemma CountMain(s: State, a: Action, count: nat)
    requires OfMain(a) && !a.Join? && Enabled(s, a) && CountIs(s, count)
    ensures CountIs(Apply(s, a), count)
  {
    hide PushAll, Fresh, Ids;
    if a.Check? {
      CountAdded(s.workers, Worker(List(s)[s.main.i], Querying));
    }
  }

  lemma WorkersGone(s: State, a: Action)
    requires Inv(s) && Enabled(s, a) && !OfMain(a)
    ensures !s.main.Entering? && s.main != Stopped(false)
  {
    var w, x := WorkerStep(s, a);
    hide ResultInv, WorkInv;
    if s.main.Entering? {
      NoneLeft(s);
    }
  }

  lemma WorkerCounts(s: State, a: Action, hands: map<nat, seq<Node>>)
    requires ResultInv(s) && HandsOk(s, hands) && !OfMain(a) && Enabled(s, a)
    ensures var r := Apply(s, a);
      && r.workers == s.workers[a.w := r.workers[a.w]]
      && (r.workers[a.w].pc.Counting? <==> BringsNew(s.answers, AppendedBy(a, hands)))
      && (s.workers[a.w].pc.Counting? <==> a.Count?)
      && r.done == s.done + (if a.Count? then 1 else 0) && r.main == s.main
  {
    if a.Append? {
      CountsIffNew(s, a.w);
      FreshKeeps({}, s.answers);
      assert AppendedBy(a, hands) == s.workers[a.w].pc.nodes;
    }
    hide PushAll, Fresh, Ids, Nearest, NoFarther;
  }

  lemma CountWorker(s: State, a: Action, hands: map<nat, seq<Node>>, count: nat)
    requires Inv(s) && HandsOk(s, hands) && !OfMain(a) && Enabled(s, a) && CountIs(s, count)
    ensures CountIs(Apply(s, a), if BringsNew(s.answers, AppendedBy(a, hands)) then count + 1 else count)
  {
    WorkerCounts(s, a, hands);
    WorkersGone(s, a);
    CountMoved(s.workers, a.w, Apply(s, a).workers[a.w]);
    hide Apply, Inv, HandsOk, BringsNew, AppendedBy, Counters;
  }

  lemma CountStep(s: State, a: Action, hands: map<nat, seq<Node>>, count: nat)
    requires Inv(s) && HandsOk(s, hands) && Enabled(s, a) && CountIs(s, count)
    ensures CountIs(Apply(s, a), if a.Join? then 0 else if BringsNew(s.answers, AppendedBy(a, hands)) then count + 1 else count)
  {
    if !OfMain(a) {
      CountWorker(s, a, hands, count);
    } else if a.Join? {
      hide PushAll, Fresh, Ids, Inv;
    } else {
      CountMain(s, a, count);
      assert AppendedBy(a, hands) == [];
    }
  }

  lemma {:induction false} ProductiveFrom(s: State, actions: seq<Action>, r: State, hands: map<nat, seq<Node>>, count: nat)
    requires Inv(s) && HandsOk(s, hands) && Reaches(s, actions, r) && CountIs(s, count)
    ensures CountIs(r, Productive(actions, hands, s.answers, count))
    decreases actions
  {
    hide Apply, Enabled, HandsOk, Inv, AppendedBy, HandsAfter, CountIs, BringsNew;
    if actions != [] {
      var a := actions[0];
      HandsStep(s, a, hands);
      AnswersStep(s, a, hands);
      InvStep(s, a);
      CountStep(s, a, hands, count);
      if a.Join? {
        NothingByJoin(a, hands);
        ProductiveFrom(Apply(s, a), actions[1..], r, hands, 0);
      } else {
        ProductiveFrom(Apply(s, a), actions[1..], r, HandsAfter(a, hands),
                       if BringsNew(s.answers, AppendedBy(a, hands)) then count + 1 else count);
      }
    }
  }

  /** In every run: the done counter of a round is the number of its productive answers, so a
      lookup stops for want of news exactly if the round's answers brought none; and no further
      query of a round starts exactly if `alpha` productive answers are counted. */
  lemma StopsWithoutNews(p: Params, actions: seq<Action>, s: State)
    requires p.alpha > 0 && Reaches(Start(p), actions, s)
    ensures var count := Productive(actions, map[], [], 0);
      && (s.main.Waiting? || s.main.Holding? || s.main.Joining? ==> s.done + Counters(s.workers) == count)
      && (Enabled(s, Join) ==> s.done == count && (Apply(s, Join).main == Stopped(false) <==> count == 0))
      && (Enabled(s, Check) ==> (Apply(s, Check).main == Joining <==> s.done == p.alpha))
  {
    StartInv(p);
    InvOfRun(Start(p), actions, s);
    ProductiveFrom(Start(p), actions, s, map[], 0);
    hide TokenInv, ResultInv, WorkInv, CountedInv, Productive;
    if AllGone(s) {
      NoneCounting(s.workers);
    }
  }

  /** The workers of a round are the queries of that round, in order. */
  ghost predicate WorkersOk(s: State) {
    && |s.workers| <= |s.queried|
    && forall w :: 0 <= w < |s.workers| ==>
         var q := s.queried[|s.queried| - |s.workers| + w];
         q.node == s.workers[w].node && q.round + 1 == |s.lists|
  }

  lemma WorkersStep(s: State, a: Action)
    requires Enabled(s, a) && WorkersOk(s)
    ensures WorkersOk(Apply(s, a))
    ensures |Apply(s, a).queried| - |s.queried| == if a.Check? && Apply(s, a).workers != s.workers then 1 else 0
  {
    if OfMain(a) {
      hide PushAll, Fresh, Ids;
      var r := Apply(s, a);
      assert a.Check? || r.workers == [] || r == s.(main := r.main, asked := r.asked, tokens := r.tokens, skipped := r.skipped,
                                                   result := r.result, seen := r.seen, buffer := r.buffer,
                                                   answered := r.answered, answers := r.answers);
    } else {
      var w, x := WorkerStep(s, a);
      WorkerQueries(s, a);
      hide Apply, Enabled;
    }
  }

  lemma WorkerQueries(s: State, a: Action)
    requires !OfMain(a) && Enabled(s, a)
    ensures Apply(s, a).queried == s.queried
  {
    hide PushAll, Fresh, Ids;
  }

  lemma {:induction false} WorkersOfRun(s: State, actions: seq<Action>, r: State)
    requires WorkersOk(s) && Reaches(s, actions, r)
    ensures WorkersOk(r)
    decreases actions
  {
    hide WorkersOk, Apply, Enabled;
    if actions != [] {
      WorkersStep(s, actions[0]);
      WorkersOfRun(Apply(s, actions[0]), actions[1..], r);
    }
  }

  /** In every run the record of queries is what the workers do: the workers of a round query
      the nodes its last entries name, and it grows exactly when a worker is started. */
  lemma QueriesAreWorkers(p: Params, actions: seq<Action>, s: State, a: Action)
    requires Reaches(Start(p), actions, s) && Enabled(s, a)
    ensures WorkersOk(s)
    ensures |Apply(s, a).queried| - |s.queried| == if a.Check? && Apply(s, a).workers != s.workers then 1 else 0
  {
    WorkersOfRun(Start(p), actions, s);
    WorkersStep(s, a);
  }

  /** The token protocol, in every interleaving: tokens are conserved, at most `alpha`
      queries run at once, nothing is sent on or closes the closed channel, and a worker
      that is about to send or to close finds the channel open with room. */
  lemma TokensConserved(p: Params, actions: seq<Action>, s: State)
    requires p.alpha > 0 && Reaches(Start(p), actions, s)
    ensures !s.panicked
    ensures s.lists != [] ==> s.tokens + Held(s) + Running(s.workers) + s.done == p.alpha
    ensures Running(s.workers) <= p.alpha
    ensures forall w: nat :: At(s, w, Refunding) ==> !s.closed && s.tokens < p.alpha
    ensures forall w: nat :: At(s, w, Closing) ==> !s.closed && s.done == p.alpha
  {
    StartInv(p);
    InvOfRun(Start(p), actions, s);
    hide ResultInv, WorkInv, CountedInv;
    forall w: nat | w < |s.workers| && s.workers[w].pc != Gone
      ensures (At(s, w, Refunding) ==> !s.closed && s.tokens < p.alpha) && (At(s, w, Closing) ==> !s.closed && s.done == p.alpha)
    {
      NoWorkersOutsideRounds(s, w);
      CountAt(s.workers, w);
    }
  }

  predicate WorkerCanStep(s: State, w: nat) {
    w < |s.workers| && s.workers[w].pc != Gone &&
    match s.workers[w].pc
    case Querying => Enabled(s, Fail(w))
    case Appending(_) => Enabled(s, Append(w))
    case Refunding => Enabled(s, Refund(w))
    case Counting => Enabled(s, Count(w))
    case Closing => Enabled(s, Close(w))
    case Leaving => Enabled(s, Leave(w))
    case Gone => false
  }

  lemma WaitingCanStep(s: State)
    requires TokenInv(s) && s.lists != [] && s.main.Waiting? && s.tokens == 0 && !s.closed
    ensures exists w: nat :: WorkerCanStep(s, w)
  {
    var w := SomeRunning(s.workers);
    assert At(s, w, s.workers[w].pc);
    assert WorkerCanStep(s, w);
  }

  lemma JoiningCanStep(s: State)
    requires TokenInv(s) && s.lists != [] && s.main.Joining? && !AllGone(s)
    ensures exists w: nat :: WorkerCanStep(s, w)
  {
    var w :| 0 <= w < |s.workers| && s.workers[w].pc != Gone;
    CountAt(s.workers, w);
    assert At(s, w, s.workers[w].pc);
    assert WorkerCanStep(s, w);
  }

  /** No deadlock: whenever the main loop waits on an empty, open token channel some worker
      can step, and the same while it waits for the workers to leave; in every other state
      it can step itself until it stops. */
  lemma NoDeadlock(p: Params, actions: seq<Action>, s: State)
    requires p.alpha > 0 && Reaches(Start(p), actions, s)
    ensures s.main.Waiting? && s.tokens == 0 && !s.closed ==> exists w: nat :: WorkerCanStep(s, w)
    ensures s.main.Joining? && !AllGone(s) ==> exists w: nat :: WorkerCanStep(s, w)
    ensures !s.main.Stopped? ==>
      || Enabled(s, Enter) || Enabled(s, Next) || Enabled(s, Receive) || Enabled(s, Check) || Enabled(s, Join)
      || exists w: nat :: WorkerCanStep(s, w)
  {
    hide TokenInv, ResultInv, CountedInv, Reaches, WorkerCanStep;
    StartInv(p);
    InvOfRun(Start(p), actions, s);
    if s.main.Waiting? && s.tokens == 0 && !s.closed {
      WaitingCanStep(s);
    } else if s.main.Joining? && !AllGone(s) {
      JoiningCanStep(s);
    }
  }

  /** The result, in every interleaving: exactly the `wants` nodes closest to the target
      among the seeds and the first node of each new id that completed rounds returned, as read
      from the actions of the run. With distinct seeds these are all nodes ever seen, one per
      id. A lookup that was not cancelled stops with nothing delivered left out. */
  lemma ResultIsNearest(p: Params, actions: seq<Action>, s: State)
    requires p.alpha > 0 && Reaches(Start(p), actions, s)
    ensures var answered := Completed(actions, map[], []);
      && s.result == Nearest(p.seeds + Fresh(Ids(p.seeds), answered), p.target, p.wants)
      && (DistinctIds(p.seeds) ==>
            s.result == Nearest(Dedup(p.seeds + answered), p.target, p.wants) && DistinctIds(s.result))
      && (s.main == Stopped(false) || s.main.Entering? ==> answered == Delivered(actions, map[]))
  {
    AnswersAreDelivered(p, actions, s);
    hide TokenInv, WorkInv, PushAll, Nearest, NoFarther, Completed, Delivered;
    StartInv(p);
    InvOfRun(Start(p), actions, s);
    assert s.answered + [] == s.answered;
    if DistinctIds(p.seeds) {
      FreshConcat({}, p.seeds, s.answered);
      FreshOfDistinct({}, p.seeds);
      assert {} + Ids(p.seeds) == Ids(p.seeds);
      FreshKeeps({}, p.seeds + s.answered);
      NearestDistinct(Dedup(p.seeds + s.answered), p.target, p.wants);
    }
  }

  lemma {:induction false} ListsImprove(lists: seq<seq<Node>>, t: Id, r: nat, r': nat)
    requires forall i :: 0 <= i < |lists| - 1 ==> NoFarther(lists[i + 1], lists[i], t)
    requires r <= r' < |lists|
    ensures NoFarther(lists[r'], lists[r], t)
  {
    hide NoFarther;
    if r < r' {
      ListsImprove(lists, t, r, r' - 1);
      assert NoFarther(lists[r' - 1 + 1], lists[r' - 1], t);
      NoFartherTransitive(lists[r'], lists[r' - 1], lists[r], t);
    } else {
      NoFartherReflexive(lists[r], t);
    }
  }

  lemma NoFartherReflexive(a: seq<Node>, t: Id)
    ensures NoFarther(a, a, t)
  {
  }

  /** From round to round the list never gets shorter and no position of it gets farther
      from the target; the same for the result after the last round. */
  lemma RoundsImprove(p: Params, actions: seq<Action>, s: State, r: nat, r': nat)
    requires p.alpha > 0 && Reaches(Start(p), actions, s)
    requires r <= r' < |s.lists|
    ensures NoFarther(s.lists[r'], s.lists[r], p.target)
    ensures NoFarther(s.result, s.lists[r], p.target)
  {
    hide TokenInv, WorkInv, PushAll, Nearest, NoFarther;
    StartInv(p);
    InvOfRun(Start(p), actions, s);
    ListsImprove(s.lists, p.target, r, r');
    ListsImprove(s.lists, p.target, r, |s.lists| - 1);
    NoFartherTransitive(s.result, List(s), s.lists[r], p.target);
  }

  lemma QueriesPerRound(s: State)
    requires WorkInv(s) && ResultInv(s)
    ensures |s.queried| <= |s.lists| * s.p.wants
  {
    hide PushAll, Nearest, NoFarther, Fresh, QueryOk, Unqueried, Candidates, Dedup, Ids;
    if s.lists != [] {
      assert |s.lists[|s.lists| - 1]| <= s.p.wants;
      var n, k := |s.lists|, s.p.wants;
      assert (n - 1) * k + k == n * k;
    }
  }

  lemma MulMonotone(a: nat, b: nat, k: nat)
    requires a <= b
    ensures a * k <= b * k
  {
  }

  /** The work of a lookup: at most `depth` rounds and `depth * wants` queries, no id queried
      twice, and every queried node was in the list its round started with. */
  lemma WorkBound(p: Params, actions: seq<Action>, s: State)
    requires p.alpha > 0 && Reaches(Start(p), actions, s)
    ensures p.depth >= 0 ==> |s.lists| <= p.depth && |s.queried| <= p.depth * p.wants
    ensures forall q, q' :: 0 <= q < q' < |s.queried| ==> s.queried[q].node.id != s.queried[q'].node.id
    ensures forall q :: 0 <= q < |s.queried| ==>
      s.queried[q].round < |s.lists| && s.queried[q].node in s.lists[s.queried[q].round]
  {
    hide TokenInv, ResultInv, CountedInv, Reaches, Budget;
    StartInv(p);
    DepthOfRun(Start(p), actions, s);
    InvOfRun(Start(p), actions, s);
    QueriesPerRound(s);
    if p.depth >= 0 {
      MulMonotone(|s.lists|, p.depth, p.wants);
    }
    forall q | 0 <= q < |s.queried|
      ensures QueryOk(s, s.queried[q])
    {
    }
  }

  lemma {:induction false} DepthOfRun(s: State, actions: seq<Action>, r: State)
    requires Reaches(s, actions, r)
    ensures s.depth >= 0 ==> r.depth >= 0
    decreases actions
  {
    hide PushAll, Fresh, Ids;
    if actions != [] {
      DepthOfRun(Apply(s, actions[0]), actions[1..], r);
    }
  }

  // ---------- termination ----------

  function MainLeft(s: State): nat {
    match s.main
    case Head(i) => if i <= |List(s)| then 10 * (|List(s)| - i) + 3 else 0
    case Waiting(i) => if i <= |List(s)| then 10 * (|List(s)| - i) + 2 else 0
    case Holding(i, _) => if i <= |List(s)| then 10 * (|List(s)| - i) + 1 else 0
    case Joining => 2
    case Entering => 1
    case Stopped(_) => 0
  }

  /** What the rounds that have not started yet can cost. */
  function RoundsLeft(depth: int, wants: nat): int {
    depth * (10 * wants + 5)
  }

  /** An upper bound of the steps all parties together can still take. */
  function StepsLeft(s: State): int {
    RoundsLeft(s.depth, s.p.wants) + MainLeft(s) + AllLeft(s.workers)
  }

  lemma OneRound(depth: int, wants: nat)
    ensures RoundsLeft(depth, wants) == RoundsLeft(depth - 1, wants) + 10 * wants + 5
  {
    var c := 10 * wants + 5;
    assert (depth - 1) * c == depth * c - c;
  }

  lemma WorkerSteps(s: State, a: Action)
    requires !OfMain(a) && Enabled(s, a) && WorkInv(s)
    ensures StepsLeft(Apply(s, a)) < StepsLeft(s)
  {
    var w, x := WorkerStep(s, a);
    WorkChange(s, a);
    CountMoved(s.workers, w, x);
    hide Apply, Enabled, WorkInv, AllLeft, RoundsLeft;
  }

  lemma EnterSteps(s: State)
    requires Enabled(s, Enter) && |s.result| <= s.p.wants
    ensures StepsLeft(Apply(s, Enter)) < StepsLeft(s)
  {
    OneRound(s.depth, s.p.wants);
    hide RoundsLeft;
    NoWorkers();
    assert s.depth != 0 ==> List(Apply(s, Enter)) == s.result;
  }

  lemma CheckSteps(s: State)
    requires Enabled(s, Check)
    ensures StepsLeft(Apply(s, Check)) < StepsLeft(s)
  {
    hide RoundsLeft, AllLeft;
    CountAdded(s.workers, Worker(List(s)[s.main.i], Querying));
    assert List(Apply(s, Check)) == List(s);
  }

  lemma MainSteps(s: State, a: Action)
    requires OfMain(a) && !a.Enter? && !a.Check? && Enabled(s, a)
    requires s.main.Waiting? || s.main.Holding? || s.main.Head? ==> s.main.i <= |List(s)|
    ensures StepsLeft(Apply(s, a)) < StepsLeft(s)
  {
    hide PushAll, Fresh, Ids, RoundsLeft, AllLeft;
    assert List(Apply(s, a)) == List(s);
  }

  lemma StepsDecrease(s: State, a: Action)
    requires Enabled(s, a) && Inv(s)
    ensures StepsLeft(Apply(s, a)) < StepsLeft(s)
  {
    hide Apply, StepsLeft, TokenInv, CountedInv, QueryOk, Unqueried, PushAll, Fresh, Nearest, NoFarther;
    if a.Enter? {
      ListBound(s);
      EnterSteps(s);
    } else if a.Check? {
      CheckSteps(s);
    } else if OfMain(a) {
      MainSteps(s, a);
    } else {
      WorkerSteps(s, a);
    }
  }

  lemma {:induction false} RunLength(s: State, actions: seq<Action>, r: State)
    requires Inv(s) && s.depth >= 0 && Reaches(s, actions, r)
    ensures |actions| + StepsLeft(r) <= StepsLeft(s)
    ensures r.depth >= 0
    decreases actions
  {
    hide Inv, StepsLeft;
    if actions != [] {
      StepsDecrease(s, actions[0]);
      InvStep(s, actions[0]);
      DepthOfRun(s, [actions[0]], Apply(s, actions[0]));
      RunLength(Apply(s, actions[0]), actions[1..], r);
    }
  }

  /** Every run is finite, whatever the scheduler does and the queries answer. With
      `NoDeadlock`: a lookup whose queries all return stops. */
  lemma EveryRunEnds(p: Params, actions: seq<Action>, s: State)
    requires p.alpha > 0 && p.depth >= 0 && Reaches(Start(p), actions, s)
    ensures |actions| <= p.depth * (10 * p.wants + 5) + 1
  {
    hide Inv, Reaches;
    StartInv(p);
    RunLength(Start(p), actions, s);
    MulMonotone(0, s.depth, 10 * p.wants + 5);
  }
}
