/** Asking a node for its record: what the checker accepts, what the caller makes of the
    response, and what that means for the entry a revalidation updates. */
module EnrRequest {
  import opened Distance
  import opened Nodes
  import opened Awaiter
  import opened ReplyFate
  import M = TableModel
  import P = TableProperties
  import E = TableEffects

  const ENR_RESPONSE: nat := 6
  const EXPIRATION: int := 20_000_000_000

  /** A response: the token it echoes and, if the record in it is valid, the node it denotes. */
  datatype Response = Response(token: nat, record: Option<Node>)

  datatype Error = ErrAwaiter(outcome: Outcome) | ErrInvalidRecord | ErrWrongId | ErrRelay

  datatype Result = Ok(node: Node) | Err(error: Error)

  /** A request has its own token and keeps the response that echoed it. */
  datatype RecordState = RecordState(token: nat, kept: Option<Response>)

  /** The checker of all requests for records. */
  function RecordCheck(): (RecordState, Response) -> (RecordState, bool, bool) {
    (c: RecordState, r: Response) => if r.token == c.token then (c.(kept := Some(r)), true, true) else (c, false, false)
  }

  /** What the caller returns once the request is resolved. `relayable` is the relay check of
      an address against the one the request went to. */
  function Concluded(n: Node, outcome: Outcome, kept: Option<Response>, relayable: IP -> bool): Result
    requires outcome == Matched ==> kept.Some?
  {
    if outcome != Matched then Err(ErrAwaiter(outcome))
    else match kept.value.record
      case None => Err(ErrInvalidRecord)
      case Some(r) =>
        if r.id != n.id then Err(ErrWrongId)
        else if r.recordSeq < n.recordSeq then Ok(n)
        else if !relayable(r.ip) then Err(ErrRelay)
        else Ok(r)
  }

  // ---------- one response, any queue ----------

  function ResponseFrom(id: Id, ip: IP, r: Response): Reply<Response> {
    Reply(id, ip, ENR_RESPONSE, r)
  }

  /** What becomes of a request when a response from its endpoint is offered to it. */
  function Verdict(p: Pending<RecordState>, r: Response, now: int): Outcome {
    if now > p.req.expiration then DeadlinePassed else if r.token == p.st.token then Matched else InvalidResponse
  }

  /** A response consumes the earliest pending request for a record of its sender, whatever its
      token: it completes that request exactly if it carries its token, in time, and fails it
      otherwise. All other requests stay as they are. */
  lemma ResponseConsumes(q: seq<Pending<RecordState>>, id: Id, ip: IP, r: Response, now: int)
    ensures var reply := ResponseFrom(id, ip, r);
      var i, ws, rest := FirstMatch(q, reply), Waiting(q, id, ip, ENR_RESPONSE), Replied(q, reply, now, RecordCheck());
      if ws == [] then rest == q
      else
        && i < |q| && q[i] == ws[0]
        && Offer(q[i], r, now, RecordCheck()).1 == Some(Verdict(q[i], r, now))
        && (Verdict(q[i], r, now) == Matched ==> Offer(q[i], r, now, RecordCheck()).0.kept == Some(r))
        && rest == DropAt(q, i) && Waiting(rest, id, ip, ENR_RESPONSE) == ws[1..]
  {
    FirstWaiting(q, ResponseFrom(id, ip, r));
    hide Waiting, FirstMatch;
  }

  // ---------- one request, any run ----------

  lemma FoldOneShot(p: Pending<RecordState>, os: seq<Offering<Response>>)
    ensures Fold(p, os, RecordCheck()).1 == if os == [] then None else Some(Verdict(p, os[0].payload, os[0].at))
  {
  }

  /** In every run, whatever else is pending and comes in: a request for a record is offered at
      most one response, and is matched if and only if that first response offered to it
      carries its token and is in time. */
  lemma FirstResponseDecides(start: int, before: seq<(Event<RecordState, Response>, int)>, s: State<RecordState>,
                             events: seq<(Event<RecordState, Response>, int)>, r: State<RecordState>, p: Pending<RecordState>)
    requires Reaches(Start(start), before, RecordCheck(), s) && p in s.queue
    requires Reaches(s, events, RecordCheck(), r)
    ensures var os := OffersTo(s, events, p.ticket, RecordCheck());
      && |os| <= 1
      && (p.ticket in r.marked && r.marked[p.ticket].outcome == Matched
          <==> os != [] && os[0].at <= p.req.expiration && os[0].payload.token == p.st.token)
      && (os != [] ==> p.ticket in r.marked && r.marked[p.ticket].outcome == Verdict(p, os[0].payload, os[0].at))
  {
    hide Reaches, OffersTo, Conserved, OffersOk, OnTime, TimeOk, RecordCheck, Fold, Stands, Verdict;
    StartInv<RecordState>(start);
    InvOfRun(Start<RecordState>(start), before, RecordCheck(), s);
    InvOfRun(s, events, RecordCheck(), r);
    FateOfRequest(s, events, RecordCheck(), r, p);
    OpenBeforeLast(s, events, RecordCheck(), r, p);
    OneOffer(r, p, OffersTo(s, events, p.ticket, RecordCheck()));
  }

  /** What the fate of a request says when the first response settles it. */
  lemma OneOffer(r: State<RecordState>, p: Pending<RecordState>, os: seq<Offering<Response>>)
    requires Conserved(r)
    requires var (st, outcome) := Fold(p, os, RecordCheck());
      Stands(r, p, st, outcome) || (outcome.None? && Stands(r, p, st, Some(DeadlinePassed)))
    requires os != [] ==> Fold(p, os[..|os| - 1], RecordCheck()).1.None?
    ensures |os| <= 1
    ensures p.ticket in r.marked && r.marked[p.ticket].outcome == Matched
      <==> os != [] && os[0].at <= p.req.expiration && os[0].payload.token == p.st.token
    ensures os != [] ==> p.ticket in r.marked && r.marked[p.ticket].outcome == Verdict(p, os[0].payload, os[0].at)
  {
    hide RecordCheck, Fold, Conserved;
    FoldOneShot(p, os);
    if os != [] {
      FoldOneShot(p, os[..|os| - 1]);
    } else if p.ticket in r.marked && Stands(r, p, Fold(p, os, RecordCheck()).0, None) {
      StillOpen(r, p, Fold(p, os, RecordCheck()).0);
    }
  }

  lemma StillOpen(s: State<RecordState>, p: Pending<RecordState>, st: RecordState)
    requires Conserved(s) && p.(st := st) in s.queue
    ensures p.ticket !in s.marked
  {
    assert p.(st := st).ticket in Tickets(s.queue);
  }

  // ---------- two requests ----------

  function Asking(id: Id, ip: IP, token: nat, now: int): Event<RecordState, Response> {
    Arrive(Request(id, ip, ENR_RESPONSE, now + EXPIRATION), RecordState(token, None))
  }

  /** Two requests for the record of one node, tokens 7 and 8, and both right responses, in
      time but in the other order: each is offered to the wrong request, and both fail. */
  lemma CrossedResponses(start: int, id: Id, ip: IP, record: Option<Node>)
    ensures exists s ::
      && Reaches(Start(start), [(Asking(id, ip, 7, start), start), (Asking(id, ip, 8, start), start),
                                (Receive(ResponseFrom(id, ip, Response(8, record))), start),
                                (Receive(ResponseFrom(id, ip, Response(7, record))), start)], RecordCheck(), s)
      && s.queue == [] && s.marked.Keys == {0, 1}
      && s.marked[0].outcome == InvalidResponse && s.marked[1].outcome == InvalidResponse
  {
    var e1, e2 := Asking(id, ip, 7, start), Asking(id, ip, 8, start);
    var e3: Event<RecordState, Response> := Receive(ResponseFrom(id, ip, Response(8, record)));
    var e4: Event<RecordState, Response> := Receive(ResponseFrom(id, ip, Response(7, record)));
    var s0 := Start<RecordState>(start);
    var p1 := Pending(0, e1.req, start, e1.st);
    var p2 := Pending(1, e2.req, start, e2.st);
    var s1 := Apply(s0, e1, start, RecordCheck());
    assert s1.queue == [p1] && s1.lastTick == start && s1.current == UPPER / 2;
    var s2 := Apply(s1, e2, start, RecordCheck());
    assert s2.queue == [p1, p2];
    assert FirstMatch(s2.queue, e3.reply) == 0;
    var s3 := Apply(s2, e3, start, RecordCheck());
    assert DropAt(s2.queue, 0) == [p2];
    assert s3.queue == [p2] && s3.marked == map[0 := Marked(InvalidResponse, start)];
    assert FirstMatch(s3.queue, e4.reply) == 0;
    var s4 := Apply(s3, e4, start, RecordCheck());
    assert DropAt(s3.queue, 0) == [];
    assert s4.queue == [] && s4.marked == map[0 := Marked(InvalidResponse, start), 1 := Marked(InvalidResponse, start)];
    hide Apply;
    var x1, x2, x3, x4 := (e1, start), (e2, start), (e3, start), (e4, start);
    assert Reaches(s4, [], RecordCheck(), s4);
    assert [x4][1..] == [] && [x3, x4][1..] == [x4] && [x2, x3, x4][1..] == [x3, x4];
    assert [x1, x2, x3, x4][1..] == [x2, x3, x4];
    assert Reaches(s3, [x4], RecordCheck(), s4);
    assert Reaches(s2, [x3, x4], RecordCheck(), s4);
    assert Reaches(s1, [x2, x3, x4], RecordCheck(), s4);
    assert Reaches(s0, [x1, x2, x3, x4], RecordCheck(), s4);
  }

  // ---------- what the caller makes of it ----------

  /** A successful answer is a node with the id that was asked, never with an older record,
      and either the known node or one whose address may be relayed; it fails exactly when
      the request did, the record is invalid or of another node, or it is not older and its
      address must not be relayed. */
  lemma ConcludedMeaning(n: Node, outcome: Outcome, kept: Option<Response>, relayable: IP -> bool)
    requires outcome == Matched ==> kept.Some?
    ensures var r := Concluded(n, outcome, kept, relayable);
      && (r.Ok? ==> r.node.id == n.id && r.node.recordSeq >= n.recordSeq && (r.node == n || relayable(r.node.ip)))
      && (r.Ok? ==> r.node == if kept.value.record.value.recordSeq < n.recordSeq then n else kept.value.record.value)
      && (r.Ok? <==> && outcome == Matched && kept.value.record.Some? && kept.value.record.value.id == n.id
                     && (kept.value.record.value.recordSeq < n.recordSeq || relayable(kept.value.record.value.ip)))
  {
  }

  function Fetched(r: Result): Option<Node> {
    if r.Ok? then Some(r.node) else None
  }

  /** The record a revalidation with an answer goes on with is the fetched one exactly if the
      number of the pong is higher, the request is matched, and the record is valid, of the same
      node, not older and with an address that may be relayed; age and checks go on. */
  lemma RecordTakenIff(last: Node, number: nat, outcome: Outcome, kept: Option<Response>, relayable: IP -> bool)
    requires outcome == Matched ==> kept.Some?
    ensures var taken :=
        && number > last.recordSeq && outcome == Matched && kept.value.record.Some?
        && var r := kept.value.record.value;
           r.id == last.id && r.recordSeq >= last.recordSeq && relayable(r.ip);
      E.RecordKept(last, number, Fetched(Concluded(last, outcome, kept, relayable))) ==
        if taken then kept.value.record.value.(addedAt := last.addedAt, checks := last.checks + 1)
        else last.(checks := last.checks + 1)
  {
  }

  lemma IdsOfMoved(e: seq<Node>, record: Node)
    requires e != [] && record.id == e[|e| - 1].id
    ensures Ids([record] + e[..|e| - 1]) == Ids(e)
  {
    var n := |e| - 1;
    assert e == e[..n] + [e[n]];
    IdsConcat([record], e[..n]);
    IdsConcat(e[..n], [e[n]]);
    assert Ids([record]) == {record.id} && Ids([e[n]]) == {e[n].id} by {
      IdsAt([record], 0);
      IdsAt([e[n]], 0);
    }
  }

  /** The entries `now` are the entries `was`, or their last one moved to the front with the
      same id, a record that is not older, its age and one more check. */
  ghost predicate Refreshed(was: seq<Node>, now: seq<Node>) {
    && was != []
    && Ids(now) == Ids(was)
    && (now == was ||
        var last := was[|was| - 1];
        exists n: Node :: now == [n] + was[..|was| - 1] && n.id == last.id && n.recordSeq >= last.recordSeq
                          && n.checks == last.checks + 1 && n.addedAt == last.addedAt)
  }

  /** The record an answered revalidation goes on with. */
  lemma RecordToKeep(last: Node, remoteSeq: nat, outcome: Outcome, kept: Option<Response>, relayable: IP -> bool)
    returns (n: Node)
    requires outcome == Matched ==> kept.Some?
    ensures M.OutcomeOf(last, Some(remoteSeq), Fetched(Concluded(last, outcome, kept, relayable))) == M.Alive(n)
    ensures n.id == last.id && n.recordSeq >= last.recordSeq && n.checks == last.checks && n.addedAt == last.addedAt
  {
    ConcludedMeaning(last, outcome, kept, relayable);
    n := M.OutcomeOf(last, Some(remoteSeq), Fetched(Concluded(last, outcome, kept, relayable))).record;
  }

  lemma BumpRefreshes(c: M.Cell, lim: M.Limits, n: Node)
    requires c.b.entries != [] && DistinctIds(c.b.entries)
    requires var last := c.b.entries[|c.b.entries| - 1];
      n.id == last.id && n.recordSeq >= last.recordSeq && n.checks == last.checks + 1 && n.addedAt == last.addedAt
    ensures Refreshed(c.b.entries, M.Bump(c, lim, n).0.b.entries)
  {
    hide M.Bump, DistinctIds, Ids;
    P.AliveEffect(c, lim, n);
    IdsOfMoved(c.b.entries, n);
  }

  /** A revalidation whose ping was answered, with the record fetched as above, keeps the ids
      of the bucket: the picked entry stays, if its new endpoint does not fit, or comes to the
      front refreshed, as the same node with a record that is not older. */
  lemma RevalidationKeepsIds(t: M.Table, k: nat, last: Node, remoteSeq: nat, outcome: Outcome, kept: Option<Response>,
                             relayable: IP -> bool)
    requires M.TableInv(t) && k < |t.buckets| && t.buckets[k].entries != []
    requires last == t.buckets[k].entries[|t.buckets[k].entries| - 1]
    requires outcome == Matched ==> kept.Some?
    ensures var answered := M.OutcomeOf(last, Some(remoteSeq), Fetched(Concluded(last, outcome, kept, relayable)));
      answered.Alive? && Refreshed(t.buckets[k].entries, M.Revalidated(t, k, last, answered, 0).buckets[k].entries)
  {
    LastOfBucket(t, k);
    hide *;
    var n := RecordToKeep(last, remoteSeq, outcome, kept, relayable);
    var bumped := n.(checks := n.checks + 1);
    AnsweredBucket(t, k, last, n);
    BumpRefreshes(M.CellAt(t, k), t.limits, bumped);
  }

  lemma LastOfBucket(t: M.Table, k: nat)
    requires M.TableInv(t) && k < |t.buckets|
    ensures DistinctIds(M.CellAt(t, k).b.entries) && M.CellAt(t, k).b == t.buckets[k]
  {
    P.ShapeDistinct(t, k);
  }

  lemma AnsweredBucket(t: M.Table, k: nat, last: Node, n: Node)
    requires k < |t.buckets|
    ensures M.Revalidated(t, k, last, M.Alive(n), 0).buckets[k]
         == M.Bump(M.CellAt(t, k), t.limits, n.(checks := n.checks + 1)).0.b
  {
    hide M.Bump;
  }
}
