/** The response awaiter: a queue of pending requests, matched against replies and swept for
    passed deadlines by a ticker that adapts its period.

  `S` is the state a request's checker keeps between replies, `P` what a reply carries. */
module Awaiter {
  import opened Distance
  import opened Nodes

  // Durations in nanoseconds.
  const LOWER: int := 100_000_000
  const UPPER: int := 5_000_000_000

  datatype Request = Request(id: Id, ip: IP, expectedKind: nat, expiration: int)

  datatype Reply<P> = Reply(id: Id, ip: IP, kind: nat, payload: P)

  datatype Outcome = Matched | DeadlinePassed | InvalidResponse

  /** A request in the queue: its number in order of arrival, the request, when it arrived,
      and the state of its checker. */
  datatype Pending<S> = Pending(ticket: nat, req: Request, arrival: int, st: S)

  predicate Matches<P>(r: Request, reply: Reply<P>) {
    r.id == reply.id && r.expectedKind == reply.kind && r.ip == reply.ip
  }

  // ---------- replies ----------

  /** The earliest request the reply matches, or the length of the queue. */
  function FirstMatch<S, P>(q: seq<Pending<S>>, reply: Reply<P>): (i: nat)
    ensures i <= |q|
    ensures i < |q| ==> Matches(q[i].req, reply)
    ensures forall j :: 0 <= j < i ==> !Matches(q[j].req, reply)
  {
    if q == [] || Matches(q[0].req, reply) then 0 else 1 + FirstMatch(q[1..], reply)
  }

  /** What a matching reply does to a request: its new checker state and, if it is resolved,
      the outcome. */
  function Offer<S, P>(p: Pending<S>, payload: P, now: int, check: (S, P) -> (S, bool, bool)): (S, Option<Outcome>) {
    if now > p.req.expiration then (p.st, Some(DeadlinePassed))
    else
      var (st, ok, done) := check(p.st, payload);
      (st, if ok && done then Some(Matched) else if !ok && !done then Some(InvalidResponse) else None)
  }

  function DropAt<T>(s: seq<T>, i: nat): seq<T>
    requires i < |s|
  {
    s[..i] + s[i + 1..]
  }

  function Replied<S, P>(q: seq<Pending<S>>, reply: Reply<P>, now: int, check: (S, P) -> (S, bool, bool)): seq<Pending<S>> {
    var i := FirstMatch(q, reply);
    if i == |q| then q
    else
      var (st, outcome) := Offer(q[i], reply.payload, now, check);
      if outcome.Some? then DropAt(q, i) else q[i := q[i].(st := st)]
  }

  // ---------- deadlines ----------

  predicate Expired<S>(p: Pending<S>, now: int) {
    now >= p.req.expiration
  }

  function ExpiredPrefix<S>(q: seq<Pending<S>>, now: int): (k: nat)
    ensures k <= |q|
    ensures forall i :: 0 <= i < k ==> Expired(q[i], now)
    ensures k < |q| ==> !Expired(q[k], now)
  {
    if q == [] || !Expired(q[0], now) then 0 else 1 + ExpiredPrefix(q[1..], now)
  }

  /** The first request, which a sweep looks at last. */
  function Front<S>(q: seq<Pending<S>>): seq<Pending<S>>
    requires q != []
  {
    q[..1]
  }

  /** The expired requests from the second one on, up to the first live one. */
  function Gone<S>(q: seq<Pending<S>>, now: int): seq<Pending<S>>
    requires q != []
  {
    q[1..1 + ExpiredPrefix(q[1..], now)]
  }

  function Rest<S>(q: seq<Pending<S>>, now: int): seq<Pending<S>>
    requires q != []
  {
    q[1 + ExpiredPrefix(q[1..], now)..]
  }

  /** What a sweep keeps: it drops expired requests from the second one on until it meets a
      live one, then looks at the first. */
  function Swept<S>(q: seq<Pending<S>>, now: int): seq<Pending<S>> {
    if q == [] then []
    else if Expired(q[0], now) then Rest(q, now) else Front(q) + Rest(q, now)
  }

  function Dropped<S>(q: seq<Pending<S>>, now: int): seq<Pending<S>> {
    if q == [] then []
    else if Expired(q[0], now) then Gone(q, now) + Front(q) else Gone(q, now)
  }

  function Live<S>(q: seq<Pending<S>>, now: int): seq<Pending<S>> {
    if q == [] then [] else (if Expired(q[0], now) then [] else [q[0]]) + Live(q[1..], now)
  }

  /** Behind the first request, no expired one stands behind a live one. */
  ghost predicate ExpiredFirst<S>(q: seq<Pending<S>>, now: int) {
    forall i, j :: 1 <= i < j < |q| ==> Expired(q[j], now) ==> Expired(q[i], now)
  }

  ghost predicate OrderedByExpiration<S>(q: seq<Pending<S>>) {
    forall i, j :: 0 <= i < j < |q| ==> q[i].req.expiration <= q[j].req.expiration
  }

  /** A sweep of any queue drops expired requests only and loses none: what it keeps and
      what it drops make up the queue. */
  lemma SweepIsSafe<S>(q: seq<Pending<S>>, now: int)
    ensures forall p :: p in Dropped(q, now) ==> Expired(p, now)
    ensures multiset(Swept(q, now)) + multiset(Dropped(q, now)) == multiset(q)
    ensures |Swept(q, now)| + |Dropped(q, now)| == |q|
  {
    if q != [] {
      assert q == Front(q) + Gone(q, now) + Rest(q, now);
      assert Gone(q, now) == q[1..][..ExpiredPrefix(q[1..], now)];
    }
  }

  lemma {:induction false} LiveConcat<S>(a: seq<Pending<S>>, b: seq<Pending<S>>, now: int)
    ensures Live(a + b, now) == Live(a, now) + Live(b, now)
  {
    if a == [] {
      assert a + b == b;
    } else {
      assert (a + b)[1..] == a[1..] + b;
      LiveConcat(a[1..], b, now);
    }
  }

  lemma {:induction false} LiveOf<S>(q: seq<Pending<S>>, now: int)
    ensures (forall i :: 0 <= i < |q| ==> Expired(q[i], now)) ==> Live(q, now) == []
    ensures (forall i :: 0 <= i < |q| ==> !Expired(q[i], now)) <==> Live(q, now) == q
    ensures |Live(q, now)| <= |q|
  {
    if q != [] {
      LiveOf(q[1..], now);
    }
  }

  /** The live requests, in order. */
  lemma {:induction false} LivePicks<S(!new)>(q: seq<Pending<S>>, now: int)
    ensures Picks(q, Live(q, now), (p: Pending<S>) => if Expired(p, now) then None else Some(p))
  {
    var live := (p: Pending<S>) => if Expired(p, now) then None else Some(p);
    if q == [] {
      PicksNothing(q, Live(q, now), live);
    } else {
      LivePicks(q[1..], now);
      PicksCons(q, Live(q[1..], now), live);
    }
  }

  lemma TailIsLiveIff<S>(t: seq<Pending<S>>, now: int)
    ensures var rest := t[ExpiredPrefix(t, now)..];
      rest == Live(rest, now) <==> forall i, j :: 0 <= i < j < |t| ==> Expired(t[j], now) ==> Expired(t[i], now)
  {
    var k := ExpiredPrefix(t, now);
    var rest := t[k..];
    LiveOf(rest, now);
    assert forall i :: 0 <= i < |rest| ==> rest[i] == t[k + i];
    if j :| 0 <= j < |rest| && Expired(rest[j], now) {
      assert !Expired(t[k], now) && Expired(t[k + j], now);
    }
  }

  lemma Cancel<T>(f: seq<T>, a: seq<T>, b: seq<T>)
    requires f + a == f + b
    ensures a == b
  {
    assert a == (f + a)[|f|..] && b == (f + b)[|f|..];
  }

  lemma SweptIsLiveIff<S>(q: seq<Pending<S>>, now: int)
    requires q != []
    ensures Swept(q, now) == Live(q, now) <==> Rest(q, now) == Live(Rest(q, now), now)
  {
    assert q[1..] == Gone(q, now) + Rest(q, now);
    LiveConcat(Gone(q, now), Rest(q, now), now);
    assert Gone(q, now) == q[1..][..ExpiredPrefix(q[1..], now)];
    LiveOf(Gone(q, now), now);
    assert Live(q[1..], now) == Live(Rest(q, now), now);
    if !Expired(q[0], now) {
      assert Front(q) == [q[0]];
      if Swept(q, now) == Live(q, now) {
        Cancel(Front(q), Rest(q, now), Live(Rest(q, now), now));
      }
    }
  }

  /** A sweep drops every expired request if and only if, behind the first request, no
      expired one stands behind a live one. */
  lemma SweepIsCompleteIff<S>(q: seq<Pending<S>>, now: int)
    ensures Swept(q, now) == Live(q, now) <==> ExpiredFirst(q, now)
  {
    if q != [] {
      SweptIsLiveIff(q, now);
      hide Swept, Live;
      TailIsLiveIff(q[1..], now);
      assert q[1..][ExpiredPrefix(q[1..], now)..] == Rest(q, now);
      ExpiredFirstTail(q, now);
    }
  }

  lemma ExpiredFirstTail<S>(q: seq<Pending<S>>, now: int)
    requires q != []
    ensures ExpiredFirst(q, now) <==>
      forall i, j :: 0 <= i < j < |q[1..]| ==> Expired(q[1..][j], now) ==> Expired(q[1..][i], now)
  {
    if ExpiredFirst(q, now) {
      forall i, j | 0 <= i < j < |q[1..]| && Expired(q[1..][j], now)
        ensures Expired(q[1..][i], now)
      {
        assert Expired(q[j + 1], now) ==> Expired(q[i + 1], now);
      }
    } else {
      var i, j :| 1 <= i < j < |q| && Expired(q[j], now) && !Expired(q[i], now);
      assert q[1..][j - 1] == q[j] && q[1..][i - 1] == q[i];
    }
  }

  /** On a queue in order of expiration a sweep drops exactly the expired requests. */
  lemma SweepOfOrdered<S>(q: seq<Pending<S>>, now: int)
    requires OrderedByExpiration(q)
    ensures Swept(q, now) == Live(q, now)
  {
    SweepIsCompleteIff(q, now);
  }

  /** Out of order, an expired request can survive behind a live one. */
  lemma SweepOutOfOrder<S>(a: Pending<S>, b: Pending<S>, c: Pending<S>, now: int)
    requires !Expired(b, now) && Expired(c, now)
    ensures c in Swept([a, b, c], now)
  {
    var q := [a, b, c];
    assert q[1..] == [b, c];
    assert ExpiredPrefix(q[1..], now) == 0;
    assert q[1..][1] == c;
  }

  /** The next ticker period: longer after an idle sweep, shorter after a useful one. */
  function Adapted(current: int, count: nat): (next: int)
    ensures LOWER <= current <= UPPER ==> LOWER <= next <= UPPER
    ensures LOWER <= current <= UPPER && count == 0 ==> current <= next && (next == 2 * current || next == UPPER < 2 * current)
    ensures LOWER <= current <= UPPER && count > 0 ==>
      next <= current && (next == LOWER || 2 * current <= 3 * next < 2 * current + 3)
  {
    if count == 0 then
      if current * 2 > UPPER then UPPER else current * 2
    else if current - current / 3 < LOWER then LOWER else current - current / 3
  }

  // ---------- whole runs ----------

  datatype Event<S, P> =
    | Arrive(req: Request, st: S)
    | Receive(reply: Reply<P>)
    | Tick

  datatype Offered = Offered(ticket: nat, ok: bool, done: bool)

  datatype Accepted = Accepted(req: Request, arrival: int)

  /** What a request was marked with, and when. */
  datatype Marked = Marked(outcome: Outcome, at: int)

  datatype State<S> = State(
    queue: seq<Pending<S>>,
    current: int,
    lastTick: int,
    clock: int,
    accepted: seq<Accepted>,
    marked: map<nat, Marked>,
    markedTwice: bool,             // closing a closed channel would panic
    offers: seq<Offered>)

  function Start<S>(now: int): State<S> {
    State([], UPPER / 2, now, now, [], map[], false, [])
  }

  function Mark<S>(s: State<S>, ticket: nat, outcome: Outcome): State<S> {
    s.(marked := s.marked[ticket := Marked(outcome, s.clock)], markedTwice := s.markedTwice || ticket in s.marked)
  }

  function MarkAll<S>(s: State<S>, ps: seq<Pending<S>>, outcome: Outcome): State<S>
    decreases ps
  {
    if ps == [] then s else MarkAll(Mark(s, ps[0].ticket, outcome), ps[1..], outcome)
  }

  /** Time passes, and the ticker is never late: no event comes later than one period after
      the last tick. */
  predicate Punctual<S>(s: State<S>, now: int) {
    s.clock <= now <= s.lastTick + s.current
  }

  function Apply<S, P>(s: State<S>, e: Event<S, P>, now: int, check: (S, P) -> (S, bool, bool)): State<S> {
    var s0 := s.(clock := now);
    match e
    case Arrive(req, st) =>
      s0.(queue := s.queue + [Pending(|s.accepted|, req, now, st)], accepted := s.accepted + [Accepted(req, now)])
    case Receive(reply) =>
      var i := FirstMatch(s.queue, reply);
      if i == |s.queue| then s0
      else
        var p := s.queue[i];
        var s1 := s0.(queue := Replied(s.queue, reply, now, check),
                      offers := if now > p.req.expiration then s.offers
                                else var (_, ok, done) := check(p.st, reply.payload); s.offers + [Offered(p.ticket, ok, done)]);
        var outcome := Offer(p, reply.payload, now, check).1;
        if outcome.Some? then Mark(s1, p.ticket, outcome.value) else s1
    case Tick =>
      MarkAll(s0.(queue := Swept(s.queue, now), lastTick := now,
                  current := Adapted(s.current, |Dropped(s.queue, now)|)),
              Dropped(s.queue, now), DeadlinePassed)
  }

  ghost predicate Reaches<S(!new), P(!new)>(s: State<S>, events: seq<(Event<S, P>, int)>,
                                              check: (S, P) -> (S, bool, bool), r: State<S>)
    decreases events
  {
    if events == [] then r == s
    else Punctual(s, events[0].1) && Reaches(Apply(s, events[0].0, events[0].1, check), events[1..], check, r)
  }

  // ---------- conservation ----------

  ghost function Tickets<S>(q: seq<Pending<S>>): set<nat> {
    set p | p in q :: p.ticket
  }

  ghost predicate Increasing<S>(q: seq<Pending<S>>) {
    forall i, j :: 0 <= i < j < |q| ==> q[i].ticket < q[j].ticket
  }

  ghost predicate DistinctTickets<S>(q: seq<Pending<S>>) {
    forall i, j :: 0 <= i < j < |q| ==> q[i].ticket != q[j].ticket
  }

  /** The queue holds, in order of arrival, exactly the accepted requests that have not been
      marked. */
  ghost predicate Conserved<S>(s: State<S>) {
    && !s.markedTwice
    && Increasing(s.queue)
    && (forall p :: p in s.queue ==> p.ticket < |s.accepted| && s.accepted[p.ticket] == Accepted(p.req, p.arrival))
    && Tickets(s.queue) !! s.marked.Keys
    && (forall t: nat :: t < |s.accepted| <==> t in Tickets(s.queue) || t in s.marked)
  }

  /** A request is marked as matched exactly when its checker said (true, true), as invalid
      exactly when it said (false, false); one in the queue got neither answer. */
  ghost predicate OffersOk<S>(s: State<S>) {
    && (forall o :: o in s.offers ==> o.ticket < |s.accepted|)
    && (forall o :: o in s.offers && o.ok == o.done ==> o.ticket in s.marked)
    && (forall t :: t in s.marked ==> (s.marked[t].outcome == Matched <==> Offered(t, true, true) in s.offers))
    && (forall t :: t in s.marked ==> (s.marked[t].outcome == InvalidResponse <==> Offered(t, false, false) in s.offers))
  }

  /** No request is timed out before its expiration, and none is resolved by a reply after it. */
  ghost predicate OnTime<S>(s: State<S>) {
    forall t :: t in s.marked ==>
      && t < |s.accepted|
      && s.marked[t].at <= s.clock
      && (s.marked[t].outcome == DeadlinePassed ==> s.marked[t].at >= s.accepted[t].req.expiration)
      && (s.marked[t].outcome != DeadlinePassed ==> s.marked[t].at <= s.accepted[t].req.expiration)
  }

  lemma TicketAt<S>(q: seq<Pending<S>>, i: nat)
    requires i < |q|
    ensures q[i].ticket in Tickets(q)
  {
    assert q[i] in q;
  }

  lemma DropTickets<S>(q: seq<Pending<S>>, i: nat)
    requires Increasing(q) && i < |q|
    ensures Increasing(DropAt(q, i))
    ensures Tickets(DropAt(q, i)) == Tickets(q) - {q[i].ticket}
    ensures forall p :: p in DropAt(q, i) ==> p in q
  {
    var r := DropAt(q, i);
    assert forall j :: 0 <= j < |r| ==> r[j] == q[if j < i then j else j + 1];
    forall t | t in Tickets(q) - {q[i].ticket}
      ensures t in Tickets(r)
    {
      var j :| 0 <= j < |q| && q[j].ticket == t;
      TicketAt(r, if j < i then j else j - 1);
    }
  }

  lemma UpdateTickets<S>(q: seq<Pending<S>>, i: nat, st: S)
    requires Increasing(q) && i < |q|
    ensures var r := q[i := q[i].(st := st)];
      && Increasing(r) && Tickets(r) == Tickets(q)
      && forall p :: p in r ==> exists p' :: p' in q && p'.(st := p.st) == p
  {
    var r := q[i := q[i].(st := st)];
    forall t | t in Tickets(q)
      ensures t in Tickets(r)
    {
      var j :| 0 <= j < |q| && q[j].ticket == t;
      TicketAt(r, j);
    }
    forall p | p in r
      ensures exists p' :: p' in q && p'.(st := p.st) == p
    {
      var j :| 0 <= j < |r| && r[j] == p;
      assert q[j] in q && q[j].(st := p.st) == p;
    }
  }

  lemma ConcatTickets<S>(a: seq<Pending<S>>, b: seq<Pending<S>>)
    ensures Tickets(a + b) == Tickets(a) + Tickets(b)
  {
    assert forall p :: p in a + b <==> p in a || p in b;
  }

  lemma SliceTickets<S>(q: seq<Pending<S>>, a: nat, b: nat, c: nat, d: nat)
    requires Increasing(q) && a <= b <= c <= d <= |q|
    ensures Tickets(q[a..b]) !! Tickets(q[c..d])
    ensures Increasing(q[a..b])
    ensures Increasing(q[a..b] + q[c..d])
  {
    forall t | t in Tickets(q[a..b])
      ensures t !in Tickets(q[c..d])
    {
      var i :| 0 <= i < b - a && q[a..b][i].ticket == t;
      assert forall j :: 0 <= j < d - c ==> q[a + i].ticket < q[c..d][j].ticket;
    }
    var r := q[a..b] + q[c..d];
    forall i, j | 0 <= i < j < |r|
      ensures r[i].ticket < r[j].ticket
    {
      assert r[i] == q[if i < b - a then a + i else c + i - (b - a)];
      assert r[j] == q[if j < b - a then a + j else c + j - (b - a)];
    }
  }

  lemma SweepParts<S>(q: seq<Pending<S>>, now: int) returns (m: nat)
    requires q != []
    ensures 1 <= m <= |q|
    ensures Front(q) == q[0..1] && Gone(q, now) == q[1..m] && Rest(q, now) == q[m..|q|]
    ensures q == q[0..1] + (q[1..m] + q[m..|q|])
  {
    m := 1 + ExpiredPrefix(q[1..], now);
  }

  /** A sweep splits the queue: order is kept, and no request is both kept and dropped. */
  lemma SweepTickets<S>(q: seq<Pending<S>>, now: int)
    requires Increasing(q)
    ensures Increasing(Swept(q, now)) && DistinctTickets(Dropped(q, now))
    ensures Tickets(Swept(q, now)) !! Tickets(Dropped(q, now))
    ensures Tickets(Swept(q, now)) + Tickets(Dropped(q, now)) == Tickets(q)
  {
    hide DistinctTickets, Increasing, Tickets, Front, Gone, Rest;
    if q != [] {
      var m := SweepParts(q, now);
      var f, g, r := q[0..1], q[1..m], q[m..|q|];
      SliceTickets(q, 0, 1, 1, m);
      SliceTickets(q, 0, 1, m, |q|);
      SliceTickets(q, 1, m, m, |q|);
      SliceTickets(q, m, |q|, |q|, |q|);
      ConcatTickets(f, g + r);
      ConcatTickets(g, r);
      ConcatTickets(f, r);
      ConcatTickets(g, f);
      Rotated(f, g);
    } else {
      NoTickets(q);
    }
  }

  lemma NoTickets<S>(q: seq<Pending<S>>)
    requires q == []
    ensures Increasing(q) && DistinctTickets(q) && Tickets(q) == {}
  {
  }

  lemma Rotated<S>(f: seq<Pending<S>>, g: seq<Pending<S>>)
    requires Increasing(f + g) && |f| == 1
    ensures DistinctTickets(g + f) && DistinctTickets(g)
  {
    forall i, j | 0 <= i < j < |g + f|
      ensures (g + f)[i].ticket != (g + f)[j].ticket
    {
      assert (g + f)[i] == (f + g)[i + 1];
      assert (g + f)[j] == (f + g)[if j < |g| then j + 1 else 0];
    }
    assert forall i :: 0 <= i < |g| ==> g[i] == (f + g)[i + 1];
  }

  lemma SweptSubset<S>(q: seq<Pending<S>>, now: int, p: Pending<S>)
    requires p in Swept(q, now)
    ensures p in q
  {
    SweepIsSafe(q, now);
    assert p in multiset(Swept(q, now)) + multiset(Dropped(q, now));
  }

  lemma {:induction false} MarkAllMarks<S>(s: State<S>, ps: seq<Pending<S>>, outcome: Outcome)
    requires DistinctTickets(ps) && Tickets(ps) !! s.marked.Keys
    ensures MarkAll(s, ps, outcome) == s.(marked := MarkAll(s, ps, outcome).marked)
    ensures MarkAll(s, ps, outcome).marked.Keys == s.marked.Keys + Tickets(ps)
    ensures forall t :: t in MarkAll(s, ps, outcome).marked ==>
      MarkAll(s, ps, outcome).marked[t] == if t in s.marked then s.marked[t] else Marked(outcome, s.clock)
    decreases ps
  {
    if ps == [] {
      assert Tickets(ps) == {};
    } else {
      var s1, rest := Mark(s, ps[0].ticket, outcome), ps[1..];
      TicketAt(ps, 0);
      assert Tickets(ps) == {ps[0].ticket} + Tickets(rest) by {
        assert ps == [ps[0]] + rest;
      }
      forall t | t in Tickets(rest)
        ensures t != ps[0].ticket
      {
        var j :| 0 <= j < |rest| && rest[j].ticket == t;
        assert ps[j + 1] == rest[j];
      }
      MarkAllMarks(s1, rest, outcome);
    }
  }

  lemma ArriveStep<S, P>(s: State<S>, req: Request, st: S, now: int, check: (S, P) -> (S, bool, bool))
    requires Conserved(s) && OffersOk(s)
    ensures Conserved(Apply(s, Arrive(req, st), now, check)) && OffersOk(Apply(s, Arrive(req, st), now, check))
  {
    var p := Pending(|s.accepted|, req, now, st);
    var r := Apply(s, Arrive(req, st), now, check);
    assert Tickets(s.queue + [p]) == Tickets(s.queue) + {p.ticket} by {
      TicketAt(s.queue + [p], |s.queue|);
      assert forall x :: x in s.queue + [p] <==> x in s.queue || x == p;
    }
    assert |s.accepted| !in Tickets(s.queue) && |s.accepted| !in s.marked;
  }

  lemma ReceiveStep<S, P>(s: State<S>, reply: Reply<P>, now: int, check: (S, P) -> (S, bool, bool))
    requires Conserved(s)
    ensures Conserved(Apply(s, Receive(reply), now, check))
  {
    var i := FirstMatch(s.queue, reply);
    if i < |s.queue| {
      var p := s.queue[i];
      TicketAt(s.queue, i);
      DropTickets(s.queue, i);
      UpdateTickets(s.queue, i, Offer(p, reply.payload, now, check).0);
    }
  }

  lemma ReceiveOffers<S, P>(s: State<S>, reply: Reply<P>, now: int, check: (S, P) -> (S, bool, bool))
    requires Conserved(s) && OffersOk(s)
    ensures OffersOk(Apply(s, Receive(reply), now, check))
  {
    var i := FirstMatch(s.queue, reply);
    if i < |s.queue| {
      var p := s.queue[i];
      assert p in s.queue;
      TicketAt(s.queue, i);
      assert p.ticket !in s.marked;
    }
  }

  /** Dropping requests from the queue and marking exactly them keeps the books in order. */
  lemma ConservedAfter<S>(s: State<S>, r: State<S>, gone: set<nat>)
    requires Conserved(s)
    requires r.accepted == s.accepted && !r.markedTwice && Increasing(r.queue)
    requires forall p :: p in r.queue ==> p in s.queue
    requires Tickets(r.queue) !! gone && Tickets(r.queue) + gone == Tickets(s.queue)
    requires r.marked.Keys == s.marked.Keys + gone
    ensures Conserved(r)
  {
    hide Increasing, Tickets;
    assert forall t :: t in s.marked.Keys <==> t in s.marked;
    assert forall t :: t in r.marked.Keys <==> t in r.marked;
  }

  lemma TickMarks<S>(s: State<S>, now: int) returns (r: State<S>)
    requires Conserved(s)
    ensures r == MarkAll(s.(queue := Swept(s.queue, now)), Dropped(s.queue, now), DeadlinePassed)
    ensures r == s.(queue := Swept(s.queue, now), marked := r.marked)
    ensures r.marked.Keys == s.marked.Keys + Tickets(Dropped(s.queue, now))
    ensures forall t :: t in r.marked ==> r.marked[t] == if t in s.marked then s.marked[t] else Marked(DeadlinePassed, s.clock)
  {
    hide Swept, Dropped, Increasing, DistinctTickets, Tickets, MarkAll;
    SweepTickets(s.queue, now);
    var s1 := s.(queue := Swept(s.queue, now));
    assert Tickets(Dropped(s.queue, now)) <= Tickets(s.queue);
    MarkAllMarks(s1, Dropped(s.queue, now), DeadlinePassed);
    r := MarkAll(s1, Dropped(s.queue, now), DeadlinePassed);
  }

  lemma TickConserved<S>(s: State<S>, now: int)
    requires Conserved(s)
    ensures Conserved(MarkAll(s.(queue := Swept(s.queue, now)), Dropped(s.queue, now), DeadlinePassed))
  {
    assert !s.markedTwice && Increasing(s.queue);
    hide Swept, Dropped, Increasing, DistinctTickets, Tickets, MarkAll, Conserved;
    SweepTickets(s.queue, now);
    forall p | p in Swept(s.queue, now)
      ensures p in s.queue
    {
      SweptSubset(s.queue, now, p);
    }
    var r := TickMarks(s, now);
    ConservedAfter(s, r, Tickets(Dropped(s.queue, now)));
  }

  lemma TickOffers<S>(s: State<S>, now: int)
    requires Conserved(s) && OffersOk(s)
    ensures OffersOk(MarkAll(s.(queue := Swept(s.queue, now)), Dropped(s.queue, now), DeadlinePassed))
  {
    hide Swept, Dropped, Increasing, DistinctTickets, Tickets, MarkAll, Conserved;
    var r := TickMarks(s, now);
    assert forall t :: t in s.marked.Keys <==> t in s.marked;
    assert forall t :: t in r.marked.Keys <==> t in r.marked;
    assert forall t :: t in s.marked ==> t in r.marked;
  }

  lemma ReceiveOnTime<S, P>(s: State<S>, reply: Reply<P>, now: int, check: (S, P) -> (S, bool, bool))
    requires Conserved(s) && OnTime(s) && s.clock <= now
    ensures OnTime(Apply(s, Receive(reply), now, check))
  {
    hide Increasing, Tickets, Replied;
    var i := FirstMatch(s.queue, reply);
    if i < |s.queue| {
      assert s.queue[i] in s.queue;
    }
  }

  lemma DroppedExpired<S>(q: seq<Pending<S>>, now: int, p: Pending<S>)
    requires p in Dropped(q, now)
    ensures p in q && Expired(p, now)
  {
    SweepIsSafe(q, now);
    hide Dropped, Swept;
    assert p in multiset(Swept(q, now)) + multiset(Dropped(q, now));
  }

  lemma DroppedTicket<S>(s: State<S>, now: int, t: nat)
    requires Conserved(s) && t in Tickets(Dropped(s.queue, now))
    ensures t < |s.accepted| && now >= s.accepted[t].req.expiration
  {
    hide Dropped, Increasing;
    var p :| p in Dropped(s.queue, now) && p.ticket == t;
    DroppedExpired(s.queue, now, p);
  }

  lemma TickOnTime<S>(s: State<S>, now: int)
    requires Conserved(s) && OnTime(s) && s.clock == now
    ensures OnTime(MarkAll(s.(queue := Swept(s.queue, now)), Dropped(s.queue, now), DeadlinePassed))
  {
    hide Swept, Dropped, Tickets, MarkAll, Conserved;
    var r := TickMarks(s, now);
    forall t | t in r.marked && t !in s.marked
      ensures t < |s.accepted| && now >= s.accepted[t].req.expiration
    {
      assert t in r.marked.Keys && t !in s.marked.Keys;
      DroppedTicket(s, now, t);
    }
  }

  // ---------- lateness ----------

  /** A request in the queue arrived after the last tick, or that tick met a live request
      that was accepted no later than it. */
  ghost predicate Covered<S>(s: State<S>, p: Pending<S>, t: nat) {
    s.lastTick <= p.arrival || (t <= p.ticket && t < |s.accepted| && s.accepted[t].req.expiration > s.lastTick)
  }

  ghost predicate TimeOk<S>(s: State<S>) {
    && LOWER <= s.current <= UPPER
    && s.lastTick <= s.clock <= s.lastTick + s.current
    && forall p :: p in s.queue ==> exists t: nat :: Covered(s, p, t)
  }

  lemma SweptCovered<S>(q: seq<Pending<S>>, now: int, p: Pending<S>) returns (f: Pending<S>)
    requires Increasing(q) && p in Swept(q, now)
    ensures f in q && !Expired(f, now) && f.ticket <= p.ticket
  {
    if !Expired(q[0], now) && p == q[0] {
      f := q[0];
    } else {
      var k := ExpiredPrefix(q[1..], now);
      var i :| 0 <= i < |Rest(q, now)| && Rest(q, now)[i] == p;
      f := q[1 + k];
      assert q[1 + k + i] == p && q[1..][k] == f;
    }
  }

  lemma TickTime<S>(s: State<S>, now: int)
    requires Conserved(s) && TimeOk(s) && Punctual(s, now)
    ensures forall p :: p in Swept(s.queue, now) ==>
      exists t: nat :: t <= p.ticket && t < |s.accepted| && s.accepted[t].req.expiration > now
  {
    forall p | p in Swept(s.queue, now)
      ensures exists t: nat :: t <= p.ticket && t < |s.accepted| && s.accepted[t].req.expiration > now
    {
      var f := SweptCovered(s.queue, now, p);
      assert s.accepted[f.ticket].req.expiration > now;
    }
  }

  lemma MarkAllFrame<S>(s: State<S>, ps: seq<Pending<S>>, outcome: Outcome)
    ensures var r := MarkAll(s, ps, outcome);
      && r.queue == s.queue && r.current == s.current && r.lastTick == s.lastTick && r.clock == s.clock
      && r.accepted == s.accepted && r.offers == s.offers
    decreases ps
  {
    if ps != [] {
      MarkAllFrame(Mark(s, ps[0].ticket, outcome), ps[1..], outcome);
    }
  }

  lemma RepliedCovered<S, P>(q: seq<Pending<S>>, reply: Reply<P>, now: int, check: (S, P) -> (S, bool, bool), p: Pending<S>)
    requires p in Replied(q, reply, now, check)
    ensures exists p' :: p' in q && p'.(st := p.st) == p
  {
    var r := Replied(q, reply, now, check);
    var i := FirstMatch(q, reply);
    var j :| 0 <= j < |r| && r[j] == p;
    if i == |q| || !Offer(q[i], reply.payload, now, check).1.Some? {
      assert q[j] in q && q[j].(st := p.st) == p;
    } else {
      assert p == q[if j < i then j else j + 1];
      assert p in q && p.(st := p.st) == p;
    }
  }

  lemma TimeStep<S(!new), P(!new)>(s: State<S>, e: Event<S, P>, now: int, check: (S, P) -> (S, bool, bool))
    requires Conserved(s) && TimeOk(s) && Punctual(s, now)
    ensures TimeOk(Apply(s, e, now, check))
  {
    var r := Apply(s, e, now, check);
    hide Increasing, Tickets;
    match e {
      case Arrive(req, st) =>
        forall p | p in r.queue
          ensures exists t: nat :: Covered(r, p, t)
        {
          if p in s.queue {
            var t: nat :| Covered(s, p, t);
            assert Covered(r, p, t);
          } else {
            assert Covered(r, p, 0);
          }
        }
      case Receive(reply) =>
        forall p | p in r.queue
          ensures exists t: nat :: Covered(r, p, t)
        {
          RepliedCovered(s.queue, reply, now, check, p);
          var p' :| p' in s.queue && p'.(st := p.st) == p;
          var t: nat :| Covered(s, p', t);
          assert Covered(r, p, t);
        }
      case Tick =>
        TickTime(s, now);
        MarkAllFrame(s.(clock := now, queue := Swept(s.queue, now), lastTick := now,
                        current := Adapted(s.current, |Dropped(s.queue, now)|)),
                     Dropped(s.queue, now), DeadlinePassed);
        forall p | p in r.queue
          ensures exists t: nat :: Covered(r, p, t)
        {
          var t: nat :| t <= p.ticket && t < |s.accepted| && s.accepted[t].req.expiration > now;
          assert Covered(r, p, t);
        }
    }
  }

  // ---------- all of it, in every run ----------

  ghost predicate Inv<S>(s: State<S>) {
    Conserved(s) && OffersOk(s) && OnTime(s) && TimeOk(s)
  }

  lemma InvStep<S(!new), P(!new)>(s: State<S>, e: Event<S, P>, now: int, check: (S, P) -> (S, bool, bool))
    requires Inv(s) && Punctual(s, now)
    ensures Inv(Apply(s, e, now, check))
    ensures s.accepted <= Apply(s, e, now, check).accepted
  {
    hide TimeOk, Conserved, OffersOk, OnTime, Swept, Dropped;
    TimeStep(s, e, now, check);
    match e {
      case Arrive(req, st) =>
        ArriveStep(s, req, st, now, check);
        ArriveOnTime(s, req, st, now, check);
      case Receive(reply) =>
        ReceiveStep(s, reply, now, check);
        ReceiveOffers(s, reply, now, check);
        ReceiveOnTime(s, reply, now, check);
      case Tick => TickAll(s, now, check);
    }
    AcceptedGrows(s, e, now, check);
  }

  lemma ArriveOnTime<S, P>(s: State<S>, req: Request, st: S, now: int, check: (S, P) -> (S, bool, bool))
    requires OnTime(s) && s.clock <= now
    ensures OnTime(Apply(s, Arrive(req, st), now, check))
  {
  }

  lemma AcceptedGrows<S, P>(s: State<S>, e: Event<S, P>, now: int, check: (S, P) -> (S, bool, bool))
    ensures s.accepted <= Apply(s, e, now, check).accepted
  {
    hide Swept, Dropped;
    if e.Tick? {
      MarkAllFrame(s.(clock := now, queue := Swept(s.queue, now), lastTick := now,
                      current := Adapted(s.current, |Dropped(s.queue, now)|)),
                   Dropped(s.queue, now), DeadlinePassed);
    }
  }

  lemma TickAll<S, P>(s: State<S>, now: int, check: (S, P) -> (S, bool, bool))
    requires Conserved(s) && OffersOk(s) && OnTime(s) && s.clock <= now
    ensures var r := Apply(s, Tick, now, check); Conserved(r) && OffersOk(r) && OnTime(r)
  {
    hide Swept, Dropped, Tickets, Increasing, MarkAll;
    var s1 := s.(clock := now, lastTick := now, current := Adapted(s.current, |Dropped(s.queue, now)|));
    TickConserved(s1, now);
    TickOffers(s1, now);
    TickOnTime(s1, now);
  }

  lemma {:induction false} InvOfRun<S(!new), P(!new)>(s: State<S>, events: seq<(Event<S, P>, int)>,
                                                      check: (S, P) -> (S, bool, bool), r: State<S>)
    requires Inv(s) && Reaches(s, events, check, r)
    ensures Inv(r)
    decreases events
  {
    hide Inv;
    if events != [] {
      InvStep(s, events[0].0, events[0].1, check);
      InvOfRun(Apply(s, events[0].0, events[0].1, check), events[1..], check, r);
    }
  }

  lemma StartInv<S>(now: int)
    ensures Inv(Start<S>(now))
  {
    assert Tickets<S>([]) == {};
  }

  /** Over every run: the accepted requests are the ones in the queue, in order of arrival,
      and the marked ones, and these two do not overlap; no request is marked twice; one is
      marked as matched exactly when its checker said (true, true), and as invalid exactly
      when it said (false, false); it is timed out only at or after its expiration, and
      resolved by a reply only up to it. */
  lemma RequestsConserved<S(!new), P(!new)>(now: int, events: seq<(Event<S, P>, int)>,
                                            check: (S, P) -> (S, bool, bool), s: State<S>)
    requires Reaches(Start(now), events, check, s)
    ensures Conserved(s) && OffersOk(s) && OnTime(s)
  {
    StartInv<S>(now);
    InvOfRun(Start<S>(now), events, check, s);
  }

  /** The requests of a run, read from its events. */
  function Arrivals<S, P>(events: seq<(Event<S, P>, int)>): seq<Accepted> {
    if events == [] then []
    else (if events[0].0.Arrive? then [Accepted(events[0].0.req, events[0].1)] else []) + Arrivals(events[1..])
  }

  lemma AcceptedStep<S, P>(s: State<S>, e: Event<S, P>, now: int, check: (S, P) -> (S, bool, bool))
    ensures Apply(s, e, now, check).accepted == s.accepted + if e.Arrive? then [Accepted(e.req, now)] else []
  {
    hide Swept, Dropped, Replied, Offer;
    assert s.accepted + [] == s.accepted;
    if e.Tick? {
      MarkAllFrame(s.(clock := now, queue := Swept(s.queue, now), lastTick := now,
                      current := Adapted(s.current, |Dropped(s.queue, now)|)),
                   Dropped(s.queue, now), DeadlinePassed);
    }
  }

  lemma {:induction false} AcceptedFrom<S(!new), P(!new)>(s: State<S>, events: seq<(Event<S, P>, int)>, check: (S, P) -> (S, bool, bool),
                                                          r: State<S>)
    requires Reaches(s, events, check, r)
    ensures r.accepted == s.accepted + Arrivals(events)
    decreases events
  {
    hide Apply;
    if events == [] {
      assert s.accepted + [] == s.accepted;
    } else {
      var (e, now) := events[0];
      AcceptedStep(s, e, now, check);
      AcceptedFrom(Apply(s, e, now, check), events[1..], check, r);
      var x := if e.Arrive? then [Accepted(e.req, now)] else [];
      assert s.accepted + x + Arrivals(events[1..]) == s.accepted + (x + Arrivals(events[1..]));
    }
  }

  /** In every run the accepted requests are exactly those that came, in order. */
  lemma EverybodyAccepted<S(!new), P(!new)>(now: int, events: seq<(Event<S, P>, int)>, check: (S, P) -> (S, bool, bool), s: State<S>)
    requires Reaches(Start(now), events, check, s)
    ensures s.accepted == Arrivals(events)
  {
    AcceptedFrom(Start<S>(now), events, check, s);
  }

  /** The ticker period stays within its bounds in every run, and no tick is overdue. */
  lemma PeriodInBounds<S(!new), P(!new)>(now: int, events: seq<(Event<S, P>, int)>, check: (S, P) -> (S, bool, bool), s: State<S>)
    requires Reaches(Start(now), events, check, s)
    ensures LOWER <= s.current <= UPPER
    ensures s.lastTick <= s.clock <= s.lastTick + s.current
  {
    StartInv<S>(now);
    InvOfRun(Start<S>(now), events, check, s);
  }

  function Max(a: int, b: int): int {
    if a < b then b else a
  }

  /** No request stays in the queue more than `UPPER` past its arrival or past the latest
      expiration among the requests accepted up to it, whichever is later, at any time before
      the next tick is due. */
  lemma BoundedLateness<S(!new), P(!new)>(start: int, events: seq<(Event<S, P>, int)>, check: (S, P) -> (S, bool, bool),
                                        s: State<S>, p: Pending<S>, now: int)
    requires Reaches(Start(start), events, check, s)
    requires p in s.queue && Punctual(s, now)
    ensures exists t: nat :: t <= p.ticket && t < |s.accepted| && now <= Max(s.accepted[t].req.expiration, p.arrival) + UPPER
  {
    StartInv<S>(start);
    InvOfRun(Start<S>(start), events, check, s);
    var t: nat :| Covered(s, p, t);
    if s.lastTick <= p.arrival {
      assert now <= Max(s.accepted[p.ticket].req.expiration, p.arrival) + UPPER;
    } else {
      assert now <= Max(s.accepted[t].req.expiration, p.arrival) + UPPER;
    }
  }

  /** If requests arrive in order of expiration, none stays more than `UPPER` past the later
      of its own expiration and its arrival. */
  lemma BoundedLatenessOrdered<S(!new), P(!new)>(start: int, events: seq<(Event<S, P>, int)>, check: (S, P) -> (S, bool, bool),
                                               s: State<S>, p: Pending<S>, now: int)
    requires Reaches(Start(start), events, check, s)
    requires forall i, j :: 0 <= i < j < |s.accepted| ==> s.accepted[i].req.expiration <= s.accepted[j].req.expiration
    requires p in s.queue && Punctual(s, now)
    ensures now <= Max(p.req.expiration, p.arrival) + UPPER
  {
    BoundedLateness(start, events, check, s, p, now);
    RequestsConserved(start, events, check, s);
    var t: nat :| t <= p.ticket && t < |s.accepted| && now <= Max(s.accepted[t].req.expiration, p.arrival) + UPPER;
    assert s.accepted[p.ticket].req == p.req;
  }

  /** A reply concerns at most one request, the earliest it matches: the others stay as they
      are, and that one leaves the queue if it is resolved and only takes a new checker state
      otherwise. */
  lemma ReplyTouchesOne<S, P>(q: seq<Pending<S>>, reply: Reply<P>, now: int, check: (S, P) -> (S, bool, bool))
    ensures var i, r := FirstMatch(q, reply), Replied(q, reply, now, check);
      if i == |q| then r == q && forall j :: 0 <= j < |q| ==> !Matches(q[j].req, reply)
      else
        && r[..i] == q[..i]
        && (Offer(q[i], reply.payload, now, check).1.Some? ==> r[i..] == q[i + 1..])
        && (Offer(q[i], reply.payload, now, check).1.None? ==>
              r[i + 1..] == q[i + 1..] && r[i].ticket == q[i].ticket && r[i].req == q[i].req)
  {
  }

  /** Where the first part of a sweep stops determines the sweep. */
  lemma SweepMeaning<S>(q: seq<Pending<S>>, counter: nat, now: int)
    requires counter < |q|
    requires forall j :: 1 <= j <= counter ==> Expired(q[j], now)
    requires 1 + counter < |q| ==> !Expired(q[1 + counter], now)
    ensures Swept(q, now) == if Expired(q[0], now) then q[1 + counter..] else q[..1] + q[1 + counter..]
    ensures |Dropped(q, now)| == if Expired(q[0], now) then counter + 1 else counter
  {
    var k := ExpiredPrefix(q[1..], now);
    assert k < |q[1..]| ==> q[1..][k] == q[1 + k];
    assert k == counter;
  }

  lemma SkipSecond<T>(was: seq<T>, q: seq<T>, k: nat)
    requires 1 + k < |was| && q == was[..1] + was[1 + k..]
    ensures q[..1] + q[2..] == was[..1] + was[2 + k..]
  {
  }

  // ---------- the objects ----------

  class AwaitableRequest<S> {
    const pending: Pending<S>      // number, request, arrival and first checker state
    var st: S
    var outcome: Option<Outcome>   // the error field; a match leaves no error
    var closed: bool               // whether the channel was closed

    constructor (pending: Pending<S>)
      ensures this.pending == pending && st == pending.st && !closed
    {
      this.pending := pending;
      st := pending.st;
      outcome := None;
      closed := false;
    }

    function View(): Pending<S>
      reads this
    {
      pending.(st := st)
    }

    /** Records the outcome and wakes the caller; closing twice would panic. */
    method Mark(o: Outcome)
      requires !closed
      modifies this`outcome, this`closed
      ensures closed && outcome == Some(o)
    {
      outcome := Some(o);
      closed := true;
    }
  }

  class Awaiter<S, P> {
    var queue: seq<AwaitableRequest<S>>
    var current: int
    const checker: (S, P) -> (S, bool, bool)

    ghost predicate Valid()
      reads this, queue
    {
      && (forall i, j :: 0 <= i < j < |queue| ==> queue[i] != queue[j])
      && (forall i :: 0 <= i < |queue| ==> !queue[i].closed)
    }

    ghost function View(): (r: seq<Pending<S>>)
      reads this, queue
      ensures |r| == |queue|
      ensures forall i :: 0 <= i < |queue| ==> r[i] == queue[i].View()
    {
      seq(|queue|, i requires 0 <= i < |queue| reads this, queue => queue[i].View())
    }

    constructor (checker: (S, P) -> (S, bool, bool))
      ensures Valid() && queue == [] && current == UPPER / 2 && this.checker == checker
    {
      this.checker := checker;
      queue := [];
      current := UPPER / 2;
    }

    /** A new request goes to the end of the queue. */
    method HandleRequest(a: AwaitableRequest<S>)
      requires Valid() && a !in queue && !a.closed
      modifies this`queue
      ensures Valid() && queue == old(queue) + [a]
      ensures View() == old(View()) + [a.View()]
    {
      queue := queue + [a];
    }

    /** Takes request `i` out of the queue and marks it. */
    method Resolve(i: nat, o: Outcome)
      requires Valid() && i < |queue|
      modifies this`queue, queue[i]
      ensures Valid() && queue == DropAt(old(queue), i)
      ensures View() == DropAt(old(View()), i)
      ensures old(queue)[i].st == old(queue[i].st)
      ensures old(queue)[i] !in queue && old(queue)[i].closed && old(queue)[i].outcome == Some(o)
    {
      var a := queue[i];
      queue := queue[..i] + queue[i + 1..];
      a.Mark(o);
    }

    /** A reply is offered to the earliest request it matches. A request is marked exactly
        when it leaves the queue. */
    method HandleReply(reply: Reply<P>, now: int)
      requires Valid()
      modifies this`queue, queue
      ensures Valid()
      ensures View() == Replied(old(View()), reply, now, checker)
      ensures forall a :: a in old(queue) ==> (a.closed <==> a !in queue)
      ensures forall a :: a in old(queue) && a.closed ==>
        a.outcome == Offer(old(a.View()), reply.payload, now, checker).1
    {
      var i := 0;
      while i < |queue|
        invariant 0 <= i <= |queue| && queue == old(queue)
        invariant forall j :: 0 <= j < i ==> !Matches(queue[j].pending.req, reply)
      {
        var req := queue[i].pending.req;
        if req.id != reply.id || req.expectedKind != reply.kind || req.ip != reply.ip {
          i := i + 1;
          continue;
        }
        break;
      }
      assert FirstMatch(View(), reply) == i;
      if i == |queue| {
        return;
      }
      var a := queue[i];
      assert forall j :: 0 <= j < |queue| ==> queue[j] == a ==> j == i;
      if now > a.pending.req.expiration {
        Resolve(i, DeadlinePassed);
        return;
      }
      var (st, ok, done) := checker(a.st, reply.payload);
      a.st := st;
      assert View() == old(View())[i := old(View())[i].(st := st)];
      if done && ok {
        Resolve(i, Matched);
      } else if !ok && !done {
        Resolve(i, InvalidResponse);
      }
    }

    /** The requests of `was` numbered from `lo` up to `hi` are marked with a passed deadline,
        the others are not marked. */
    ghost predicate MarkedBetween(was: seq<AwaitableRequest<S>>, lo: nat, hi: nat)
      requires hi <= |was|
      reads was
    {
      && (forall j :: lo <= j < hi ==> was[j].closed && was[j].outcome == Some(DeadlinePassed))
      && (forall j :: 0 <= j < |was| && !(lo <= j < hi) ==> !was[j].closed)
    }

    /** The requests of `was` are different ones and read as `q`. */
    ghost predicate Viewed(was: seq<AwaitableRequest<S>>, q: seq<Pending<S>>)
      reads was
    {
      && |was| == |q|
      && (forall i, j :: 0 <= i < j < |was| ==> was[i] != was[j])
      && (forall i :: 0 <= i < |was| ==> was[i].View() == q[i])
    }

    /** Takes the second request out of the queue as timed out. */
    method DropSecond()
      requires |queue| > 1 && !queue[1].closed
      modifies this`queue, queue[1]
      ensures queue == old(queue)[..1] + old(queue)[2..]
      ensures old(queue)[1].st == old(queue[1].st)
      ensures old(queue)[1].closed && old(queue)[1].outcome == Some(DeadlinePassed)
    {
      var el := queue[1];
      queue := queue[..1] + queue[2..];
      el.Mark(DeadlinePassed);
    }

    /** The first part of a sweep: from the second request on, up to the first live one. */
    method SweepBehindFront(now: int) returns (counter: nat)
      requires Valid() && |queue| > 0
      modifies this`queue, queue
      ensures counter < |old(queue)| && queue == old(queue)[..1] + old(queue)[1 + counter..]
      ensures forall j :: 1 <= j <= counter ==> Expired(old(View())[j], now)
      ensures 1 + counter < |old(queue)| ==> !Expired(old(View())[1 + counter], now)
      ensures MarkedBetween(old(queue), 1, 1 + counter)
      ensures Viewed(old(queue), old(View()))
    {
      counter := 0;
      ghost var was := queue;
      while |queue| > 1
        invariant counter < |was| && queue == was[..1] + was[1 + counter..]
        invariant forall j :: 1 <= j <= counter ==> now >= was[j].pending.req.expiration
        invariant MarkedBetween(was, 1, 1 + counter)
        invariant forall j :: 0 <= j < |was| ==> was[j].st == old(was[j].st)
        decreases |queue|
      {
        var el := queue[1];
        assert el == was[1 + counter];
        if now >= el.pending.req.expiration {
          SkipSecond(was, queue, counter);
          DropSecond();
          counter := counter + 1;
        } else {
          break;
        }
      }
    }

    /** Sweeps the deadlines: from the second request on up to the first live one, then the
        first. Returns how many requests were dropped. */
    method CheckDeadlines(now: int) returns (counter: nat)
      requires Valid()
      modifies this`queue, queue
      ensures Valid()
      ensures View() == Swept(old(View()), now)
      ensures counter == |Dropped(old(View()), now)|
      ensures forall a :: a in old(queue) ==> (a.closed <==> a !in queue)
      ensures forall a :: a in old(queue) && a.closed ==> a.outcome == Some(DeadlinePassed)
    {
      counter := 0;
      if |queue| == 0 {
        return;
      }
      ghost var was, q := queue, View();
      hide Swept, Dropped, MarkedBetween, Viewed;
      counter := SweepBehindFront(now);
      SweepMeaning(q, counter, now);
      SlicedView(was, q, 1, 1 + counter);
      if now >= queue[0].pending.req.expiration {
        SweepFront(was, q, 1 + counter);
        counter := counter + 1;
        SlicedView(was, q, 0, counter);
        assert q[..0] + q[counter..] == q[counter..];
      }
    }

    method SweepFront(ghost was: seq<AwaitableRequest<S>>, ghost q: seq<Pending<S>>, ghost hi: nat)
      requires 1 <= hi <= |was| && queue == was[..1] + was[hi..] && MarkedBetween(was, 1, hi) && Viewed(was, q)
      modifies this`queue, queue[0]
      ensures queue == was[..0] + was[hi..] && MarkedBetween(was, 0, hi) && Viewed(was, q)
    {
      var front := queue[0];
      queue := queue[1..];
      front.Mark(DeadlinePassed);
    }

    /** The queue after the requests numbered from `lo` up to `hi` left it marked. */
    lemma SlicedView(was: seq<AwaitableRequest<S>>, q: seq<Pending<S>>, lo: nat, hi: nat)
      requires lo <= hi <= |was| == |q| && queue == was[..lo] + was[hi..]
      requires MarkedBetween(was, lo, hi) && Viewed(was, q)
      ensures Valid() && View() == q[..lo] + q[hi..]
      ensures forall a :: a in was ==> (a.closed <==> a !in queue)
      ensures forall a :: a in was && a.closed ==> a.outcome == Some(DeadlinePassed)
    {
      assert forall j :: 0 <= j < |queue| ==> queue[j] == was[if j < lo then j else j - lo + hi];
      forall a | a in was
        ensures a.closed <==> a !in queue
        ensures a.closed ==> a.outcome == Some(DeadlinePassed)
      {
        var j :| 0 <= j < |was| && was[j] == a;
        if j < lo {
          assert queue[j] == a;
        } else if j >= hi {
          assert queue[j - hi + lo] == a;
        }
      }
    }

    /** One tick: sweep, then adapt the period. */
    method HandleTick(now: int)
      requires Valid()
      modifies this, queue
      ensures Valid()
      ensures View() == Swept(old(View()), now)
      ensures current == Adapted(old(current), |Dropped(old(View()), now)|)
    {
      hide Swept, Dropped;
      var count := CheckDeadlines(now);
      if count == 0 {
        current := current * 2;
        if current > UPPER {
          current := UPPER;
        }
      } else {
        current := current - current / 3;
        if current < LOWER {
          current := LOWER;
        }
      }
    }
  }
}
