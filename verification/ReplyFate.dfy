/** What becomes of one request in a run of the awaiter, whatever other requests, replies and
    ticks come between: it sees the replies offered to it and nothing else. */
module ReplyFate {
  import opened Distance
  import opened Nodes
  import opened Awaiter

  /** A reply offered to a request, and when. */
  datatype Offering<P> = Offering(payload: P, at: int)

  // ---------- a request on its own ----------

  /** A checker fed with the offered replies, until it or the deadline settles the request. */
  function Fold<S, P>(p: Pending<S>, os: seq<Offering<P>>, check: (S, P) -> (S, bool, bool)): (S, Option<Outcome>)
    decreases os
  {
    if os == [] then (p.st, None)
    else
      var (st, outcome) := Offer(p, os[0].payload, os[0].at, check);
      if outcome.Some? then (st, outcome) else Fold(p.(st := st), os[1..], check)
  }

  // ---------- a request among others ----------

  /** The reply a step offers to the request `ticket`, if it does. */
  function OfferOf<S, P>(s: State<S>, e: Event<S, P>, now: int, ticket: nat): seq<Offering<P>> {
    match e
    case Receive(reply) =>
      var i := FirstMatch(s.queue, reply);
      if i < |s.queue| && s.queue[i].ticket == ticket then [Offering(reply.payload, now)] else []
    case _ => []
  }

  /** All replies a run offers to the request. */
  function OffersTo<S, P>(s: State<S>, events: seq<(Event<S, P>, int)>, ticket: nat, check: (S, P) -> (S, bool, bool)): seq<Offering<P>>
    decreases events
  {
    if events == [] then []
    else
      var (e, now) := events[0];
      OfferOf(s, e, now, ticket) + OffersTo(Apply(s, e, now, check), events[1..], ticket, check)
  }

  /** Pending with the checker state, or settled with the outcome. */
  ghost predicate Stands<S>(s: State<S>, p: Pending<S>, st: S, outcome: Option<Outcome>) {
    match outcome
    case None => p.(st := st) in s.queue
    case Some(o) => p.ticket in s.marked && s.marked[p.ticket].outcome == o
  }

  lemma IndexOfTicket<S>(q: seq<Pending<S>>, p: Pending<S>) returns (k: nat)
    requires p in q
    ensures k < |q| && q[k] == p
  {
    k :| 0 <= k < |q| && q[k] == p;
  }

  lemma SameTicket<S>(q: seq<Pending<S>>, i: nat, k: nat)
    requires Increasing(q) && i < |q| && k < |q| && q[i].ticket == q[k].ticket
    ensures i == k
  {
  }

  lemma DropsOther<S>(q: seq<Pending<S>>, i: nat, p: Pending<S>)
    requires i < |q| && p in q && p != q[i]
    ensures p in DropAt(q, i)
  {
    var k := IndexOfTicket(q, p);
    assert DropAt(q, i)[if k < i then k else k - 1] == p;
  }

  lemma UpdatesOther<S>(q: seq<Pending<S>>, i: nat, st: S, p: Pending<S>)
    requires i < |q| && p in q && p != q[i]
    ensures p in q[i := q[i].(st := st)]
  {
    var k := IndexOfTicket(q, p);
    assert q[i := q[i].(st := st)][k] == p;
  }

  // ----- one step -----

  lemma OfferedStep<S, P>(s: State<S>, reply: Reply<P>, now: int, check: (S, P) -> (S, bool, bool), p: Pending<S>)
    requires Conserved(s) && p in s.queue && OfferOf(s, Receive(reply), now, p.ticket) != []
    ensures var (st, outcome) := Offer(p, reply.payload, now, check);
      Stands(Apply(s, Receive(reply), now, check), p, st, outcome)
  {
    hide Offer, FirstMatch, Tickets;
    var i := FirstMatch(s.queue, reply);
    var k := IndexOfTicket(s.queue, p);
    SameTicket(s.queue, i, k);
    var (st, outcome) := Offer(p, reply.payload, now, check);
    assert s.queue[i := p.(st := st)][i] == p.(st := st);
  }

  lemma PassedByStep<S, P>(s: State<S>, reply: Reply<P>, now: int, check: (S, P) -> (S, bool, bool), p: Pending<S>)
    requires p in s.queue && OfferOf(s, Receive(reply), now, p.ticket) == []
    ensures p in Apply(s, Receive(reply), now, check).queue
  {
    hide Offer, FirstMatch;
    var i := FirstMatch(s.queue, reply);
    if i < |s.queue| {
      assert p != s.queue[i];
      DropsOther(s.queue, i, p);
      UpdatesOther(s.queue, i, Offer(s.queue[i], reply.payload, now, check).0, p);
    }
  }

  lemma TickStep<S, P>(s: State<S>, now: int, check: (S, P) -> (S, bool, bool), p: Pending<S>)
    requires Conserved(s) && p in s.queue
    ensures var r := Apply(s, Tick, now, check);
      p in r.queue || (p.ticket in r.marked && r.marked[p.ticket].outcome == DeadlinePassed)
  {
    var s1 := s.(clock := now, lastTick := now, current := Adapted(s.current, |Dropped(s.queue, now)|));
    assert Conserved(s1);
    SweepIsSafe(s.queue, now);
    TicketOf(s, p);
    hide Swept, Dropped, MarkAll, Conserved, Adapted, Expired;
    var r := TickMarks(s1, now);
    assert p in multiset(s.queue);
    if p !in Swept(s.queue, now) {
      assert p in multiset(Swept(s.queue, now)) + multiset(Dropped(s.queue, now));
      assert p in Dropped(s.queue, now);
      assert p.ticket in Tickets(Dropped(s.queue, now));
      assert p.ticket in r.marked.Keys;
    }
  }

  lemma TicketOf<S>(s: State<S>, p: Pending<S>)
    requires Conserved(s) && p in s.queue
    ensures p.ticket in Tickets(s.queue) && p.ticket !in s.marked && p.ticket < |s.accepted|
  {
  }

  /** A step offers the request a reply, settles it by the deadline, or leaves it alone. */
  lemma FateStep<S, P>(s: State<S>, e: Event<S, P>, now: int, check: (S, P) -> (S, bool, bool), p: Pending<S>)
    requires Conserved(s) && p in s.queue
    ensures var r, os := Apply(s, e, now, check), OfferOf(s, e, now, p.ticket);
      if os == [] then p in r.queue || (p.ticket in r.marked && r.marked[p.ticket].outcome == DeadlinePassed)
      else
        var (st, outcome) := Offer(p, os[0].payload, os[0].at, check);
        os == [Offering(os[0].payload, now)] && Stands(r, p, st, outcome)
  {
    hide Conserved, Stands, FirstMatch, Offer;
    match e {
      case Arrive(req, st) => assert p in s.queue + [Pending(|s.accepted|, req, now, st)];
      case Receive(reply) =>
        if OfferOf(s, e, now, p.ticket) == [] {
          PassedByStep(s, reply, now, check, p);
        } else {
          OfferedStep(s, reply, now, check, p);
        }
      case Tick => TickStep(s, now, check, p);
    }
  }

  // ----- settled for good -----

  lemma MarksStay<S, P>(s: State<S>, e: Event<S, P>, now: int, check: (S, P) -> (S, bool, bool), t: nat)
    requires Conserved(s) && t in s.marked
    ensures t in Apply(s, e, now, check).marked && Apply(s, e, now, check).marked[t] == s.marked[t]
    ensures OfferOf(s, e, now, t) == []
  {
    assert t !in Tickets(s.queue);
    match e {
      case Arrive(_, _) =>
      case Receive(reply) =>
        var i := FirstMatch(s.queue, reply);
        if i < |s.queue| {
          TicketAt(s.queue, i);
        }
        hide Conserved, FirstMatch, Offer, Replied;
      case Tick =>
        var s1 := s.(clock := now, lastTick := now, current := Adapted(s.current, |Dropped(s.queue, now)|));
        assert Conserved(s1);
        var r := TickMarks(s1, now);
        hide Swept, Dropped, MarkAll, Conserved;
        assert t in r.marked.Keys;
    }
  }

  lemma {:induction false} SettledForGood<S(!new), P(!new)>(s: State<S>, events: seq<(Event<S, P>, int)>, check: (S, P) -> (S, bool, bool),
                                                            r: State<S>, t: nat)
    requires Inv(s) && Reaches(s, events, check, r) && t in s.marked
    ensures t in r.marked && r.marked[t] == s.marked[t]
    ensures OffersTo(s, events, t, check) == []
    decreases events
  {
    hide Apply, OfferOf, Conserved, OffersOk, OnTime, TimeOk;
    if events != [] {
      InvStep(s, events[0].0, events[0].1, check);
      MarksStay(s, events[0].0, events[0].1, check, t);
      SettledForGood(Apply(s, events[0].0, events[0].1, check), events[1..], check, r, t);
    }
  }

  // ---------- the fate of a request ----------

  /** In every run, whatever goes on around it, a request fares as if it were alone with the
      replies offered to it: it is settled as its checker says, or else it is still pending
      with the state its checker is in, or has been swept after its deadline. */
  lemma {:induction false} FateOfRequest<S(!new), P(!new)>(s: State<S>, events: seq<(Event<S, P>, int)>, check: (S, P) -> (S, bool, bool),
                                                           r: State<S>, p: Pending<S>)
    requires Inv(s) && p in s.queue && Reaches(s, events, check, r)
    ensures var (st, outcome) := Fold(p, OffersTo(s, events, p.ticket, check), check);
      Stands(r, p, st, outcome) || (outcome.None? && Stands(r, p, st, Some(DeadlinePassed)))
    decreases events
  {
    hide Apply, Offer, OfferOf, Conserved, OffersOk, OnTime, TimeOk;
    if events != [] {
      var (e, now) := events[0];
      var s1, os := Apply(s, e, now, check), OfferOf(s, e, now, p.ticket);
      var rest := OffersTo(s1, events[1..], p.ticket, check);
      InvStep(s, e, now, check);
      FateStep(s, e, now, check, p);
      if os == [] {
        assert os + rest == rest;
        if p in s1.queue {
          FateOfRequest(s1, events[1..], check, r, p);
        } else {
          SettledForGood(s1, events[1..], check, r, p.ticket);
        }
      } else {
        var (st, outcome) := Offer(p, os[0].payload, os[0].at, check);
        assert (os + rest)[0] == os[0] && (os + rest)[1..] == rest;
        if outcome.None? {
          FateOfRequest(s1, events[1..], check, r, p.(st := st));
        } else {
          SettledForGood(s1, events[1..], check, r, p.ticket);
        }
      }
    }
  }

  /** Nothing is offered to a request once it is settled: without the last reply offered to it
      it was still open. */
  lemma {:induction false} OpenBeforeLast<S(!new), P(!new)>(s: State<S>, events: seq<(Event<S, P>, int)>, check: (S, P) -> (S, bool, bool),
                                                            r: State<S>, p: Pending<S>)
    requires Inv(s) && p in s.queue && Reaches(s, events, check, r)
    ensures var os := OffersTo(s, events, p.ticket, check);
      os != [] ==> Fold(p, os[..|os| - 1], check).1.None?
    decreases events
  {
    hide Apply, Offer, OfferOf, Conserved, OffersOk, OnTime, TimeOk;
    if events != [] {
      var (e, now) := events[0];
      var s1, os := Apply(s, e, now, check), OfferOf(s, e, now, p.ticket);
      var rest := OffersTo(s1, events[1..], p.ticket, check);
      InvStep(s, e, now, check);
      FateStep(s, e, now, check, p);
      if os == [] {
        assert os + rest == rest;
        if p in s1.queue {
          OpenBeforeLast(s1, events[1..], check, r, p);
        } else {
          SettledForGood(s1, events[1..], check, r, p.ticket);
        }
      } else {
        var (st, outcome) := Offer(p, os[0].payload, os[0].at, check);
        if outcome.None? {
          OpenBeforeLast(s1, events[1..], check, r, p.(st := st));
        } else {
          SettledForGood(s1, events[1..], check, r, p.ticket);
        }
        if rest != [] {
          assert (os + rest)[..|os + rest| - 1] == os + rest[..|rest| - 1];
          assert (os + rest[..|rest| - 1])[1..] == rest[..|rest| - 1] && (os + rest[..|rest| - 1])[0] == os[0];
        } else {
          assert (os + rest)[..|os + rest| - 1] == [];
        }
      }
    }
  }

  // ---------- who gets a reply ----------

  predicate Concerns(r: Request, id: Id, ip: IP, kind: nat) {
    r.id == id && r.ip == ip && r.expectedKind == kind
  }

  /** The requests to an endpoint that wait for one kind of reply, in order of arrival. */
  function Waiting<S>(q: seq<Pending<S>>, id: Id, ip: IP, kind: nat): seq<Pending<S>> {
    if q == [] then [] else (if Concerns(q[0].req, id, ip, kind) then [q[0]] else []) + Waiting(q[1..], id, ip, kind)
  }

  lemma {:induction false} WaitingConcat<S>(a: seq<Pending<S>>, b: seq<Pending<S>>, id: Id, ip: IP, kind: nat)
    ensures Waiting(a + b, id, ip, kind) == Waiting(a, id, ip, kind) + Waiting(b, id, ip, kind)
  {
    if a == [] {
      assert a + b == b;
    } else {
      assert (a + b)[1..] == a[1..] + b && (a + b)[0] == a[0];
      WaitingConcat(a[1..], b, id, ip, kind);
      var h := if Concerns(a[0].req, id, ip, kind) then [a[0]] else [];
      var x, y := Waiting(a[1..], id, ip, kind), Waiting(b, id, ip, kind);
      assert h + (x + y) == (h + x) + y;
    }
  }

  lemma {:induction false} NoneWaiting<S>(q: seq<Pending<S>>, id: Id, ip: IP, kind: nat)
    requires forall i :: 0 <= i < |q| ==> !Concerns(q[i].req, id, ip, kind)
    ensures Waiting(q, id, ip, kind) == []
  {
    if q != [] {
      NoneWaiting(q[1..], id, ip, kind);
    }
  }

  lemma OneWaiting<S>(p: Pending<S>, id: Id, ip: IP, kind: nat)
    ensures Waiting([p], id, ip, kind) == if Concerns(p.req, id, ip, kind) then [p] else []
  {
    assert [p][1..] == [];
  }

  lemma WaitingAround<S>(a: seq<Pending<S>>, p: Pending<S>, b: seq<Pending<S>>, id: Id, ip: IP, kind: nat)
    requires Waiting(a, id, ip, kind) == [] && Concerns(p.req, id, ip, kind)
    ensures Waiting(a + ([p] + b), id, ip, kind) == [p] + Waiting(a + b, id, ip, kind)
  {
    OneWaiting(p, id, ip, kind);
    WaitingConcat(a, [p] + b, id, ip, kind);
    WaitingConcat([p], b, id, ip, kind);
    WaitingConcat(a, b, id, ip, kind);
    hide Waiting;
    assert Waiting(a + b, id, ip, kind) == Waiting(b, id, ip, kind);
  }

  lemma SplitAround<T>(q: seq<T>, i: nat)
    requires i < |q|
    ensures q == q[..i] + ([q[i]] + q[i + 1..]) && DropAt(q, i) == q[..i] + q[i + 1..]
  {
  }

  /** The request a reply is offered to is the first of those waiting for it. */
  lemma FirstWaiting<S, P>(q: seq<Pending<S>>, reply: Reply<P>)
    ensures var i := FirstMatch(q, reply);
      if i == |q| then Waiting(q, reply.id, reply.ip, reply.kind) == []
      else Waiting(q, reply.id, reply.ip, reply.kind) == [q[i]] + Waiting(DropAt(q, i), reply.id, reply.ip, reply.kind)
  {
    var i := FirstMatch(q, reply);
    var id, ip, kind := reply.id, reply.ip, reply.kind;
    forall j | 0 <= j < |q|
      ensures Matches(q[j].req, reply) <==> Concerns(q[j].req, id, ip, kind)
    {
    }
    hide FirstMatch, Matches, DropAt, Waiting, Concerns;
    if i == |q| {
      NoneWaiting(q, id, ip, kind);
    } else {
      NoneWaiting(q[..i], id, ip, kind);
      WaitingAround(q[..i], q[i], q[i + 1..], id, ip, kind);
      SplitAround(q, i);
    }
  }

  // ---------- the earliest request of an endpoint ----------

  predicate SameTarget(a: Request, b: Request) {
    Concerns(a, b.id, b.ip, b.expectedKind)
  }

  /** Of the requests to its endpoint that wait for the same kind of reply, it came first. */
  ghost predicate Earliest<S>(q: seq<Pending<S>>, p: Pending<S>) {
    forall x :: x in q && SameTarget(x.req, p.req) ==> p.ticket <= x.ticket
  }

  /** The replies of a run that match the request, offered to it or not. */
  function RepliesTo<S, P>(events: seq<(Event<S, P>, int)>, req: Request): seq<Offering<P>> {
    if events == [] then []
    else
      var (e, now) := events[0];
      (if e.Receive? && Matches(req, e.reply) then [Offering(e.reply.payload, now)] else []) + RepliesTo(events[1..], req)
  }

  lemma EarliestIsOffered<S, P>(s: State<S>, e: Event<S, P>, now: int, p: Pending<S>)
    requires Conserved(s) && p in s.queue && Earliest(s.queue, p)
    ensures OfferOf(s, e, now, p.ticket) == if e.Receive? && Matches(p.req, e.reply) then [Offering(e.reply.payload, now)] else []
  {
    hide FirstMatch, Tickets;
    if e.Receive? {
      var i := FirstMatch(s.queue, e.reply);
      var k := IndexOfTicket(s.queue, p);
      if i < |s.queue| {
        assert s.queue[i] in s.queue;
        assert Matches(p.req, e.reply) ==> i <= k && p.ticket <= s.queue[i].ticket;
        if s.queue[i].ticket == p.ticket {
          SameTicket(s.queue, i, k);
        }
      }
    }
  }

  /** What is in the queue after a step was there before, but for a checker state, or is new. */
  lemma QueueStep<S, P>(s: State<S>, e: Event<S, P>, now: int, check: (S, P) -> (S, bool, bool), x: Pending<S>)
    requires Conserved(s) && x in Apply(s, e, now, check).queue
    ensures (exists y :: y in s.queue && y.(st := x.st) == x) || x.ticket == |s.accepted|
  {
    match e {
      case Arrive(_, _) =>
        if x in s.queue {
          assert x.(st := x.st) == x;
        }
      case Receive(reply) =>
        hide Conserved, FirstMatch, Offer;
        var i := FirstMatch(s.queue, reply);
        if i < |s.queue| {
          RepliedCovered(s.queue, reply, now, check, x);
        } else {
          assert x.(st := x.st) == x;
        }
      case Tick =>
        MarkAllFrame(s.(clock := now, queue := Swept(s.queue, now), lastTick := now,
                        current := Adapted(s.current, |Dropped(s.queue, now)|)),
                     Dropped(s.queue, now), DeadlinePassed);
        SweptSubset(s.queue, now, x);
        hide Swept, Dropped, Conserved;
        assert x.(st := x.st) == x;
    }
  }

  lemma EarliestStays<S, P>(s: State<S>, e: Event<S, P>, now: int, check: (S, P) -> (S, bool, bool), p: Pending<S>, st: S)
    requires Conserved(s) && p in s.queue && Earliest(s.queue, p)
    ensures Earliest(Apply(s, e, now, check).queue, p.(st := st))
  {
    var r := Apply(s, e, now, check);
    TicketOf(s, p);
    hide Apply, Conserved;
    forall x | x in r.queue && SameTarget(x.req, p.req)
      ensures p.ticket <= x.ticket
    {
      QueueStep(s, e, now, check, x);
      if y :| y in s.queue && y.(st := x.st) == x {
        assert SameTarget(y.req, p.req);
      }
    }
  }

  lemma NotSettled<S>(s: State<S>, t: nat)
    requires Conserved(s) && t in s.marked
    ensures t !in Tickets(s.queue)
  {
  }

  /** The earliest request of its endpoint is offered every matching reply until it is
      settled. */
  lemma {:induction false} EarliestGetsAll<S(!new), P(!new)>(s: State<S>, events: seq<(Event<S, P>, int)>, check: (S, P) -> (S, bool, bool),
                                                             r: State<S>, p: Pending<S>)
    requires Inv(s) && p in s.queue && Earliest(s.queue, p) && Reaches(s, events, check, r)
    ensures var os, replies := OffersTo(s, events, p.ticket, check), RepliesTo(events, p.req);
      os <= replies && (p.ticket in Tickets(r.queue) ==> os == replies)
    decreases events
  {
    hide Apply, Offer, OfferOf, Matches, Earliest, Conserved, OffersOk, OnTime, TimeOk, Tickets;
    if events != [] {
      var (e, now) := events[0];
      var s1, os := Apply(s, e, now, check), OfferOf(s, e, now, p.ticket);
      InvStep(s, e, now, check);
      EarliestIsOffered(s, e, now, p);
      FateStep(s, e, now, check, p);
      var st := if os == [] then p.st else Offer(p, os[0].payload, os[0].at, check).0;
      EarliestStays(s, e, now, check, p, st);
      if p.(st := st) in s1.queue {
        EarliestGetsAll(s1, events[1..], check, r, p.(st := st));
      } else {
        SettledForGood(s1, events[1..], check, r, p.ticket);
        InvOfRun(s1, events[1..], check, r);
        NotSettled(r, p.ticket);
      }
    }
  }

  // ---------- time ----------

  lemma {:induction false} RunGoesOn<S(!new), P(!new)>(s: State<S>, events: seq<(Event<S, P>, int)>, check: (S, P) -> (S, bool, bool),
                                                       r: State<S>, t: nat)
    requires Inv(s) && Reaches(s, events, check, r)
    ensures s.clock <= r.clock && s.accepted <= r.accepted
    ensures forall o :: o in OffersTo(s, events, t, check) ==> o.at <= r.clock
    decreases events
  {
    hide Offer, Conserved, OffersOk, OnTime, TimeOk, Swept, Dropped, Replied;
    if events != [] {
      var (e, now) := events[0];
      InvStep(s, e, now, check);
      ClockStep(s, e, now, check);
      hide Apply;
      RunGoesOn(Apply(s, e, now, check), events[1..], check, r, t);
    }
  }

  lemma ClockStep<S, P>(s: State<S>, e: Event<S, P>, now: int, check: (S, P) -> (S, bool, bool))
    ensures Apply(s, e, now, check).clock == now
  {
    hide Swept, Dropped, Replied, Offer;
    if e.Tick? {
      MarkAllFrame(s.(clock := now, queue := Swept(s.queue, now), lastTick := now,
                      current := Adapted(s.current, |Dropped(s.queue, now)|)),
                   Dropped(s.queue, now), DeadlinePassed);
    }
  }

  /** Nobody is swept before the deadline. */
  lemma SweptLate<S(!new), P(!new)>(s: State<S>, events: seq<(Event<S, P>, int)>, check: (S, P) -> (S, bool, bool),
                                    r: State<S>, p: Pending<S>)
    requires Inv(s) && p in s.queue && Reaches(s, events, check, r)
    requires p.ticket in r.marked && r.marked[p.ticket].outcome == DeadlinePassed
    ensures r.clock >= p.req.expiration
  {
    hide OffersOk, TimeOk, Reaches, Increasing, Tickets;
    RunGoesOn(s, events, check, r, p.ticket);
    InvOfRun(s, events, check, r);
    assert s.accepted[p.ticket] == Accepted(p.req, p.arrival);
  }
}
