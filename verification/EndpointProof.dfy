/** What a bond is worth. The handler takes any recorded pong for a bond, also one that
    answers no ping of ours. Here: what a pong does to our pending pings, and exactly when
    somebody who is answered or added to the table had answered a ping of ours. */
module EndpointProof {
  import opened Nodes
  import A = Awaiter
  import F = ReplyFate
  import opened Bond

  predicate IsPing(r: A.Request, e: Endpoint) {
    F.Concerns(r, e.0, e.1, PONG)
  }

  // ---------- one pong ----------

  /** Our pending pings to the endpoint, in order of arrival. */
  function Pings(q: seq<A.Pending<Check>>, e: Endpoint): seq<A.Pending<Check>> {
    F.Waiting(q, e.0, e.1, PONG)
  }

  /** The pong echoes the token of the earliest of them, in time. */
  predicate Answering(s: BondState, e: Endpoint, token: nat, now: int) {
    var ps := Pings(s.queue, e);
    ps != [] && ps[0].st.PongCheck? && ps[0].st.token == token && now <= ps[0].req.expiration
  }

  function PongOf(e: Endpoint, token: nat): A.Reply<Payload> {
    A.Reply(e.0, e.1, PONG, PongPayload(token))
  }

  lemma PingsConcat(a: seq<A.Pending<Check>>, b: seq<A.Pending<Check>>, e: Endpoint)
    ensures Pings(a + b, e) == Pings(a, e) + Pings(b, e)
  {
    F.WaitingConcat(a, b, e.0, e.1, PONG);
  }

  lemma OnePing(p: A.Pending<Check>, e: Endpoint)
    ensures Pings([p], e) == if IsPing(p.req, e) then [p] else []
  {
    F.OneWaiting(p, e.0, e.1, PONG);
  }

  /** The request a pong is offered to is the first of the pings to its sender. */
  lemma FirstPing(q: seq<A.Pending<Check>>, e: Endpoint, token: nat)
    ensures var i := A.FirstMatch(q, PongOf(e, token));
      if i == |q| then Pings(q, e) == []
      else Pings(q, e) == [q[i]] + Pings(A.DropAt(q, i), e)
  {
    F.FirstWaiting(q, PongOf(e, token));
  }

  /** What becomes of a ping when a pong from its endpoint arrives. */
  function Verdict(p: A.Pending<Check>, token: nat, now: int): A.Outcome {
    if now > p.req.expiration then A.DeadlinePassed
    else if p.st.PongCheck? && p.st.token == token then A.Matched
    else A.InvalidResponse
  }

  /** A pong consumes the earliest pending ping to its sender, whatever its token. It counts
      as an answer and calls back exactly when it carries the token of that ping, in time,
      and the ping has a callback. */
  lemma PongCallsBackIff(s: BondState, e: Endpoint, expiration: int, token: nat, now: int)
    requires s.clock <= now <= expiration
    ensures var r, ps := Apply(s, PongPacket(e, expiration, token), now), Pings(s.queue, e);
      && r.log == s.log + [PongRecorded(e, now)] +
           (if Answering(s, e, token, now) && ps[0].st.callback.Some? then [SeenAdded(ps[0].st.callback.value, now)] else [])
      && r.answered == (if Answering(s, e, token, now) then s.answered[e := now] else s.answered)
      && (ps == [] ==> r.queue == s.queue && r.resolved == s.resolved)
      && (ps != [] ==> Pings(r.queue, e) == ps[1..]
                       && r.resolved == s.resolved[ps[0].ticket := Resolved(Verdict(ps[0], token, now), now)])
  {
    hide A.FirstMatch, A.DropAt, Pings;
    FirstPing(s.queue, e, token);
    var s1 := Logged(s.(clock := now, pongs := s.pongs[e := now]), PongRecorded(e, now));
    PongReplied(s1, e, token, now);
    hide Replying;
    assert Apply(s, PongPacket(e, expiration, token), now) == Replying(s1, PongOf(e, token), now);
  }

  /** The same for the awaiter's part of it. */
  lemma PongReplied(s: BondState, e: Endpoint, token: nat, now: int)
    ensures var r, i := Replying(s, PongOf(e, token), now), A.FirstMatch(s.queue, PongOf(e, token));
      if i == |s.queue| then r == s
      else
        var p := s.queue[i];
        var verdict := Verdict(p, token, now);
        && r.queue == A.DropAt(s.queue, i)
        && r.resolved == s.resolved[p.ticket := Resolved(verdict, now)]
        && r.answered == (if verdict == A.Matched then s.answered[e := now] else s.answered)
        && r.log == s.log + if verdict == A.Matched && p.st.callback.Some? then [SeenAdded(p.st.callback.value, now)] else []
  {
    hide A.FirstMatch, A.Offer, V4Check, Verdict;
    var q, reply := s.queue, PongOf(e, token);
    var i := A.FirstMatch(q, reply);
    if i < |q| {
      OfferedPong(q[i], token, now);
      hide A.Matches;
    }
    assert s.log + [] == s.log;
  }

  lemma OfferedPong(p: A.Pending<Check>, token: nat, now: int)
    ensures A.Offer(p, PongPayload(token), now, V4Check()).1 == Some(Verdict(p, token, now))
    ensures Verdict(p, token, now) == A.Matched ==> p.st.PongCheck?
  {
  }

  /** A ping from an unknown endpoint starts a bond: if its pong with the right token arrives
      from the same endpoint in time, and no earlier ping to it was pending, the node is
      added and the queue is as before. */
  lemma PingStartsBond(s: BondState, e: Endpoint, expiration: int, token: nat, now: int, pongExpiration: int, later: int)
    requires s.clock <= now <= later <= now + EXPIRATION
    requires expiration >= now && pongExpiration >= later
    requires now - LastPong(s, e) > BOND_EXPIRATION
    requires Pings(s.queue, e) == []
    ensures var s1 := Apply(s, PingPacket(e, expiration, token, true), now);
      var s2 := Apply(s1, PongPacket(e, pongExpiration, token), later);
      && s2.log == s.log + [PingRecorded(e, now), PongRecorded(e, later), SeenAdded(e, later)]
      && s2.answered == s.answered[e := later]
  {
    var s1 := Apply(s, PingPacket(e, expiration, token, true), now);
    PingEffect(s.(clock := now), e, expiration, token, now);
    var p := A.Pending(|s.requests|, A.Request(e.0, e.1, PONG, now + EXPIRATION), now, PongCheck(token, Some(e)));
    hide Effect, Pings;
    assert s1.queue == s.queue + [p] && s1.log == s.log + [PingRecorded(e, now)] && s1.answered == s.answered;
    PingsConcat(s.queue, [p], e);
    OnePing(p, e);
    assert Answering(s1, e, token, later) && Pings(s1.queue, e)[0] == p;
    assert s1.clock <= later;
    hide Apply, Answering;
    PongCallsBackIff(s1, e, pongExpiration, token, later);
    ThreeEntries(s.log, PingRecorded(e, now), PongRecorded(e, later), SeenAdded(e, later));
  }

  lemma ThreeEntries<T>(log: seq<T>, a: T, b: T, c: T)
    ensures log + [a] + ([b] + [c]) == log + [a, b, c]
    ensures log + [a] + [b] + [c] == log + [a, b, c]
  {
  }

  function EnrThenPing(start: int, e: Endpoint): BondState
    requires start > BOND_EXPIRATION
  {
    Apply(Apply(Start(start), EnrRequestPacket(e, start, true, false, 7), start), PingPacket(e, start, 8, true), start)
  }

  lemma TwoPings(start: int, e: Endpoint)
    requires start > BOND_EXPIRATION
    ensures var s := EnrThenPing(start, e);
      && s.log == [PingRecorded(e, start)] && s.clock == start && s.resolved == map[]
      && |Pings(s.queue, e)| == 2 && Pings(s.queue, e)[0].ticket == 0
      && Pings(s.queue, e)[0].st == PongCheck(7, None) && Pings(s.queue, e)[0].req.expiration == start + EXPIRATION
  {
    var p1 := A.Pending(0, A.Request(e.0, e.1, PONG, start + EXPIRATION), start, PongCheck(7, None));
    var p2 := A.Pending(1, A.Request(e.0, e.1, PONG, start + EXPIRATION), start, PongCheck(8, Some(e)));
    var s := EnrThenPing(start, e);
    assert s.queue == [p1] + [p2];
    PingsConcat([p1], [p2], e);
    OnePing(p1, e);
    OnePing(p2, e);
  }

  /** With an earlier ping pending the right pong is wasted: it fails the earlier ping, and
      the node is not added. A run with two pings in flight, tokens 7 and 8. */
  lemma WrongPingFirst(start: int, e: Endpoint)
    requires start > BOND_EXPIRATION
    ensures exists s ::
      && Reaches(Start(start), [(EnrRequestPacket(e, start, true, false, 7), start), (PingPacket(e, start, 8, true), start),
                                (PongPacket(e, start, 8), start)], s)
      && 0 in s.resolved && s.resolved[0].outcome == A.InvalidResponse
      && s.log == [PingRecorded(e, start), PongRecorded(e, start)]
  {
    TwoPings(start, e);
    ThreeSteps(Start(start), (EnrRequestPacket(e, start, true, false, 7), start), (PingPacket(e, start, 8, true), start),
               (PongPacket(e, start, 8), start));
    var s2 := EnrThenPing(start, e);
    hide Effect, Pings;
    PongCallsBackIff(s2, e, start, 8, start);
    assert Apply(s2, PongPacket(e, start, 8), start).resolved[0].outcome == A.InvalidResponse;
  }

  lemma ThreeSteps(s: BondState, a: (Action, int), b: (Action, int), c: (Action, int))
    requires Enabled(s, a.0, a.1) && Enabled(Apply(s, a.0, a.1), b.0, b.1)
    requires Enabled(Apply(Apply(s, a.0, a.1), b.0, b.1), c.0, c.1)
    ensures Reaches(s, [a, b, c], Apply(Apply(Apply(s, a.0, a.1), b.0, b.1), c.0, c.1))
  {
    hide Effect;
    var r := Apply(Apply(Apply(s, a.0, a.1), b.0, b.1), c.0, c.1);
    assert Reaches(r, [], r);
    assert [c][1..] == [] && [b, c][1..] == [c] && [a, b, c][1..] == [b, c];
    assert Reaches(Apply(Apply(s, a.0, a.1), b.0, b.1), [c], r);
    assert Reaches(Apply(s, a.0, a.1), [b, c], r);
  }

  // ---------- whole runs ----------

  /** Ticket `t` is a ping of ours to the endpoint that was answered. */
  ghost predicate AnsweredPing(s: BondState, e: Endpoint, t: nat) {
    && t in s.resolved && t < |s.requests|
    && IsPing(s.requests[t], e)
    && s.resolved[t].outcome == A.Matched
  }

  /** The endpoint proved itself: a ping of ours to it was answered less than a day ago. */
  ghost predicate Proven(s: BondState, e: Endpoint, now: int) {
    exists t: nat :: AnsweredPing(s, e, t) && now - s.resolved[t].at < BOND_EXPIRATION
  }

  /** Every request is pending or resolved, not both, and the last answer of each endpoint is
      remembered; it came with a recorded pong. */
  ghost predicate BooksOk(s: BondState) {
    && A.Increasing(s.queue)
    && A.Tickets(s.queue) !! s.resolved.Keys
    && (forall e :: e in s.answered ==>
          && e in s.pongs && s.answered[e] <= s.pongs[e]
          && exists t: nat :: AnsweredPing(s, e, t) && s.resolved[t].at == s.answered[e])
    && (forall e, t: nat :: AnsweredPing(s, e, t) ==> e in s.answered && s.resolved[t].at <= s.answered[e])
  }

  /** The books only change by queueing, replies and sweeps. */
  lemma SameBooks(s: BondState, r: BondState)
    requires BooksOk(s) && r.queue == s.queue && r.requests == s.requests && r.resolved == s.resolved && r.answered == s.answered
    requires forall e :: e in s.pongs ==> e in r.pongs && s.pongs[e] <= r.pongs[e]
    ensures BooksOk(r)
  {
    forall e | e in r.answered
      ensures exists t: nat :: AnsweredPing(r, e, t) && r.resolved[t].at == r.answered[e]
    {
      var t: nat :| AnsweredPing(s, e, t) && s.resolved[t].at == s.answered[e];
      assert AnsweredPing(r, e, t);
    }
    forall e, t: nat | AnsweredPing(r, e, t)
      ensures e in r.answered && r.resolved[t].at <= r.answered[e]
    {
      assert AnsweredPing(s, e, t);
    }
  }

  /** Requests are only added, what is resolved stays as it is, and nothing new is an answer. */
  lemma MoreRequests(s: BondState, r: BondState)
    requires BooksOk(s) && QueueOk(s)
    requires r.answered == s.answered && r.pongs == s.pongs && s.requests <= r.requests
    requires A.Increasing(r.queue) && A.Tickets(r.queue) !! r.resolved.Keys
    requires forall t :: t in s.resolved ==> t in r.resolved && r.resolved[t] == s.resolved[t]
    requires forall t :: t in r.resolved && t !in s.resolved ==> r.resolved[t].outcome != A.Matched
    ensures BooksOk(r)
  {
    forall e | e in r.answered
      ensures exists t: nat :: AnsweredPing(r, e, t) && r.resolved[t].at == r.answered[e]
    {
      var t: nat :| AnsweredPing(s, e, t) && s.resolved[t].at == s.answered[e];
      assert AnsweredPing(r, e, t);
    }
    forall e, t: nat | AnsweredPing(r, e, t)
      ensures e in r.answered && r.resolved[t].at <= r.answered[e]
    {
      assert t in s.resolved;
      assert AnsweredPing(s, e, t);
    }
  }

  lemma QueuedBooks(s: BondState, e: Endpoint, kind: nat, check: Check, now: int)
    requires BooksOk(s) && QueueOk(s)
    ensures BooksOk(Queued(s, e, kind, check, now))
  {
    var r := Queued(s, e, kind, check, now);
    var p := r.queue[|s.queue|];
    forall i | 0 <= i < |s.queue|
      ensures s.queue[i].ticket < p.ticket
    {
      assert PendingOk(s, s.queue[i]);
    }
    A.ConcatTickets(s.queue, [p]);
    assert A.Tickets([p]) == {p.ticket} by {
      A.TicketAt([p], 0);
    }
    assert p.ticket !in s.resolved;
    MoreRequests(s, r);
  }

  /** One pending request less, and a verdict on it; an answered ping is remembered. */
  ghost predicate Settled(s: BondState, r: BondState, p: A.Pending<Check>, outcome: A.Outcome) {
    && r.requests == s.requests && r.pongs == s.pongs
    && r.resolved == s.resolved[p.ticket := Resolved(outcome, s.clock)]
    && p.ticket !in s.resolved && p.ticket < |s.requests| && s.requests[p.ticket] == p.req
    && (if outcome == A.Matched && p.req.expectedKind == PONG
        then && r.answered == s.answered[(p.req.id, p.req.ip) := s.clock]
             && (p.req.id, p.req.ip) in s.pongs && s.pongs[(p.req.id, p.req.ip)] == s.clock
        else r.answered == s.answered)
  }

  lemma SettledRemembered(s: BondState, r: BondState, p: A.Pending<Check>, outcome: A.Outcome, e: Endpoint)
    requires BooksOk(s) && Settled(s, r, p, outcome) && e in r.answered
    ensures e in r.pongs && r.answered[e] <= r.pongs[e]
    ensures exists t: nat :: AnsweredPing(r, e, t) && r.resolved[t].at == r.answered[e]
  {
    hide A.Increasing, A.Tickets, IsPing;
    PingEndpoint(p.req, e);
    if outcome == A.Matched && IsPing(p.req, e) {
      assert AnsweredPing(r, e, p.ticket);
    } else {
      var t: nat :| AnsweredPing(s, e, t) && s.resolved[t].at == s.answered[e];
      assert AnsweredPing(r, e, t);
    }
  }

  lemma SettledNewest(s: BondState, r: BondState, p: A.Pending<Check>, outcome: A.Outcome, e: Endpoint, t: nat)
    requires BooksOk(s) && QueueOk(s) && Settled(s, r, p, outcome) && AnsweredPing(r, e, t)
    ensures e in r.answered && r.resolved[t].at <= r.answered[e]
  {
    hide A.Increasing, A.Tickets, IsPing, PendingOk;
    PingEndpoint(p.req, e);
    if t != p.ticket {
      assert AnsweredPing(s, e, t);
    }
  }

  lemma ResolvedBooks(s: BondState, r: BondState, i: nat, outcome: A.Outcome)
    requires BooksOk(s) && QueueOk(s) && i < |s.queue|
    requires r.queue == A.DropAt(s.queue, i) && Settled(s, r, s.queue[i], outcome)
    ensures BooksOk(r)
  {
    A.TicketAt(s.queue, i);
    A.DropTickets(s.queue, i);
    hide A.Increasing, A.Tickets, PendingOk, QueueOk, AnsweredPing;
    forall e | e in r.answered
      ensures e in r.pongs && r.answered[e] <= r.pongs[e]
      ensures exists t: nat :: AnsweredPing(r, e, t) && r.resolved[t].at == r.answered[e]
    {
      SettledRemembered(s, r, s.queue[i], outcome, e);
    }
    forall e, t: nat | AnsweredPing(r, e, t)
      ensures e in r.answered && r.resolved[t].at <= r.answered[e]
    {
      SettledNewest(s, r, s.queue[i], outcome, e, t);
    }
  }

  lemma NotYetResolved(s: BondState, i: nat)
    requires BooksOk(s) && i < |s.queue|
    ensures s.queue[i].ticket !in s.resolved
  {
    A.TicketAt(s.queue, i);
  }

  lemma PingEndpoint(r: A.Request, e: Endpoint)
    ensures IsPing(r, e) <==> r.expectedKind == PONG && (r.id, r.ip) == e
  {
  }

  lemma UpdatedBooks(s: BondState, i: nat, st: Check)
    requires BooksOk(s) && QueueOk(s) && i < |s.queue|
    ensures BooksOk(s.(queue := s.queue[i := s.queue[i].(st := st)]))
  {
    A.UpdateTickets(s.queue, i, st);
    MoreRequests(s, s.(queue := s.queue[i := s.queue[i].(st := st)]));
  }

  /** What handing a reply to the awaiter changes. */
  lemma ReplyingFields(s: BondState, reply: A.Reply<Payload>, now: int, i: nat)
    requires i == A.FirstMatch(s.queue, reply) < |s.queue|
    ensures var r, p := Replying(s, reply, now), s.queue[i];
      var (st, outcome) := A.Offer(p, reply.payload, now, V4Check());
      && r.requests == s.requests && r.pongs == s.pongs
      && (outcome.None? ==> r == s.(queue := s.queue[i := p.(st := st)]))
      && (outcome.Some? ==>
            && r.queue == A.DropAt(s.queue, i)
            && r.resolved == s.resolved[p.ticket := Resolved(outcome.value, now)]
            && r.answered == (if outcome.value == A.Matched && p.st.PongCheck?
                              then s.answered[(p.req.id, p.req.ip) := now] else s.answered))
  {
    hide A.Offer, A.FirstMatch, V4Check;
  }

  lemma ReplyingBooks(s: BondState, reply: A.Reply<Payload>, now: int)
    requires BooksOk(s) && QueueOk(s) && s.clock == now
    requires reply.kind == PONG ==> (reply.id, reply.ip) in s.pongs && s.pongs[(reply.id, reply.ip)] == now
    ensures BooksOk(Replying(s, reply, now))
  {
    var i := A.FirstMatch(s.queue, reply);
    if i < |s.queue| {
      var p := s.queue[i];
      assert (p.st.PongCheck? <==> p.req.expectedKind == PONG) && p.ticket < |s.requests| && s.requests[p.ticket] == p.req by {
        assert p in s.queue;
        assert PendingOk(s, p);
      }
      NotYetResolved(s, i);
      assert p.req.expectedKind == PONG ==> (p.req.id, p.req.ip) in s.pongs && s.pongs[(p.req.id, p.req.ip)] == now;
      hide A.Offer, A.FirstMatch, A.DropAt, V4Check, Replying, BooksOk, QueueOk;
      var (st, outcome) := A.Offer(p, reply.payload, now, V4Check());
      ReplyingFields(s, reply, now, i);
      if outcome.Some? {
        ResolvedBooks(s, Replying(s, reply, now), i, outcome.value);
      } else {
        UpdatedBooks(s, i, st);
      }
    }
  }

  lemma SweepBooks(s: BondState, now: int)
    requires BooksOk(s) && QueueOk(s)
    ensures BooksOk(s.(queue := A.Swept(s.queue, now), resolved := SweptResolved(s.resolved, A.Dropped(s.queue, now), now)))
  {
    hide A.Swept, A.Dropped, SweptResolved;
    var r := s.(queue := A.Swept(s.queue, now), resolved := SweptResolved(s.resolved, A.Dropped(s.queue, now), now));
    var dropped := A.Dropped(s.queue, now);
    A.SweepTickets(s.queue, now);
    SweptOnly(s.resolved, dropped, now);
    hide A.Increasing, A.DistinctTickets;
    assert A.Tickets(dropped) <= A.Tickets(s.queue);
    MoreRequests(s, r);
  }

  /** A sweep resolves exactly the dropped requests, as timed out. */
  lemma {:induction false} SweptOnly(resolved: map<nat, Resolved>, ps: seq<A.Pending<Check>>, now: int)
    requires A.DistinctTickets(ps) && A.Tickets(ps) !! resolved.Keys
    ensures var r := SweptResolved(resolved, ps, now);
      && r.Keys == resolved.Keys + A.Tickets(ps)
      && (forall t :: t in resolved ==> r[t] == resolved[t])
      && (forall t :: t in r && t !in resolved ==> r[t].outcome == A.DeadlinePassed)
    decreases ps
  {
    if ps == [] {
      assert A.Tickets(ps) == {};
    } else {
      var p, rest := ps[0], ps[1..];
      A.TicketAt(ps, 0);
      A.ConcatTickets([p], rest);
      assert ps == [p] + rest;
      assert A.Tickets([p]) == {p.ticket} by {
        A.TicketAt([p], 0);
      }
      forall t | t in A.Tickets(rest)
        ensures t != p.ticket
      {
        var j :| 0 <= j < |rest| && rest[j].ticket == t;
        assert ps[j + 1] == rest[j];
      }
      var resolved1 := resolved[p.ticket := Resolved(A.DeadlinePassed, now)];
      hide A.Tickets;
      SweptOnly(resolved1, rest, now);
      assert resolved1.Keys == resolved.Keys + {p.ticket};
    }
  }

  // ---------- every step ----------

  lemma PacketBooks(s: BondState, a: Action, now: int)
    requires Inv(s) && BooksOk(s) && Enabled(s, a, now) && s.clock == now
    requires a.PingPacket? || a.PongPacket? || a.FindnodePacket? || a.EnrRequestPacket? || a.OtherReply?
    ensures BooksOk(Effect(s, a, now))
  {
    hide LogOk, CallsOk, BooksOk, Replying, Queued;
    match a {
      case PingPacket(e, expiration, token, pongSent) =>
        if expiration >= now {
          var s1 := Logged(s.(pings := s.pings[e := now]), PingRecorded(e, now));
          SameBooks(s, s1);
          if pongSent {
            if now - LastPong(s1, e) > BOND_EXPIRATION {
              RecordPing(s, e, now);
              QueuedBooks(s1, e, PONG, PongCheck(token, Some(e)), now);
            } else {
              SameBooks(s1, Logged(s1, SeenAdded(e, now)));
            }
          }
        }
      case PongPacket(e, expiration, token) =>
        if expiration >= now {
          var s1 := Logged(s.(pongs := s.pongs[e := now]), PongRecorded(e, now));
          SameBooks(s, s1);
          RecordPong(s, e, now);
          ReplyingBooks(s1, PongOf(e, token), now);
        }
      case FindnodePacket(e, expiration, enabled) =>
        SameBooks(s, Logged(s, NeighborsSent(e, now)));
      case EnrRequestPacket(e, expiration, enabled, faulty, token) =>
        SameBooks(s, Logged(s, EnrSent(e, now)));
        QueuedBooks(s, e, PONG, PongCheck(token, None), now);
      case OtherReply(e, kind, ok, done) =>
        ReplyingBooks(s, A.Reply(e.0, e.1, kind, OtherPayload(ok, done)), now);
    }
  }

  lemma SendingBooks(s: BondState, c: nat, bondedAt: int, now: int, otherwise: Stage)
    requires BooksOk(s) && QueueOk(s) && c < |s.calls|
    ensures BooksOk(Sending(s, c, bondedAt, now, otherwise))
  {
    hide BooksOk;
    var e := s.calls[c].e;
    if now - LastPing(s, e) < BOND_EXPIRATION {
      var s1 := Logged(s, RequestSent(e, now, bondedAt));
      SameBooks(s, s1);
      assert QueueOk(s1) by {
        assert forall p :: p in s1.queue ==> PendingOk(s, p);
      }
      QueuedBooks(s1, e, s.calls[c].kind, OtherCheck, now);
      hide Queued;
      SameBooks(Queued(s1, e, s.calls[c].kind, OtherCheck, now), Sending(s, c, bondedAt, now, otherwise));
    } else {
      SameBooks(s, WithStage(s, c, otherwise));
    }
  }

  lemma CallBooks(s: BondState, a: Action, now: int)
    requires Inv(s) && BooksOk(s) && Enabled(s, a, now) && s.clock == now
    requires a.Sweep? || a.PlainPing? || a.NewCall? || a.TryBond? || a.PongSeen? || a.TryPing? || a.WakeUp?
    ensures BooksOk(Effect(s, a, now))
  {
    hide LogOk, StoreOk, QueueOk, CallsOk, BooksOk, Sending, SweptResolved, A.Swept, A.Dropped, Queued;
    match a {
      case Sweep => SweepBooks(s, now);
      case PlainPing(e, token) => QueuedBooks(s, e, PONG, PongCheck(token, None), now);
      case NewCall(e, kind) => SameBooks(s, Effect(s, a, now));
      case TryBond(c, manyFails, token) =>
        var e := s.calls[c].e;
        if !CheckBond(s, e, now) || manyFails {
          QueuedBooks(s, e, PONG, PongCheck(token, None), now);
          SameBooks(Pinged(s, e, token, None, now), Effect(s, a, now));
        } else {
          SameBooks(s, Effect(s, a, now));
        }
      case PongSeen(c) => SameBooks(s, Effect(s, a, now));
      case TryPing(c) =>
        SendingBooks(s, c, s.calls[c].stage.bondedAt, now, Sleeping(s.calls[c].stage.bondedAt, now + 2));
      case WakeUp(c) => SendingBooks(s, c, s.calls[c].stage.bondedAt, now, Over);
    }
  }

  lemma BooksStep(s: BondState, a: Action, now: int)
    requires Inv(s) && BooksOk(s) && Enabled(s, a, now)
    ensures BooksOk(Apply(s, a, now))
  {
    hide Inv, BooksOk, Effect;
    LaterInv(s, now);
    LaterBooks(s, now);
    if a.PingPacket? || a.PongPacket? || a.FindnodePacket? || a.EnrRequestPacket? || a.OtherReply? {
      PacketBooks(s.(clock := now), a, now);
    } else {
      CallBooks(s.(clock := now), a, now);
    }
  }

  lemma LaterBooks(s: BondState, now: int)
    requires BooksOk(s)
    ensures BooksOk(s.(clock := now))
  {
    SameBooks(s, s.(clock := now));
  }

  lemma {:induction false} BooksOfRun(s: BondState, actions: seq<(Action, int)>, r: BondState)
    requires Inv(s) && BooksOk(s) && Reaches(s, actions, r)
    ensures Inv(r) && BooksOk(r)
    decreases actions
  {
    hide Inv, BooksOk, Apply, Enabled;
    if actions != [] {
      InvStep(s, actions[0].0, actions[0].1);
      BooksStep(s, actions[0].0, actions[0].1);
      BooksOfRun(Apply(s, actions[0].0, actions[0].1), actions[1..], r);
    }
  }

  // ---------- what an answer is worth ----------

  lemma BooksOfReachable(start: int, actions: seq<(Action, int)>, s: BondState)
    requires start > BOND_EXPIRATION && Reaches(Start(start), actions, s)
    ensures Inv(s) && BooksOk(s)
  {
    assert A.Tickets<Check>([]) == {};
    BooksOfRun(Start(start), actions, s);
  }

  /** In every reachable state an endpoint has proved itself, by answering a ping of ours less
      than a day ago, if and only if the last pong that answered one is less than a day old;
      and then the handler takes it for bonded. */
  lemma ProvenIff(start: int, actions: seq<(Action, int)>, s: BondState, e: Endpoint, now: int)
    requires start > BOND_EXPIRATION && Reaches(Start(start), actions, s) && s.clock <= now
    ensures Proven(s, e, now) <==> now - LastAnswered(s, e) < BOND_EXPIRATION
    ensures Proven(s, e, now) ==> CheckBond(s, e, now)
  {
    BooksOfReachable(start, actions, s);
    hide LogOk, QueueOk, CallsOk, A.Increasing, A.Tickets, Reaches;
    if Proven(s, e, now) {
      var t: nat :| AnsweredPing(s, e, t) && now - s.resolved[t].at < BOND_EXPIRATION;
      assert e in s.answered && s.resolved[t].at <= s.answered[e];
    }
    if now - LastAnswered(s, e) < BOND_EXPIRATION {
      assert e in s.answered;
      var t: nat :| AnsweredPing(s, e, t) && s.resolved[t].at == s.answered[e];
    }
  }

  /** An answer to somebody, or somebody entering the table. */
  predicate IsAnswer(entry: Entry, e: Endpoint, now: int) {
    entry == NeighborsSent(e, now) || entry == EnrSent(e, now) || entry == SeenAdded(e, now)
  }

  /** The entries a step added to the log. */
  function Added(s: BondState, r: BondState): seq<Entry> {
    if |s.log| <= |r.log| then r.log[|s.log|..] else []
  }

  ghost predicate AnswersTo(s: BondState, a: Action, now: int, e: Endpoint)
    requires Enabled(s, a, now)
  {
    exists entry :: entry in Added(s, Apply(s, a, now)) && IsAnswer(entry, e, now)
  }

  /** What can be known before the step: it is the pong itself, or the last answered ping of
      ours is recent. */
  predicate RecentlyAnswered(s: BondState, a: Action, now: int, e: Endpoint) {
    a.PongPacket? || now - LastAnswered(s, e) < BOND_EXPIRATION
  }

  lemma OnlyRepliesAnswer(s: BondState, a: Action, now: int)
    requires Enabled(s, a, now) && !a.PongPacket? && !a.OtherReply?
    ensures Apply(s, a, now).answered == s.answered
  {
    hide Replying, A.Swept, A.Dropped, SweptResolved, LastPong, LastPing;
  }

  lemma PongAnswers(s: BondState, e': Endpoint, expiration: int, token: nat, now: int, e: Endpoint)
    requires QueueOk(s) && s.clock <= now && AnswersTo(s, PongPacket(e', expiration, token), now, e)
    ensures LastAnswered(Apply(s, PongPacket(e', expiration, token), now), e) == now
  {
    var r := Apply(s, PongPacket(e', expiration, token), now);
    assert expiration < now ==> Added(s, r) == [];
    if expiration >= now {
      PongCallsBackIff(s, e', expiration, token, now);
      PingOfQueue(s, e');
      hide Effect, Pings, QueueOk;
      var ps := Pings(s.queue, e');
      var called := Answering(s, e', token, now) && ps[0].st.callback.Some?;
      assert Added(s, r) == [PongRecorded(e', now)] + if called then [SeenAdded(e', now)] else [];
    }
  }

  /** What a step that answers or adds somebody does to the answered pings. */
  lemma AnsweringStep(s: BondState, a: Action, now: int, e: Endpoint)
    requires QueueOk(s) && Enabled(s, a, now) && AnswersTo(s, a, now, e)
    ensures var r := Apply(s, a, now);
      if a.PongPacket? then LastAnswered(r, e) == now else LastAnswered(r, e) == LastAnswered(s, e)
  {
    if a.PongPacket? {
      PongAnswers(s, a.e, a.expiration, a.token, now, e);
    } else if a.OtherReply? {
      QueueLater(s, now);
      OtherRepliesAddNobody(s.(clock := now), A.Reply(a.e.0, a.e.1, a.kind, OtherPayload(a.ok, a.done)), now);
      hide Replying, AnswersTo, QueueOk;
    } else {
      OnlyRepliesAnswer(s, a, now);
      hide Effect, AnswersTo, QueueOk;
    }
  }

  lemma QueueLater(s: BondState, now: int)
    requires QueueOk(s) && s.clock <= now
    ensures QueueOk(s.(clock := now))
  {
    assert forall p :: p in s.queue ==> PendingOk(s, p);
  }

  lemma PingOfQueue(s: BondState, e: Endpoint)
    requires QueueOk(s)
    ensures var ps := Pings(s.queue, e);
      ps != [] && ps[0].st.PongCheck? && ps[0].st.callback.Some? ==> ps[0].st.callback.value == e
  {
    var i := A.FirstMatch(s.queue, PongOf(e, 0));
    FirstPing(s.queue, e, 0);
    if i < |s.queue| {
      assert s.queue[i] in s.queue;
      assert PendingOk(s, s.queue[i]);
    }
  }

  lemma OtherRepliesAddNobody(s: BondState, reply: A.Reply<Payload>, now: int)
    requires QueueOk(s) && reply.kind != PONG
    ensures Replying(s, reply, now).log == s.log && Replying(s, reply, now).answered == s.answered
  {
    var i := A.FirstMatch(s.queue, reply);
    if i < |s.queue| {
      assert s.queue[i] in s.queue;
      assert PendingOk(s, s.queue[i]);
    }
    hide A.FirstMatch, A.Offer, V4Check;
  }

  /** Whoever is answered with Neighbors or a record, or enters the table from a ping, in any
      run: the endpoint has proved itself if and only if this very packet is the pong that
      does so, or the last answer to a ping of ours is less than a day old. */
  lemma AnswerIsProvenIff(start: int, actions: seq<(Action, int)>, s: BondState, a: Action, now: int, e: Endpoint)
    requires start > BOND_EXPIRATION && Reaches(Start(start), actions, s)
    requires Enabled(s, a, now) && AnswersTo(s, a, now, e)
    ensures Proven(Apply(s, a, now), e, now) <==> RecentlyAnswered(s, a, now, e)
  {
    hide Effect, BooksOk, AnswersTo, Proven, LogOk, StoreOk, QueueOk, CallsOk, Reaches;
    BooksOfReachable(start, actions, s);
    AnsweringStep(s, a, now, e);
    OneMore(Start(start), actions, s, a, now);
    ClockStep(s, a, now);
    ProvenIff(start, actions + [(a, now)], Apply(s, a, now), e, now);
  }

  lemma ReplyingClock(s: BondState, reply: A.Reply<Payload>, now: int)
    ensures Replying(s, reply, now).clock == s.clock
  {
    hide A.FirstMatch, A.Offer, A.Replied, V4Check;
  }

  lemma ClockStep(s: BondState, a: Action, now: int)
    requires Enabled(s, a, now)
    ensures Apply(s, a, now).clock == now
  {
    hide Replying, A.Swept, A.Dropped, SweptResolved, LastPong, LastPing;
    if a.PongPacket? {
      ReplyingClock(Logged(s.(clock := now, pongs := s.pongs[a.e := now]), PongRecorded(a.e, now)), PongOf(a.e, a.token), now);
    } else if a.OtherReply? {
      ReplyingClock(s.(clock := now), A.Reply(a.e.0, a.e.1, a.kind, OtherPayload(a.ok, a.done)), now);
    }
  }

  lemma {:induction false} OneMore(s: BondState, actions: seq<(Action, int)>, r: BondState, a: Action, now: int)
    requires Reaches(s, actions, r) && Enabled(r, a, now)
    ensures Reaches(s, actions + [(a, now)], Apply(r, a, now))
    decreases actions
  {
    hide Effect;
    var longer := actions + [(a, now)];
    if actions == [] {
      assert longer[1..] == [] && longer[0] == (a, now);
      assert Reaches(Apply(r, a, now), [], Apply(r, a, now));
    } else {
      assert longer[1..] == actions[1..] + [(a, now)] && longer[0] == actions[0];
      OneMore(Apply(s, actions[0].0, actions[0].1), actions[1..], r, a, now);
    }
  }

  // ---------- which pongs make a bond worth something ----------

  /** Whatever counts as bonded, now or later, has proved itself by then. */
  ghost predicate Backed(s: BondState) {
    forall e, later :: s.clock <= later && CheckBond(s, e, later) ==> Proven(s, e, later)
  }

  ghost predicate BackedAt(s: BondState, e: Endpoint) {
    forall later :: s.clock <= later && CheckBond(s, e, later) ==> Proven(s, e, later)
  }

  /** What can be checked before a pong is handled: it answers our earliest pending ping to its
      sender, or another pong has done so at this very moment. */
  predicate PongGuard(s: BondState, a: Action, now: int) {
    a.PongPacket? && now <= a.expiration ==> Answering(s, a.e, a.token, now) || LastAnswered(s, a.e) == now
  }

  /** A bond is backed for good exactly when the last pong of the endpoint answered a ping, as
      long as that pong counts at all. */
  lemma BackedAtIff(start: int, actions: seq<(Action, int)>, s: BondState, e: Endpoint)
    requires start > BOND_EXPIRATION && Reaches(Start(start), actions, s)
    ensures LastPong(s, e) == s.clock ==> (BackedAt(s, e) <==> LastAnswered(s, e) == s.clock)
    ensures LastPong(s, e) == LastAnswered(s, e) ==> BackedAt(s, e)
  {
    hide Reaches, Proven, BooksOk;
    BooksOfReachable(start, actions, s);
    AnsweredByNow(s, e);
    forall later | s.clock <= later
      ensures Proven(s, e, later) <==> later - LastAnswered(s, e) < BOND_EXPIRATION
    {
      ProvenIff(start, actions, s, e, later);
    }
    if LastPong(s, e) == s.clock && LastAnswered(s, e) < s.clock {
      var later := if LastAnswered(s, e) + BOND_EXPIRATION < s.clock then s.clock else LastAnswered(s, e) + BOND_EXPIRATION;
      assert CheckBond(s, e, later) && !Proven(s, e, later);
    }
  }

  lemma AnsweredByNow(s: BondState, e: Endpoint)
    requires StoreOk(s) && BooksOk(s)
    ensures LastAnswered(s, e) <= s.clock
  {
  }

  /** After an unexpired pong its sender's bond is backed, now and later, if and only if the
      pong met the guard. */
  lemma PongIsBackedIff(start: int, actions: seq<(Action, int)>, s: BondState, a: Action, now: int)
    requires start > BOND_EXPIRATION && Reaches(Start(start), actions, s)
    requires a.PongPacket? && s.clock <= now <= a.expiration
    ensures BackedAt(Apply(s, a, now), a.e) <==> Answering(s, a.e, a.token, now) || LastAnswered(s, a.e) == now
  {
    hide Reaches, Effect, BackedAt, Answering;
    OneMore(Start(start), actions, s, a, now);
    PongCallsBackIff(s, a.e, a.expiration, a.token, now);
    PongTimes(s, a, now);
    ClockStep(s, a, now);
    BackedAtIff(start, actions + [(a, now)], Apply(s, a, now), a.e);
  }

  /** A step changes when pongs came only if it is an unexpired pong. */
  lemma PongTimes(s: BondState, a: Action, now: int)
    requires Enabled(s, a, now)
    ensures Apply(s, a, now).pongs == if a.PongPacket? && now <= a.expiration then s.pongs[a.e := now] else s.pongs
  {
    hide Replying, A.Swept, A.Dropped, SweptResolved, LastPong, LastPing;
    if a.PongPacket? {
      ReplyingPongs(Logged(s.(clock := now, pongs := s.pongs[a.e := now]), PongRecorded(a.e, now)), PongOf(a.e, a.token), now);
    } else if a.OtherReply? {
      ReplyingPongs(s.(clock := now), A.Reply(a.e.0, a.e.1, a.kind, OtherPayload(a.ok, a.done)), now);
    }
  }

  lemma ReplyingPongs(s: BondState, reply: A.Reply<Payload>, now: int)
    ensures Replying(s, reply, now).pongs == s.pongs
  {
    hide A.FirstMatch, A.Offer, A.Replied, V4Check;
  }

  /** Every recorded pong was an answer. */
  ghost predicate AllAnswers(s: BondState) {
    forall e :: LastPong(s, e) == LastAnswered(s, e)
  }

  lemma AnsweredTimes(s: BondState, a: Action, now: int)
    requires QueueOk(s) && Enabled(s, a, now)
    ensures Apply(s, a, now).answered ==
      if a.PongPacket? && now <= a.expiration && Answering(s, a.e, a.token, now) then s.answered[a.e := now] else s.answered
  {
    if a.PongPacket? {
      if now <= a.expiration {
        PongCallsBackIff(s, a.e, a.expiration, a.token, now);
        hide Effect, Answering, QueueOk;
      }
    } else if a.OtherReply? {
      QueueLater(s, now);
      OtherRepliesAddNobody(s.(clock := now), A.Reply(a.e.0, a.e.1, a.kind, OtherPayload(a.ok, a.done)), now);
      hide Replying, QueueOk;
    } else {
      OnlyRepliesAnswer(s, a, now);
      hide Effect, QueueOk;
    }
  }

  /** With only answers so far, a step keeps that up exactly when it meets the guard. */
  lemma AllAnswersStep(s: BondState, a: Action, now: int)
    requires QueueOk(s) && Enabled(s, a, now) && AllAnswers(s) && PongGuard(s, a, now)
    ensures AllAnswers(Apply(s, a, now))
  {
    PongTimes(s, a, now);
    AnsweredTimes(s, a, now);
    hide Effect, Apply, Answering, AllAnswers, LastAnswered, QueueOk, Enabled;
    if a.PongPacket? && now <= a.expiration {
      TimesAfterPong(s, Apply(s, a, now), a.e, now);
    } else {
      TimesStay(s, Apply(s, a, now));
    }
  }

  lemma TimesStay(s: BondState, r: BondState)
    requires AllAnswers(s) && r.pongs == s.pongs && r.answered == s.answered
    ensures AllAnswers(r)
  {
    forall e
      ensures LastPong(r, e) == LastAnswered(r, e)
    {
      assert LastPong(s, e) == LastAnswered(s, e);
    }
  }

  lemma TimesAfterPong(s: BondState, r: BondState, e0: Endpoint, now: int)
    requires AllAnswers(s) && r.pongs == s.pongs[e0 := now]
    requires r.answered == s.answered[e0 := now] || (r.answered == s.answered && LastAnswered(s, e0) == now)
    ensures AllAnswers(r)
  {
    forall e
      ensures LastPong(r, e) == LastAnswered(r, e)
    {
      assert LastPong(s, e) == LastAnswered(s, e);
    }
  }

  lemma AllAnswersBacked(start: int, actions: seq<(Action, int)>, s: BondState)
    requires start > BOND_EXPIRATION && Reaches(Start(start), actions, s) && AllAnswers(s)
    ensures Backed(s)
  {
    hide Reaches, Proven, CheckBond;
    forall e, later | s.clock <= later && CheckBond(s, e, later)
      ensures Proven(s, e, later)
    {
      BackedAtIff(start, actions, s, e);
      assert BackedAt(s, e);
    }
  }

  lemma BackedEverywhere(s: BondState, e: Endpoint)
    requires Backed(s)
    ensures BackedAt(s, e)
  {
  }

  /** In every state of the run every bond is backed, then and later. */
  ghost predicate AlwaysBacked(s: BondState, actions: seq<(Action, int)>)
    decreases actions
  {
    Backed(s) &&
    (actions == [] || (Enabled(s, actions[0].0, actions[0].1) && AlwaysBacked(Apply(s, actions[0].0, actions[0].1), actions[1..])))
  }

  /** Every unexpired pong of the run met the guard. */
  ghost predicate PongsAnswer(s: BondState, actions: seq<(Action, int)>)
    decreases actions
  {
    actions == [] ||
    var (a, now) := actions[0];
    Enabled(s, a, now) && PongGuard(s, a, now) && PongsAnswer(Apply(s, a, now), actions[1..])
  }

  lemma {:induction false} RunIsBackedFrom(start: int, before: seq<(Action, int)>, s: BondState, actions: seq<(Action, int)>)
    requires start > BOND_EXPIRATION && Reaches(Start(start), before, s) && AllAnswers(s)
    ensures AlwaysBacked(s, actions) <==> PongsAnswer(s, actions)
    decreases actions
  {
    hide Reaches, Effect, Backed, BackedAt, Answering, AllAnswers, LastAnswered, Enabled, BooksOk, LogOk, StoreOk, QueueOk, CallsOk, Apply;
    AllAnswersBacked(start, before, s);
    if actions != [] && Enabled(s, actions[0].0, actions[0].1) {
      var (a, now) := actions[0];
      var r := Apply(s, a, now);
      OneMore(Start(start), before, s, a, now);
      if PongGuard(s, a, now) {
        BooksOfReachable(start, before, s);
        AllAnswersStep(s, a, now);
        RunIsBackedFrom(start, before + [(a, now)], r, actions[1..]);
      } else {
        StepTime(s, a, now);
        PongIsBackedIff(start, before, s, a, now);
        if Backed(r) {
          BackedEverywhere(r, a.e);
        }
      }
    }
  }

  lemma StepTime(s: BondState, a: Action, now: int)
    requires Enabled(s, a, now)
    ensures s.clock <= now
  {
  }

  /** Over a whole run: in every state each bond is backed, at that time and at all later
      ones, if and only if each unexpired pong of the run answered our earliest pending ping
      to its sender, with the right token and in time (or came at the same moment as one that
      did). */
  lemma RunIsBackedIff(start: int, actions: seq<(Action, int)>)
    requires start > BOND_EXPIRATION
    ensures AlwaysBacked(Start(start), actions) <==> PongsAnswer(Start(start), actions)
  {
    RunIsBackedFrom(start, [], Start(start), actions);
  }

  /** Who is answered without having proved itself: exactly those whose last pong is recent
      while the last one that answered a ping of ours is not. */
  lemma UnprovenAnswerIff(start: int, actions: seq<(Action, int)>, s: BondState, e: Endpoint, expiration: int, enabled: bool,
                          faulty: bool, token: nat, now: int)
    requires start > BOND_EXPIRATION && Reaches(Start(start), actions, s) && s.clock <= now
    ensures var unproven := enabled && expiration >= now && now - LastPong(s, e) < BOND_EXPIRATION <= now - LastAnswered(s, e);
      && (NeighborsSent(e, now) in Added(s, Apply(s, FindnodePacket(e, expiration, enabled), now)) && !Proven(s, e, now)
          <==> unproven)
      && (EnrSent(e, now) in Added(s, Apply(s, EnrRequestPacket(e, expiration, enabled, faulty, token), now)) && !Proven(s, e, now)
          <==> unproven)
    ensures SeenAdded(e, now) in Added(s, Apply(s, PingPacket(e, expiration, token, enabled), now)) && !Proven(s, e, now)
      <==> enabled && expiration >= now && now - LastPong(s, e) <= BOND_EXPIRATION <= now - LastAnswered(s, e)
  {
    ProvenIff(start, actions, s, e, now);
    AnsweredIff(s, e, expiration, enabled, faulty, token, now);
    hide *;
  }

  /** It happens: after a pong nobody asked for, its sender gets Neighbors and enters the table
      with its first ping, although we never sent anything that it could have answered. */
  lemma UnsolicitedPong(start: int, e: Endpoint, token: nat)
    requires start > BOND_EXPIRATION
    ensures exists s ::
      && Reaches(Start(start), [(PongPacket(e, start, token), start), (FindnodePacket(e, start, true), start),
                                (PingPacket(e, start, token, true), start)], s)
      && s.requests == [] && !Proven(s, e, start)
      && NeighborsSent(e, start) in s.log && SeenAdded(e, start) in s.log
  {
    var s0 := Start(start);
    var a1, a2, a3 := PongPacket(e, start, token), FindnodePacket(e, start, true), PingPacket(e, start, token, true);
    var s1 := Apply(s0, a1, start);
    assert s1.log == [PongRecorded(e, start)] && s1.pongs == map[e := start] && s1.requests == [];
    var s2 := Apply(s1, a2, start);
    assert s2.log == [PongRecorded(e, start), NeighborsSent(e, start)] && s2.pongs == s1.pongs && s2.requests == [];
    var s3 := Apply(s2, a3, start);
    assert s3.requests == [];
    assert s3.log == [PongRecorded(e, start), NeighborsSent(e, start)] + [PingRecorded(e, start)] + [SeenAdded(e, start)];
    ThreeSteps(s0, (a1, start), (a2, start), (a3, start));
  }
}
