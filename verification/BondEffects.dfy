/** What the actions of the bond protocol do to the pending requests, said without them. */
module BondEffects {
  import opened Distance
  import opened Nodes
  import A = Awaiter
  import F = ReplyFate
  import opened Bond
  import opened EndpointProof

  // ---------- Neighbors and ENR responses ----------

  /** What a response of a kind other than pongs does to the request it is offered to; the two
      flags are the verdict of the checker. */
  function SettledBy(p: A.Pending<Check>, ok: bool, done: bool, now: int): Option<A.Outcome> {
    if now > p.req.expiration then Some(A.DeadlinePassed)
    else if ok && done then Some(A.Matched)
    else if !ok && !done then Some(A.InvalidResponse)
    else None
  }

  lemma OfferedOther(p: A.Pending<Check>, ok: bool, done: bool, now: int)
    ensures A.Offer(p, OtherPayload(ok, done), now, V4Check()) == (p.st, SettledBy(p, ok, done, now))
  {
  }

  /** A response reaches the earliest request of its kind to its sender: it is matched if it is
      in time and the checker says (true, true), invalid if it is in time and the checker says
      (false, false), timed out if it is late, and pending as before otherwise. All other
      requests, and everything else, stay as they are. */
  lemma ResponseEffect(s: BondState, e: Endpoint, kind: nat, ok: bool, done: bool, now: int)
    requires QueueOk(s) && s.clock <= now && (kind == NEIGHBORS || kind == ENR_RESPONSE)
    ensures var r, ws := Apply(s, OtherReply(e, kind, ok, done), now), F.Waiting(s.queue, e.0, e.1, kind);
      if ws == [] || SettledBy(ws[0], ok, done, now).None? then r == s.(clock := now)
      else
        && r == s.(clock := now, queue := r.queue,
                   resolved := s.resolved[ws[0].ticket := Resolved(SettledBy(ws[0], ok, done, now).value, now)])
        && F.Waiting(r.queue, e.0, e.1, kind) == ws[1..]
        && exists i :: 0 <= i < |s.queue| && s.queue[i] == ws[0] && r.queue == A.DropAt(s.queue, i)
  {
    var reply := A.Reply(e.0, e.1, kind, OtherPayload(ok, done));
    var i := A.FirstMatch(s.queue, reply);
    F.FirstWaiting(s.queue, reply);
    assert Apply(s, OtherReply(e, kind, ok, done), now) == Replying(s.(clock := now), reply, now);
    hide Apply, Effect, QueueOk, Replying, V4Check, A.FirstMatch, F.Waiting, A.DropAt, A.Offer, SettledBy;
    if i < |s.queue| {
      OfferedOther(s.queue[i], ok, done, now);
      NotAPing(s, i);
      OtherReplied(s.(clock := now), reply, now, i);
      assert s.queue[i := s.queue[i].(st := s.queue[i].st)] == s.queue;
    } else {
      NobodyReplied(s.(clock := now), reply, now);
    }
  }

  lemma NotAPing(s: BondState, i: nat)
    requires QueueOk(s) && i < |s.queue| && s.queue[i].req.expectedKind != PONG
    ensures !s.queue[i].st.PongCheck?
  {
    PendingAt(s, i);
  }

  lemma NobodyReplied(s: BondState, reply: A.Reply<Payload>, now: int)
    requires A.FirstMatch(s.queue, reply) >= |s.queue|
    ensures Replying(s, reply, now) == s
  {
    hide A.Offer, A.FirstMatch, V4Check, A.DropAt;
  }

  /** The awaiter's part of it. */
  lemma OtherReplied(s: BondState, reply: A.Reply<Payload>, now: int, i: nat)
    requires i == A.FirstMatch(s.queue, reply) < |s.queue|
    requires s.queue[i].req.expectedKind != PONG && !s.queue[i].st.PongCheck?
    ensures var p := s.queue[i];
      var (st, outcome) := A.Offer(p, reply.payload, now, V4Check());
      Replying(s, reply, now) ==
        if outcome.None? then s.(queue := s.queue[i := p.(st := st)])
        else s.(queue := A.DropAt(s.queue, i), resolved := s.resolved[p.ticket := Resolved(outcome.value, now)])
  {
    hide A.Offer, A.FirstMatch, V4Check, A.DropAt;
  }

  // ---------- deadlines ----------

  /** A sweep times out expired requests and no others, keeps the rest, and leaves no expired one
      unless one stands behind a live one; what was resolved before stays as it was. */
  lemma SweepEffect(s: BondState, now: int)
    requires QueueOk(s) && BooksOk(s) && s.clock <= now
    ensures var r := Apply(s, Sweep, now);
      && (forall p :: p in s.queue ==>
            if p in r.queue then p.ticket !in r.resolved
            else A.Expired(p, now) && p.ticket in r.resolved && r.resolved[p.ticket] == Resolved(A.DeadlinePassed, now))
      && (forall t :: t in s.resolved ==> t in r.resolved && r.resolved[t] == s.resolved[t])
      && (A.ExpiredFirst(s.queue, now) ==> forall p :: p in r.queue ==> !A.Expired(p, now))
      && r.log == s.log && r.requests == s.requests
  {
    var r, q, gone := Apply(s, Sweep, now), s.queue, A.Dropped(s.queue, now);
    A.SweepIsSafe(q, now);
    A.SweepTickets(q, now);
    SweptAll(s.resolved, gone, now);
    if A.ExpiredFirst(q, now) {
      A.SweepIsCompleteIff(q, now);
      LiveOnly(q, now);
    }
    hide A.Swept, A.Dropped, A.Live, A.Increasing, A.DistinctTickets, A.Tickets, SweptResolved, A.ExpiredFirst;
    forall p | p in q
      ensures if p in r.queue then p.ticket !in r.resolved
              else A.Expired(p, now) && p.ticket in r.resolved && r.resolved[p.ticket] == Resolved(A.DeadlinePassed, now)
    {
      HasTicket(q, p);
      if p in r.queue {
        HasTicket(r.queue, p);
        assert p.ticket !in A.Tickets(gone);
      } else {
        assert p in multiset(q);
        assert p in multiset(A.Swept(q, now)) + multiset(gone);
        assert p in gone;
        HasTicket(gone, p);
      }
    }
  }

  lemma HasTicket(q: seq<A.Pending<Check>>, p: A.Pending<Check>)
    requires p in q
    ensures p.ticket in A.Tickets(q)
  {
  }

  lemma {:induction false} LiveOnly(q: seq<A.Pending<Check>>, now: int)
    ensures forall p :: p in A.Live(q, now) ==> !A.Expired(p, now)
  {
    if q != [] {
      LiveOnly(q[1..], now);
    }
  }

  /** A sweep resolves exactly the dropped requests, as timed out now. */
  lemma {:induction false} SweptAll(resolved: map<nat, Resolved>, ps: seq<A.Pending<Check>>, now: int)
    requires A.DistinctTickets(ps) && A.Tickets(ps) !! resolved.Keys
    ensures var r := SweptResolved(resolved, ps, now);
      && r.Keys == resolved.Keys + A.Tickets(ps)
      && (forall t :: t in resolved ==> r[t] == resolved[t])
      && (forall t :: t in r && t !in resolved ==> r[t] == Resolved(A.DeadlinePassed, now))
  {
    SweptOnly(resolved, ps, now);
    SweptNow(resolved, ps, now);
  }

  lemma SweptNow(resolved: map<nat, Resolved>, ps: seq<A.Pending<Check>>, now: int)
    ensures forall t :: t in SweptResolved(resolved, ps, now) && t !in resolved ==>
      SweptResolved(resolved, ps, now)[t] == Resolved(A.DeadlinePassed, now)
  {
    SweptResolvedMeaning(resolved, ps, now);
  }

  // ---------- calls to endpoints that are not bonded ----------

  /** A call to an endpoint without a recent pong pings it first and waits. */
  lemma UnbondedCallPings(s: BondState, c: nat, token: nat, now: int)
    requires s.clock <= now && At(s, c, Starting) && !CheckBond(s, s.calls[c].e, now)
    ensures var e, r := s.calls[c].e, Apply(s, TryBond(c, false, token), now);
      var p := A.Pending(|s.requests|, A.Request(e.0, e.1, PONG, now + EXPIRATION), now, PongCheck(token, None));
      && r.queue == s.queue + [p] && r.requests == s.requests + [p.req]
      && At(r, c, AwaitingPong(|s.requests|)) && r.calls[c].e == e && r.calls[c].kind == s.calls[c].kind
      && r.clock == now && r.log == s.log && r.resolved == s.resolved && r.pings == s.pings
  {
  }

  /** Once its ping is settled the call goes on exactly if the ping was answered; then it sends
      its request at once if the endpoint pinged us lately, and waits two seconds for such a
      ping otherwise. */
  lemma CallGoesOnIff(s: BondState, c: nat, now: int)
    requires Enabled(s, PongSeen(c), now)
    ensures var e, settled := s.calls[c].e, s.resolved[s.calls[c].stage.ticket];
      var r := Apply(s, PongSeen(c), now);
      if settled.outcome != A.Matched then At(r, c, Over) && r.log == s.log && r.queue == s.queue
      else
        && Enabled(r, TryPing(c), now)
        && var t := Apply(r, TryPing(c), now);
           if now - LastPing(s, e) < BOND_EXPIRATION
           then && t.log == s.log + [RequestSent(e, now, settled.at)] && At(t, c, Over)
                && t.queue == s.queue + [A.Pending(|s.requests|, A.Request(e.0, e.1, s.calls[c].kind, now + EXPIRATION), now, OtherCheck)]
           else && t.log == s.log && t.queue == s.queue && At(t, c, Sleeping(settled.at, now + 2))
  {
    hide Replying, SweptResolved;
  }

  /** The whole way: a call to an endpoint that is not bonded, with no earlier ping to it
      pending, goes out if the right pong comes in time and the endpoint has pinged us lately. */
  lemma UnbondedCall(s: BondState, c: nat, token: nat, now: int, pongExpiration: int, later: int)
    requires s.clock <= now <= later <= now + EXPIRATION && later <= pongExpiration
    requires At(s, c, Starting) && !CheckBond(s, s.calls[c].e, now)
    requires Pings(s.queue, s.calls[c].e) == [] && later - LastPing(s, s.calls[c].e) < BOND_EXPIRATION
    ensures var e := s.calls[c].e;
      var s1 := Apply(s, TryBond(c, false, token), now);
      var s2 := Apply(s1, PongPacket(e, pongExpiration, token), later);
      && Enabled(s2, PongSeen(c), later)
      && var s3 := Apply(s2, PongSeen(c), later);
         Enabled(s3, TryPing(c), later)
         && Apply(s3, TryPing(c), later).log == s.log + [PongRecorded(e, later), RequestSent(e, later, later)]
  {
    UnbondedCallPings(s, c, token, now);
    hide Effect, Apply, Pings, LastPing, CheckBond;
    var e := s.calls[c].e;
    var s1 := Apply(s, TryBond(c, false, token), now);
    var s2 := Apply(s1, PongPacket(e, pongExpiration, token), later);
    hide *;
    AnsweredInTime(s, c, token, now, pongExpiration, later);
    CallGoesOnIff(s2, c, later);
    assert s.log + [PongRecorded(e, later)] + [RequestSent(e, later, later)] == s.log + [PongRecorded(e, later), RequestSent(e, later, later)];
  }

  /** The pong of it: the ping of the call is matched and the call can see so. */
  lemma AnsweredInTime(s: BondState, c: nat, token: nat, now: int, pongExpiration: int, later: int)
    requires s.clock <= now <= later <= now + EXPIRATION && later <= pongExpiration
    requires At(s, c, Starting) && !CheckBond(s, s.calls[c].e, now) && Pings(s.queue, s.calls[c].e) == []
    ensures var e := s.calls[c].e;
      var r := Apply(Apply(s, TryBond(c, false, token), now), PongPacket(e, pongExpiration, token), later);
      && Enabled(r, PongSeen(c), later) && r.calls[c].e == e && LastPing(r, e) == LastPing(s, e)
      && r.resolved[r.calls[c].stage.ticket] == Resolved(A.Matched, later)
      && r.log == s.log + [PongRecorded(e, later)]
  {
    var e := s.calls[c].e;
    var s1 := Apply(s, TryBond(c, false, token), now);
    var p := A.Pending(|s.requests|, A.Request(e.0, e.1, PONG, now + EXPIRATION), now, PongCheck(token, None));
    UnbondedCallPings(s, c, token, now);
    PingsConcat(s.queue, [p], e);
    OnePing(p, e);
    hide Apply, Effect, Pings, CheckBond;
    assert Pings(s1.queue, e) == [p];
    RightPong(s1, c, p, token, pongExpiration, later);
  }

  lemma RightPong(s: BondState, c: nat, p: A.Pending<Check>, token: nat, expiration: int, now: int)
    requires s.clock <= now <= expiration && now <= p.req.expiration && p.st == PongCheck(token, None)
    requires At(s, c, AwaitingPong(p.ticket)) && Pings(s.queue, s.calls[c].e) == [p]
    ensures var e := s.calls[c].e;
      var r := Apply(s, PongPacket(e, expiration, token), now);
      && Enabled(r, PongSeen(c), now) && r.calls == s.calls && r.pings == s.pings
      && r.resolved[p.ticket] == Resolved(A.Matched, now)
      && r.log == s.log + [PongRecorded(e, now)]
  {
    var e := s.calls[c].e;
    PongCallsBackIff(s, e, expiration, token, now);
    PongKeepsCalls(s, e, expiration, token, now);
    hide Apply, Effect, Pings;
  }

  lemma PongKeepsCalls(s: BondState, e: Endpoint, expiration: int, token: nat, now: int)
    requires s.clock <= now <= expiration
    ensures var r := Apply(s, PongPacket(e, expiration, token), now);
      r.calls == s.calls && r.pings == s.pings && r.clock == now && r.requests == s.requests
  {
    hide A.FirstMatch, A.Offer, A.Replied, V4Check;
  }

  /** A sleeping call sends its request when it wakes up exactly if the endpoint has pinged us
      lately by then, and is over in any case. */
  lemma SleeperSendsIff(s: BondState, c: nat, now: int)
    requires Enabled(s, WakeUp(c), now)
    ensures var e, r, pinged := s.calls[c].e, Apply(s, WakeUp(c), now), now - LastPing(s, s.calls[c].e) < BOND_EXPIRATION;
      && At(r, c, Over)
      && r.log == s.log + (if pinged then [RequestSent(e, now, s.calls[c].stage.bondedAt)] else [])
      && r.queue == s.queue + if pinged
           then [A.Pending(|s.requests|, A.Request(e.0, e.1, s.calls[c].kind, now + EXPIRATION), now, OtherCheck)] else []
  {
  }

  // ---------- who is pinged, and which calls there are ----------

  /** The reasons to ping an endpoint. */
  predicate IsPinged(s: BondState, a: Action, now: int, e: Endpoint)
    requires Enabled(s, a, now)
  {
    match a
    case PingPacket(x, expiration, _, pongSent) => x == e && expiration >= now && pongSent && now - LastPong(s, e) > BOND_EXPIRATION
    case EnrRequestPacket(x, expiration, enabled, faulty, _) =>
      x == e && enabled && expiration >= now && !faulty && now - LastPong(s, e) >= BOND_EXPIRATION
    case PlainPing(x, _) => x == e
    case TryBond(c, manyFails, _) => s.calls[c].e == e && (manyFails || now - LastPong(s, e) >= BOND_EXPIRATION)
    case _ => false
  }

  /** A step sends a ping to an endpoint exactly for one of these reasons: a ping or a request
      for our record from a sender without a recent pong, a ping of our own, or a call. The
      ping waits at the end of the queue, and calls back only if it answers a ping. */
  lemma PingedIff(s: BondState, a: Action, now: int, e: Endpoint)
    requires CallsOk(s) && Enabled(s, a, now)
    ensures IsPinged(s, a, now, e) <==>
      exists t :: |s.requests| <= t < |Apply(s, a, now).requests| && IsPing(Apply(s, a, now).requests[t], e)
    ensures IsPinged(s, a, now, e) ==>
      var r := Apply(s, a, now);
      && r.requests == s.requests + [PingTo(e, now)]
      && r.queue == s.queue + [A.Pending(|s.requests|, PingTo(e, now), now, PongCheck(a.token, if a.PingPacket? then Some(e) else None))]
  {
    var r := Apply(s, a, now);
    if a.PingPacket? || a.EnrRequestPacket? || a.PlainPing? || a.TryBond? {
      SentForReason(s, a, now, e);
      hide Apply, IsPinged, CallsOk;
      if IsPinged(s, a, now, e) {
        assert r.requests[|s.requests|] == PingTo(e, now);
      }
    } else {
      NoneSent(s, a, now);
      hide Apply, CallsOk;
    }
  }

  function PingTo(e: Endpoint, now: int): A.Request {
    A.Request(e.0, e.1, PONG, now + EXPIRATION)
  }

  /** Whom a step that may ping would ping. */
  function Target(s: BondState, a: Action): Endpoint
    requires a.PingPacket? || a.EnrRequestPacket? || a.PlainPing? || (a.TryBond? && a.c < |s.calls|)
  {
    if a.TryBond? then s.calls[a.c].e else a.e
  }

  lemma SentForReason(s: BondState, a: Action, now: int, e: Endpoint)
    requires Enabled(s, a, now)
    requires a.PingPacket? || a.EnrRequestPacket? || a.PlainPing? || (a.TryBond? && a.c < |s.calls|)
    ensures Apply(s, a, now).requests == s.requests + (if IsPinged(s, a, now, Target(s, a)) then [PingTo(Target(s, a), now)] else [])
    ensures e != Target(s, a) ==> !IsPinged(s, a, now, e)
    ensures IsPinged(s, a, now, e) ==>
      Apply(s, a, now).queue == s.queue +
        [A.Pending(|s.requests|, PingTo(e, now), now, PongCheck(a.token, if a.PingPacket? then Some(e) else None))]
  {
    var s0 := s.(clock := now);
    if a.TryBond? {
      assert IsPinged(s, a, now, Target(s, a)) <==> !CheckBond(s0, s.calls[a.c].e, now) || a.manyFails;
      if IsPinged(s, a, now, Target(s, a)) {
        TriedBond(s0, a.c, a.manyFails, a.token, now);
        hide Effect, Pinged, CheckBond;
      }
    } else if a.PlainPing? {
      hide CheckBond;
    }
  }

  lemma TriedBond(s: BondState, c: nat, manyFails: bool, token: nat, now: int)
    requires Enabled(s, TryBond(c, manyFails, token), now) && (!CheckBond(s, s.calls[c].e, now) || manyFails)
    ensures var r, p := Effect(s, TryBond(c, manyFails, token), now), Pinged(s, s.calls[c].e, token, None, now);
      && r.requests == p.requests == s.requests + [PingTo(s.calls[c].e, now)]
      && r.queue == p.queue == s.queue + [A.Pending(|s.requests|, PingTo(s.calls[c].e, now), now, PongCheck(token, None))]
  {
    hide CheckBond;
  }

  lemma NoneSent(s: BondState, a: Action, now: int)
    requires CallsOk(s) && Enabled(s, a, now)
    requires !(a.PingPacket? || a.EnrRequestPacket? || a.PlainPing? || a.TryBond?)
    ensures forall t :: |s.requests| <= t < |Apply(s, a, now).requests| ==> Apply(s, a, now).requests[t].expectedKind != PONG
  {
    hide A.FirstMatch, A.Offer, A.Replied, V4Check, A.Swept, A.Dropped, SweptResolved;
    if a.TryPing? || a.WakeUp? {
      assert s.calls[a.c] in s.calls;
    }
  }

  /** The calls a run opens, read from its actions. */
  function Opened(actions: seq<(Action, int)>): seq<(Endpoint, nat)>
    decreases actions
  {
    if actions == [] then []
    else (if actions[0].0.NewCall? then [(actions[0].0.e, actions[0].0.kind)] else []) + Opened(actions[1..])
  }

  function Purposes(s: BondState): seq<(Endpoint, nat)> {
    seq(|s.calls|, c requires 0 <= c < |s.calls| => (s.calls[c].e, s.calls[c].kind))
  }

  lemma PurposesStep(s: BondState, a: Action, now: int)
    requires Enabled(s, a, now)
    ensures Purposes(Apply(s, a, now)) == Purposes(s) + if a.NewCall? then [(a.e, a.kind)] else []
    ensures a.NewCall? ==> At(Apply(s, a, now), |s.calls|, Starting)
  {
    CallsAfter(s, a, now);
    hide Apply, Enabled;
  }

  lemma CallsAfter(s: BondState, a: Action, now: int)
    requires Enabled(s, a, now)
    ensures var calls, calls' := s.calls, Apply(s, a, now).calls;
      if a.NewCall? then calls' == calls + [Call(a.e, a.kind, Starting)]
      else
        && |calls'| == |calls|
        && forall c :: 0 <= c < |calls| ==> calls'[c].e == calls[c].e && calls'[c].kind == calls[c].kind
  {
    if a.TryBond? || a.PongSeen? || a.TryPing? || a.WakeUp? {
      StageOnly(s, a, now);
    } else if !a.NewCall? {
      CallsKept(s, a, now);
    }
    if !a.NewCall? {
      hide Apply, Enabled;
    }
  }

  lemma StageOnly(s: BondState, a: Action, now: int)
    requires Enabled(s, a, now) && (a.TryBond? || a.PongSeen? || a.TryPing? || a.WakeUp?)
    ensures a.c < |s.calls|
    ensures SameButStage(s.calls, Apply(s, a, now).calls, a.c)
  {
    var s0 := s.(clock := now);
    if a.TryPing? || a.WakeUp? {
      SendingKeeps(s0, a.c, s.calls[a.c].stage.bondedAt, now,
                   if a.WakeUp? then Over else Sleeping(s.calls[a.c].stage.bondedAt, now + 2));
      hide Sending;
    }
  }

  predicate SameButStage(calls: seq<Call>, calls': seq<Call>, c: nat) {
    c < |calls| == |calls'| && calls' == calls[c := calls[c].(stage := calls'[c].stage)]
  }

  lemma SendingKeeps(s: BondState, c: nat, bondedAt: int, now: int, otherwise: Stage)
    requires c < |s.calls|
    ensures SameButStage(s.calls, Sending(s, c, bondedAt, now, otherwise).calls, c)
  {
    hide LastPing;
  }

  lemma CallsKept(s: BondState, a: Action, now: int)
    requires Enabled(s, a, now) && !(a.TryBond? || a.PongSeen? || a.TryPing? || a.WakeUp? || a.NewCall?)
    ensures Apply(s, a, now).calls == s.calls
  {
    hide A.FirstMatch, A.Offer, A.Replied, V4Check, A.Swept, A.Dropped, SweptResolved;
  }

  lemma {:induction false} OpenedFrom(s: BondState, actions: seq<(Action, int)>, r: BondState)
    requires Reaches(s, actions, r)
    ensures Purposes(r) == Purposes(s) + Opened(actions)
    decreases actions
  {
    hide Apply, Enabled, Purposes;
    if actions == [] {
      assert Purposes(s) + [] == Purposes(s);
    } else {
      var (a, now) := actions[0];
      PurposesStep(s, a, now);
      OpenedFrom(Apply(s, a, now), actions[1..], r);
      var x := if a.NewCall? then [(a.e, a.kind)] else [];
      assert Purposes(s) + x + Opened(actions[1..]) == Purposes(s) + (x + Opened(actions[1..]));
    }
  }

  /** In every run the calls are exactly those that were opened, in order, and each starts at
      the beginning. */
  lemma CallsAreOpened(start: int, actions: seq<(Action, int)>, s: BondState, a: Action, now: int)
    requires start > BOND_EXPIRATION && Reaches(Start(start), actions, s) && Enabled(s, a, now)
    ensures Purposes(s) == Opened(actions)
    ensures a.NewCall? ==> At(Apply(s, a, now), |s.calls|, Starting)
  {
    OpenedFrom(Start(start), actions, s);
    PurposesStep(s, a, now);
  }
}
