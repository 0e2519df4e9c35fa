/** The endpoint proof of the v4 handler: who gets an answer, who enters the table, and when
    a request of our own may go out.

  Every action is one handler call at one reading of the clock, one stage of an outgoing
  call, or one deadline sweep; they interleave freely. Times are in seconds. A recorded time
  is 0 when there is none, as the node database has it. */
module Bond {
  import opened Distance
  import opened Nodes
  import opened A = Awaiter

  const BOND_EXPIRATION: int := 24 * 60 * 60
  const EXPIRATION: int := 20

  const PONG: nat := 2
  const NEIGHBORS: nat := 4
  const ENR_RESPONSE: nat := 6

  type Endpoint = (Id, IP)

  /** The checker of a pending request: a ping waits for its own token and may call back
      with the endpoint to add; the verdicts of other checkers are up to the reply. */
  datatype Check = PongCheck(token: nat, callback: Option<Endpoint>) | OtherCheck

  datatype Payload = PongPayload(token: nat) | OtherPayload(ok: bool, done: bool)

  function V4Check(): (Check, Payload) -> (Check, bool, bool) {
    (c: Check, p: Payload) =>
      match (c, p)
      case (PongCheck(token, _), PongPayload(t)) => (c, t == token, t == token)
      case (_, OtherPayload(ok, done)) => (c, ok, done)
      case _ => (c, false, false)
  }

  /** What the handler recorded, sent out or added to the table, and when. `bondedAt` is when
      the caller of a request saw the bond. */
  datatype Entry =
    | PongRecorded(e: Endpoint, at: int)
    | PingRecorded(e: Endpoint, at: int)
    | NeighborsSent(e: Endpoint, at: int)
    | EnrSent(e: Endpoint, at: int)
    | SeenAdded(e: Endpoint, at: int)
    | RequestSent(e: Endpoint, at: int, bondedAt: int)

  /** The stages of an outgoing FindNode or ENR request. */
  datatype Stage =
    | Starting
    | AwaitingPong(ticket: nat)
    | CheckingPing(bondedAt: int)
    | Sleeping(bondedAt: int, until: int)
    | Over

  datatype Call = Call(e: Endpoint, kind: nat, stage: Stage)

  datatype Resolved = Resolved(outcome: Outcome, at: int)

  datatype BondState = BondState(
    clock: int,
    pongs: map<Endpoint, int>,
    pings: map<Endpoint, int>,
    answered: map<Endpoint, int>,      // when a pong last answered a pending ping of ours
    queue: seq<Pending<Check>>,
    requests: seq<Request>,
    resolved: map<nat, Resolved>,
    calls: seq<Call>,
    log: seq<Entry>)

  datatype Action =
    | PingPacket(e: Endpoint, expiration: int, token: nat, pongSent: bool)
    | PongPacket(e: Endpoint, expiration: int, token: nat)
    | FindnodePacket(e: Endpoint, expiration: int, enabled: bool)
    | EnrRequestPacket(e: Endpoint, expiration: int, enabled: bool, faulty: bool, token: nat)
    | OtherReply(e: Endpoint, kind: nat, ok: bool, done: bool)
    | Sweep
    | PlainPing(e: Endpoint, token: nat)
    | NewCall(e: Endpoint, kind: nat)
    | TryBond(c: nat, manyFails: bool, token: nat)
    | PongSeen(c: nat)
    | TryPing(c: nat)
    | WakeUp(c: nat)

  /** The clock is past the first day of the epoch, so that a missing record is an old one. */
  function Start(now: int): BondState
    requires now > BOND_EXPIRATION
  {
    BondState(now, map[], map[], map[], [], [], map[], [], [])
  }

  function LastPong(s: BondState, e: Endpoint): int {
    if e in s.pongs then s.pongs[e] else 0
  }

  function LastPing(s: BondState, e: Endpoint): int {
    if e in s.pings then s.pings[e] else 0
  }

  /** Not part of the store: when our own ping was last answered. */
  function LastAnswered(s: BondState, e: Endpoint): int {
    if e in s.answered then s.answered[e] else 0
  }

  predicate CheckBond(s: BondState, e: Endpoint, now: int) {
    now - LastPong(s, e) < BOND_EXPIRATION
  }

  predicate At(s: BondState, c: nat, stage: Stage) {
    c < |s.calls| && s.calls[c].stage == stage
  }

  predicate Enabled(s: BondState, a: Action, now: int) {
    s.clock <= now &&
    match a
    case OtherReply(_, kind, _, _) => kind == NEIGHBORS || kind == ENR_RESPONSE
    case NewCall(_, kind) => kind == NEIGHBORS || kind == ENR_RESPONSE
    case TryBond(c, _, _) => At(s, c, Starting)
    case PongSeen(c) => c < |s.calls| && s.calls[c].stage.AwaitingPong? && s.calls[c].stage.ticket in s.resolved
    case TryPing(c) => c < |s.calls| && s.calls[c].stage.CheckingPing?
    case WakeUp(c) => c < |s.calls| && s.calls[c].stage.Sleeping? && now >= s.calls[c].stage.until
    case _ => true
  }

  function Logged(s: BondState, entry: Entry): BondState {
    s.(log := s.log + [entry])
  }

  /** Queues a request to the endpoint. */
  function Queued(s: BondState, e: Endpoint, kind: nat, check: Check, now: int): BondState {
    var r := Request(e.0, e.1, kind, now + EXPIRATION);
    s.(queue := s.queue + [Pending(|s.requests|, r, now, check)], requests := s.requests + [r])
  }

  function Pinged(s: BondState, e: Endpoint, token: nat, callback: Option<Endpoint>, now: int): BondState {
    Queued(s, e, PONG, PongCheck(token, callback), now)
  }

  /** Hands a reply to the awaiter; a matched ping calls back. */
  function Replying(s: BondState, reply: Reply<Payload>, now: int): BondState {
    var i := FirstMatch(s.queue, reply);
    if i == |s.queue| then s
    else
      var p := s.queue[i];
      var outcome := Offer(p, reply.payload, now, V4Check()).1;
      var s1 := s.(queue := Replied(s.queue, reply, now, V4Check()));
      if outcome.None? then s1
      else
        var s2 := s1.(resolved := s1.resolved[p.ticket := Resolved(outcome.value, now)],
                      answered := if outcome == Some(Matched) && p.st.PongCheck? then s.answered[(p.req.id, p.req.ip) := now]
                                  else s.answered);
        if outcome == Some(Matched) && p.st.PongCheck? && p.st.callback.Some?
        then Logged(s2, SeenAdded(p.st.callback.value, now)) else s2
  }

  function WithStage(s: BondState, c: nat, stage: Stage): BondState
    requires c < |s.calls|
  {
    s.(calls := s.calls[c := s.calls[c].(stage := stage)])
  }

  /** Sends the request of a call if a recent ping was recorded. */
  function Sending(s: BondState, c: nat, bondedAt: int, now: int, otherwise: Stage): BondState
    requires c < |s.calls|
  {
    if now - LastPing(s, s.calls[c].e) < BOND_EXPIRATION
    then
      var s1 := Logged(s, RequestSent(s.calls[c].e, now, bondedAt));
      WithStage(Queued(s1, s.calls[c].e, s.calls[c].kind, OtherCheck, now), c, Over)
    else WithStage(s, c, otherwise)
  }

  function SweptResolved(resolved: map<nat, Resolved>, ps: seq<Pending<Check>>, now: int): map<nat, Resolved>
    decreases ps
  {
    if ps == [] then resolved else SweptResolved(resolved[ps[0].ticket := Resolved(DeadlinePassed, now)], ps[1..], now)
  }

  function Effect(s: BondState, a: Action, now: int): BondState
    requires Enabled(s, a, now)
  {
    match a
    case PingPacket(e, expiration, token, pongSent) =>
      if expiration < now then s
      else
        var s1 := Logged(s.(pings := s.pings[e := now]), PingRecorded(e, now));
        if !pongSent then s1
        else if now - LastPong(s1, e) > BOND_EXPIRATION then Pinged(s1, e, token, Some(e), now)
        else Logged(s1, SeenAdded(e, now))
    case PongPacket(e, expiration, token) =>
      if expiration < now then s
      else Replying(Logged(s.(pongs := s.pongs[e := now]), PongRecorded(e, now)), Reply(e.0, e.1, PONG, PongPayload(token)), now)
    case FindnodePacket(e, expiration, enabled) =>
      if !enabled || expiration < now || !CheckBond(s, e, now) then s
      else Logged(s, NeighborsSent(e, now))
    case EnrRequestPacket(e, expiration, enabled, faulty, token) =>
      if !enabled || expiration < now then s
      else if CheckBond(s, e, now) then Logged(s, EnrSent(e, now))
      else if faulty then s else Pinged(s, e, token, None, now)
    case OtherReply(e, kind, ok, done) => Replying(s, Reply(e.0, e.1, kind, OtherPayload(ok, done)), now)
    case Sweep => s.(queue := Swept(s.queue, now), resolved := SweptResolved(s.resolved, Dropped(s.queue, now), now))
    case PlainPing(e, token) => Pinged(s, e, token, None, now)
    case NewCall(e, kind) => s.(calls := s.calls + [Call(e, kind, Starting)])
    case TryBond(c, manyFails, token) =>
      if !CheckBond(s, s.calls[c].e, now) || manyFails
      then WithStage(Pinged(s, s.calls[c].e, token, None, now), c, AwaitingPong(|s.requests|))
      else WithStage(s, c, CheckingPing(now))
    case PongSeen(c) =>
      var r := s.resolved[s.calls[c].stage.ticket];
      WithStage(s, c, if r.outcome == Matched then CheckingPing(r.at) else Over)
    case TryPing(c) => Sending(s, c, s.calls[c].stage.bondedAt, now, Sleeping(s.calls[c].stage.bondedAt, now + 2))
    case WakeUp(c) => Sending(s, c, s.calls[c].stage.bondedAt, now, Over)
  }

  function Apply(s: BondState, a: Action, now: int): BondState
    requires Enabled(s, a, now)
  {
    Effect(s.(clock := now), a, now)
  }

  ghost predicate Reaches(s: BondState, actions: seq<(Action, int)>, r: BondState)
    decreases actions
  {
    if actions == [] then r == s
    else Enabled(s, actions[0].0, actions[0].1) && Reaches(Apply(s, actions[0].0, actions[0].1), actions[1..], r)
  }

  // ---------- the invariant ----------

  /** A pong of the endpoint was recorded at `s`, before. */
  ghost predicate PongBefore(log: seq<Entry>, e: Endpoint, at: int, within: int) {
    exists s: int :: PongRecorded(e, s) in log && 0 <= at - s <= within
  }

  ghost predicate PingBefore(log: seq<Entry>, e: Endpoint, at: int, within: int) {
    exists s: int :: PingRecorded(e, s) in log && 0 <= at - s <= within
  }

  /** What must have been recorded before an entry may be logged. */
  ghost predicate Justified(log: seq<Entry>, entry: Entry) {
    match entry
    case PongRecorded(_, _) => true
    case PingRecorded(_, _) => true
    case NeighborsSent(e, at) => PongBefore(log, e, at, BOND_EXPIRATION - 1)
    case EnrSent(e, at) => PongBefore(log, e, at, BOND_EXPIRATION - 1)
    case SeenAdded(e, at) => PongBefore(log, e, at, BOND_EXPIRATION)
    case RequestSent(e, at, bondedAt) =>
      && bondedAt <= at
      && PongBefore(log, e, bondedAt, BOND_EXPIRATION - 1)
      && PingBefore(log, e, at, BOND_EXPIRATION - 1)
  }

  ghost predicate LogOk(log: seq<Entry>) {
    log == [] || (LogOk(log[..|log| - 1]) && Justified(log[..|log| - 1], log[|log| - 1]))
  }

  /** The store remembers entries of the log. */
  ghost predicate StoreOk(s: BondState) {
    && s.clock > BOND_EXPIRATION
    && (forall e :: e in s.pongs ==> PongRecorded(e, s.pongs[e]) in s.log && s.pongs[e] <= s.clock)
    && (forall e :: e in s.pings ==> PingRecorded(e, s.pings[e]) in s.log && s.pings[e] <= s.clock)
  }

  /** A pending request is the one its ticket names, and a ping calls back with the endpoint
      it was sent to. */
  ghost predicate PendingOk(s: BondState, p: Pending<Check>) {
    && p.ticket < |s.requests| && s.requests[p.ticket] == p.req
    && (p.req.expectedKind == PONG <==> p.st.PongCheck?)
    && (p.st.PongCheck? && p.st.callback.Some? ==> p.st.callback.value == (p.req.id, p.req.ip))
  }

  ghost predicate QueueOk(s: BondState) {
    && (forall p :: p in s.queue ==> PendingOk(s, p))
    && (forall t :: t in s.resolved ==> t < |s.requests| && s.resolved[t].at <= s.clock)
    && (forall t :: t in s.resolved && s.resolved[t].outcome == Matched && s.requests[t].expectedKind == PONG ==>
          PongRecorded((s.requests[t].id, s.requests[t].ip), s.resolved[t].at) in s.log)
  }

  ghost predicate CallOk(s: BondState, c: Call) {
    match c.stage
    case AwaitingPong(t) =>
      t < |s.requests| && s.requests[t].expectedKind == PONG && (s.requests[t].id, s.requests[t].ip) == c.e
    case CheckingPing(bondedAt) => bondedAt <= s.clock && PongBefore(s.log, c.e, bondedAt, BOND_EXPIRATION - 1)
    case Sleeping(bondedAt, _) => bondedAt <= s.clock && PongBefore(s.log, c.e, bondedAt, BOND_EXPIRATION - 1)
    case _ => true
  }

  ghost predicate CallsOk(s: BondState) {
    forall c :: c in s.calls ==> CallOk(s, c) && c.kind != PONG
  }

  ghost predicate Inv(s: BondState) {
    LogOk(s.log) && StoreOk(s) && QueueOk(s) && CallsOk(s)
  }

  // ---------- preservation ----------

  /** A later state that only added to the log and to the requests. */
  ghost predicate Extends(s: BondState, r: BondState) {
    && s.clock <= r.clock
    && (forall x :: x in s.log ==> x in r.log)
    && s.requests <= r.requests
  }

  lemma CallExtends(s: BondState, r: BondState, c: Call)
    requires Extends(s, r) && CallOk(s, c)
    ensures CallOk(r, c)
  {
    if c.stage.CheckingPing? || c.stage.Sleeping? {
      var t :| PongRecorded(c.e, t) in s.log && 0 <= c.stage.bondedAt - t <= BOND_EXPIRATION - 1;
      assert PongRecorded(c.e, t) in r.log;
    }
  }

  lemma LogGrows(log: seq<Entry>, entry: Entry)
    requires LogOk(log) && Justified(log, entry)
    ensures LogOk(log + [entry])
  {
    assert (log + [entry])[..|log + [entry]| - 1] == log;
  }

  lemma BondIsRecorded(s: BondState, e: Endpoint, now: int, within: int)
    requires StoreOk(s) && s.clock <= now && within <= BOND_EXPIRATION && now - LastPong(s, e) <= within
    ensures PongBefore(s.log, e, now, within)
  {
    assert e in s.pongs;
    assert PongRecorded(e, s.pongs[e]) in s.log;
  }

  lemma PingIsRecorded(s: BondState, e: Endpoint, now: int)
    requires StoreOk(s) && s.clock <= now && now - LastPing(s, e) < BOND_EXPIRATION
    ensures PingBefore(s.log, e, now, BOND_EXPIRATION - 1)
  {
    assert e in s.pings;
    assert PingRecorded(e, s.pings[e]) in s.log;
  }

  /** Adding an entry and changing neither queue nor calls nor requests. */
  lemma LoggedInv(s: BondState, entry: Entry, now: int)
    requires Inv(s) && s.clock <= now && Justified(s.log, entry)
    ensures Inv(Logged(s, entry).(clock := now))
  {
    var r := Logged(s, entry).(clock := now);
    LogGrows(s.log, entry);
    forall c | c in r.calls
      ensures CallOk(r, c) && c.kind != PONG
    {
      CallExtends(s, r, c);
    }
    assert forall p :: p in s.queue ==> PendingOk(s, p);
  }

  lemma LaterInv(s: BondState, now: int)
    requires Inv(s) && s.clock <= now
    ensures Inv(s.(clock := now))
  {
    var r := s.(clock := now);
    forall c | c in r.calls
      ensures CallOk(r, c) && c.kind != PONG
    {
      CallExtends(s, r, c);
    }
    assert forall p :: p in s.queue ==> PendingOk(s, p);
  }

  lemma QueuedInv(s: BondState, e: Endpoint, kind: nat, check: Check, now: int)
    requires Inv(s)
    requires kind == PONG <==> check.PongCheck?
    requires check.PongCheck? && check.callback.Some? ==> check.callback.value == e
    ensures Inv(Queued(s, e, kind, check, now))
  {
    var r := Queued(s, e, kind, check, now);
    forall c | c in r.calls
      ensures CallOk(r, c) && c.kind != PONG
    {
      CallExtends(s, r, c);
    }
    forall p | p in r.queue
      ensures PendingOk(r, p)
    {
      if p in s.queue {
        assert PendingOk(s, p);
      }
    }
  }

  lemma StageInv(s: BondState, c: nat, stage: Stage)
    requires Inv(s) && c < |s.calls| && CallOk(s, s.calls[c].(stage := stage))
    ensures Inv(WithStage(s, c, stage))
  {
    var r := WithStage(s, c, stage);
    forall x | x in r.calls
      ensures CallOk(r, x) && x.kind != PONG
    {
      assert x in s.calls || x == s.calls[c].(stage := stage);
      CallExtends(s, r, if x in s.calls then x else s.calls[c].(stage := stage));
    }
    assert forall p :: p in s.queue ==> PendingOk(s, p);
  }

  /** Taking requests out of the queue, and resolving the request `p`. A ping counts as
      answered only if a pong of its endpoint was recorded just now. */
  lemma ResolvingInv(s: BondState, p: Pending<Check>, rest: seq<Pending<Check>>, outcome: Option<Outcome>,
                     answered: map<Endpoint, int>)
    requires Inv(s) && p in s.queue && forall x :: x in rest ==> x in s.queue
    requires outcome == Some(Matched) && p.st.PongCheck? ==> PongRecorded((p.req.id, p.req.ip), s.clock) in s.log
    ensures Inv(s.(queue := rest, answered := answered,
                   resolved := if outcome.Some? then s.resolved[p.ticket := Resolved(outcome.value, s.clock)] else s.resolved))
  {
    hide LogOk, StoreOk;
    var r := s.(queue := rest, answered := answered,
                resolved := if outcome.Some? then s.resolved[p.ticket := Resolved(outcome.value, s.clock)] else s.resolved);
    assert PendingOk(s, p);
    forall x | x in r.queue
      ensures PendingOk(r, x)
    {
      assert PendingOk(s, x);
    }
    forall c | c in r.calls
      ensures CallOk(r, c) && c.kind != PONG
    {
      CallExtends(s, r, c);
    }
    assert StoreOk(r) by {
      assert StoreOk(s);
      SameStore(s, r);
    }
  }

  lemma SameStore(s: BondState, r: BondState)
    requires StoreOk(s) && r.clock == s.clock && r.pongs == s.pongs && r.pings == s.pings && r.log == s.log
    ensures StoreOk(r)
  {
  }

  /** What handing a reply to the awaiter changes. */
  lemma ReplyingParts(s: BondState, reply: Reply<Payload>, now: int, i: nat)
    requires i == FirstMatch(s.queue, reply) < |s.queue|
    ensures var p := s.queue[i];
      var outcome := Offer(p, reply.payload, now, V4Check()).1;
      var matched := outcome == Some(Matched) && p.st.PongCheck?;
      var r := s.(queue := Replied(s.queue, reply, now, V4Check()),
                  answered := if matched then s.answered[(p.req.id, p.req.ip) := now] else s.answered,
                  resolved := if outcome.Some? then s.resolved[p.ticket := Resolved(outcome.value, now)] else s.resolved);
      Replying(s, reply, now) == if matched && p.st.callback.Some? then Logged(r, SeenAdded(p.st.callback.value, now)) else r
  {
    hide Offer, FirstMatch, Replied, V4Check;
  }

  /** Replies to requests other than pings never count as pongs. */
  lemma ReplyingInv(s: BondState, reply: Reply<Payload>, now: int)
    requires Inv(s) && s.clock == now
    requires reply.kind == PONG ==> PongRecorded((reply.id, reply.ip), now) in s.log
    requires reply.kind == PONG <==> reply.payload.PongPayload?
    ensures Inv(Replying(s, reply, now))
  {
    var i := FirstMatch(s.queue, reply);
    if i < |s.queue| {
      var p := s.queue[i];
      PendingAt(s, i);
      assert p.st.PongCheck? ==> PongRecorded((p.req.id, p.req.ip), now) in s.log;
      var rest := Replied(s.queue, reply, now, V4Check());
      forall x | x in rest
        ensures x in s.queue
      {
        StatesStay(s.queue, reply, now, x);
      }
      ReplyingParts(s, reply, now, i);
      hide Replying, Replied, Offer, FirstMatch, Matches, V4Check, LogOk, StoreOk, QueueOk, CallsOk;
      var outcome := Offer(p, reply.payload, now, V4Check()).1;
      var answered := if outcome == Some(Matched) && p.st.PongCheck? then s.answered[(p.req.id, p.req.ip) := now] else s.answered;
      ResolvingInv(s, p, rest, outcome, answered);
      var s1 := s.(queue := rest, answered := answered,
                   resolved := if outcome.Some? then s.resolved[p.ticket := Resolved(outcome.value, now)] else s.resolved);
      if outcome == Some(Matched) && p.st.PongCheck? && p.st.callback.Some? {
        assert PongBefore(s1.log, (p.req.id, p.req.ip), now, 0);
        LoggedInv(s1, SeenAdded(p.st.callback.value, now), now);
      }
    }
  }

  lemma PendingAt(s: BondState, i: nat)
    requires QueueOk(s) && i < |s.queue|
    ensures PendingOk(s, s.queue[i]) && s.queue[i] in s.queue
  {
  }

  /** The v4 checkers keep no state. */
  lemma StatesStay(q: seq<Pending<Check>>, reply: Reply<Payload>, now: int, x: Pending<Check>)
    requires x in Replied(q, reply, now, V4Check())
    ensures x in q
  {
    var r, i := Replied(q, reply, now, V4Check()), FirstMatch(q, reply);
    var j :| 0 <= j < |r| && r[j] == x;
    if i < |q| && Offer(q[i], reply.payload, now, V4Check()).1.Some? {
      assert x == q[if j < i then j else j + 1];
    } else {
      assert x == q[j];
    }
  }

  lemma SweptResolvedMeaning(resolved: map<nat, Resolved>, ps: seq<Pending<Check>>, now: int)
    ensures forall t :: t in SweptResolved(resolved, ps, now) ==>
      || (t in resolved && SweptResolved(resolved, ps, now)[t] == resolved[t])
      || (SweptResolved(resolved, ps, now)[t] == Resolved(DeadlinePassed, now) && exists p :: p in ps && p.ticket == t)
    ensures forall t :: t in resolved ==> t in SweptResolved(resolved, ps, now)
    decreases ps
  {
    if ps != [] {
      SweptResolvedMeaning(resolved[ps[0].ticket := Resolved(DeadlinePassed, now)], ps[1..], now);
      assert ps[0] in ps;
    }
  }

  lemma SweepInv(s: BondState, now: int)
    requires Inv(s) && s.clock == now
    ensures Inv(s.(queue := Swept(s.queue, now), resolved := SweptResolved(s.resolved, Dropped(s.queue, now), now)))
  {
    hide Swept, Dropped;
    var r := s.(queue := Swept(s.queue, now), resolved := SweptResolved(s.resolved, Dropped(s.queue, now), now));
    SweptResolvedMeaning(s.resolved, Dropped(s.queue, now), now);
    SweepIsSafe(s.queue, now);
    forall p | p in r.queue
      ensures PendingOk(r, p)
    {
      SweptSubset(s.queue, now, p);
      assert PendingOk(s, p);
    }
    forall p | p in Dropped(s.queue, now)
      ensures p.ticket < |s.requests|
    {
      assert p in multiset(Swept(s.queue, now)) + multiset(Dropped(s.queue, now));
      assert PendingOk(s, p);
    }
    forall c | c in r.calls
      ensures CallOk(r, c) && c.kind != PONG
    {
      CallExtends(s, r, c);
    }
  }

  lemma SendingInv(s: BondState, c: nat, bondedAt: int, now: int, otherwise: Stage)
    requires Inv(s) && c < |s.calls| && s.clock == now
    requires bondedAt <= now && PongBefore(s.log, s.calls[c].e, bondedAt, BOND_EXPIRATION - 1)
    requires otherwise == Over || (otherwise.Sleeping? && otherwise.bondedAt == bondedAt)
    ensures Inv(Sending(s, c, bondedAt, now, otherwise))
  {
    hide LogOk;
    var e := s.calls[c].e;
    if now - LastPing(s, e) < BOND_EXPIRATION {
      PingIsRecorded(s, e, now);
      var s1 := Logged(s, RequestSent(e, now, bondedAt));
      LoggedInv(s, RequestSent(e, now, bondedAt), now);
      assert s.calls[c] in s.calls;
      QueuedInv(s1, e, s.calls[c].kind, OtherCheck, now);
      StageInv(Queued(s1, e, s.calls[c].kind, OtherCheck, now), c, Over);
    } else {
      StageInv(s, c, otherwise);
    }
  }

  lemma RecordPing(s: BondState, e: Endpoint, now: int)
    requires Inv(s) && s.clock == now
    ensures Inv(Logged(s.(pings := s.pings[e := now]), PingRecorded(e, now)))
  {
    LoggedInv(s, PingRecorded(e, now), now);
    var r := Logged(s, PingRecorded(e, now));
    MoreRecords(r, r.(pings := s.pings[e := now]));
  }

  lemma RecordPong(s: BondState, e: Endpoint, now: int)
    requires Inv(s) && s.clock == now
    ensures Inv(Logged(s.(pongs := s.pongs[e := now]), PongRecorded(e, now)))
  {
    LoggedInv(s, PongRecorded(e, now), now);
    var r := Logged(s, PongRecorded(e, now));
    MoreRecords(r, r.(pongs := s.pongs[e := now]));
  }

  lemma MoreRecords(s: BondState, r: BondState)
    requires Inv(s) && r == s.(pongs := r.pongs, pings := r.pings) && StoreOk(r)
    ensures Inv(r)
  {
    forall c | c in r.calls
      ensures CallOk(r, c) && c.kind != PONG
    {
      CallExtends(s, r, c);
    }
    assert forall p :: p in s.queue ==> PendingOk(s, p);
  }

  lemma PacketStep(s: BondState, a: Action, now: int)
    requires Inv(s) && Enabled(s, a, now) && s.clock == now
    requires a.PingPacket? || a.PongPacket? || a.FindnodePacket? || a.EnrRequestPacket? || a.OtherReply?
    ensures Inv(Effect(s, a, now))
  {
    hide LogOk, QueueOk, CallsOk, Logged, Queued, Replying;
    match a {
      case PingPacket(e, expiration, token, pongSent) =>
        if expiration >= now {
          RecordPing(s, e, now);
          var s1 := Logged(s.(pings := s.pings[e := now]), PingRecorded(e, now));
          if pongSent {
            if now - LastPong(s1, e) > BOND_EXPIRATION {
              QueuedInv(s1, e, PONG, PongCheck(token, Some(e)), now);
            } else {
              LoggedFields(s.(pings := s.pings[e := now]), PingRecorded(e, now));
              BondIsRecorded(s1, e, now, BOND_EXPIRATION);
              LoggedInv(s1, SeenAdded(e, now), now);
              LoggedFields(s1, SeenAdded(e, now));
            }
          }
        }
      case PongPacket(e, expiration, token) =>
        if expiration >= now {
          RecordPong(s, e, now);
          LoggedFields(s.(pongs := s.pongs[e := now]), PongRecorded(e, now));
          ReplyingInv(Logged(s.(pongs := s.pongs[e := now]), PongRecorded(e, now)),
                      Reply(e.0, e.1, PONG, PongPayload(token)), now);
        }
      case FindnodePacket(e, expiration, enabled) =>
        if enabled && expiration >= now && CheckBond(s, e, now) {
          BondIsRecorded(s, e, now, BOND_EXPIRATION - 1);
          LoggedInv(s, NeighborsSent(e, now), now);
          LoggedFields(s, NeighborsSent(e, now));
        }
      case EnrRequestPacket(e, expiration, enabled, faulty, token) =>
        if enabled && expiration >= now {
          if CheckBond(s, e, now) {
            BondIsRecorded(s, e, now, BOND_EXPIRATION - 1);
            LoggedInv(s, EnrSent(e, now), now);
            LoggedFields(s, EnrSent(e, now));
          } else if !faulty {
            QueuedInv(s, e, PONG, PongCheck(token, None), now);
          }
        }
      case OtherReply(e, kind, ok, done) =>
        ReplyingInv(s, Reply(e.0, e.1, kind, OtherPayload(ok, done)), now);
    }
  }

  lemma LoggedFields(s: BondState, entry: Entry)
    ensures Logged(s, entry) == s.(log := s.log + [entry])
  {
  }

  lemma NewCallInv(s: BondState, e: Endpoint, kind: nat)
    requires Inv(s) && kind != PONG
    ensures Inv(s.(calls := s.calls + [Call(e, kind, Starting)]))
  {
    hide LogOk, StoreOk;
    var r := s.(calls := s.calls + [Call(e, kind, Starting)]);
    forall c | c in r.calls
      ensures CallOk(r, c) && c.kind != PONG
    {
      assert c in s.calls || c == Call(e, kind, Starting);
      if c in s.calls {
        CallExtends(s, r, c);
      }
    }
    assert forall p :: p in s.queue ==> PendingOk(s, p);
    assert StoreOk(r) by {
      SameStore(s, r);
    }
  }

  lemma TryBondInv(s: BondState, c: nat, manyFails: bool, token: nat, now: int)
    requires Inv(s) && Enabled(s, TryBond(c, manyFails, token), now) && s.clock == now
    ensures Inv(Effect(s, TryBond(c, manyFails, token), now))
  {
    hide LogOk, StoreOk, QueueOk, CallsOk, Queued;
    var e := s.calls[c].e;
    if !CheckBond(s, e, now) || manyFails {
      QueuedInv(s, e, PONG, PongCheck(token, None), now);
      QueuedFields(s, e, PONG, PongCheck(token, None), now);
      StageInv(Pinged(s, e, token, None, now), c, AwaitingPong(|s.requests|));
    } else {
      BondIsRecorded(s, e, now, BOND_EXPIRATION - 1);
      StageInv(s, c, CheckingPing(now));
    }
  }

  lemma QueuedFields(s: BondState, e: Endpoint, kind: nat, check: Check, now: int)
    ensures var r := Queued(s, e, kind, check, now);
      && r.requests == s.requests + [Request(e.0, e.1, kind, now + EXPIRATION)]
      && r.calls == s.calls && r.log == s.log && r.clock == s.clock
  {
  }

  lemma PongSeenInv(s: BondState, c: nat, now: int)
    requires Inv(s) && Enabled(s, PongSeen(c), now) && s.clock == now
    ensures Inv(Effect(s, PongSeen(c), now))
  {
    hide LogOk, StoreOk;
    var r := s.resolved[s.calls[c].stage.ticket];
    assert s.calls[c] in s.calls;
    assert CallOk(s, s.calls[c]);
    if r.outcome == Matched {
      assert PongRecorded(s.calls[c].e, r.at) in s.log;
      StageInv(s, c, CheckingPing(r.at));
    } else {
      StageInv(s, c, Over);
    }
  }

  lemma CallStep(s: BondState, a: Action, now: int)
    requires Inv(s) && Enabled(s, a, now) && s.clock == now
    requires a.Sweep? || a.PlainPing? || a.NewCall? || a.TryBond? || a.PongSeen? || a.TryPing? || a.WakeUp?
    ensures Inv(Effect(s, a, now))
  {
    match a {
      case Sweep => SweepInv(s, now);
      case PlainPing(e, token) => QueuedInv(s, e, PONG, PongCheck(token, None), now);
      case NewCall(e, kind) => NewCallInv(s, e, kind);
      case TryBond(c, manyFails, token) => TryBondInv(s, c, manyFails, token, now);
      case PongSeen(c) => PongSeenInv(s, c, now);
      case TryPing(c) =>
        CallBonded(s, c);
        SendingInv(s, c, s.calls[c].stage.bondedAt, now, Sleeping(s.calls[c].stage.bondedAt, now + 2));
      case WakeUp(c) =>
        CallBonded(s, c);
        SendingInv(s, c, s.calls[c].stage.bondedAt, now, Over);
    }
    hide Inv, Sending, Swept, Dropped, SweptResolved, Queued;
  }

  lemma CallBonded(s: BondState, c: nat)
    requires Inv(s) && c < |s.calls| && (s.calls[c].stage.CheckingPing? || s.calls[c].stage.Sleeping?)
    ensures var at := s.calls[c].stage.bondedAt;
      at <= s.clock && PongBefore(s.log, s.calls[c].e, at, BOND_EXPIRATION - 1)
  {
    assert s.calls[c] in s.calls;
    assert CallOk(s, s.calls[c]);
  }

  lemma InvStep(s: BondState, a: Action, now: int)
    requires Inv(s) && Enabled(s, a, now)
    ensures Inv(Apply(s, a, now))
  {
    hide Inv, Effect;
    LaterInv(s, now);
    if a.PingPacket? || a.PongPacket? || a.FindnodePacket? || a.EnrRequestPacket? || a.OtherReply? {
      PacketStep(s.(clock := now), a, now);
    } else {
      CallStep(s.(clock := now), a, now);
    }
  }

  lemma {:induction false} InvOfRun(s: BondState, actions: seq<(Action, int)>, r: BondState)
    requires Inv(s) && Reaches(s, actions, r)
    ensures Inv(r)
    decreases actions
  {
    hide Inv, Apply, Enabled;
    if actions != [] {
      InvStep(s, actions[0].0, actions[0].1);
      InvOfRun(Apply(s, actions[0].0, actions[0].1), actions[1..], r);
    }
  }

  // ---------- what holds in every run ----------

  lemma {:induction false} JustifiedAt(log: seq<Entry>, i: nat)
    requires LogOk(log) && i < |log|
    ensures Justified(log[..i], log[i])
  {
    if i < |log| - 1 {
      JustifiedAt(log[..|log| - 1], i);
      assert log[..|log| - 1][..i] == log[..i];
    }
  }

  /** In every run, whatever the order of packets, calls and sweeps: an entry of the log is
      preceded by what justifies it. Neighbors and ENR answers go to an endpoint of which a
      pong was recorded less than 24 hours before; a node enters the table from a ping only
      if a pong of its endpoint was recorded at most 24 hours before; a request of ours goes
      out only after its caller saw such a bond, and with a ping of the endpoint recorded
      less than 24 hours before. */
  lemma EverythingIsJustified(start: int, actions: seq<(Action, int)>, s: BondState, i: nat)
    requires start > BOND_EXPIRATION && Reaches(Start(start), actions, s) && i < |s.log|
    ensures Justified(s.log[..i], s.log[i])
  {
    InvOfRun(Start(start), actions, s);
    JustifiedAt(s.log, i);
  }

  /** Exactly who gets an answer: an endpoint whose last recorded pong is less than a day old,
      if the request is not expired and the service is on; and whose ping alone suffices to be
      added: an endpoint whose last pong is at most a day old, once it was sent its own. */
  lemma AnsweredIff(s: BondState, e: Endpoint, expiration: int, enabled: bool, faulty: bool, token: nat, now: int)
    requires s.clock <= now
    ensures NeighborsSent(e, now) in Apply(s, FindnodePacket(e, expiration, enabled), now).log[|s.log|..]
      <==> enabled && expiration >= now && now - LastPong(s, e) < BOND_EXPIRATION
    ensures EnrSent(e, now) in Apply(s, EnrRequestPacket(e, expiration, enabled, faulty, token), now).log[|s.log|..]
      <==> enabled && expiration >= now && now - LastPong(s, e) < BOND_EXPIRATION
    ensures SeenAdded(e, now) in Apply(s, PingPacket(e, expiration, token, enabled), now).log[|s.log|..]
      <==> enabled && expiration >= now && now - LastPong(s, e) <= BOND_EXPIRATION
  {
    var g := Apply(s, PingPacket(e, expiration, token, enabled), now);
    assert g.log[|s.log|..] ==
      if expiration < now then []
      else if enabled && now - LastPong(s, e) <= BOND_EXPIRATION then [PingRecorded(e, now), SeenAdded(e, now)]
      else [PingRecorded(e, now)];
    var f := Apply(s, FindnodePacket(e, expiration, enabled), now);
    var r := Apply(s, EnrRequestPacket(e, expiration, enabled, faulty, token), now);
    assert s.log[|s.log|..] == [];
    assert (s.log + [NeighborsSent(e, now)])[|s.log|..] == [NeighborsSent(e, now)];
    assert (s.log + [EnrSent(e, now)])[|s.log|..] == [EnrSent(e, now)];
  }

  /** A call to a bonded endpoint that pinged us lately goes out without another ping; if it
      did not, the call waits two seconds for such a ping and sends only if one came. */
  lemma BondedCall(s: BondState, c: nat, token: nat, now: int, later: int)
    requires s.clock <= now && later >= now + 2 && At(s, c, Starting) && CheckBond(s, s.calls[c].e, now)
    ensures var e := s.calls[c].e;
      var s1 := Apply(s, TryBond(c, false, token), now);
      var s2 := Apply(s1, TryPing(c), now);
      if now - LastPing(s, e) < BOND_EXPIRATION
      then && s2.log == s.log + [RequestSent(e, now, now)] && At(s2, c, Over)
           && s2.queue == s.queue + [Pending(|s.requests|, Request(e.0, e.1, s.calls[c].kind, now + EXPIRATION), now, OtherCheck)]
      else && s2.log == s.log && s2.queue == s.queue
           && At(s2, c, Sleeping(now, now + 2)) && Enabled(s2, WakeUp(c), later)
           && (later - LastPing(s, e) >= BOND_EXPIRATION ==> Apply(s2, WakeUp(c), later).log == s.log)
           && Apply(Apply(s2, PingPacket(e, now, token, false), now), WakeUp(c), later).log
              == s.log + [PingRecorded(e, now)] + if later - now < BOND_EXPIRATION then [RequestSent(e, later, now)] else []
  {
    hide Replying;
    var e := s.calls[c].e;
    var s1 := Apply(s, TryBond(c, false, token), now);
    assert s1.log == s.log && s1.queue == s.queue && s1.pings == s.pings;
    assert s1.calls[c] == s.calls[c].(stage := CheckingPing(now));
    var s2 := Apply(s1, TryPing(c), now);
    if now - LastPing(s, e) >= BOND_EXPIRATION {
      assert s2 == WithStage(s1, c, Sleeping(now, now + 2));
      var s3 := Apply(s2, PingPacket(e, now, token, false), now);
      assert s3.log == s.log + [PingRecorded(e, now)] && LastPing(s3, e) == now && s3.calls == s2.calls;
    }
  }

  /** What a ping from an endpoint without a recent pong does. */
  lemma PingEffect(s: BondState, e: Endpoint, expiration: int, token: nat, now: int)
    requires expiration >= now && s.clock == now && now - LastPong(s, e) > BOND_EXPIRATION
    ensures var r := Effect(s, PingPacket(e, expiration, token, true), now);
      && r.queue == s.queue + [Pending(|s.requests|, Request(e.0, e.1, PONG, now + EXPIRATION), now, PongCheck(token, Some(e)))]
      && r.log == s.log + [PingRecorded(e, now)] && r.answered == s.answered && r.clock == now
  {
  }
}
