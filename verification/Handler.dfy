/** The v4 packet handler step by step: each packet is verified, then handled. Proved against
    the actions of the bond protocol. */
module Handler {
  import opened Nodes
  import A = Awaiter
  import opened Bond

  datatype Packet =
    | Ping(expiration: int)
    | Pong(expiration: int, token: nat)
    | Findnode(expiration: int)
    | Neighbors(expiration: int, ok: bool, done: bool)
    | EnrRequest(expiration: int)
    | EnrResponse(ok: bool, done: bool)
    | OtherPacket

  datatype Error = ErrUnknownPacket | ErrExpired | ErrUnknownNode | ErrHandlerDisabled | ErrSend

  datatype Config = Config(responseFindNode: bool, responseEnr: bool)

  /** What the surroundings contribute to one call: whether the pong could be sent, the token
      a new ping gets, and whether the sender has used up its faults. */
  datatype Surroundings = Surroundings(pongSent: bool, token: nat, faulty: bool)

  /** The protocol action a packet stands for, if it gets as far as causing one. */
  function ActionOf(p: Packet, e: Endpoint, cfg: Config, x: Surroundings, now: int): Option<Action> {
    match p
    case Ping(expiration) => Some(PingPacket(e, expiration, x.token, x.pongSent))
    case Pong(expiration, token) => Some(PongPacket(e, expiration, token))
    case Findnode(expiration) => Some(FindnodePacket(e, expiration, cfg.responseFindNode))
    case Neighbors(expiration, ok, done) => if expiration < now then None else Some(OtherReply(e, NEIGHBORS, ok, done))
    case EnrRequest(expiration) => Some(EnrRequestPacket(e, expiration, cfg.responseEnr, x.faulty, x.token))
    case EnrResponse(ok, done) => Some(OtherReply(e, ENR_RESPONSE, ok, done))
    case OtherPacket => None
  }

  /** The error a request for a service gets: the first of the three reasons that applies. */
  function ServiceError(on: bool, expiration: int, bonded: bool, now: int): Option<Error> {
    if !on then Some(ErrHandlerDisabled)
    else if expiration < now then Some(ErrExpired)
    else if !bonded then Some(ErrUnknownNode)
    else None
  }

  class V4Handler {
    const cfg: Config
    var clock: int
    var pongs: map<Endpoint, int>
    var pings: map<Endpoint, int>
    var answered: map<Endpoint, int>
    var queue: seq<A.Pending<Check>>
    var requests: seq<A.Request>
    var resolved: map<nat, Resolved>
    var calls: seq<Call>
    var log: seq<Entry>

    function View(): BondState
      reads this
    {
      BondState(clock, pongs, pings, answered, queue, requests, resolved, calls, log)
    }

    constructor (cfg: Config, now: int)
      requires now > BOND_EXPIRATION
      ensures this.cfg == cfg && View() == Start(now)
    {
      this.cfg := cfg;
      clock := now;
      pongs, pings, answered := map[], map[], map[];
      queue, requests, resolved, calls, log := [], [], map[], [], [];
    }

    method CheckBond(e: Endpoint) returns (bonded: bool)
      ensures bonded == Bond.CheckBond(View(), e, clock)
    {
      var last := if e in pongs then pongs[e] else 0;
      return clock - last < BOND_EXPIRATION;
    }

    /** Queues a ping whose matching pong may call back. */
    method MakePingRequest(e: Endpoint, token: nat, callback: Option<Endpoint>)
      modifies this`queue, this`requests
      ensures View() == Pinged(old(View()), e, token, callback, clock)
    {
      var r := A.Request(e.0, e.1, PONG, clock + EXPIRATION);
      queue := queue + [A.Pending(|requests|, r, clock, PongCheck(token, callback))];
      requests := requests + [r];
    }

    /** Hands a reply to the awaiter and runs the callback of a matched ping. */
    method Match(reply: A.Reply<Payload>)
      modifies this`queue, this`resolved, this`answered, this`log
      ensures View() == Replying(old(View()), reply, clock)
    {
      var i := A.FirstMatch(queue, reply);
      if i == |queue| {
        return;
      }
      var p := queue[i];
      var (_, outcome) := A.Offer(p, reply.payload, clock, V4Check());
      queue := A.Replied(queue, reply, clock, V4Check());
      if outcome.Some? {
        resolved := resolved[p.ticket := Resolved(outcome.value, clock)];
        if outcome == Some(A.Matched) && p.st.PongCheck? {
          answered := answered[(p.req.id, p.req.ip) := clock];
          if p.st.callback.Some? {
            log := log + [SeenAdded(p.st.callback.value, clock)];
          }
        }
      }
    }

    method VerifyPing(e: Endpoint, expiration: int) returns (err: Option<Error>)
      modifies this`pings, this`log
      ensures err == if expiration < clock then Some(ErrExpired) else None
      ensures View() == if err.Some? then old(View())
        else Logged(old(View()).(pings := old(pings)[e := clock]), PingRecorded(e, clock))
    {
      if expiration < clock {
        return Some(ErrExpired);
      }
      pings := pings[e := clock];
      log := log + [PingRecorded(e, clock)];
      return None;
    }

    /** Answers a ping and adds the sender to the table, after a ping of our own if its last
        pong is too old. */
    method HandlePing(e: Endpoint, x: Surroundings) returns (err: Option<Error>)
      modifies this`queue, this`requests, this`log
      ensures err == if x.pongSent then None else Some(ErrSend)
      ensures View() ==
        if !x.pongSent then old(View())
        else if clock - LastPong(old(View()), e) > BOND_EXPIRATION then Pinged(old(View()), e, x.token, Some(e), clock)
        else Logged(old(View()), SeenAdded(e, clock))
    {
      if !x.pongSent {
        return Some(ErrSend);
      }
      var last := if e in pongs then pongs[e] else 0;
      if clock - last > BOND_EXPIRATION {
        MakePingRequest(e, x.token, Some(e));
      } else {
        log := log + [SeenAdded(e, clock)];
      }
      return None;
    }

    method VerifyPong(e: Endpoint, expiration: int) returns (err: Option<Error>)
      modifies this`pongs, this`log
      ensures err == if expiration < clock then Some(ErrExpired) else None
      ensures View() == if err.Some? then old(View())
        else Logged(old(View()).(pongs := old(pongs)[e := clock]), PongRecorded(e, clock))
    {
      if expiration < clock {
        return Some(ErrExpired);
      }
      pongs := pongs[e := clock];
      log := log + [PongRecorded(e, clock)];
      return None;
    }

    method VerifyFindNode(e: Endpoint, expiration: int) returns (err: Option<Error>)
      ensures err ==
        if !cfg.responseFindNode then Some(ErrHandlerDisabled)
        else if expiration < clock then Some(ErrExpired)
        else if !Bond.CheckBond(View(), e, clock) then Some(ErrUnknownNode)
        else None
    {
      if !cfg.responseFindNode {
        return Some(ErrHandlerDisabled);
      }
      if expiration < clock {
        return Some(ErrExpired);
      }
      var bonded := CheckBond(e);
      return if bonded then None else Some(ErrUnknownNode);
    }

    /** Like a neighbors request, but an unknown sender with faults left is pinged. */
    method VerifyEnrRequest(e: Endpoint, expiration: int, x: Surroundings) returns (err: Option<Error>)
      modifies this`queue, this`requests
      ensures err ==
        if !cfg.responseEnr then Some(ErrHandlerDisabled)
        else if expiration < clock then Some(ErrExpired)
        else if !Bond.CheckBond(old(View()), e, clock) then Some(ErrUnknownNode)
        else None
      ensures View() == if err == Some(ErrUnknownNode) && !x.faulty
        then Pinged(old(View()), e, x.token, None, clock) else old(View())
    {
      if !cfg.responseEnr {
        return Some(ErrHandlerDisabled);
      }
      if expiration < clock {
        return Some(ErrExpired);
      }
      var bonded := CheckBond(e);
      if !bonded {
        if !x.faulty {
          MakePingRequest(e, x.token, None);
        }
        return Some(ErrUnknownNode);
      }
      return None;
    }

    // The reactors: what verifies a packet and what handles it then.

    method ReactToPing(e: Endpoint, expiration: int, x: Surroundings) returns (err: Option<Error>)
      modifies this`pings, this`queue, this`requests, this`log
      ensures err == if expiration < clock then Some(ErrExpired) else if !x.pongSent then Some(ErrSend) else None
      ensures View() == Effect(old(View()), PingPacket(e, expiration, x.token, x.pongSent), clock)
    {
      hide Replying, Pinged;
      err := VerifyPing(e, expiration);
      if err.None? {
        err := HandlePing(e, x);
      }
    }

    method ReactToPong(e: Endpoint, expiration: int, token: nat) returns (err: Option<Error>)
      modifies this`pongs, this`queue, this`resolved, this`answered, this`log
      ensures err == if expiration < clock then Some(ErrExpired) else None
      ensures View() == Effect(old(View()), PongPacket(e, expiration, token), clock)
    {
      hide Replying;
      err := VerifyPong(e, expiration);
      if err.None? {
        Match(A.Reply(e.0, e.1, PONG, PongPayload(token)));
      }
    }

    method ReactToFindNode(e: Endpoint, expiration: int) returns (err: Option<Error>)
      modifies this`log
      ensures err == ServiceError(cfg.responseFindNode, expiration, Bond.CheckBond(old(View()), e, clock), clock)
      ensures View() == Effect(old(View()), FindnodePacket(e, expiration, cfg.responseFindNode), clock)
      ensures log == old(log) + if err.None? then [NeighborsSent(e, clock)] else []
    {
      err := VerifyFindNode(e, expiration);
      if err.None? {
        log := log + [NeighborsSent(e, clock)];
      }
    }

    method ReactToEnrRequest(e: Endpoint, expiration: int, x: Surroundings) returns (err: Option<Error>)
      modifies this`queue, this`requests, this`log
      ensures err == ServiceError(cfg.responseEnr, expiration, Bond.CheckBond(old(View()), e, clock), clock)
      ensures View() == Effect(old(View()), EnrRequestPacket(e, expiration, cfg.responseEnr, x.faulty, x.token), clock)
      ensures log == old(log) + if err.None? then [EnrSent(e, clock)] else []
    {
      hide Pinged;
      err := VerifyEnrRequest(e, expiration, x);
      if err.None? {
        log := log + [EnrSent(e, clock)];
      }
      PingedKeepsLog(old(View()), e, x.token, clock);
    }

    method ReactToReply(e: Endpoint, kind: nat, ok: bool, done: bool)
      requires kind == NEIGHBORS || kind == ENR_RESPONSE
      modifies this`queue, this`resolved, this`answered, this`log
      ensures View() == Effect(old(View()), OtherReply(e, kind, ok, done), clock)
    {
      hide Replying;
      Match(A.Reply(e.0, e.1, kind, OtherPayload(ok, done)));
    }

    /** One received packet: select what it is, verify it, handle it. */
    method HandlePacket(p: Packet, e: Endpoint, x: Surroundings, now: int) returns (err: Option<Error>)
      requires clock <= now
      modifies this
      ensures View() == match ActionOf(p, e, cfg, x, now)
        case Some(a) => Apply(old(View()), a, now)
        case None => old(View()).(clock := now)
      ensures err == match p
        case Ping(expiration) => if expiration < now then Some(ErrExpired) else if !x.pongSent then Some(ErrSend) else None
        case Pong(expiration, _) => if expiration < now then Some(ErrExpired) else None
        case Findnode(expiration) => ServiceError(cfg.responseFindNode, expiration, Bond.CheckBond(old(View()), e, now), now)
        case Neighbors(expiration, _, _) => if expiration < now then Some(ErrExpired) else None
        case EnrRequest(expiration) => ServiceError(cfg.responseEnr, expiration, Bond.CheckBond(old(View()), e, now), now)
        case EnrResponse(_, _) => None
        case OtherPacket => Some(ErrUnknownPacket)
      ensures p.Findnode? ==> log == old(log) + if err.None? then [NeighborsSent(e, now)] else []
      ensures p.EnrRequest? ==> log == old(log) + if err.None? then [EnrSent(e, now)] else []
    {
      hide Effect;
      clock := now;
      err := None;
      match p {
        case Ping(expiration) => err := ReactToPing(e, expiration, x);
        case Pong(expiration, token) => err := ReactToPong(e, expiration, token);
        case Findnode(expiration) => err := ReactToFindNode(e, expiration);
        case Neighbors(expiration, ok, done) =>
          if expiration < clock {
            err := Some(ErrExpired);
          } else {
            ReactToReply(e, NEIGHBORS, ok, done);
          }
        case EnrRequest(expiration) => err := ReactToEnrRequest(e, expiration, x);
        case EnrResponse(ok, done) => ReactToReply(e, ENR_RESPONSE, ok, done);
        case OtherPacket => err := Some(ErrUnknownPacket);
      }
    }
  }

  lemma PingedKeepsLog(s: BondState, e: Endpoint, token: nat, now: int)
    ensures Pinged(s, e, token, None, now).log == s.log
  {
  }
}
