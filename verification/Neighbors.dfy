/** Answering and asking for neighbors: the answer is cut into packets, and the asking side
    collects packets until it has received a bucket's worth of nodes.

  `N` is a table node, `W` a node on the wire, `V` a decoded node. Whether an address may be
  relayed and how nodes are encoded and decoded is given as functions. */
module Neighbors {
  import opened Nodes
  import opened Awaiter
  import opened ReplyFate

  const BUCKET_SIZE: nat := 16

  function Concat<T>(ss: seq<seq<T>>): seq<T> {
    if ss == [] then [] else ss[0] + Concat(ss[1..])
  }

  /** The relayable nodes, encoded, in order. */
  function Relayed<N, W>(ns: seq<N>, relay: N -> bool, encode: N -> W): seq<W> {
    if ns == [] then [] else (if relay(ns[0]) then [encode(ns[0])] else []) + Relayed(ns[1..], relay, encode)
  }

  /** Full packets of `max` nodes and a last one with the rest; one empty packet for nothing. */
  function Packets<W>(ws: seq<W>, max: nat): (ps: seq<seq<W>>)
    requires 0 < max
    ensures ps != []
  {
    if |ws| <= max then [ws] else [ws[..max]] + Packets(ws[max..], max)
  }

  // ---------- what the packets are ----------

  lemma {:induction false} ConcatAppend<T>(a: seq<seq<T>>, b: seq<seq<T>>)
    ensures Concat(a + b) == Concat(a) + Concat(b)
  {
    if a == [] {
      assert a + b == b;
    } else {
      assert (a + b)[1..] == a[1..] + b;
      ConcatAppend(a[1..], b);
    }
  }

  lemma ConcatOne<T>(s: seq<T>)
    ensures Concat([s]) == s
  {
    assert [s][1..] == [];
  }

  /** The packets carry exactly the nodes, in order; none is over the limit, only the last
      one is below it, none is empty unless there is nothing to send; and there are
      max(1, ceil(n / max)) of them. */
  lemma {:induction false} PacketsMeaning<W>(ws: seq<W>, max: nat)
    requires 0 < max
    ensures var ps := Packets(ws, max);
      && Concat(ps) == ws
      && (forall i :: 0 <= i < |ps| ==> |ps[i]| <= max)
      && (forall i :: 0 <= i < |ps| - 1 ==> |ps[i]| == max)
      && (ws != [] ==> forall i :: 0 <= i < |ps| ==> ps[i] != [])
      && (|ps| - 1) * max <= |ws| <= |ps| * max
      && (|ps| > 1 ==> (|ps| - 1) * max < |ws|)
  {
    if |ws| <= max {
      ConcatOne(ws);
    } else {
      var rest := Packets(ws[max..], max);
      PacketsMeaning(ws[max..], max);
      assert Packets(ws, max)[1..] == rest;
      assert (|rest| - 1) * max + max == |rest| * max;
      assert |rest| * max + max == (|rest| + 1) * max;
    }
  }

  lemma {:induction false} FullPackets<W>(full: seq<seq<W>>, rest: seq<W>, max: nat)
    requires 0 < max && |rest| < max
    requires forall i :: 0 <= i < |full| ==> |full[i]| == max
    ensures Packets(Concat(full) + rest, max) == full + (if rest != [] || full == [] then [rest] else [])
  {
    if full == [] {
      assert Concat(full) + rest == rest;
    } else {
      var ws := Concat(full) + rest;
      assert ws == full[0] + (Concat(full[1..]) + rest);
      FullPackets(full[1..], rest, max);
      if |ws| <= max {
        assert |Concat(full[1..]) + rest| == 0;
      } else {
        assert ws[max..] == Concat(full[1..]) + rest;
        assert ws[..max] == full[0];
      }
    }
  }

  lemma {:induction false} RelayedSnoc<N, W>(ns: seq<N>, i: nat, relay: N -> bool, encode: N -> W)
    requires i < |ns|
    ensures Relayed(ns[..i + 1], relay, encode)
         == Relayed(ns[..i], relay, encode) + if relay(ns[i]) then [encode(ns[i])] else []
  {
    assert ns[..i + 1][1..] == ns[1..][..i];
    if i == 0 {
      assert ns[..1][1..] == [];
    } else {
      RelayedSnoc(ns[1..], i - 1, relay, encode);
      assert ns[..i][1..] == ns[1..][..i - 1];
    }
  }

  lemma NothingRelayed<N, W>(ns: seq<N>, relay: N -> bool, encode: N -> W)
    ensures Relayed(ns[..0], relay, encode) == []
  {
  }

  /** The wire form of a node that may be relayed. */
  function Wire<N, W>(relay: N -> bool, encode: N -> W): N -> Option<W> {
    (n: N) => if relay(n) then Some(encode(n)) else None
  }

  lemma {:induction false} RelayedPicks<N(!new), W>(ns: seq<N>, relay: N -> bool, encode: N -> W)
    ensures Picks(ns, Relayed(ns, relay, encode), Wire(relay, encode))
  {
    if ns == [] {
      PicksNothing(ns, Relayed(ns, relay, encode), Wire(relay, encode));
    } else {
      RelayedPicks(ns[1..], relay, encode);
      PicksCons(ns, Relayed(ns[1..], relay, encode), Wire(relay, encode));
    }
  }

  /** Sends the nearest nodes in packets of at most `max`. `sends(i)` tells whether the send
      number `i` succeeds; the first failure ends the answer. */
  method MakeFindNodesResponse<N(!new), W>(closest: seq<N>, relay: N -> bool, encode: N -> W, max: nat, sends: nat -> bool)
    returns (out: seq<seq<W>>, ok: bool)
    requires 0 < max
    ensures ok ==> out == Packets(Relayed(closest, relay, encode), max)
    ensures !ok ==> out < Packets(Relayed(closest, relay, encode), max) && !sends(|out|)
    ensures forall i :: 0 <= i < |out| ==> sends(i)
    ensures Picks(closest, Relayed(closest, relay, encode), Wire(relay, encode))
  {
    RelayedPicks(closest, relay, encode);
    hide Relayed, Packets, Picks;
    NothingRelayed(closest, relay, encode);
    var packet: seq<W> := [];
    var sent := false;
    out := [];
    for i := 0 to |closest|
      invariant Concat(out) + packet == Relayed(closest[..i], relay, encode)
      invariant |packet| < max && sent == (out != [])
      invariant forall j :: 0 <= j < |out| ==> |out[j]| == max && sends(j)
    {
      var n := closest[i];
      RelayedSnoc(closest, i, relay, encode);
      if !relay(n) {
        continue;
      }
      ghost var before := packet;
      packet := packet + [encode(n)];
      assert Concat(out) + packet == Relayed(closest[..i + 1], relay, encode);
      if |packet| == max {
        if !sends(|out|) {
          PrefixOfPackets(closest, i + 1, relay, encode, out, packet, max);
          return out, false;
        }
        ConcatAppend(out, [packet]);
        ConcatOne(packet);
        out := out + [packet];
        packet := [];
        sent := true;
      }
    }
    assert closest[..|closest|] == closest;
    FullPackets(out, packet, max);
    if |packet| > 0 || !sent {
      if !sends(|out|) {
        return out, false;
      }
      return out + [packet], true;
    }
    assert out + [] == out;
    return out, true;
  }

  lemma {:induction false} RelayedConcat<N, W>(a: seq<N>, b: seq<N>, relay: N -> bool, encode: N -> W)
    ensures Relayed(a + b, relay, encode) == Relayed(a, relay, encode) + Relayed(b, relay, encode)
    decreases a
  {
    if a == [] {
      assert a + b == b;
    } else {
      assert (a + b)[1..] == a[1..] + b && (a + b)[0] == a[0];
      RelayedConcat(a[1..], b, relay, encode);
      var h := if relay(a[0]) then [encode(a[0])] else [];
      assert h + (Relayed(a[1..], relay, encode) + Relayed(b, relay, encode))
          == (h + Relayed(a[1..], relay, encode)) + Relayed(b, relay, encode);
    }
  }

  lemma {:induction false} PacketsOfMore<W>(full: seq<seq<W>>, more: seq<W>, max: nat)
    requires 0 < max && more != []
    requires forall i :: 0 <= i < |full| ==> |full[i]| == max
    ensures Packets(Concat(full) + more, max) == full + Packets(more, max)
  {
    if full == [] {
      assert Concat(full) + more == more;
    } else {
      var ws := Concat(full) + more;
      assert ws == full[0] + (Concat(full[1..]) + more);
      PacketsOfMore(full[1..], more, max);
      assert ws[max..] == Concat(full[1..]) + more && ws[..max] == full[0];
    }
  }

  /** Full packets sent so far are the first packets of the whole answer. */
  lemma PrefixOfPackets<N, W>(closest: seq<N>, i: nat, relay: N -> bool, encode: N -> W,
                               out: seq<seq<W>>, packet: seq<W>, max: nat)
    requires 0 < max && i <= |closest| && |packet| == max
    requires Concat(out) + packet == Relayed(closest[..i], relay, encode)
    requires forall j :: 0 <= j < |out| ==> |out[j]| == max
    ensures out < Packets(Relayed(closest, relay, encode), max)
  {
    assert closest == closest[..i] + closest[i..];
    RelayedConcat(closest[..i], closest[i..], relay, encode);
    var more := packet + Relayed(closest[i..], relay, encode);
    assert Relayed(closest, relay, encode) == Concat(out) + more;
    PacketsOfMore(out, more, max);
  }

  // ---------- collecting ----------

  /** What the closure of a request has gathered: decoded nodes, and how many were received. */
  datatype Collected<V> = Collected(nodes: seq<V>, nreceived: nat)

  function Decoded<W, V>(ws: seq<W>, decode: W -> Option<V>): seq<V> {
    if ws == [] then []
    else (var v := decode(ws[0]); if v.Some? then [v.value] else []) + Decoded(ws[1..], decode)
  }

  /** What was decoded is the decoded form of exactly the nodes that decode, in order. */
  lemma {:induction false} DecodedPicks<W(!new), V>(ws: seq<W>, decode: W -> Option<V>)
    ensures Picks(ws, Decoded(ws, decode), decode)
  {
    if ws == [] {
      PicksNothing(ws, Decoded(ws, decode), decode);
    } else {
      DecodedPicks(ws[1..], decode);
      PicksCons(ws, Decoded(ws[1..], decode), decode);
    }
  }

  /** The checker of a neighbors request. */
  function Collect<W, V>(decode: W -> Option<V>): (Collected<V>, seq<W>) -> (Collected<V>, bool, bool) {
    (c: Collected<V>, ws: seq<W>) =>
      (Collected(c.nodes + Decoded(ws, decode), c.nreceived + |ws|), true, c.nreceived + |ws| >= BUCKET_SIZE)
  }

  lemma {:induction false} DecodedConcat<W, V>(a: seq<W>, b: seq<W>, decode: W -> Option<V>)
    ensures Decoded(a + b, decode) == Decoded(a, decode) + Decoded(b, decode)
  {
    if a == [] {
      assert a + b == b;
    } else {
      assert (a + b)[1..] == a[1..] + b && (a + b)[0] == a[0];
      DecodedConcat(a[1..], b, decode);
      var h := if decode(a[0]).Some? then [decode(a[0]).value] else [];
      assert h + (Decoded(a[1..], decode) + Decoded(b, decode)) == (h + Decoded(a[1..], decode)) + Decoded(b, decode);
    }
  }

  /** The captured variables of the closure. */
  class Collector<W(!new), V> {
    var nodes: seq<V>
    var nreceived: nat

    constructor ()
      ensures nodes == [] && nreceived == 0
    {
      nodes, nreceived := [], 0;
    }

    method Verify(ws: seq<W>, decode: W -> Option<V>) returns (ok: bool, done: bool)
      modifies this
      ensures (Collected(nodes, nreceived), ok, done) == Collect(decode)(Collected(old(nodes), old(nreceived)), ws)
      ensures old(nodes) <= nodes && Picks(ws, nodes[|old(nodes)|..], decode)
      ensures nreceived == old(nreceived) + |ws| && ok && (done <==> nreceived >= BUCKET_SIZE)
    {
      for i := 0 to |ws|
        invariant nodes == old(nodes) + Decoded(ws[..i], decode)
        invariant nreceived == old(nreceived) + i
      {
        nreceived := nreceived + 1;
        assert ws[..i + 1] == ws[..i] + [ws[i]];
        DecodedConcat(ws[..i], [ws[i]], decode);
        var v := decode(ws[i]);
        assert Decoded([ws[i]], decode) == if v.Some? then [v.value] else [];
        if v.None? {
          continue;
        }
        nodes := nodes + [v.value];
      }
      assert ws[..|ws|] == ws;
      DecodedPicks(ws, decode);
      assert nodes[|old(nodes)|..] == Decoded(ws, decode);
      return true, nreceived >= BUCKET_SIZE;
    }
  }

  // ---------- end to end ----------

  /** What the request has gathered after the given packets. */
  function Gathered<W, V>(packets: seq<seq<W>>, decode: W -> Option<V>): Collected<V> {
    Collected(Decoded(Concat(packets), decode), |Concat(packets)|)
  }

  function PacketsOf<W>(os: seq<Offering<seq<W>>>): (ps: seq<seq<W>>)
    ensures |ps| == |os|
    ensures forall i :: 0 <= i < |os| ==> ps[i] == os[i].payload
  {
    seq(|os|, i requires 0 <= i < |os| => os[i].payload)
  }

  /** All packets come up to the expiration of the request, at any times. */
  predicate InTime<W, V>(p: Pending<Collected<V>>, os: seq<Offering<seq<W>>>) {
    forall i :: 0 <= i < |os| ==> os[i].at <= p.req.expiration
  }

  lemma GatheredSnoc<W, V>(packets: seq<seq<W>>, decode: W -> Option<V>)
    requires packets != []
    ensures var n := |packets| - 1;
      Collect(decode)(Gathered(packets[..n], decode), packets[n])
      == (Gathered(packets, decode), true, |Concat(packets)| >= BUCKET_SIZE)
  {
    var n := |packets| - 1;
    assert packets == packets[..n] + [packets[n]];
    ConcatAppend(packets[..n], [packets[n]]);
    ConcatOne(packets[n]);
    DecodedConcat(Concat(packets[..n]), packets[n], decode);
  }

  lemma NothingGathered<W, V>(packets: seq<seq<W>>, decode: W -> Option<V>)
    requires packets == []
    ensures Gathered(packets, decode) == Collected([], 0) && |Concat(packets)| == 0
  {
  }

  lemma {:induction false} FoldSnoc<S, P>(p: Pending<S>, os: seq<Offering<P>>, o: Offering<P>, check: (S, P) -> (S, bool, bool))
    ensures var (st, outcome) := Fold(p, os, check);
      Fold(p, os + [o], check) == if outcome.Some? then (st, outcome) else Offer(p.(st := st), o.payload, o.at, check)
    decreases os
  {
    hide Offer;
    if os == [] {
      assert [o][1..] == [];
      assert os + [o] == [o] && p.(st := p.st) == p;
    } else {
      var st := Offer(p, os[0].payload, os[0].at, check).0;
      assert (os + [o])[1..] == os[1..] + [o] && (os + [o])[0] == os[0];
      FoldSnoc(p.(st := st), os[1..], o, check);
    }
  }

  /** One packet in time: the request takes it and is done from a bucket's worth on. */
  lemma PacketInTime<W, V>(p: Pending<Collected<V>>, packet: seq<W>, now: int, decode: W -> Option<V>)
    requires now <= p.req.expiration
    ensures var (c, _, done) := Collect(decode)(p.st, packet);
      Offer(p, packet, now, Collect(decode)) == (c, if done then Some(Matched) else None)
  {
  }

  /** As long as fewer than a bucket's worth of nodes arrived, the request is open and has
      gathered the valid nodes in order of arrival; the packet that lifts their number to a
      bucket's worth completes it. */
  lemma {:induction false} Collecting<W, V>(p: Pending<Collected<V>>, os: seq<Offering<seq<W>>>, decode: W -> Option<V>)
    requires p.st == Collected([], 0) && InTime(p, os)
    ensures var packets := PacketsOf(os);
      && (|Concat(packets)| < BUCKET_SIZE ==> Fold(p, os, Collect(decode)) == (Gathered(packets, decode), None))
      && (|Concat(packets)| >= BUCKET_SIZE ==> Fold(p, os, Collect(decode)).1 == Some(Matched))
      && (os != [] && |Concat(packets[..|os| - 1])| < BUCKET_SIZE <= |Concat(packets)| ==>
            Fold(p, os, Collect(decode)) == (Gathered(packets, decode), Some(Matched)))
  {
    hide Offer, Decoded, Collect;
    var packets := PacketsOf(os);
    if os == [] {
      NothingGathered<W, V>(packets, decode);
    } else {
      var n := |os| - 1;
      var last := os[n];
      assert PacketsOf(os[..n]) == packets[..n] && packets == packets[..n] + [packets[n]] && os == os[..n] + [last];
      ConcatAppend(packets[..n], [packets[n]]);
      ConcatOne(packets[n]);
      Collecting(p, os[..n], decode);
      GatheredSnoc(packets, decode);
      FoldSnoc(p, os[..n], last, Collect(decode));
      hide Gathered, Concat, Fold;
      PacketInTime(p.(st := Gathered(packets[..n], decode)), last.payload, last.at, decode);
    }
  }

  /** Gathered from some packets: the decoded form of exactly the nodes in them that decode, in
      order of arrival, and the number of all. */
  ghost predicate GatheredOk<W(!new), V>(packets: seq<seq<W>>, decode: W -> Option<V>) {
    && Picks(Concat(packets), Gathered(packets, decode).nodes, decode)
    && Gathered(packets, decode).nreceived == |Concat(packets)|
  }

  lemma GatheredIs<W(!new), V>(packets: seq<seq<W>>, decode: W -> Option<V>)
    ensures GatheredOk(packets, decode)
  {
    DecodedPicks(Concat(packets), decode);
  }

  /** A request for neighbors that is pending in some run of the awaiter, with nothing received
      yet, and a continuation of that run with any other requests, replies and ticks. */
  ghost predicate Asked<W(!new), V(!new)>(start: int, before: seq<(Event<Collected<V>, seq<W>>, int)>, s: State<Collected<V>>,
                                          events: seq<(Event<Collected<V>, seq<W>>, int)>, r: State<Collected<V>>,
                                          p: Pending<Collected<V>>, decode: W -> Option<V>) {
    && Reaches(Start(start), before, Collect(decode), s)
    && p in s.queue && p.st == Collected([], 0)
    && Reaches(s, events, Collect(decode), r)
  }

  /** What is known of such a request before any counting. */
  lemma AskedFate<W(!new), V(!new)>(start: int, before: seq<(Event<Collected<V>, seq<W>>, int)>, s: State<Collected<V>>,
                                    events: seq<(Event<Collected<V>, seq<W>>, int)>, r: State<Collected<V>>,
                                    p: Pending<Collected<V>>, decode: W -> Option<V>)
    requires Asked(start, before, s, events, r, p, decode)
    ensures Inv(s)
    ensures var os := OffersTo(s, events, p.ticket, Collect(decode));
      var (st, outcome) := Fold(p, os, Collect(decode));
      && (Stands(r, p, st, outcome) || (outcome.None? && Stands(r, p, st, Some(DeadlinePassed))))
      && (os != [] ==> Fold(p, os[..|os| - 1], Collect(decode)).1.None?)
  {
    StartInv<Collected<V>>(start);
    InvOfRun(Start<Collected<V>>(start), before, Collect(decode), s);
    FateOfRequest(s, events, Collect(decode), r, p);
    OpenBeforeLast(s, events, Collect(decode), r, p);
  }

  /** In every run, at whatever times the packets come up to the expiration: as long as those
      offered to the request hold fewer than sixteen nodes, it is pending with the valid ones
      in order of arrival, or was swept after its deadline; it completes exactly on the packet
      that lifts the number of received nodes to sixteen, with the valid ones among them, and
      no packet is offered to it after that. */
  lemma CompletesOnTheRightPacket<W(!new), V(!new)>(start: int, before: seq<(Event<Collected<V>, seq<W>>, int)>, s: State<Collected<V>>,
                                                    events: seq<(Event<Collected<V>, seq<W>>, int)>, r: State<Collected<V>>,
                                                    p: Pending<Collected<V>>, decode: W -> Option<V>)
    requires Asked(start, before, s, events, r, p, decode)
    requires InTime(p, OffersTo(s, events, p.ticket, Collect(decode)))
    ensures var os := OffersTo(s, events, p.ticket, Collect(decode));
      var packets := PacketsOf(os);
      if |Concat(packets)| < BUCKET_SIZE
      then || Stands(r, p, Gathered(packets, decode), None)
           || Stands(r, p, Gathered(packets, decode), Some(DeadlinePassed))
      else && Stands(r, p, Gathered(packets, decode), Some(Matched))
           && Fold(p, os, Collect(decode)) == (Gathered(packets, decode), Some(Matched))
           && os != [] && |Concat(packets[..|os| - 1])| < BUCKET_SIZE
    ensures GatheredOk(PacketsOf(OffersTo(s, events, p.ticket, Collect(decode))), decode)
  {
    GatheredIs(PacketsOf(OffersTo(s, events, p.ticket, Collect(decode))), decode);
    AskedFate(start, before, s, events, r, p, decode);
    var os := OffersTo(s, events, p.ticket, Collect(decode));
    hide Asked, Fold, Gathered, OffersTo, Stands, Inv, Collect;
    Collecting(p, os, decode);
    if os != [] {
      var n := |os| - 1;
      assert PacketsOf(os[..n]) == PacketsOf(os)[..n];
      Collecting(p, os[..n], decode);
      hide Concat;
    }
  }

  lemma LongerConcat<W>(packets: seq<seq<W>>, i: nat, j: nat)
    requires i <= j <= |packets|
    ensures |Concat(packets[..i])| <= |Concat(packets[..j])|
  {
    assert packets[..j] == packets[..i] + packets[i..j];
    ConcatAppend(packets[..i], packets[i..j]);
  }

  // ----- a full answer, in any order -----

  lemma {:induction false} RemovePacket<W>(packets: seq<seq<W>>, i: nat)
    requires i < |packets|
    ensures multiset(Concat(packets)) == multiset(Concat(DropAt(packets, i))) + multiset(packets[i])
    ensures |Concat(packets)| == |Concat(DropAt(packets, i))| + |packets[i]|
  {
    assert packets == packets[..i] + ([packets[i]] + packets[i + 1..]);
    ConcatAppend(packets[..i], [packets[i]] + packets[i + 1..]);
    ConcatAppend([packets[i]], packets[i + 1..]);
    ConcatAppend(packets[..i], packets[i + 1..]);
    ConcatOne(packets[i]);
  }

  lemma DropElements<T>(s: seq<T>, i: nat)
    requires i < |s|
    ensures multiset(s) == multiset(DropAt(s, i)) + multiset{s[i]}
  {
    assert s == s[..i] + ([s[i]] + s[i + 1..]);
  }

  /** Two sequences with the same elements, without the head of the first. */
  lemma MatchHead<T>(a: seq<T>, b: seq<T>) returns (i: nat)
    requires multiset(a) == multiset(b) && a != []
    ensures i < |b| && b[i] == a[0]
    ensures multiset(a[1..]) == multiset(DropAt(b, i))
  {
    assert a[0] in multiset(b);
    i :| 0 <= i < |b| && b[i] == a[0];
    DropElements(b, i);
    assert a == [a[0]] + a[1..];
    CancelOne(multiset(a[1..]), multiset(DropAt(b, i)), multiset{a[0]});
  }

  lemma CancelOne<T>(x: multiset<T>, y: multiset<T>, m: multiset<T>)
    requires x + m == y + m
    ensures x == y
  {
    assert x == (x + m) - m && y == (y + m) - m;
  }

  /** Reordering packets reorders the nodes. */
  lemma {:induction false} SamePackets<W(!new)>(a: seq<seq<W>>, b: seq<seq<W>>)
    requires multiset(a) == multiset(b)
    ensures multiset(Concat(a)) == multiset(Concat(b)) && |Concat(a)| == |Concat(b)|
  {
    if a == [] {
      assert |multiset(b)| == 0;
    } else {
      var i := MatchHead(a, b);
      RemovePacket(b, i);
      SamePackets(a[1..], DropAt(b, i));
      assert Concat(a) == a[0] + Concat(a[1..]);
    }
  }

  lemma {:induction false} DecodedElements<W, V>(a: seq<W>, b: seq<W>, decode: W -> Option<V>)
    requires multiset(a) == multiset(b)
    ensures multiset(Decoded(a, decode)) == multiset(Decoded(b, decode))
  {
    if a == [] {
      assert |multiset(b)| == 0;
    } else {
      var i := MatchHead(a, b);
      assert b == b[..i] + ([b[i]] + b[i + 1..]) && a == [a[0]] + a[1..];
      DecodedElements(a[1..], DropAt(b, i), decode);
      DecodedConcat(b[..i], [b[i]] + b[i + 1..], decode);
      DecodedConcat([b[i]], b[i + 1..], decode);
      DecodedConcat(b[..i], b[i + 1..], decode);
      DecodedConcat([a[0]], a[1..], decode);
    }
  }

  /** A full answer: when a bucket's worth of nodes is sent and its packets are offered to the
      request in any order and at any times up to the expiration, among any other traffic, it
      is matched, by the last packet, with exactly the valid nodes that were sent. */
  lemma FullAnswerInAnyOrder<W(!new), V(!new)>(start: int, before: seq<(Event<Collected<V>, seq<W>>, int)>, s: State<Collected<V>>,
                                               events: seq<(Event<Collected<V>, seq<W>>, int)>, r: State<Collected<V>>,
                                               p: Pending<Collected<V>>, decode: W -> Option<V>, ws: seq<W>, max: nat)
    requires Asked(start, before, s, events, r, p, decode)
    requires InTime(p, OffersTo(s, events, p.ticket, Collect(decode)))
    requires 0 < max && |ws| == BUCKET_SIZE
    requires multiset(PacketsOf(OffersTo(s, events, p.ticket, Collect(decode)))) == multiset(Packets(ws, max))
    ensures var os := OffersTo(s, events, p.ticket, Collect(decode));
      var packets := PacketsOf(os);
      && Stands(r, p, Gathered(packets, decode), Some(Matched))
      && Fold(p, os, Collect(decode)) == (Gathered(packets, decode), Some(Matched))
      && multiset(Gathered(packets, decode).nodes) == multiset(Decoded(ws, decode))
      && Picks(ws, Decoded(ws, decode), decode)
      && os != [] && Fold(p, os[..|os| - 1], Collect(decode)).1.None?
  {
    AskedFate(start, before, s, events, r, p, decode);
    CompletesOnTheRightPacket(start, before, s, events, r, p, decode);
    DecodedPicks(ws, decode);
    hide Asked, Fold, Gathered, OffersTo, Stands, Inv, Collect, Packets, Concat, Picks, GatheredOk, Decoded;
    var arrived := PacketsOf(OffersTo(s, events, p.ticket, Collect(decode)));
    PacketsMeaning(ws, max);
    SamePackets(arrived, Packets(ws, max));
    GatheredElements(ws, arrived, decode);
  }

  lemma OffersInTime<W(!new), V(!new)>(start: int, before: seq<(Event<Collected<V>, seq<W>>, int)>, s: State<Collected<V>>,
                                       events: seq<(Event<Collected<V>, seq<W>>, int)>, r: State<Collected<V>>,
                                       p: Pending<Collected<V>>, decode: W -> Option<V>)
    requires Asked(start, before, s, events, r, p, decode) && r.clock < p.req.expiration
    ensures InTime(p, OffersTo(s, events, p.ticket, Collect(decode)))
    ensures p.ticket in r.marked ==> r.marked[p.ticket].outcome != DeadlinePassed
  {
    AskedFate(start, before, s, events, r, p, decode);
    RunGoesOn(s, events, Collect(decode), r, p.ticket);
    hide OffersTo, Inv, Collect;
    if p.ticket in r.marked && r.marked[p.ticket].outcome == DeadlinePassed {
      SweptLate(s, events, Collect(decode), r, p);
    }
  }

  lemma TicketInQueue<S>(s: State<S>, p: Pending<S>, st: S)
    requires Stands(s, p, st, None)
    ensures p.ticket in Tickets(s.queue)
  {
    assert p.(st := st).ticket in Tickets(s.queue);
  }

  lemma PrefixConcat<W>(a: seq<Offering<seq<W>>>, b: seq<Offering<seq<W>>>)
    requires a <= b
    ensures |Concat(PacketsOf(a))| <= |Concat(PacketsOf(b))|
  {
    assert PacketsOf(a) == PacketsOf(b)[..|a|];
    LongerConcat(PacketsOf(b), |a|, |b|);
    assert PacketsOf(b)[..|b|] == PacketsOf(b);
  }

  /** Before its deadline, the earliest neighbors request to an endpoint gets every packet that
      comes from there: it is pending with everything received so far, or matched, exactly from
      sixteen received nodes on. */
  lemma EarliestCollectsAll<W(!new), V(!new)>(start: int, before: seq<(Event<Collected<V>, seq<W>>, int)>, s: State<Collected<V>>,
                                              events: seq<(Event<Collected<V>, seq<W>>, int)>, r: State<Collected<V>>,
                                              p: Pending<Collected<V>>, decode: W -> Option<V>)
    requires Asked(start, before, s, events, r, p, decode)
    requires Earliest(s.queue, p) && r.clock < p.req.expiration
    ensures var packets := PacketsOf(RepliesTo(events, p.req));
      if |Concat(packets)| < BUCKET_SIZE then Stands(r, p, Gathered(packets, decode), None)
      else p.ticket in r.marked && r.marked[p.ticket].outcome == Matched
    ensures GatheredOk(PacketsOf(RepliesTo(events, p.req)), decode)
  {
    GatheredIs(PacketsOf(RepliesTo(events, p.req)), decode);
    AskedFate(start, before, s, events, r, p, decode);
    OffersInTime(start, before, s, events, r, p, decode);
    CompletesOnTheRightPacket(start, before, s, events, r, p, decode);
    EarliestGetsAll(s, events, Collect(decode), r, p);
    var os := OffersTo(s, events, p.ticket, Collect(decode));
    PrefixConcat(os, RepliesTo(events, p.req));
    if |Concat(PacketsOf(os))| < BUCKET_SIZE {
      TicketInQueue(r, p, Gathered(PacketsOf(os), decode));
    }
    hide Asked, Fold, Gathered, OffersTo, RepliesTo, Inv, Collect, Concat, Earliest;
  }

  /** Leaving out packets of a full answer leaves out nodes. */
  lemma ProperPrefixIsShort<W(!new)>(a: seq<Offering<seq<W>>>, b: seq<Offering<seq<W>>>, ws: seq<W>, max: nat)
    requires a < b && 0 < max && ws != []
    requires multiset(PacketsOf(b)) == multiset(Packets(ws, max))
    ensures |Concat(PacketsOf(a))| < |ws|
  {
    hide Packets;
    var ps, k := PacketsOf(b), |a|;
    PacketsMeaning(ws, max);
    SamePackets(ps, Packets(ws, max));
    hide Concat;
    assert PacketsOf(a) == ps[..k];
    assert ps[k] in multiset(Packets(ws, max));
    ShorterConcat(ps, k);
  }

  lemma ShorterConcat<W>(ps: seq<seq<W>>, k: nat)
    requires k < |ps| && ps[k] != []
    ensures |Concat(ps[..k])| < |Concat(ps)|
  {
    hide Concat;
    assert ps == ps[..k] + ([ps[k]] + ps[k + 1..]);
    ConcatAppend(ps[..k], [ps[k]] + ps[k + 1..]);
    ConcatAppend([ps[k]], ps[k + 1..]);
    ConcatOne(ps[k]);
  }

  /** End to end: a bucket's worth of nodes is sent to somebody whose earliest request this is,
      and all its packets come before the deadline, in any order, among any other traffic; then
      the request is matched with exactly the valid nodes that were sent. */
  lemma SentIsReceived<W(!new), V(!new)>(start: int, before: seq<(Event<Collected<V>, seq<W>>, int)>, s: State<Collected<V>>,
                                         events: seq<(Event<Collected<V>, seq<W>>, int)>, r: State<Collected<V>>,
                                         p: Pending<Collected<V>>, decode: W -> Option<V>, ws: seq<W>, max: nat)
    requires Asked(start, before, s, events, r, p, decode)
    requires Earliest(s.queue, p) && r.clock < p.req.expiration
    requires 0 < max && |ws| == BUCKET_SIZE
    requires multiset(PacketsOf(RepliesTo(events, p.req))) == multiset(Packets(ws, max))
    ensures exists nodes: seq<V>, valid: seq<V> ::
      && Stands(r, p, Collected(nodes, BUCKET_SIZE), Some(Matched))
      && Fold(p, OffersTo(s, events, p.ticket, Collect(decode)), Collect(decode)) == (Collected(nodes, BUCKET_SIZE), Some(Matched))
      && Picks(ws, valid, decode) && multiset(nodes) == multiset(valid)
  {
    AskedFate(start, before, s, events, r, p, decode);
    OffersInTime(start, before, s, events, r, p, decode);
    CompletesOnTheRightPacket(start, before, s, events, r, p, decode);
    EarliestGetsAll(s, events, Collect(decode), r, p);
    var os, replies := OffersTo(s, events, p.ticket, Collect(decode)), RepliesTo(events, p.req);
    if os < replies {
      ProperPrefixIsShort(os, replies, ws, max);
      TicketInQueue(r, p, Gathered(PacketsOf(os), decode));
    }
    assert os == replies;
    PacketsMeaning(ws, max);
    SamePackets(PacketsOf(os), Packets(ws, max));
    FullAnswerInAnyOrder(start, before, s, events, r, p, decode, ws, max);
    hide Asked, Fold, OffersTo, RepliesTo, Inv, Collect, Concat, Earliest, Packets, Picks, GatheredOk, Decoded;
    assert Picks(ws, Decoded(ws, decode), decode);
    assert Gathered(PacketsOf(os), decode) == Collected(Gathered(PacketsOf(os), decode).nodes, BUCKET_SIZE);
  }

  lemma GatheredElements<W(!new), V>(ws: seq<W>, arrived: seq<seq<W>>, decode: W -> Option<V>)
    requires multiset(Concat(arrived)) == multiset(ws)
    ensures multiset(Gathered(arrived, decode).nodes) == multiset(Decoded(ws, decode))
  {
    DecodedElements(Concat(arrived), ws, decode);
  }

  /** What the caller gets: everything gathered, and an error only if nothing came at all. */
  function FindNodeResult<V>(outcome: Outcome, c: Collected<V>): (seq<V>, Option<Outcome>) {
    (c.nodes, if outcome == Matched || c.nreceived != 0 then None else Some(outcome))
  }

  /** A short answer never completes the request, whenever its packets arrive and whatever
      comes between; once swept, the caller still gets all of it and no error. */
  lemma ShortAnswer<W(!new), V(!new)>(start: int, before: seq<(Event<Collected<V>, seq<W>>, int)>, s: State<Collected<V>>,
                                      events: seq<(Event<Collected<V>, seq<W>>, int)>, r: State<Collected<V>>,
                                      p: Pending<Collected<V>>, decode: W -> Option<V>, ws: seq<W>, max: nat)
    requires Asked(start, before, s, events, r, p, decode)
    requires InTime(p, OffersTo(s, events, p.ticket, Collect(decode)))
    requires 0 < max && 0 < |ws| < BUCKET_SIZE
    requires multiset(PacketsOf(OffersTo(s, events, p.ticket, Collect(decode)))) == multiset(Packets(ws, max))
    ensures var all := Gathered(PacketsOf(OffersTo(s, events, p.ticket, Collect(decode))), decode);
      && (Stands(r, p, all, None) || Stands(r, p, all, Some(DeadlinePassed)))
      && FindNodeResult(DeadlinePassed, all).1 == None
      && multiset(FindNodeResult(DeadlinePassed, all).0) == multiset(Decoded(ws, decode))
      && Picks(ws, Decoded(ws, decode), decode)
  {
    DecodedPicks(ws, decode);
    CompletesOnTheRightPacket(start, before, s, events, r, p, decode);
    hide Asked, OffersTo, Stands, Collect, Packets, Picks, GatheredOk, Decoded;
    var arrived := PacketsOf(OffersTo(s, events, p.ticket, Collect(decode)));
    PacketsMeaning(ws, max);
    SamePackets(arrived, Packets(ws, max));
    GatheredElements(ws, arrived, decode);
    hide Concat;
  }

  /** Without any packet the caller gets no node, and once the request is swept the error. */
  lemma NoAnswer<W(!new), V(!new)>(start: int, before: seq<(Event<Collected<V>, seq<W>>, int)>, s: State<Collected<V>>,
                                   events: seq<(Event<Collected<V>, seq<W>>, int)>, r: State<Collected<V>>,
                                   p: Pending<Collected<V>>, decode: W -> Option<V>)
    requires Asked(start, before, s, events, r, p, decode)
    requires OffersTo(s, events, p.ticket, Collect(decode)) == []
    ensures p in r.queue || (p.ticket in r.marked && r.marked[p.ticket].outcome == DeadlinePassed)
    ensures FindNodeResult(DeadlinePassed, p.st) == ([], Some(DeadlinePassed))
  {
    AskedFate(start, before, s, events, r, p, decode);
  }
}
