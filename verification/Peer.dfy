/** The ledger of the nodes a peer told us about. */
module Peer {
  import opened Distance
  import opened Nodes

  // ---------- one caller at a time ----------

  class PeerLedger {
    var peers: map<Id, Node>
    var peersAmount: nat
    var unreported: seq<Id>

    /** Every fresh id is stored, and none is listed twice. */
    ghost predicate Valid()
      reads this
    {
      && peersAmount == |peers|
      && (forall i :: 0 <= i < |unreported| ==> unreported[i] in peers)
      && (forall i, j :: 0 <= i < j < |unreported| ==> unreported[i] != unreported[j])
    }

    constructor ()
      ensures Valid() && peers == map[] && unreported == []
    {
      peers, peersAmount, unreported := map[], 0, [];
    }

    /** Stores the node unless its id is known, and tells whether it was new. */
    method MarkPeerNode(node: Node) returns (isNew: bool)
      requires Valid()
      modifies this
      ensures Valid()
      ensures isNew <==> node.id !in old(peers)
      ensures peers == if isNew then old(peers)[node.id := node] else old(peers)
      ensures unreported == if isNew then old(unreported) + [node.id] else old(unreported)
    {
      isNew := node.id !in peers;
      if isNew {
        peers := peers[node.id := node];
        peersAmount := peersAmount + 1;
        unreported := unreported + [node.id];
      }
    }

    /** Hands out the ids stored since the last time. */
    method NewEntries() returns (ids: seq<Id>)
      requires Valid()
      modifies this`unreported
      ensures Valid() && unreported == [] && ids == old(unreported)
    {
      if |unreported| == 0 {
        return [];
      }
      ids := unreported;
      unreported := unreported[..0];
    }

    /** The stored nodes of the given ids, in order, skipping unknown ones. */
    method GetPeerNodes(ids: seq<Id>) returns (nodes: seq<Node>)
      ensures nodes == Resolve(peers, ids)
    {
      nodes := [];
      for i := 0 to |ids|
        invariant nodes == Resolve(peers, ids[..i])
      {
        assert ids[..i + 1][..i] == ids[..i];
        if ids[i] !in peers {
          continue;
        }
        nodes := nodes + [peers[ids[i]]];
      }
      assert ids[..|ids|] == ids;
    }
  }

  function Resolve(peers: map<Id, Node>, ids: seq<Id>): seq<Node> {
    if ids == [] then []
    else Resolve(peers, ids[..|ids| - 1]) + (if ids[|ids| - 1] in peers then [peers[ids[|ids| - 1]]] else [])
  }

  lemma {:induction false} ResolveAll(peers: map<Id, Node>, ids: seq<Id>)
    requires forall i :: 0 <= i < |ids| ==> ids[i] in peers
    ensures |Resolve(peers, ids)| == |ids|
    ensures forall i :: 0 <= i < |ids| ==> Resolve(peers, ids)[i] == peers[ids[i]]
  {
    if ids != [] {
      ResolveAll(peers, ids[..|ids| - 1]);
    }
  }

  // ---------- any number of callers ----------

  /** Storing an id, counting it and listing it as fresh are three separate steps of a
      marking caller; `counting` and `listing` hold the ids of callers in between. */
  datatype Ledger = Ledger(
    peers: map<Id, Node>,
    amount: nat,
    counting: multiset<Id>,
    listing: multiset<Id>,
    unreported: seq<Id>,
    drains: seq<seq<Id>>)

  datatype Action =
    | Store(node: Node)
    | Count(id: Id)
    | List(id: Id)
    | Drain

  predicate Enabled(s: Ledger, a: Action) {
    match a
    case Store(_) => true
    case Count(id) => id in s.counting
    case List(id) => id in s.listing
    case Drain => true
  }

  function Apply(s: Ledger, a: Action): Ledger
    requires Enabled(s, a)
  {
    match a
    case Store(node) =>
      if node.id in s.peers then s
      else s.(peers := s.peers[node.id := node], counting := s.counting + multiset{node.id})
    case Count(id) =>
      s.(amount := s.amount + 1, counting := s.counting - multiset{id}, listing := s.listing + multiset{id})
    case List(id) => s.(unreported := s.unreported + [id], listing := s.listing - multiset{id})
    case Drain => if s.unreported == [] then s else s.(drains := s.drains + [s.unreported], unreported := [])
  }

  const EMPTY: Ledger := Ledger(map[], 0, multiset{}, multiset{}, [], [])

  ghost predicate Reaches(s: Ledger, actions: seq<Action>, r: Ledger)
    decreases actions
  {
    if actions == [] then r == s
    else Enabled(s, actions[0]) && Reaches(Apply(s, actions[0]), actions[1..], r)
  }

  function Drained(drains: seq<seq<Id>>): multiset<Id> {
    if drains == [] then multiset{} else Drained(drains[..|drains| - 1]) + multiset(drains[|drains| - 1])
  }

  /** Every stored id is in exactly one place: drained, fresh, or with a caller on its way
      there; the amount lags behind by the callers that have not counted yet. */
  ghost predicate LedgerInv(s: Ledger) {
    && Drained(s.drains) + multiset(s.unreported) + s.counting + s.listing == multiset(s.peers.Keys)
    && s.amount + |s.counting| == |s.peers|
  }

  lemma StoreStep(s: Ledger, node: Node)
    requires LedgerInv(s) && node.id !in s.peers
    ensures LedgerInv(Apply(s, Store(node)))
  {
    assert s.peers[node.id := node].Keys == s.peers.Keys + {node.id};
    assert multiset(s.peers.Keys + {node.id}) == multiset(s.peers.Keys) + multiset{node.id};
  }

  lemma Move<T>(a: multiset<T>, b: multiset<T>, x: T)
    requires x in a
    ensures (a - multiset{x}) + (b + multiset{x}) == a + b
    ensures |a - multiset{x}| == |a| - 1
  {
  }

  lemma CountStep(s: Ledger, id: Id)
    requires LedgerInv(s) && id in s.counting
    ensures LedgerInv(Apply(s, Count(id)))
  {
    var d := Drained(s.drains) + multiset(s.unreported);
    Move(s.counting, s.listing, id);
    assert d + (s.counting - multiset{id}) + (s.listing + multiset{id}) == d + (s.counting + s.listing);
  }

  lemma ListStep(s: Ledger, id: Id)
    requires LedgerInv(s) && id in s.listing
    ensures LedgerInv(Apply(s, List(id)))
  {
    var d := Drained(s.drains);
    Move(s.listing, multiset(s.unreported), id);
    assert d + (multiset(s.unreported) + multiset{id}) + s.counting + (s.listing - multiset{id})
        == d + s.counting + (multiset(s.unreported) + s.listing);
  }

  lemma DrainStep(s: Ledger)
    requires LedgerInv(s)
    ensures LedgerInv(Apply(s, Drain))
  {
    if s.unreported != [] {
      assert (s.drains + [s.unreported])[..|s.drains|] == s.drains;
    }
  }

  lemma LedgerStep(s: Ledger, a: Action)
    requires LedgerInv(s) && Enabled(s, a)
    ensures LedgerInv(Apply(s, a))
    ensures forall id :: id in s.peers ==> id in Apply(s, a).peers && Apply(s, a).peers[id] == s.peers[id]
  {
    hide LedgerInv;
    match a {
      case Store(node) =>
        if node.id !in s.peers {
          StoreStep(s, node);
        }
      case Count(id) => CountStep(s, id);
      case List(id) => ListStep(s, id);
      case Drain => DrainStep(s);
    }
  }

  lemma {:induction false} LedgerOfRun(s: Ledger, actions: seq<Action>, r: Ledger)
    requires LedgerInv(s) && Reaches(s, actions, r)
    ensures LedgerInv(r)
    ensures forall id :: id in s.peers ==> id in r.peers && r.peers[id] == s.peers[id]
    decreases actions
  {
    if actions != [] {
      LedgerStep(s, actions[0]);
      LedgerOfRun(Apply(s, actions[0]), actions[1..], r);
    }
  }

  // ---------- the ledger of a run is true ----------

  /** The node first stored with the id in a run, read from its actions. */
  function FirstStored(actions: seq<Action>, id: Id): Option<Node> {
    if actions == [] then None
    else if actions[0].Store? && actions[0].node.id == id then Some(actions[0].node)
    else FirstStored(actions[1..], id)
  }

  /** The ids listed as fresh in a run, in order, read from its actions. */
  function Listed(actions: seq<Action>): seq<Id> {
    if actions == [] then [] else (if actions[0].List? then [actions[0].id] else []) + Listed(actions[1..])
  }

  /** Everything the drains handed out, in order. */
  function HandedOut(drains: seq<seq<Id>>): seq<Id> {
    if drains == [] then [] else HandedOut(drains[..|drains| - 1]) + drains[|drains| - 1]
  }

  lemma TrueStep(s: Ledger, a: Action)
    requires Enabled(s, a)
    ensures HandedOut(Apply(s, a).drains) + Apply(s, a).unreported
         == HandedOut(s.drains) + s.unreported + if a.List? then [a.id] else []
    ensures a.Drain? ==> Apply(s, a).unreported == []
  {
    var x := if a.List? then [a.id] else [];
    assert HandedOut(s.drains) + (s.unreported + x) == HandedOut(s.drains) + s.unreported + x;
    if a.Drain? && s.unreported != [] {
      assert (s.drains + [s.unreported])[..|s.drains|] == s.drains;
      assert HandedOut(s.drains) + s.unreported + [] == HandedOut(s.drains) + s.unreported;
    }
  }

  lemma {:induction false} StoredFrom(s: Ledger, actions: seq<Action>, r: Ledger, id: Id)
    requires Reaches(s, actions, r)
    ensures id in r.peers <==> id in s.peers || FirstStored(actions, id).Some?
    ensures id in r.peers ==> r.peers[id] == if id in s.peers then s.peers[id] else FirstStored(actions, id).value
    decreases actions
  {
    if actions != [] {
      StoredFrom(Apply(s, actions[0]), actions[1..], r, id);
    }
  }

  lemma {:induction false} ListedFrom(s: Ledger, actions: seq<Action>, r: Ledger)
    requires Reaches(s, actions, r)
    ensures HandedOut(r.drains) + r.unreported == HandedOut(s.drains) + s.unreported + Listed(actions)
    decreases actions
  {
    hide HandedOut, Apply;
    if actions == [] {
      assert HandedOut(s.drains) + s.unreported + [] == HandedOut(s.drains) + s.unreported;
    } else {
      TrueStep(s, actions[0]);
      ListedFrom(Apply(s, actions[0]), actions[1..], r);
      var all, x := HandedOut(s.drains) + s.unreported, if actions[0].List? then [actions[0].id] else [];
      assert all + x + Listed(actions[1..]) == all + (x + Listed(actions[1..]));
    }
  }

  /** In every interleaving: an id is stored exactly if some caller brought a node with it, and
      it keeps the first of these nodes; what the drains handed out and what is still fresh is,
      in order, what the callers listed; and a drain leaves nothing behind. */
  lemma LedgerIsTrue(actions: seq<Action>, s: Ledger, id: Id)
    requires Reaches(EMPTY, actions, s)
    ensures id in s.peers <==> FirstStored(actions, id).Some?
    ensures id in s.peers ==> s.peers[id] == FirstStored(actions, id).value
    ensures HandedOut(s.drains) + s.unreported == Listed(actions)
    ensures Apply(s, Drain).unreported == []
  {
    StoredFrom(EMPTY, actions, s, id);
    ListedFrom(EMPTY, actions, s);
    assert HandedOut([]) + [] + Listed(actions) == Listed(actions);
    TrueStep(s, Drain);
  }

  lemma {:induction false} DrainedPart(drains: seq<seq<Id>>, d: nat, id: Id)
    requires d < |drains| && id in drains[d]
    ensures Drained(drains)[id] >= multiset(drains[d])[id] > 0
  {
    var n := |drains| - 1;
    if d < n {
      DrainedPart(drains[..n], d, id);
    } else {
      assert id in multiset(drains[d]);
    }
  }

  /** In every interleaving of markings and drains: each stored id is reported exactly once
      over all drains, what is fresh, and what is on its way; and every id of a drain
      resolves, from then on for good, to the node it was stored with. */
  lemma ReportedExactlyOnce(actions: seq<Action>, s: Ledger, more: seq<Action>, r: Ledger)
    requires Reaches(EMPTY, actions, s) && Reaches(s, more, r)
    ensures Drained(s.drains) + multiset(s.unreported) + s.counting + s.listing == multiset(s.peers.Keys)
    ensures s.amount + |s.counting| == |s.peers|
    ensures forall d :: 0 <= d < |s.drains| ==>
      |Resolve(r.peers, s.drains[d])| == |s.drains[d]|
      && forall i :: 0 <= i < |s.drains[d]| ==>
           s.drains[d][i] in s.peers && Resolve(r.peers, s.drains[d])[i] == s.peers[s.drains[d][i]]
  {
    LedgerOfRun(EMPTY, actions, s);
    LedgerOfRun(s, more, r);
    forall d | 0 <= d < |s.drains|
      ensures forall i :: 0 <= i < |s.drains[d]| ==> s.drains[d][i] in s.peers
      ensures |Resolve(r.peers, s.drains[d])| == |s.drains[d]|
      ensures forall i :: 0 <= i < |s.drains[d]| ==> Resolve(r.peers, s.drains[d])[i] == r.peers[s.drains[d][i]]
    {
      forall i | 0 <= i < |s.drains[d]|
        ensures s.drains[d][i] in s.peers
      {
        DrainedPart(s.drains, d, s.drains[d][i]);
        assert s.drains[d][i] in multiset(s.peers.Keys);
      }
      ResolveAll(r.peers, s.drains[d]);
    }
  }
}
