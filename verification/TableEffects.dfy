/** What the table operations do, said without the operations: through the lookup by id, the
    entries, and the number of stored addresses. */
module TableEffects {
  import opened Distance
  import opened Nodes
  import opened TableModel
  import opened P = TableProperties

  // ---------- the vocabulary ----------

  /** One more use of the address stays within both limits. */
  predicate Fits(t: Table, k: nat, ip: IP)
    requires k < |t.buckets|
  {
    ip.Addr? && (ip.lan || (Uses(Stored(t.buckets[k]), ip.subnet) < t.limits.bucket
                            && Uses(AllStored(t.buckets), ip.subnet) < t.limits.table))
  }

  /** A limited address of the subnet. */
  function Counts(ip: IP, s: Subnet): nat {
    if ip.Addr? && !ip.lan && ip.subnet == s then 1 else 0
  }

  /** The address `ip` may take the place of the stored address `was`. */
  predicate Replaces(t: Table, k: nat, was: IP, ip: IP)
    requires k < |t.buckets|
  {
    || ip == was
    || (ip.Addr? && (ip.lan || (Uses(Stored(t.buckets[k]), ip.subnet) - Counts(was, ip.subnet) < t.limits.bucket
                                && Uses(AllStored(t.buckets), ip.subnet) - Counts(was, ip.subnet) < t.limits.table)))
  }

  /** The list without the nodes that have the id. */
  function Others(ns: seq<Node>, id: Id): seq<Node> {
    if ns == [] then [] else (if ns[0].id != id then [ns[0]] else []) + Others(ns[1..], id)
  }

  /** Only bucket `k` may differ. */
  ghost predicate SameElsewhere(t: Table, r: Table, k: nat) {
    && r.self == t.self && r.limits == t.limits && |r.buckets| == |t.buckets|
    && forall j :: 0 <= j < |t.buckets| && j != k ==> r.buckets[j] == t.buckets[j]
  }

  lemma WithCellIs(t: Table, k: nat, c: Cell)
    requires k < |t.buckets|
    ensures var r := WithCell(t, k, c);
      SameElsewhere(t, r, k) && r.buckets[k] == c.b
    ensures WithCell(t, k, CellAt(t, k)) == t
    ensures CellAt(t, k).b == t.buckets[k]
  {
    assert t.buckets[k := t.buckets[k]] == t.buckets;
  }

  // ---------- where a node belongs ----------

  /** Bucket 0 is for all distances below 2^240, each further bucket for the distances of one
      more bit. */
  lemma BucketMeaning(self: Id, id: Id)
    ensures var k, d := BucketIndex(self, id), Dist(self, id);
      && (k == 0 <==> d < Pow2(BUCKET_MIN_DISTANCE + 1))
      && (k > 0 ==> Pow2(BUCKET_MIN_DISTANCE + k) <= d < Pow2(BUCKET_MIN_DISTANCE + k + 1))
  {
    var l := LogDist(self, id);
    LogDistIsBitLength(self, id);
    hide Dist, LogDist, Pow2;
    if l <= BUCKET_MIN_DISTANCE + 1 {
      Pow2Monotone(l, BUCKET_MIN_DISTANCE + 1);
    } else {
      Pow2Monotone(BUCKET_MIN_DISTANCE + 1, l - 1);
    }
  }

  lemma AcceptedIsFits(t: Table, k: nat, ip: IP)
    requires TableInv(t) && k < N_BUCKETS
    ensures |t.buckets| == N_BUCKETS && (AddIP(CellAt(t, k), t.limits, ip).Some? <==> Fits(t, k, ip))
  {
    AcceptedAddresses(t, k, ip);
    hide TableInv, BucketIndex, Uses, AddIP;
  }

  // ---------- lists with distinct ids ----------

  lemma WithoutHead(ns: seq<Node>, id: Id)
    requires ns != []
    ensures Without(ns, id) == if ns[0].id == id then ns[1..] else [ns[0]] + Without(ns[1..], id)
  {
    if ns[0].id == id {
      assert IndexOf(ns, id) == 0;
    } else {
      assert IndexOf(ns, id) == 1 + IndexOf(ns[1..], id);
      if HasId(ns[1..], id) {
        var i := IndexOf(ns[1..], id);
        assert RemoveAt(ns, i + 1) == [ns[0]] + RemoveAt(ns[1..], i);
      } else {
        assert ns == [ns[0]] + ns[1..];
      }
    }
  }

  lemma {:induction false} OthersIsWithout(ns: seq<Node>, id: Id)
    requires DistinctIds(ns)
    ensures Others(ns, id) == Without(ns, id)
  {
    if ns != [] {
      OthersIsWithout(ns[1..], id);
      WithoutHead(ns, id);
      hide Without;
      if ns[0].id == id {
        NoOther(ns[1..], id);
      }
    }
  }

  lemma {:induction false} NoOther(ns: seq<Node>, id: Id)
    requires forall i :: 0 <= i < |ns| ==> ns[i].id != id
    ensures Others(ns, id) == ns
  {
    if ns != [] {
      NoOther(ns[1..], id);
    }
  }

  // ---------- the lookup, read off one bucket ----------

  /** The node with the id, if the list has it. */
  function Find(ns: seq<Node>, id: Id): Option<Node> {
    if ns == [] then None else if ns[0].id == id then Some(ns[0]) else Find(ns[1..], id)
  }

  lemma {:induction false} FindIs(ns: seq<Node>, id: Id)
    ensures Find(ns, id) == if HasId(ns, id) then Some(ns[IndexOf(ns, id)]) else None
  {
    if ns != [] && ns[0].id != id {
      FindIs(ns[1..], id);
    }
  }

  lemma {:induction false} FindConcat(a: seq<Node>, b: seq<Node>, id: Id)
    ensures Find(a + b, id) == if Find(a, id).Some? then Find(a, id) else Find(b, id)
  {
    if a == [] {
      assert a + b == b;
    } else {
      assert (a + b)[1..] == a[1..] + b && (a + b)[0] == a[0];
      if a[0].id != id {
        FindConcat(a[1..], b, id);
      }
    }
  }

  lemma {:induction false} FindKnown(ns: seq<Node>, id: Id)
    ensures Find(ns, id).Some? <==> id in Ids(ns)
    ensures Find(ns, id).Some? ==> Find(ns, id).value.id == id && Find(ns, id).value in ns
  {
    if ns != [] {
      FindKnown(ns[1..], id);
      assert ns == [ns[0]] + ns[1..];
      IdsConcat([ns[0]], ns[1..]);
      assert Ids([ns[0]]) == {ns[0].id} by {
        IdsAt([ns[0]], 0);
      }
    }
  }

  lemma GetNodeIsFind(t: Table, id: Id)
    requires |t.buckets| == N_BUCKETS
    ensures GetNode(t, id) == Find(t.buckets[BucketIndex(t.self, id)].entries, id)
  {
    FindIs(t.buckets[BucketIndex(t.self, id)].entries, id);
  }

  /** A bucket whose list finds the same nodes leaves the lookup as it was. */
  lemma SameLookup(t: Table, r: Table, k: nat, id: Id)
    requires |t.buckets| == N_BUCKETS && k < N_BUCKETS && SameElsewhere(t, r, k)
    requires Find(r.buckets[k].entries, id) == Find(t.buckets[k].entries, id)
    ensures GetNode(r, id) == GetNode(t, id)
  {
    GetNodeIsFind(t, id);
    GetNodeIsFind(r, id);
  }

  // ---------- AddSeenNode ----------

  /** The node is taken as an entry. */
  predicate TakenAsSeen(t: Table, n: Node)
    requires |t.buckets| == N_BUCKETS
  {
    var k := BucketIndex(t.self, n.id);
    n.id != t.self && GetNode(t, n.id).None? && |t.buckets[k].entries| < BUCKET_SIZE && Fits(t, k, n.ip)
  }

  /** The node is taken as a replacement. */
  predicate TakenAsReplacement(t: Table, n: Node)
    requires |t.buckets| == N_BUCKETS
  {
    var k := BucketIndex(t.self, n.id);
    && n.id != t.self && GetNode(t, n.id).None? && |t.buckets[k].entries| == BUCKET_SIZE
    && n.id !in Ids(t.buckets[k].replacements) && Fits(t, k, n.ip)
  }

  /** What a seen node does to the table `t`. */
  ghost predicate SeenPost(t: Table, n: Node, now: int, r: Table)
    requires |t.buckets| == N_BUCKETS && |r.buckets| == N_BUCKETS
  {
    var k := BucketIndex(t.self, n.id);
    && SameElsewhere(t, r, k)
    && r.buckets[k].entries == t.buckets[k].entries + (if TakenAsSeen(t, n) then [n.(addedAt := now)] else [])
    && r.buckets[k].replacements ==
         (if TakenAsReplacement(t, n) then Take([n] + t.buckets[k].replacements, MAX_REPLACEMENTS) else t.buckets[k].replacements)
    && GetNode(r, n.id) == (if TakenAsSeen(t, n) then Some(n.(addedAt := now)) else GetNode(t, n.id))
    && (forall id :: id != n.id ==> GetNode(r, id) == GetNode(t, id))
  }

  lemma SeenEntries(t: Table, n: Node, now: int)
    requires TableInv(t)
    ensures var k, r := BucketIndex(t.self, n.id), TableAddSeen(t, n, now);
      && SameElsewhere(t, r, k)
      && r.buckets[k].entries == t.buckets[k].entries + (if TakenAsSeen(t, n) then [n.(addedAt := now)] else [])
  {
    var k := BucketIndex(t.self, n.id);
    AcceptedIsFits(t, k, n.ip);
    SeenIs(t, n, now);
    WithCellIs(t, k, CellAt(t, k));
    AddSeenEffect(CellAt(t, k), t.limits, n, now);
    HasIdIsMembership(t.buckets[k].entries, n.id);
    hide TableInv, AddSeen, AddIP, Fits, BucketIndex, TableAddSeen, CellAt, Ids, IndexOf, SameElsewhere;
    assert t.buckets[k].entries + [] == t.buckets[k].entries;
  }

  lemma SeenReplacements(t: Table, n: Node, now: int)
    requires TableInv(t)
    ensures var k, r := BucketIndex(t.self, n.id), TableAddSeen(t, n, now);
      r.buckets[k].replacements ==
        if TakenAsReplacement(t, n) then Take([n] + t.buckets[k].replacements, MAX_REPLACEMENTS) else t.buckets[k].replacements
  {
    BucketsThere(t);
    var k := BucketIndex(t.self, n.id);
    ShapeFacts(t, k);
    AcceptedIsFits(t, k, n.ip);
    HasIdIsMembership(t.buckets[k].entries, n.id);
    SeenIs(t, n, now);
    WithCellIs(t, k, CellAt(t, k));
    SeenCell(CellAt(t, k), t.limits, n, now);
    hide TableInv, AddSeen, AddIP, Fits, BucketIndex, TableAddSeen, CellAt, Ids, Take, IndexOf;
  }

  lemma SeenIs(t: Table, n: Node, now: int)
    requires |t.buckets| == N_BUCKETS
    ensures var k := BucketIndex(t.self, n.id);
      && SameElsewhere(t, TableAddSeen(t, n, now), k)
      && TableAddSeen(t, n, now).buckets[k] ==
        if n.id == t.self then t.buckets[k] else AddSeen(CellAt(t, k), t.limits, n, now).b
  {
    hide AddSeen;
  }

  /** The replacements after a seen node. */
  lemma SeenCell(c: Cell, lim: Limits, n: Node, now: int)
    requires |c.b.replacements| <= MAX_REPLACEMENTS && |c.b.entries| <= BUCKET_SIZE
    requires c.b.replacements != [] ==> |c.b.entries| == BUCKET_SIZE
    ensures AddSeen(c, lim, n, now).b.replacements ==
      if n.id !in Ids(c.b.entries) && |c.b.entries| == BUCKET_SIZE && n.id !in Ids(c.b.replacements) && AddIP(c, lim, n.ip).Some?
      then Take([n] + c.b.replacements, MAX_REPLACEMENTS) else c.b.replacements
  {
    HasIdIsMembership(c.b.entries, n.id);
    if |c.b.entries| == BUCKET_SIZE && n.id !in Ids(c.b.entries) {
      AddSeenReplacement(c, lim, n, now);
      hide AddSeen, Ids;
    } else {
      hide AddReplacement, Ids;
    }
  }

  /** `AddSeenNode` on the whole table: the node is found afterwards, with the time it was
      added, exactly if it is not the local node, its id was unknown, its bucket had room and
      its address fits; behind full entries it heads the replacements; every other id is
      found as before, and no other bucket changes. */
  lemma SeenNodeEffect(t: Table, n: Node, now: int)
    requires TableInv(t)
    ensures SeenPost(t, n, now, TableAddSeen(t, n, now))
  {
    var k, r := BucketIndex(t.self, n.id), TableAddSeen(t, n, now);
    SeenEntries(t, n, now);
    SeenReplacements(t, n, now);
    hide TableAddSeen, TableInv, Shape, BucketIndex, Fits;
    var added := if TakenAsSeen(t, n) then [n.(addedAt := now)] else [];
    forall id
      ensures GetNode(r, id) == if id == n.id && TakenAsSeen(t, n) then Some(n.(addedAt := now)) else GetNode(t, id)
    {
      FindConcat(t.buckets[k].entries, added, id);
      GetNodeIsFind(t, id);
      GetNodeIsFind(r, id);
      assert added != [] ==> added[1..] == [];
    }
  }

  // ---------- a new endpoint ----------

  lemma SubnetCounts(ip: IP, s: Subnet)
    ensures ChargeOf(ip)[s] == Counts(ip, s)
  {
  }

  /** The entry `i` may take a new address exactly if that is its present one, or is there and
      is a LAN one or stays within the limits once the present one is released. */
  lemma ReaddressIff(t: Table, k: nat, i: nat, n: Node)
    requires TableInv(t) && k < N_BUCKETS && i < |t.buckets[k].entries|
    ensures Readdress(CellAt(t, k), t.limits, i, n).Some? <==> Replaces(t, k, t.buckets[k].entries[i].ip, n.ip)
  {
    var c, was := CellAt(t, k), t.buckets[k].entries[i].ip;
    if n.ip != was && n.ip.Addr? && !n.ip.lan {
      var s := n.ip.subnet;
      CountersAreExact(t, k, s);
      CellCovered(t, k);
      SubnetCounts(was, s);
      Released(c, was, s);
      hide TableInv, BucketIndex, Uses, Covered;
    } else {
      hide TableInv, BucketIndex, Uses;
    }
  }

  lemma Released(c: Cell, was: IP, s: Subnet)
    requires ChargeOf(was) <= c.b.ips && ChargeOf(was) <= c.total
    ensures RemoveIP(c, was).b.ips[s] == c.b.ips[s] - ChargeOf(was)[s]
    ensures RemoveIP(c, was).total[s] == c.total[s] - ChargeOf(was)[s]
  {
    assert ChargeOf(was)[s] <= c.b.ips[s] && ChargeOf(was)[s] <= c.total[s];
  }

  /** The list after the record `n` was to move to the front. */
  function Bumped(t: Table, k: nat, n: Node): seq<Node>
    requires k < |t.buckets|
  {
    var e := t.buckets[k].entries;
    var m := Find(e, n.id);
    if m.Some? && Replaces(t, k, m.value.ip, n.ip) then [n] + Others(e, n.id) else e
  }

  predicate IsBumped(t: Table, k: nat, n: Node)
    requires k < |t.buckets|
  {
    var m := Find(t.buckets[k].entries, n.id);
    m.Some? && Replaces(t, k, m.value.ip, n.ip)
  }

  /** Moving a record to the front: exactly when its id is known and its endpoint fits, it goes
      there, the others keep their order; else everything in the cell stays. */
  lemma BumpEffect(t: Table, k: nat, n: Node)
    requires TableInv(t) && k < N_BUCKETS
    ensures var (c, bumped) := Bump(CellAt(t, k), t.limits, n);
      && (bumped <==> IsBumped(t, k, n))
      && c.b.entries == Bumped(t, k, n)
      && c.b.replacements == t.buckets[k].replacements
      && (!bumped ==> c == CellAt(t, k))
  {
    var e := t.buckets[k].entries;
    FindIs(e, n.id);
    ShapeDistinct(t, k);
    OthersIsWithout(e, n.id);
    NotBumped(CellAt(t, k), t.limits, n);
    if HasId(e, n.id) {
      ReaddressIff(t, k, IndexOf(e, n.id), n);
      ReaddressKeepsLists(CellAt(t, k), t.limits, IndexOf(e, n.id), n);
    }
    hide TableInv, Readdress, Replaces, Find, Others, IndexOf, DistinctIds;
  }

  lemma ReaddressKeepsLists(c: Cell, lim: Limits, i: nat, n: Node)
    requires i < |c.b.entries|
    ensures var r := Readdress(c, lim, i, n);
      r.Some? ==> r.value.b.entries == c.b.entries && r.value.b.replacements == c.b.replacements
  {
  }

  // ---------- addVerifiedNode ----------

  /** What a verified node does to the table `t`, once it is initialised. */
  ghost predicate VerifiedPost(t: Table, n: Node, now: int, r: Table)
    requires |t.buckets| == N_BUCKETS && |r.buckets| == N_BUCKETS
  {
    var k := BucketIndex(t.self, n.id);
    var e, e' := t.buckets[k].entries, r.buckets[k].entries;
    && SameElsewhere(t, r, k)
    && (if n.id == t.self then r == t
        else if GetNode(t, n.id).Some? then
          if Replaces(t, k, GetNode(t, n.id).value.ip, n.ip) then e' == [n] + Others(e, n.id) && GetNode(r, n.id) == Some(n)
          else r == t
        else
          e' == (if |e| < BUCKET_SIZE && Fits(t, k, n.ip) then [n.(addedAt := now)] else []) + e)
    && r.buckets[k].replacements ==
         (if TakenAsReplacement(t, n) then Take([n] + t.buckets[k].replacements, MAX_REPLACEMENTS) else t.buckets[k].replacements)
  }

  lemma VerifiedIs(t: Table, n: Node, now: int)
    requires |t.buckets| == N_BUCKETS && n.id != t.self
    ensures var k := BucketIndex(t.self, n.id);
      && TableAddVerified(t, n, now, true) == WithCell(t, k, AddVerified(CellAt(t, k), t.limits, n, now))
      && SameElsewhere(t, TableAddVerified(t, n, now, true), k)
      && TableAddVerified(t, n, now, true).buckets[k] == AddVerified(CellAt(t, k), t.limits, n, now).b
  {
    hide AddVerified;
  }

  lemma MovedIsFound(t: Table, r: Table, n: Node)
    requires |t.buckets| == N_BUCKETS && |r.buckets| == N_BUCKETS && r.self == t.self
    requires var e' := r.buckets[BucketIndex(t.self, n.id)].entries; e' != [] && e'[0] == n
    ensures GetNode(r, n.id) == Some(n)
  {
    GetNodeIsFind(r, n.id);
  }

  lemma VerifiedBumped(c: Cell, lim: Limits, n: Node, now: int)
    requires Bump(c, lim, n).1
    ensures AddVerified(c, lim, n, now) == Bump(c, lim, n).0
  {
  }

  lemma VerifiedKnown(t: Table, n: Node, now: int)
    requires TableInv(t) && n.id != t.self && GetNode(t, n.id).Some?
    ensures VerifiedPost(t, n, now, TableAddVerified(t, n, now, true))
  {
    BucketsThere(t);
    var k, r := BucketIndex(t.self, n.id), TableAddVerified(t, n, now, true);
    var e := t.buckets[k].entries;
    BumpEffect(t, k, n);
    GetNodeIsFind(t, n.id);
    VerifiedIs(t, n, now);
    WithCellIs(t, k, CellAt(t, k));
    KnownHasId(t, n.id);
    if IsBumped(t, k, n) {
      VerifiedBumped(CellAt(t, k), t.limits, n, now);
      hide TableInv, Bump, Replaces, Others, Fits, BucketIndex, AddVerified, TableAddVerified, WithCell, CellAt, SameElsewhere, GetNode, Find, Ids;
      MovedIsFound(t, r, n);
    } else {
      hide TableInv, Bump, Replaces, Others, Fits, BucketIndex, AddVerified, TableAddVerified, WithCell, CellAt, SameElsewhere, GetNode, Find, Ids;
      RefusedEndpointChange(t, n, now, true);
    }
  }

  lemma KnownHasId(t: Table, id: Id)
    requires |t.buckets| == N_BUCKETS && GetNode(t, id).Some?
    ensures HasId(t.buckets[BucketIndex(t.self, id)].entries, id)
  {
  }

  lemma UnknownNotBumped(t: Table, n: Node)
    requires |t.buckets| == N_BUCKETS && GetNode(t, n.id).None?
    ensures var k := BucketIndex(t.self, n.id);
      !HasId(t.buckets[k].entries, n.id) && !Bump(CellAt(t, k), t.limits, n).1 && n.id !in Ids(t.buckets[k].entries)
  {
    HasIdIsMembership(t.buckets[BucketIndex(t.self, n.id)].entries, n.id);
  }

  /** An unknown verified node in its bucket. */
  lemma VerifiedCell(c: Cell, lim: Limits, n: Node, now: int)
    requires !HasId(c.b.entries, n.id) && |c.b.replacements| <= MAX_REPLACEMENTS && |c.b.entries| <= BUCKET_SIZE
    requires c.b.replacements != [] ==> |c.b.entries| == BUCKET_SIZE
    ensures var r, fits := AddVerified(c, lim, n, now), AddIP(c, lim, n.ip).Some?;
      && r.b.entries == (if |c.b.entries| < BUCKET_SIZE && fits then [n.(addedAt := now)] else []) + c.b.entries
      && r.b.replacements ==
           (if |c.b.entries| == BUCKET_SIZE && n.id !in Ids(c.b.replacements) && fits
            then Take([n] + c.b.replacements, MAX_REPLACEMENTS) else c.b.replacements)
  {
    HasIdIsMembership(c.b.entries, n.id);
    HasIdIsMembership(c.b.replacements, n.id);
    assert [] + c.b.entries == c.b.entries;
    if |c.b.entries| == BUCKET_SIZE {
      AddSeenReplacement(c, lim, n, now);
      hide AddReplacement, Ids;
      assert AddVerified(c, lim, n, now) == AddReplacement(c, lim, n) == AddSeen(c, lim, n, now);
      ReplacementKeepsEntries(c, lim, n);
    } else {
      hide AddReplacement;
    }
  }

  lemma ReplacementKeepsEntries(c: Cell, lim: Limits, n: Node)
    ensures AddReplacement(c, lim, n).b.entries == c.b.entries
  {
  }

  lemma ShapeFacts(t: Table, k: nat)
    requires TableInv(t) && k < N_BUCKETS
    ensures var b := t.buckets[k];
      && |b.replacements| <= MAX_REPLACEMENTS && |b.entries| <= BUCKET_SIZE
      && (b.replacements != [] ==> |b.entries| == BUCKET_SIZE)
      && (forall i, j :: 0 <= i < |b.entries| && 0 <= j < |b.replacements| ==> b.entries[i].id != b.replacements[j].id)
  {
    assert Shape(t.buckets[k], k, t.self);
  }

  lemma VerifiedUnknown(t: Table, n: Node, now: int)
    requires TableInv(t) && n.id != t.self && GetNode(t, n.id).None?
    ensures VerifiedPost(t, n, now, TableAddVerified(t, n, now, true))
  {
    BucketsThere(t);
    var k := BucketIndex(t.self, n.id);
    ShapeFacts(t, k);
    AcceptedIsFits(t, k, n.ip);
    UnknownNotBumped(t, n);
    VerifiedIs(t, n, now);
    WithCellIs(t, k, CellAt(t, k));
    VerifiedCell(CellAt(t, k), t.limits, n, now);
    hide TableInv, Bump, AddIP, Replaces, Others, Fits, BucketIndex, AddVerified, TableAddVerified, WithCell, CellAt;
    hide SameElsewhere, GetNode, Ids, Take, HasId, IndexOf;
  }

  /** `addVerifiedNode` on the whole table. */
  lemma VerifiedNodeEffect(t: Table, n: Node, now: int)
    requires TableInv(t)
    ensures VerifiedPost(t, n, now, TableAddVerified(t, n, now, true))
    ensures TableAddVerified(t, n, now, false) == t
  {
    if n.id == t.self {
    } else if GetNode(t, n.id).Some? {
      VerifiedKnown(t, n, now);
    } else {
      VerifiedUnknown(t, n, now);
    }
  }

  // ---------- the second half of a revalidation ----------

  /** The record a revalidation with an answer goes on with: the fetched one exactly if the
      pong's number was higher and the fetch succeeded, with one more check. */
  function RecordKept(last: Node, number: nat, fetched: Option<Node>): Node {
    if number > last.recordSeq && fetched.Some?
    then fetched.value.(addedAt := last.addedAt, checks := last.checks + 1)
    else last.(checks := last.checks + 1)
  }

  /** The entry `last` was the last one and is gone, and the chosen replacement or nothing is in
      its place. */
  ghost predicate Departed(b: Bucket, last: Node, choice: nat, r: Bucket) {
    var e, reps := b.entries, b.replacements;
    StillLast(b, last) ==>
      && last.id !in Ids(r.entries)
      && (if reps == [] then r.entries == e[..|e| - 1] && r.replacements == []
          else && choice < |reps| && r.entries == e[..|e| - 1] + [reps[choice]]
               && r.replacements == reps[..choice] + reps[choice + 1..])
  }

  predicate StillLast(b: Bucket, last: Node) {
    b.entries != [] && b.entries[|b.entries| - 1].id == last.id
  }

  /** What the second half of a revalidation of `last` does to the table `t`. */
  ghost predicate RevalidatedPost(t: Table, k: nat, last: Node, reply: Option<nat>, fetched: Option<Node>, choice: nat, r: Table)
    requires k < |t.buckets| && k < |r.buckets|
  {
    var e, reps := t.buckets[k].entries, t.buckets[k].replacements;
    var e', reps' := r.buckets[k].entries, r.buckets[k].replacements;
    && SameElsewhere(t, r, k)
    && match reply
       case None =>
         if StillLast(t.buckets[k], last) then Departed(t.buckets[k], last, choice, r.buckets[k]) else r == t
       case Some(number) =>
         var n := RecordKept(last, number, fetched);
         var m := Find(e, n.id);
         if m.Some? && Replaces(t, k, m.value.ip, n.ip) then e' == [n] + Others(e, n.id) && reps' == reps
         else r == t
  }

  /** A silent last entry in its bucket. */
  lemma SilentCell(c: Cell, last: Node, choice: nat)
    requires DistinctIds(c.b.entries) && DistinctIds(c.b.replacements)
    requires forall i, j :: 0 <= i < |c.b.entries| && 0 <= j < |c.b.replacements| ==> c.b.entries[i].id != c.b.replacements[j].id
    requires c.b.replacements != [] ==> choice < |c.b.replacements|
    ensures Departed(c.b, last, choice, Replace(c, last, choice).b)
    ensures !StillLast(c.b, last) ==> Replace(c, last, choice) == c
  {
    var e, reps := c.b.entries, c.b.replacements;
    DeadEffect(c, last, choice);
    if e != [] && e[|e| - 1].id == last.id {
      var e' := Replace(c, last, choice).b.entries;
      hide Replace, Ids;
      assert e[..|e| - 1] + [] == e[..|e| - 1];
      forall j | 0 <= j < |e'|
        ensures e'[j].id != last.id
      {
        if j < |e| - 1 {
          assert e'[j] == e[j];
        } else {
          assert e'[j] == reps[choice] && e[|e| - 1].id != reps[choice].id;
        }
      }
      NotAmong(e', last.id);
    }
  }

  lemma SilentEffect(t: Table, k: nat, last: Node, fetched: Option<Node>, choice: nat)
    requires TableInv(t) && k < N_BUCKETS
    requires t.buckets[k].replacements != [] ==> choice < |t.buckets[k].replacements|
    ensures RevalidatedPost(t, k, last, None, fetched, choice, Revalidated(t, k, last, OutcomeOf(last, None, fetched), choice))
  {
    BucketsThere(t);
    ShapeDistinct(t, k);
    ShapeFacts(t, k);
    RevalidatedIs(t, k, last, OutcomeOf(last, None, fetched), choice);
    WithCellIs(t, k, Replace(CellAt(t, k), last, choice));
    SilentCell(CellAt(t, k), last, choice);
    hide TableInv, Replace, Revalidated, WithCell, CellAt, SameElsewhere, DistinctIds, Bump, IsLast, Departed, StillLast;
  }

  lemma NotAmong(ns: seq<Node>, id: Id)
    requires forall j :: 0 <= j < |ns| ==> ns[j].id != id
    ensures id !in Ids(ns)
  {
  }

  lemma AnsweringEffect(t: Table, k: nat, last: Node, number: nat, fetched: Option<Node>, choice: nat)
    requires TableInv(t) && k < N_BUCKETS
    ensures RevalidatedPost(t, k, last, Some(number), fetched, choice,
                            Revalidated(t, k, last, OutcomeOf(last, Some(number), fetched), choice))
  {
    BucketsThere(t);
    var outcome := OutcomeOf(last, Some(number), fetched);
    var n := RecordKept(last, number, fetched);
    assert outcome.record.(checks := outcome.record.checks + 1) == n;
    BumpEffect(t, k, n);
    RevalidatedIs(t, k, last, outcome, choice);
    WithCellIs(t, k, Bump(CellAt(t, k), t.limits, n).0);
    hide TableInv, Bump, Revalidated, WithCell, CellAt, SameElsewhere, Replaces, Others, Find, OutcomeOf, RecordKept;
  }

  /** The second half of a revalidation on the whole table, from the answer and the fetched
      record. Without a pong a picked entry that is still last is no longer an entry, and the
      chosen replacement or nothing stands there. With one it is first, with one more check,
      whenever its endpoint fits. Nothing else changes. */
  lemma RevalidationEffect(t: Table, k: nat, last: Node, reply: Option<nat>, fetched: Option<Node>, choice: nat)
    requires TableInv(t) && k < N_BUCKETS
    requires t.buckets[k].replacements != [] ==> choice < |t.buckets[k].replacements|
    ensures RevalidatedPost(t, k, last, reply, fetched, choice, Revalidated(t, k, last, OutcomeOf(last, reply, fetched), choice))
  {
    match reply {
      case None => SilentEffect(t, k, last, fetched, choice);
      case Some(number) => AnsweringEffect(t, k, last, number, fetched, choice);
    }
    hide *;
  }

  lemma BucketsThere(t: Table)
    requires TableInv(t)
    ensures |t.buckets| == N_BUCKETS
  {
  }
}
