/** What the table operations mean for a caller. */
module TableProperties {
  import opened Distance
  import opened Nodes
  import opened TableModel

  // ---------- the table as one flat list ----------

  function AllEntries(bs: seq<Bucket>): seq<Node> {
    if bs == [] then [] else bs[0].entries + AllEntries(bs[1..])
  }

  /** The entry with the id, looked up in the one bucket the id belongs to. */
  function GetNode(t: Table, id: Id): Option<Node>
    requires |t.buckets| == N_BUCKETS
  {
    var e := t.buckets[BucketIndex(t.self, id)].entries;
    if HasId(e, id) then Some(e[IndexOf(e, id)]) else None
  }

  lemma {:induction false} AllEntriesHomes(bs: seq<Bucket>, first: nat, self: Id, i: nat)
    requires forall k :: 0 <= k < |bs| ==> Shape(bs[k], first + k, self)
    requires i < |AllEntries(bs)|
    ensures AllEntries(bs)[i].id != self
    ensures var k := BucketIndex(self, AllEntries(bs)[i].id) as int - first;
      0 <= k < |bs| && AllEntries(bs)[i] in bs[k].entries
  {
    hide BucketIndex;
    if i < |bs[0].entries| {
      assert Shape(bs[0], first + 0, self);
      assert Belongs(bs[0].entries[i], first, self);
    } else {
      assert forall k :: 0 <= k < |bs[1..]| ==> bs[1..][k] == bs[k + 1];
      forall k | 0 <= k < |bs[1..]|
        ensures Shape(bs[1..][k], first + 1 + k, self)
      {
        assert Shape(bs[k + 1], first + (k + 1), self);
      }
      AllEntriesHomes(bs[1..], first + 1, self, i - |bs[0].entries|);
    }
  }

  /** No id occurs twice among the entries of the whole table. */
  lemma {:induction false} AllEntriesDistinct(bs: seq<Bucket>, first: nat, self: Id)
    requires forall k :: 0 <= k < |bs| ==> Shape(bs[k], first + k, self)
    ensures DistinctIds(AllEntries(bs))
  {
    hide BucketIndex;
    if bs != [] {
      forall k | 0 <= k < |bs[1..]|
        ensures Shape(bs[1..][k], first + 1 + k, self)
      {
        assert Shape(bs[k + 1], first + (k + 1), self);
      }
      AllEntriesDistinct(bs[1..], first + 1, self);
      assert Shape(bs[0], first + 0, self);
      var a, b := bs[0].entries, AllEntries(bs[1..]);
      forall i, j | 0 <= i < |a| && 0 <= j < |b|
        ensures a[i].id != b[j].id
      {
        assert Belongs(a[i], first, self);
        AllEntriesHomes(bs[1..], first + 1, self, j);
      }
    }
  }

  lemma TableEntriesDistinct(t: Table)
    requires TableInv(t)
    ensures DistinctIds(AllEntries(t.buckets))
  {
    AllEntriesDistinct(t.buckets, 0, t.self);
  }

  lemma {:induction false} InAllEntries(bs: seq<Bucket>, k: nat, n: Node)
    requires k < |bs| && n in bs[k].entries
    ensures n in AllEntries(bs)
  {
    if k > 0 {
      InAllEntries(bs[1..], k - 1, n);
    }
  }

  lemma ShapeDistinct(t: Table, k: nat)
    requires TableInv(t) && k < N_BUCKETS
    ensures DistinctIds(t.buckets[k].entries) && DistinctIds(t.buckets[k].replacements)
  {
    assert Shape(t.buckets[k], k, t.self);
  }

  lemma GetNodeFinds(t: Table, id: Id, n: Node)
    requires TableInv(t)
    requires n in AllEntries(t.buckets) && n.id == id
    ensures GetNode(t, id) == Some(n)
  {
    hide BucketIndex, Shape;
    var all, k := AllEntries(t.buckets), BucketIndex(t.self, id);
    var i :| 0 <= i < |all| && all[i] == n;
    AllEntriesHomes(t.buckets, 0, t.self, i);
    ShapeDistinct(t, k);
    var e := t.buckets[k].entries;
    var w :| 0 <= w < |e| && e[w] == n;
    assert IndexOf(e, id) == w;
  }

  /** Looking into one bucket is as good as looking through the whole table: the lookup
      returns `n` exactly when `n` is an entry with that id, and fails exactly when no entry
      anywhere has it. */
  lemma GetNodeAgreesWithTable(t: Table, id: Id)
    requires TableInv(t)
    ensures forall n :: GetNode(t, id) == Some(n) <==> n in AllEntries(t.buckets) && n.id == id
    ensures GetNode(t, id).None? <==> id !in Ids(AllEntries(t.buckets))
  {
    hide Shape;
    var k := BucketIndex(t.self, id);
    forall n | n in AllEntries(t.buckets) && n.id == id
      ensures GetNode(t, id) == Some(n)
    {
      GetNodeFinds(t, id, n);
    }
    forall n | GetNode(t, id) == Some(n)
      ensures n in AllEntries(t.buckets) && n.id == id
    {
      InAllEntries(t.buckets, k, n);
    }
  }

  /** A replacement occurs nowhere else in the table, neither as an entry nor as another
      replacement. */
  lemma ReplacementOccursOnce(t: Table, k: nat, i: nat, j: nat, l: nat)
    requires TableInv(t) && k < N_BUCKETS && i < |t.buckets[k].replacements| && j < N_BUCKETS
    ensures l < |t.buckets[j].entries| ==> t.buckets[j].entries[l].id != t.buckets[k].replacements[i].id
    ensures l < |t.buckets[j].replacements| && (j != k || l != i) ==>
      t.buckets[j].replacements[l].id != t.buckets[k].replacements[i].id
  {
    hide BucketIndex;
    assert Shape(t.buckets[k], k, t.self) && Belongs(t.buckets[k].replacements[i], k, t.self);
    assert Shape(t.buckets[j], j, t.self);
    assert l < |t.buckets[j].entries| ==> Belongs(t.buckets[j].entries[l], j, t.self);
    assert l < |t.buckets[j].replacements| ==> Belongs(t.buckets[j].replacements[l], j, t.self);
  }

  // ---------- the counters count ----------

  /** All nodes a bucket holds. */
  function Stored(b: Bucket): seq<Node> {
    b.entries + b.replacements
  }

  function AllStored(bs: seq<Bucket>): seq<Node> {
    if bs == [] then [] else Stored(bs[0]) + AllStored(bs[1..])
  }

  lemma {:induction false} SumIsCharges(bs: seq<Bucket>)
    requires forall k :: 0 <= k < |bs| ==> bs[k].ips == Charges(bs[k].entries) + Charges(bs[k].replacements)
    ensures SumIps(bs) == Charges(AllStored(bs))
  {
    if bs != [] {
      SumIsCharges(bs[1..]);
      ChargesConcat(bs[0].entries, bs[0].replacements);
      ChargesConcat(Stored(bs[0]), AllStored(bs[1..]));
    }
  }

  function Uses(ns: seq<Node>, s: Subnet): nat {
    |Positions(ns, s)|
  }

  /** In a table in order, each counter of a subnet is the number of stored nodes with a
      limited address of that subnet, for every bucket and for the table, and both numbers
      are within the limits. */
  lemma CountersAreExact(t: Table, k: nat, s: Subnet)
    requires TableInv(t) && k < N_BUCKETS
    ensures t.buckets[k].ips[s] == Uses(Stored(t.buckets[k]), s) <= t.limits.bucket
    ensures t.ips[s] == Uses(AllStored(t.buckets), s) <= t.limits.table
  {
    var b := t.buckets[k];
    ChargesConcat(b.entries, b.replacements);
    ChargesCount(Stored(b), s);
    SumIsCharges(t.buckets);
    ChargesCount(AllStored(t.buckets), s);
    assert b.ips[s] <= t.limits.bucket && t.ips[s] <= t.limits.table;
  }

  /** `AddIP` accepts an address exactly when one more use of its subnet stays within both
      limits; LAN addresses always fit and a missing address never does. */
  lemma AcceptedAddresses(t: Table, k: nat, ip: IP)
    requires TableInv(t) && k < N_BUCKETS
    ensures AddIP(CellAt(t, k), t.limits, ip).Some? <==>
      && ip.Addr?
      && (ip.lan || (Uses(Stored(t.buckets[k]), ip.subnet) < t.limits.bucket
                  && Uses(AllStored(t.buckets), ip.subnet) < t.limits.table))
  {
    if ip.Addr? {
      CountersAreExact(t, k, ip.subnet);
    }
  }

  // ---------- effects ----------

  lemma HasIdIsMembership(list: seq<Node>, id: Id)
    ensures HasId(list, id) <==> id in Ids(list)
  {
    if HasId(list, id) {
      assert list[IndexOf(list, id)] in list;
    }
  }

  /** A node that was heard of never alters, moves or drops an entry: the entries stay or get
      the node appended, which happens exactly when its id is unknown there, there is room
      and its address fits. */
  lemma AddSeenEffect(c: Cell, lim: Limits, n: Node, now: int)
    ensures AddSeen(c, lim, n, now).b.entries == c.b.entries +
      if n.id !in Ids(c.b.entries) && |c.b.entries| < BUCKET_SIZE && AddIP(c, lim, n.ip).Some?
      then [n.(addedAt := now)] else []
  {
    HasIdIsMembership(c.b.entries, n.id);
  }

  /** Behind full entries the newest unknown node with a fitting address becomes the first
      replacement, and only the oldest of ten makes room for it. */
  lemma AddSeenReplacement(c: Cell, lim: Limits, n: Node, now: int)
    requires |c.b.entries| >= BUCKET_SIZE && |c.b.replacements| <= MAX_REPLACEMENTS
    requires n.id !in Ids(c.b.entries)
    ensures AddSeen(c, lim, n, now).b.replacements ==
      if n.id !in Ids(c.b.replacements) && AddIP(c, lim, n.ip).Some?
      then Take([n] + c.b.replacements, MAX_REPLACEMENTS) else c.b.replacements
  {
    HasIdIsMembership(c.b.entries, n.id);
    HasIdIsMembership(c.b.replacements, n.id);
  }

  /** Other buckets never notice. */
  lemma OnlyOwnBucketChanges(t: Table, n: Node, now: int, j: nat)
    requires |t.buckets| == N_BUCKETS && j < N_BUCKETS
    requires n.id == t.self || j != BucketIndex(t.self, n.id)
    ensures TableAddSeen(t, n, now).buckets[j] == t.buckets[j]
    ensures TableAddVerified(t, n, now, true).buckets[j] == t.buckets[j]
  {
  }

  /** A verified node goes to the front of the entries, whether it was among them or not,
      and the other entries keep their order. (`RefusedEndpointChange` covers the known node
      whose new endpoint does not fit.) */
  lemma AddVerifiedEffect(c: Cell, lim: Limits, n: Node, now: int)
    requires n.id in Ids(c.b.entries) ==> Bump(c, lim, n).1
    ensures AddVerified(c, lim, n, now).b.entries ==
      if n.id in Ids(c.b.entries) then [n] + Without(c.b.entries, n.id)
      else if |c.b.entries| < BUCKET_SIZE && AddIP(c, lim, n.ip).Some? then [n.(addedAt := now)] + c.b.entries
      else c.b.entries
  {
    HasIdIsMembership(c.b.entries, n.id);
  }

  /** An answering last entry moves to the front, taking over its new record unless the new
      endpoint does not fit; the other entries keep their order. */
  lemma AliveEffect(c: Cell, lim: Limits, record: Node)
    requires c.b.entries != [] && DistinctIds(c.b.entries)
    requires record.id == c.b.entries[|c.b.entries| - 1].id
    ensures Bump(c, lim, record).0.b.replacements == c.b.replacements
    ensures Bump(c, lim, record).0.b.entries ==
      if Bump(c, lim, record).1 then [record] + c.b.entries[..|c.b.entries| - 1] else c.b.entries
    ensures record.ip == c.b.entries[|c.b.entries| - 1].ip ==> Bump(c, lim, record).1
  {
    assert IndexOf(c.b.entries, record.id) == |c.b.entries| - 1;
  }

  /** A silent last entry is exchanged for the chosen replacement, or removed when there is
      none; the other entries keep their order. An entry that is no longer last stays. */
  lemma DeadEffect(c: Cell, last: Node, choice: nat)
    requires DistinctIds(c.b.entries) && DistinctIds(c.b.replacements)
    requires c.b.replacements != [] ==> choice < |c.b.replacements|
    ensures var e, reps, r := c.b.entries, c.b.replacements, Replace(c, last, choice);
      if e != [] && e[|e| - 1].id == last.id then
        && r.b.entries == e[..|e| - 1] + (if reps == [] then [] else [reps[choice]])
        && r.b.replacements == (if reps == [] then [] else RemoveAt(reps, choice))
      else r == c
  {
    var e, reps := c.b.entries, c.b.replacements;
    if IsLast(c.b, last.id) {
      assert IndexOf(e, last.id) == |e| - 1;
    }
    if reps != [] {
      assert IndexOf(reps, reps[choice].id) == choice;
    }
  }

  // ---------- why revalidations must not overlap with endpoint changes ----------

  /** Replacing a dead last entry keeps the counters exact if and only if the address it
      was picked with charges the counters like the one the entry has now, or the entry
      charges nothing and the picked address is not counted anywhere. */
  lemma ReplaceExactIff(c: Cell, k: nat, self: Id, rest: multiset<Subnet>, lim: Limits, last: Node, choice: nat)
    requires CellOk(c, k, self, rest, lim)
    requires c.b.entries != [] && c.b.entries[|c.b.entries| - 1].id == last.id
    requires c.b.replacements != [] ==> choice < |c.b.replacements|
    ensures var has, released := ChargeOf(c.b.entries[|c.b.entries| - 1].ip), ChargeOf(last.ip);
      var c1 := Replace(c, last, choice);
      (c1.b.ips == Charges(Stored(c1.b)) && c1.total == Charges(Stored(c1.b)) + rest)
      <==> (has == released || (has == multiset{} && released !! c.total))
  {
    hide BucketIndex, Replace;
    var has, released := ChargeOf(c.b.entries[|c.b.entries| - 1].ip), ChargeOf(last.ip);
    var c1 := Replace(c, last, choice);
    ReplacedCharges(c, last, choice);
    var m := Charges(Stored(c1.b));
    ExactRelease(m, rest, has, released);
    assert c.total == m + has + rest;
  }

  lemma ReplacedCharges(c: Cell, last: Node, choice: nat)
    requires IsLast(c.b, last.id)
    requires DistinctIds(c.b.entries) && DistinctIds(c.b.replacements)
    requires c.b.replacements != [] ==> choice < |c.b.replacements|
    ensures var c1 := Replace(c, last, choice);
      && Charges(c.b.entries) + Charges(c.b.replacements)
         == Charges(Stored(c1.b)) + ChargeOf(c.b.entries[|c.b.entries| - 1].ip)
      && c1.b.ips == c.b.ips - ChargeOf(last.ip)
      && c1.total == c.total - ChargeOf(last.ip)
  {
    hide Charges, ChargeOf;
    var e, reps := c.b.entries, c.b.replacements;
    var b1 := Replace(c, last, choice).b;
    assert IndexOf(e, last.id) == |e| - 1;
    ChargesConcat(b1.entries, b1.replacements);
    if reps == [] {
      ChargesRemoveAt(e, |e| - 1);
    } else {
      assert IndexOf(reps, reps[choice].id) == choice;
      ReplaceCharges(e, reps, choice);
    }
  }

  lemma One<T>(x: multiset<T>, s: T)
    requires |x| <= 1 && s in x
    ensures x == multiset{s}
  {
    assert x == multiset{s} + (x - multiset{s});
  }

  /** Releasing a charge from an exact pair of counters. */
  lemma ExactRelease(m: multiset<Subnet>, rest: multiset<Subnet>, has: multiset<Subnet>, released: multiset<Subnet>)
    requires |has| <= 1 && |released| <= 1
    ensures (m + has - released == m && m + has + rest - released == m + rest)
      <==> (has == released || (has == multiset{} && released !! (m + has + rest)))
  {
    if has == multiset{} {
      assert m + has == m && m + has + rest == m + rest;
      if s: Subnet :| s in released && s in m + rest {
        assert (m + rest - released)[s] < (m + rest)[s];
      } else {
        assert m - released == m && m + rest - released == m + rest;
      }
    } else {
      var s :| s in has;
      One(has, s);
      if s in released {
        One(released, s);
        assert m + has - released == m && m + has + rest - released == m + rest;
      } else {
        assert (m + has - released)[s] == m[s] + 1;
      }
    }
  }

  /** Every entry has an address, and the counters count it within the limits. */
  ghost predicate Covered(c: Cell, lim: Limits) {
    && Within(c.b.ips, lim.bucket) && Within(c.total, lim.table)
    && forall i :: 0 <= i < |c.b.entries| ==>
         && c.b.entries[i].ip != NoIP
         && ChargeOf(c.b.entries[i].ip) <= c.b.ips
         && ChargeOf(c.b.entries[i].ip) <= c.total
  }

  lemma CellCovered(t: Table, k: nat)
    requires TableInv(t) && k < N_BUCKETS
    ensures Covered(CellAt(t, k), t.limits)
  {
    hide BucketIndex;
    CellOfTable(t, k);
    var e := t.buckets[k].entries;
    forall i | 0 <= i < |e|
      ensures e[i].ip != NoIP && ChargeOf(e[i].ip) <= t.buckets[k].ips
    {
      assert Belongs(e[i], k, t.self);
      ChargesRemoveAt(e, i);
    }
  }
}
