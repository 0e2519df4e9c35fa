/** The node table as the program keeps it: buckets updated in place, two layers of address
    counters, proved against the operations on values. */
module NodeTable {
  import opened Distance
  import opened Nodes
  import opened NearestNodes
  import M = TableModel
  import P = TableProperties
  import E = TableEffects

  // ---------- helpers on lists ----------

  method Contains(ns: seq<Node>, id: Id) returns (found: bool)
    ensures found == M.HasId(ns, id)
  {
    for i := 0 to |ns|
      invariant forall j :: 0 <= j < i ==> ns[j].id != id
    {
      if ns[i].id == id {
        return true;
      }
    }
    return false;
  }

  /** Adds `n` to the front, keeping at most `max` items: grow by one slot if there is room,
      shift everything down by one, overwrite the first slot. */
  method PushNode(list: seq<Node>, n: Node, max: nat) returns (r: seq<Node>, removed: Option<Node>)
    requires 0 < max
    ensures (r, removed) == M.PushFront(list, n, max)
  {
    removed := None;
    r := list;
    if |r| < max {
      r := r + [n];
    } else {
      removed := Some(r[|r| - 1]);
    }
    ghost var grown := r;
    r := Copy(r, 1, r);
    r := r[0 := n];
    assert r == [n] + grown[..|grown| - 1];
    assert grown[..|grown| - 1] == if |list| < max then list else list[..|list| - 1];
  }

  method DeleteNode(list: seq<Node>, n: Node) returns (r: seq<Node>)
    ensures r == M.Without(list, n.id)
  {
    for i := 0 to |list|
      invariant forall j :: 0 <= j < i ==> list[j].id != n.id
    {
      if list[i].id == n.id {
        assert M.IndexOf(list, n.id) == i;
        return list[..i] + list[i + 1..];
      }
    }
    return list;
  }

  function Checked(ns: seq<Node>): seq<Node> {
    if ns == [] then [] else (if ns[0].checks > 0 then [ns[0]] else []) + Checked(ns[1..])
  }

  lemma {:induction false} CheckedSnoc(ns: seq<Node>, n: Node)
    ensures Checked(ns + [n]) == Checked(ns) + if n.checks > 0 then [n] else []
  {
    if ns == [] {
      assert ns + [n] == [n];
    } else {
      assert (ns + [n])[1..] == ns[1..] + [n];
      CheckedSnoc(ns[1..], n);
    }
  }

  lemma {:induction false} CheckedMeaning(ns: seq<Node>)
    ensures forall n :: n in Checked(ns) <==> n in ns && n.checks > 0
  {
    if ns != [] {
      CheckedMeaning(ns[1..]);
      assert forall n :: n in ns <==> n == ns[0] || n in ns[1..];
    }
  }

  /** The checked nodes, in order. */
  lemma {:induction false} CheckedPicks(ns: seq<Node>)
    ensures Picks(ns, Checked(ns), (n: Node) => if n.checks > 0 then Some(n) else None)
  {
    var live := (n: Node) => if n.checks > 0 then Some(n) else None;
    if ns == [] {
      PicksNothing(ns, Checked(ns), live);
    } else {
      CheckedPicks(ns[1..]);
      PicksCons(ns, Checked(ns[1..]), live);
    }
  }

  lemma {:induction false} CheckedDistinct(ns: seq<Node>)
    requires DistinctIds(ns)
    ensures DistinctIds(Checked(ns))
  {
    if ns != [] {
      CheckedDistinct(ns[1..]);
      CheckedMeaning(ns[1..]);
      var rest := Checked(ns[1..]);
      forall j | 0 <= j < |rest|
        ensures rest[j].id != ns[0].id
      {
        assert rest[j] in ns[1..];
      }
    }
  }

  /** What a search of the table looks at: its checked entries if those are preferred and there
      is one, all entries otherwise. */
  function Searched(t: M.Table, preferLive: bool): seq<Node> {
    var all := P.AllEntries(t.buckets);
    if preferLive && Checked(all) != [] then Checked(all) else all
  }

  /** These are the entries that were ever checked, in order, or all entries. */
  lemma SearchedMeaning(t: M.Table, preferLive: bool)
    ensures var all := P.AllEntries(t.buckets);
      if preferLive && exists n :: n in all && n.checks > 0
      then Picks(all, Searched(t, preferLive), (n: Node) => if n.checks > 0 then Some(n) else None)
      else Searched(t, preferLive) == all
  {
    hide P.AllEntries, Picks, Checked;
    CheckedMeaning(P.AllEntries(t.buckets));
    CheckedPicks(P.AllEntries(t.buckets));
    if Checked(P.AllEntries(t.buckets)) != [] {
      assert Checked(P.AllEntries(t.buckets))[0] in P.AllEntries(t.buckets);
    }
  }

  lemma SearchedDistinct(t: M.Table, preferLive: bool)
    requires M.TableInv(t)
    ensures DistinctIds(Searched(t, preferLive))
  {
    P.TableEntriesDistinct(t);
    CheckedDistinct(P.AllEntries(t.buckets));
    hide M.TableInv, P.AllEntries, DistinctIds, Checked;
  }

  /** What a search of a table in order returns: no id twice; with `preferLive` checked nodes
      only, unless the table has none. */
  lemma SearchResult(t: M.Table, target: Id, nresults: int, preferLive: bool)
    requires M.TableInv(t)
    ensures var all := P.AllEntries(t.buckets);
      var r := Nearest(Searched(t, preferLive), target, nresults);
      && DistinctIds(r)
      && (preferLive && (exists n :: n in all && n.checks > 0) ==> forall i :: 0 <= i < |r| ==> r[i].checks > 0)
      && forall i :: 0 <= i < |r| ==> r[i] in all
  {
    hide M.TableInv, P.AllEntries, Nearest;
    CheckedMeaning(P.AllEntries(t.buckets));
    SearchedDistinct(t, preferLive);
    var from := Searched(t, preferLive);
    NearestDistinct(from, target, nresults);
    forall i | 0 <= i < |Nearest(from, target, nresults)|
      ensures Nearest(from, target, nresults)[i] in from
    {
      NearestSubset(from, target, nresults, i);
    }
  }

  lemma {:induction false} AllEntriesSnoc(bs: seq<M.Bucket>, i: nat)
    requires i < |bs|
    ensures P.AllEntries(bs[..i + 1]) == P.AllEntries(bs[..i]) + bs[i].entries
  {
    assert bs[..i + 1][1..] == bs[1..][..i];
    if i == 0 {
      assert P.AllEntries(bs[..1][1..]) == [];
    } else {
      AllEntriesSnoc(bs[1..], i - 1);
      assert bs[..i][1..] == bs[1..][..i - 1];
    }
  }

  lemma PushAllStart(t: Id, k: int)
    ensures PushAll([], [], t, k) == [] && Checked([]) == [] && P.AllEntries([]) == []
  {
  }

  /** Nothing is nearest only if there is nothing or nothing is wanted. */
  lemma NearestOfNone(ns: seq<Node>, t: Id, k: int)
    ensures Nearest(ns, t, k) == [] <==> ns == [] || k <= 0
  {
  }

  lemma SwapKeepsElements(s: seq<Node>, i: nat, j: nat)
    requires i < |s| && j < |s|
    ensures multiset(s[i := s[j]][j := s[i]]) == multiset(s)
  {
  }

  /** Shifting the first `i` entries up by one and writing the first slot moves entry `i`
      to the front. */
  lemma MoveToFront(e: seq<Node>, i: nat, n: Node)
    requires i < |e|
    ensures Copy(e, 1, e[..i])[0 := n] == [n] + M.RemoveAt(e, i)
  {
  }

  // ---------- objects ----------

  class Bucket {
    var entries: seq<Node>
    var replacements: seq<Node>
    var ips: multiset<Subnet>

    ghost function View(): M.Bucket
      reads this
    {
      M.Bucket(entries, replacements, ips)
    }

    constructor ()
      ensures View() == M.Bucket([], [], multiset{})
    {
      entries, replacements, ips := [], [], multiset{};
    }
  }

  class Table {
    const self: Id
    const limits: M.Limits
    const buckets: seq<Bucket>
    var ips: multiset<Subnet>

    /** The bucket array: one bucket object per index. */
    ghost predicate Wired() {
      && |buckets| == M.N_BUCKETS
      && forall i, j :: 0 <= i < j < |buckets| ==> buckets[i] != buckets[j]
    }

    ghost function Views(): (r: seq<M.Bucket>)
      reads buckets
      ensures |r| == |buckets|
      ensures forall i :: 0 <= i < |buckets| ==> r[i] == buckets[i].View()
    {
      seq(|buckets|, i requires 0 <= i < |buckets| reads buckets => buckets[i].View())
    }

    ghost function View(): M.Table
      reads this, buckets
    {
      M.Table(self, limits, Views(), ips)
    }

    /** A bucket together with the table-wide counter. */
    ghost function Cell(b: Bucket): M.Cell
      reads this, b
    {
      M.Cell(b.View(), ips)
    }

    constructor (self: Id, limits: M.Limits)
      ensures Wired() && fresh(buckets)
      ensures View() == M.EmptyTable(self, limits)
    {
      this.self := self;
      this.limits := limits;
      this.ips := multiset{};
      var bs: seq<Bucket> := [];
      while |bs| < M.N_BUCKETS
        invariant |bs| <= M.N_BUCKETS
        invariant fresh(bs)
        invariant forall i, j :: 0 <= i < j < |bs| ==> bs[i] != bs[j]
        invariant forall i :: 0 <= i < |bs| ==> bs[i].View() == M.Bucket([], [], multiset{})
      {
        var b := new Bucket();
        bs := bs + [b];
      }
      this.buckets := bs;
      new;
      assert Views() == M.EmptyTable(self, limits).buckets;
    }

    // ----- address accounting -----

    method AddIP(b: Bucket, ip: IP) returns (ok: bool)
      modifies this`ips, b`ips
      ensures ok == M.AddIP(old(Cell(b)), limits, ip).Some?
      ensures Cell(b) == if ok then M.AddIP(old(Cell(b)), limits, ip).value else old(Cell(b))
    {
      if ip.NoIP? {
        return false;
      }
      if ip.lan {
        return true;
      }
      if ips[ip.subnet] >= limits.table {
        return false;
      }
      ips := ips + multiset{ip.subnet};
      if b.ips[ip.subnet] >= limits.bucket {
        ips := ips - multiset{ip.subnet};
        return false;
      }
      b.ips := b.ips + multiset{ip.subnet};
      return true;
    }

    method RemoveIP(b: Bucket, ip: IP)
      modifies this`ips, b`ips
      ensures Cell(b) == M.RemoveIP(old(Cell(b)), ip)
    {
      if ip.NoIP? || ip.lan {
        assert ips - multiset{} == ips && b.ips - multiset{} == b.ips;
        return;
      }
      ips := ips - multiset{ip.subnet};
      b.ips := b.ips - multiset{ip.subnet};
    }

    // ----- bucket operations -----

    method AddReplacement(b: Bucket, n: Node)
      modifies this`ips, b
      ensures Cell(b) == M.AddReplacement(old(Cell(b)), limits, n)
    {
      var known := Contains(b.replacements, n.id);
      if known {
        return;
      }
      var ok := AddIP(b, n.ip);
      if !ok {
        return;
      }
      var list, removed := PushNode(b.replacements, n, M.MAX_REPLACEMENTS);
      b.replacements := list;
      if removed.Some? {
        RemoveIP(b, removed.value.ip);
      }
    }

    method DeleteInBucket(b: Bucket, n: Node)
      modifies this`ips, b
      ensures Cell(b) == M.DeleteInBucket(old(Cell(b)), n)
    {
      b.entries := DeleteNode(b.entries, n);
      RemoveIP(b, n.ip);
    }

    /** Replaces `last` by a replacement if it still is the last entry; `choice` is the
        random index the program draws. */
    method Replace(b: Bucket, last: Node, choice: nat) returns (r: Option<Node>)
      requires b.replacements != [] ==> choice < |b.replacements|
      modifies this`ips, b
      ensures Cell(b) == M.Replace(old(Cell(b)), last, choice)
      ensures r == if M.IsLast(old(b.View()), last.id) && old(b.replacements) != []
                   then Some(old(b.replacements)[choice]) else None
    {
      hide M.Without, M.RemoveIP;
      if |b.entries| == 0 || b.entries[|b.entries| - 1].id != last.id {
        return None;
      }
      if |b.replacements| == 0 {
        DeleteInBucket(b, last);
        return None;
      }
      var chosen := b.replacements[choice];
      b.replacements := DeleteNode(b.replacements, chosen);
      b.entries := b.entries[|b.entries| - 1 := chosen];
      RemoveIP(b, last.ip);
      return Some(chosen);
    }

    /** Releases the address of entry `i` and takes the one of `n`; if that does not fit,
        takes the first one back. */
    method Readdress(b: Bucket, i: nat, n: Node) returns (ok: bool)
      requires i < |b.entries| && P.Covered(Cell(b), limits)
      modifies this`ips, b`ips
      ensures ok == M.Readdress(old(Cell(b)), limits, i, n).Some?
      ensures Cell(b) == if ok then M.Readdress(old(Cell(b)), limits, i, n).value else old(Cell(b))
    {
      ok := true;
      if n.ip != b.entries[i].ip {
        RemoveIP(b, b.entries[i].ip);
        ok := AddIP(b, n.ip);
        if !ok {
          M.Rollback(old(Cell(b)), limits, b.entries[i].ip, n.ip);
          var back := AddIP(b, b.entries[i].ip);
        }
      }
    }

    /** Moves the node to the front of the entries if it is among them. */
    method BumpInBucket(b: Bucket, n: Node) returns (bumped: bool)
      requires P.Covered(Cell(b), limits)
      modifies this`ips, b
      ensures (Cell(b), bumped) == M.Bump(old(Cell(b)), limits, n)
    {
      for i := 0 to |b.entries|
        invariant Cell(b) == old(Cell(b))
        invariant forall j :: 0 <= j < i ==> b.entries[j].id != n.id
      {
        if b.entries[i].id == n.id {
          assert M.IndexOf(b.entries, n.id) == i;
          var ok := Readdress(b, i, n);
          if !ok {
            return false;
          }
          MoveToFront(old(b.entries), i, n);
          b.entries := Copy(b.entries, 1, b.entries[..i]);
          b.entries := b.entries[0 := n];
          return true;
        }
      }
      return false;
    }

    // ----- operations -----

    method AddSeenNode(n: Node, now: int)
      requires Wired()
      modifies this`ips, buckets
      ensures View() == M.TableAddSeen(old(View()), n, now)
      ensures M.TableInv(old(View())) ==> E.SeenPost(old(View()), n, now, View())
    {
      hide E.SeenPost, M.TableInv;
      if M.TableInv(View()) {
        E.SeenNodeEffect(View(), n, now);
      }
      if n.id == self {
        return;
      }
      var k := M.BucketIndex(self, n.id);
      var b := buckets[k];
      AddSeenToBucket(b, n, now);
      assert Views() == old(Views())[k := b.View()];
    }

    method AddSeenToBucket(b: Bucket, n: Node, now: int)
      modifies this`ips, b
      ensures Cell(b) == M.AddSeen(old(Cell(b)), limits, n, now)
    {
      var known := Contains(b.entries, n.id);
      if known {
        return;
      }
      if |b.entries| >= M.BUCKET_SIZE {
        AddReplacement(b, n);
        return;
      }
      var ok := AddIP(b, n.ip);
      if !ok {
        return;
      }
      b.entries := b.entries + [n.(addedAt := now)];
      b.replacements := DeleteNode(b.replacements, n);
    }

    method AddVerifiedNode(n: Node, now: int, initDone: bool)
      requires Wired() && M.TableInv(View())
      modifies this`ips, buckets
      ensures View() == M.TableAddVerified(old(View()), n, now, initDone)
      ensures if initDone then E.VerifiedPost(old(View()), n, now, View()) else View() == old(View())
    {
      ghost var t := View();
      E.VerifiedNodeEffect(t, n, now);
      if initDone {
        VerifiedOnTable(n, now);
      }
      hide *;
    }

    method VerifiedOnTable(n: Node, now: int)
      requires Wired() && M.TableInv(View())
      modifies this`ips, buckets
      ensures View() == M.TableAddVerified(old(View()), n, now, true)
    {
      hide M.TableInv, M.BucketIndex, M.AddVerified, P.Covered;
      if n.id == self {
        return;
      }
      var k := M.BucketIndex(self, n.id);
      var b := buckets[k];
      P.CellCovered(View(), k);
      AddVerifiedToBucket(b, n, now);
      assert Views() == old(Views())[k := b.View()];
    }

    method AddVerifiedToBucket(b: Bucket, n: Node, now: int)
      requires P.Covered(Cell(b), limits)
      modifies this`ips, b
      ensures Cell(b) == M.AddVerified(old(Cell(b)), limits, n, now)
    {
      M.NotBumped(Cell(b), limits, n);
      hide M.Bump, M.AddIP, M.AddReplacement, M.Without, M.PushFront, P.Covered;
      var bumped := BumpInBucket(b, n);
      if bumped {
        return;
      }
      if |b.entries| >= M.BUCKET_SIZE {
        AddReplacement(b, n);
        return;
      }
      var ok := AddIP(b, n.ip);
      if !ok {
        return;
      }
      var list, _ := PushNode(b.entries, n.(addedAt := now), M.BUCKET_SIZE);
      b.entries := list;
      b.replacements := DeleteNode(b.replacements, n);
    }

    /** The last entry of the first non-empty bucket in a random order of the buckets. */
    method NodeToRevalidate(perm: seq<nat>) returns (last: Option<Node>, bi: nat)
      requires Wired()
      requires |perm| == M.N_BUCKETS && (forall k :: 0 <= k < M.N_BUCKETS ==> k in perm)
      requires forall i :: 0 <= i < |perm| ==> perm[i] < M.N_BUCKETS
      ensures bi < M.N_BUCKETS
      ensures last.None? <==> P.AllEntries(View().buckets) == []
      ensures last.Some? ==> buckets[bi].entries != [] && last.value == buckets[bi].entries[|buckets[bi].entries| - 1]
    {
      for i := 0 to |perm|
        invariant forall j :: 0 <= j < i ==> buckets[perm[j]].entries == []
      {
        var b := buckets[perm[i]];
        if |b.entries| > 0 {
          ghost var v := View().buckets[perm[i]];
          P.InAllEntries(View().buckets, perm[i], v.entries[0]);
          return Some(b.entries[|b.entries| - 1]), perm[i];
        }
      }
      forall k | 0 <= k < M.N_BUCKETS
        ensures View().buckets[k].entries == []
      {
        assert k in perm;
        var i :| 0 <= i < |perm| && perm[i] == k;
      }
      NoEntries(View().buckets);
      return None, 0;
    }

    /** The second half of a revalidation. `reply` is the record sequence number of the pong,
        if one came; `fetched` the record a fetch would return, if it succeeds. */
    method FinishRevalidate(last: Node, bi: nat, reply: Option<nat>, fetched: Option<Node>, choice: nat)
      requires Wired() && bi < M.N_BUCKETS && M.TableInv(View())
      requires buckets[bi].replacements != [] ==> choice < |buckets[bi].replacements|
      modifies this`ips, buckets
      ensures View() == M.Revalidated(old(View()), bi, last, M.OutcomeOf(last, reply, fetched), choice)
      ensures E.RevalidatedPost(old(View()), bi, last, reply, fetched, choice, View())
    {
      ghost var was := View();
      P.CellCovered(was, bi);
      E.RevalidationEffect(was, bi, last, reply, fetched, choice);
      hide *;
      FinishOnTable(last, bi, reply, fetched, choice);
    }

    method FinishOnTable(last: Node, bi: nat, reply: Option<nat>, fetched: Option<Node>, choice: nat)
      requires Wired() && bi < M.N_BUCKETS && P.Covered(Cell(buckets[bi]), limits)
      requires buckets[bi].replacements != [] ==> choice < |buckets[bi].replacements|
      modifies this`ips, buckets
      ensures View() == M.Revalidated(old(View()), bi, last, M.OutcomeOf(last, reply, fetched), choice)
    {
      hide M.RevalidatedCell, M.OutcomeOf, P.Covered;
      var b := buckets[bi];
      FinishInBucket(b, last, reply, fetched, choice);
      assert Views() == old(Views())[bi := b.View()];
    }

    method FinishInBucket(b: Bucket, last: Node, reply: Option<nat>, fetched: Option<Node>, choice: nat)
      requires P.Covered(Cell(b), limits)
      requires b.replacements != [] ==> choice < |b.replacements|
      modifies this`ips, b
      ensures Cell(b) == M.RevalidatedCell(old(Cell(b)), limits, last, M.OutcomeOf(last, reply, fetched), choice)
    {
      hide M.Bump, M.Replace, P.Covered;
      var remoteSeq := if reply.Some? then reply.value else 0;
      var record := last;
      if last.recordSeq < remoteSeq && fetched.Some? {
        record := fetched.value.(addedAt := last.addedAt, checks := last.checks);
      }
      if reply.Some? {
        record := record.(checks := record.checks + 1);
        var bumped := BumpInBucket(b, record);
      } else {
        var r := Replace(b, record, choice);
      }
    }

    // ----- queries -----

    method GetNode(id: Id) returns (r: Option<Node>)
      requires Wired()
      ensures r == P.GetNode(View(), id)
    {
      var b := buckets[M.BucketIndex(self, id)];
      for i := 0 to |b.entries|
        invariant forall j :: 0 <= j < i ==> b.entries[j].id != id
      {
        if b.entries[i].id == id {
          assert M.IndexOf(b.entries, id) == i;
          return Some(b.entries[i]);
        }
      }
      return None;
    }

    /** Offers all entries of a bucket to the two lists of a search. `done` are the nodes
        offered before. */
    method PushBucket(b: Bucket, nodes: NodesByDistance, liveNodes: NodesByDistance, nresults: int, preferLive: bool,
                      ghost done: seq<Node>)
      requires nodes != liveNodes && nodes.Valid() && liveNodes.Valid() && nodes.target == liveNodes.target
      requires nodes.entries == PushAll([], done, nodes.target, nresults)
      requires liveNodes.entries == PushAll([], if preferLive then Checked(done) else [], nodes.target, nresults)
      modifies nodes, liveNodes
      ensures nodes.Valid() && liveNodes.Valid()
      ensures nodes.entries == PushAll([], done + b.entries, nodes.target, nresults)
      ensures liveNodes.entries == PushAll([], if preferLive then Checked(done + b.entries) else [], nodes.target, nresults)
    {
      hide PushAll, Pushed, Checked, Sorted;
      ghost var target := nodes.target;
      assert done + b.entries[..0] == done;
      for i := 0 to |b.entries|
        invariant nodes.Valid() && liveNodes.Valid()
        invariant nodes.entries == PushAll([], done + b.entries[..i], target, nresults)
        invariant liveNodes.entries == PushAll([], if preferLive then Checked(done + b.entries[..i]) else [], target, nresults)
      {
        var n := b.entries[i];
        ghost var seen := done + b.entries[..i];
        assert done + b.entries[..i + 1] == seen + [n];
        PushAllSnoc([], seen, n, target, nresults);
        CheckedSnoc(seen, n);
        PushAllSnoc([], Checked(seen), n, target, nresults);
        nodes.Push(n, nresults);
        if preferLive && n.checks > 0 {
          liveNodes.Push(n, nresults);
        } else if preferLive {
          assert Checked(seen + [n]) == Checked(seen);
        }
      }
      assert b.entries[..|b.entries|] == b.entries;
    }

    /** The nodes closest to the target: among the checked ones if the caller prefers live
        nodes and there is one, among all entries otherwise. */
    method FindnodeByID(target: Id, nresults: int, preferLive: bool) returns (r: NodesByDistance)
      requires Wired()
      ensures fresh(r) && r.target == target && r.Valid()
      ensures r.entries == Nearest(Searched(View(), preferLive), target, nresults)
    {
      hide PushAll, Pushed, Nearest, Sorted, Checked;
      var nodes := new NodesByDistance(target);
      var liveNodes := new NodesByDistance(target);
      PushAllStart(target, nresults);
      ghost var bs := Views();
      for k := 0 to |buckets|
        invariant fresh(nodes) && fresh(liveNodes) && nodes != liveNodes
        invariant nodes.Valid() && liveNodes.Valid()
        invariant nodes.entries == PushAll([], P.AllEntries(bs[..k]), target, nresults)
        invariant liveNodes.entries ==
          PushAll([], if preferLive then Checked(P.AllEntries(bs[..k])) else [], target, nresults)
      {
        AllEntriesSnoc(bs, k);
        PushBucket(buckets[k], nodes, liveNodes, nresults, preferLive, P.AllEntries(bs[..k]));
      }
      ghost var all := P.AllEntries(bs);
      assert bs[..|buckets|] == bs;
      PushAllIsNearest(all, target, nresults);
      PushAllIsNearest(Checked(all), target, nresults);
      if preferLive && |liveNodes.entries| > 0 {
        return liveNodes;
      }
      NearestOfNone(all, target, nresults);
      NearestOfNone(Checked(all), target, nresults);
      return nodes;
    }

    method CollectEntries() returns (nodes: seq<Node>)
      ensures nodes == P.AllEntries(Views())
    {
      nodes := [];
      ghost var bs := Views();
      for k := 0 to |buckets|
        invariant nodes == P.AllEntries(bs[..k])
      {
        nodes := nodes + buckets[k].entries;
        AllEntriesSnoc(bs, k);
      }
      assert bs[..|buckets|] == bs;
    }

    /** Fills `buf` with random entries; `draws` are the random indices of the shuffle. The
        result is the beginning of a permutation of all entries: no node appears twice. */
    method ReadRandomNodes(buf: array<Node>, initDone: bool, draws: seq<nat>) returns (n: nat)
      requires Wired() && M.TableInv(View())
      requires |draws| == |P.AllEntries(Views())|
      requires forall i :: 0 <= i < |draws| ==> draws[i] < |draws|
      modifies buf
      ensures n == if !initDone then 0 else if buf.Length < |draws| then buf.Length else |draws|
      ensures buf[n..] == old(buf[n..])
      ensures IsPrefixOfPermutation(buf[..n], P.AllEntries(Views()))
      ensures DistinctIds(buf[..n])
    {
      hide M.TableInv, P.AllEntries, IsPrefixOfPermutation, DistinctIds;
      ghost var all := P.AllEntries(Views());
      PrefixOfNothing(buf[..0], all);
      if !initDone {
        return 0;
      }
      var nodes := CollectEntries();
      nodes := Shuffle(nodes, draws);
      n := CopyOut(buf, nodes);
      P.TableEntriesDistinct(View());
      PrefixOfShuffle(nodes, all, n);
    }
  }

  ghost predicate IsPrefixOfPermutation(s: seq<Node>, all: seq<Node>) {
    exists rest: seq<Node> :: multiset(s) + multiset(rest) == multiset(all)
  }

  /** Go's `copy(buf, nodes)` into a buffer of its own. */
  method CopyOut(buf: array<Node>, nodes: seq<Node>) returns (n: nat)
    modifies buf
    ensures n == if buf.Length < |nodes| then buf.Length else |nodes|
    ensures buf[..n] == nodes[..n] && buf[n..] == old(buf[n..])
  {
    n := if buf.Length < |nodes| then buf.Length else |nodes|;
    for i := 0 to n
      invariant forall j :: 0 <= j < i ==> buf[j] == nodes[j]
      invariant forall j :: i <= j < buf.Length ==> buf[j] == old(buf[j])
    {
      buf[i] := nodes[i];
    }
  }

  lemma PrefixOfNothing(s: seq<Node>, all: seq<Node>)
    requires s == []
    ensures IsPrefixOfPermutation(s, all) && DistinctIds(s)
  {
    assert multiset(s) + multiset(all) == multiset(all);
  }

  /** The first elements of a permutation of distinct nodes are distinct. */
  lemma PrefixOfShuffle(nodes: seq<Node>, all: seq<Node>, n: nat)
    requires multiset(nodes) == multiset(all) && DistinctIds(all) && n <= |nodes|
    ensures IsPrefixOfPermutation(nodes[..n], all)
    ensures DistinctIds(nodes[..n])
  {
    PermutationDistinct(nodes, all);
    assert nodes == nodes[..n] + nodes[n..];
    assert multiset(nodes[..n]) + multiset(nodes[n..]) == multiset(all);
  }

  method Shuffle(ns: seq<Node>, draws: seq<nat>) returns (nodes: seq<Node>)
    requires |draws| == |ns| && forall i :: 0 <= i < |draws| ==> draws[i] < |ns|
    ensures |nodes| == |ns| && multiset(nodes) == multiset(ns)
  {
    nodes := ns;
    for i := 0 to |nodes|
      invariant |nodes| == |ns| && multiset(nodes) == multiset(ns)
    {
      var j := draws[i];
      SwapKeepsElements(nodes, i, j);
      nodes := nodes[i := nodes[j]][j := nodes[i]];
    }
  }

  lemma {:induction false} NoEntries(bs: seq<M.Bucket>)
    requires forall i :: 0 <= i < |bs| ==> bs[i].entries == []
    ensures P.AllEntries(bs) == []
  {
    if bs != [] {
      NoEntries(bs[1..]);
    }
  }
}
