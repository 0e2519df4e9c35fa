/** The bounded list of nearest nodes, against "stable sort by distance, keep the first k". */
module NearestNodes {
  import opened Distance
  import opened Nodes

  // ---------- reference meaning ----------

  ghost predicate Sorted(s: seq<Node>, t: Id) {
    forall i, j :: 0 <= i < j < |s| ==> Dist(t, s[i].id) <= Dist(t, s[j].id)
  }

  /** The nodes at distance `d`, in order. */
  function AtDistance(s: seq<Node>, t: Id, d: nat): seq<Node> {
    if s == [] then []
    else (if Dist(t, s[0].id) == d then [s[0]] else []) + AtDistance(s[1..], t, d)
  }

  /** `s` is `ns` sorted by distance, with nodes of equal distance left in their order. */
  ghost predicate IsStableSort(s: seq<Node>, ns: seq<Node>, t: Id) {
    && Sorted(s, t)
    && multiset(s) == multiset(ns)
    && forall d: nat :: AtDistance(s, t, d) == AtDistance(ns, t, d)
  }

  // ---------- insertion ----------

  /** Puts `n` behind all nodes that are not farther than it. */
  function Insert(s: seq<Node>, n: Node, t: Id): (r: seq<Node>)
    ensures |r| == |s| + 1
  {
    if s == [] then [n]
    else if Dist(t, s[0].id) > Dist(t, n.id) then [n] + s
    else [s[0]] + Insert(s[1..], n, t)
  }

  function StableSort(ns: seq<Node>, t: Id): (r: seq<Node>)
    ensures |r| == |ns|
  {
    if ns == [] then [] else Insert(StableSort(ns[..|ns| - 1], t), ns[|ns| - 1], t)
  }

  /** The `k` nodes of `ns` nearest to `t`, nearest first. */
  function Nearest(ns: seq<Node>, t: Id, k: int): (r: seq<Node>) {
    Take(StableSort(ns, t), k)
  }

  /** Where the insertion happens: the first position that holds a farther node. */
  lemma {:induction false} InsertAt(s: seq<Node>, n: Node, t: Id, ix: nat)
    requires ix <= |s|
    requires forall i :: 0 <= i < ix ==> Dist(t, s[i].id) <= Dist(t, n.id)
    requires ix < |s| ==> Dist(t, s[ix].id) > Dist(t, n.id)
    ensures Insert(s, n, t) == s[..ix] + [n] + s[ix..]
  {
    hide Dist;
    if ix > 0 {
      InsertAt(s[1..], n, t, ix - 1);
      assert s[..ix] == [s[0]] + s[1..][..ix - 1];
      assert s[ix..] == s[1..][ix - 1..];
    }
  }

  /** Finds the insertion point of a sorted list. */
  lemma {:induction false} InsertionPoint(s: seq<Node>, n: Node, t: Id) returns (ix: nat)
    requires Sorted(s, t)
    ensures ix <= |s|
    ensures forall i :: 0 <= i < ix ==> Dist(t, s[i].id) <= Dist(t, n.id)
    ensures forall i :: ix <= i < |s| ==> Dist(t, s[i].id) > Dist(t, n.id)
    ensures Insert(s, n, t) == s[..ix] + [n] + s[ix..]
  {
    hide Dist;
    ix := 0;
    while ix < |s| && Dist(t, s[ix].id) <= Dist(t, n.id)
      invariant ix <= |s|
      invariant forall i :: 0 <= i < ix ==> Dist(t, s[i].id) <= Dist(t, n.id)
    {
      ix := ix + 1;
    }
    InsertAt(s, n, t, ix);
  }

  lemma {:induction false} AtDistanceConcat(a: seq<Node>, b: seq<Node>, t: Id, d: nat)
    ensures AtDistance(a + b, t, d) == AtDistance(a, t, d) + AtDistance(b, t, d)
  {
    hide Dist;
    if a == [] {
      assert a + b == b;
    } else {
      assert (a + b)[1..] == a[1..] + b && (a + b)[0] == a[0];
      AtDistanceConcat(a[1..], b, t, d);
      var x, y, z := AtDistance(a, t, d), AtDistance(a[1..], t, d), AtDistance(b, t, d);
      assert Dist(t, a[0].id) == d ==> x + z == [a[0]] + (y + z);
    }
  }

  lemma {:induction false} AtDistanceNone(s: seq<Node>, t: Id, d: nat)
    requires forall i :: 0 <= i < |s| ==> Dist(t, s[i].id) != d
    ensures AtDistance(s, t, d) == []
  {
    if s != [] {
      AtDistanceNone(s[1..], t, d);
    }
  }

  lemma SplicedSorted(s: seq<Node>, n: Node, t: Id, ix: nat)
    requires Sorted(s, t) && ix <= |s|
    requires forall i :: 0 <= i < ix ==> Dist(t, s[i].id) <= Dist(t, n.id)
    requires forall i :: ix <= i < |s| ==> Dist(t, s[i].id) > Dist(t, n.id)
    ensures Sorted(s[..ix] + [n] + s[ix..], t)
  {
    hide Dist;
    var r := s[..ix] + [n] + s[ix..];
    assert forall i :: 0 <= i < ix ==> r[i] == s[i];
    assert r[ix] == n;
    assert forall i :: ix < i < |r| ==> r[i] == s[i - 1];
  }

  lemma InsertSorted(s: seq<Node>, n: Node, t: Id)
    requires Sorted(s, t)
    ensures Sorted(Insert(s, n, t), t)
    ensures multiset(Insert(s, n, t)) == multiset(s) + multiset{n}
  {
    hide Dist, Insert;
    var ix := InsertionPoint(s, n, t);
    assert s == s[..ix] + s[ix..];
    SplicedSorted(s, n, t, ix);
    hide Sorted;
  }

  /** A node put before farther ones is found where it would be at the end. */
  lemma AtDistanceSwap(b: seq<Node>, n: Node, t: Id, d: nat)
    requires forall i :: 0 <= i < |b| ==> Dist(t, b[i].id) > Dist(t, n.id)
    ensures AtDistance([n] + b, t, d) == AtDistance(b + [n], t, d)
  {
    hide Dist;
    AtDistanceConcat([n], b, t, d);
    AtDistanceConcat(b, [n], t, d);
    if Dist(t, n.id) == d {
      AtDistanceNone(b, t, d);
    } else {
      AtDistanceNone([n], t, d);
    }
  }

  lemma InsertStable(s: seq<Node>, n: Node, t: Id, d: nat)
    requires Sorted(s, t)
    ensures AtDistance(Insert(s, n, t), t, d) == AtDistance(s + [n], t, d)
  {
    hide Dist, Insert, AtDistance;
    var ix := InsertionPoint(s, n, t);
    hide Sorted;
    var a, b := s[..ix], s[ix..];
    assert s == a + b && a + [n] + b == a + ([n] + b) && s + [n] == a + (b + [n]);
    AtDistanceConcat(a, [n] + b, t, d);
    AtDistanceConcat(a, b + [n], t, d);
    AtDistanceSwap(b, n, t, d);
  }

  /** `StableSort` is a stable sort. */
  lemma {:induction false} StableSortIsStableSort(ns: seq<Node>, t: Id)
    ensures IsStableSort(StableSort(ns, t), ns, t)
  {
    hide Dist;
    if ns != [] {
      var front, last := ns[..|ns| - 1], ns[|ns| - 1];
      assert ns == front + [last];
      StableSortIsStableSort(front, t);
      var s := StableSort(front, t);
      InsertSorted(s, last, t);
      forall d: nat
        ensures AtDistance(StableSort(ns, t), t, d) == AtDistance(ns, t, d)
      {
        InsertStable(s, last, t, d);
        AtDistanceConcat(s, [last], t, d);
        AtDistanceConcat(front, [last], t, d);
      }
    }
  }

  lemma {:induction false} AtDistanceHead(s: seq<Node>, t: Id, d: nat) returns (i: nat)
    requires AtDistance(s, t, d) != []
    ensures i < |s| && Dist(t, s[i].id) == d
  {
    hide Dist;
    if Dist(t, s[0].id) == d {
      i := 0;
    } else {
      i := AtDistanceHead(s[1..], t, d);
      i := i + 1;
    }
  }

  /** Sorting and order among equals leave no freedom: there is one stable sort. */
  lemma {:induction false} StableSortUnique(a: seq<Node>, b: seq<Node>, t: Id)
    requires Sorted(a, t) && Sorted(b, t)
    requires forall d: nat :: AtDistance(a, t, d) == AtDistance(b, t, d)
    ensures a == b
  {
    hide Dist;
    if a == [] {
      var d := if b == [] then 0 else Dist(t, b[0].id);
      assert AtDistance(b, t, d) == AtDistance(a, t, d) == [];
    } else {
      var da := Dist(t, a[0].id);
      assert AtDistance(a, t, da)[0] == a[0];
      var i := AtDistanceHead(b, t, da);
      var db := Dist(t, b[0].id);
      assert AtDistance(b, t, db)[0] == b[0];
      var j := AtDistanceHead(a, t, db);
      assert da == db && a[0] == b[0];
      forall d: nat
        ensures AtDistance(a[1..], t, d) == AtDistance(b[1..], t, d)
      {
        assert AtDistance(a, t, d) == AtDistance(b, t, d);
        if d == da {
          assert AtDistance(a, t, d)[1..] == AtDistance(a[1..], t, d);
          assert AtDistance(b, t, d)[1..] == AtDistance(b[1..], t, d);
        } else {
          assert AtDistance(a, t, d) == AtDistance(a[1..], t, d);
          assert AtDistance(b, t, d) == AtDistance(b[1..], t, d);
        }
      }
      StableSortUnique(a[1..], b[1..], t);
    }
  }

  /** Any stable sort of `ns` is `StableSort(ns)`. */
  lemma StableSortCharacterized(s: seq<Node>, ns: seq<Node>, t: Id)
    ensures IsStableSort(s, ns, t) <==> s == StableSort(ns, t)
  {
    StableSortIsStableSort(ns, t);
    if IsStableSort(s, ns, t) {
      StableSortUnique(s, StableSort(ns, t), t);
    }
  }

  // ---------- pushing ----------

  /** One push on a sorted list: insert, then drop what exceeds the cap or the old length. */
  function Pushed(s: seq<Node>, n: Node, t: Id, maxElems: int): (r: seq<Node>) {
    if |s| < maxElems then Insert(s, n, t) else Insert(s, n, t)[..|s|]
  }

  function PushAll(s: seq<Node>, ns: seq<Node>, t: Id, maxElems: int): seq<Node> {
    if ns == [] then s else Pushed(PushAll(s, ns[..|ns| - 1], t, maxElems), ns[|ns| - 1], t, maxElems)
  }

  lemma SpliceTake<T>(s: seq<T>, n: T, ix: nat, k: nat)
    requires ix <= |s| && k < |s|
    ensures ix <= k ==> (s[..k][..ix] + [n] + s[..k][ix..])[..k] == (s[..ix] + [n] + s[ix..])[..k]
    ensures ix > k ==> (s[..k] + [n] + [])[..k] == (s[..ix] + [n] + s[ix..])[..k]
  {
  }

  /** What a cap has dropped can never come back: inserting into the first `k` gives the
      first `k` of inserting into all. */
  lemma TakeInsert(s: seq<Node>, n: Node, t: Id, k: int)
    requires Sorted(s, t)
    ensures Pushed(Take(s, k), n, t, k) == Take(Insert(s, n, t), k)
  {
    hide Dist, Insert, Sorted;
    if 0 < k < |s| {
      var ix := InsertionPoint(s, n, t);
      SpliceTake(s, n, ix, k);
      if ix <= k {
        InsertAt(s[..k], n, t, ix);
      } else {
        InsertAt(s[..k], n, t, k);
        assert s[..k][..k] == s[..k] && s[..k][k..] == [];
      }
    }
  }

  /** Pushing any sequence of nodes with a fixed cap into an empty list leaves exactly the
      first `maxElems` of the stable sort of the sequence. */
  lemma {:induction false} PushAllIsNearest(ns: seq<Node>, t: Id, maxElems: int)
    ensures PushAll([], ns, t, maxElems) == Nearest(ns, t, maxElems)
  {
    hide Dist;
    if ns != [] {
      var front := ns[..|ns| - 1];
      PushAllIsNearest(front, t, maxElems);
      StableSortIsStableSort(front, t);
      TakeInsert(StableSort(front, t), ns[|ns| - 1], t, maxElems);
    }
  }

  lemma PushAllSnoc(s: seq<Node>, ns: seq<Node>, n: Node, t: Id, k: int)
    ensures PushAll(s, ns + [n], t, k) == Pushed(PushAll(s, ns, t, k), n, t, k)
  {
    assert (ns + [n])[..|ns + [n]| - 1] == ns;
  }

  lemma {:induction false} PushAllConcat(s: seq<Node>, a: seq<Node>, b: seq<Node>, t: Id, k: int)
    ensures PushAll(s, a + b, t, k) == PushAll(PushAll(s, a, t, k), b, t, k)
  {
    if b == [] {
      assert a + b == a;
    } else {
      assert (a + b)[..|a + b| - 1] == a + b[..|b| - 1];
      PushAllConcat(s, a, b[..|b| - 1], t, k);
    }
  }

  /** A list that already is the nearest of `a` becomes the nearest of `a + b`. */
  lemma NearestExtends(a: seq<Node>, b: seq<Node>, t: Id, k: int)
    ensures PushAll(Nearest(a, t, k), b, t, k) == Nearest(a + b, t, k)
  {
    PushAllIsNearest(a, t, k);
    PushAllIsNearest(a + b, t, k);
    PushAllConcat([], a, b, t, k);
  }

  // ---------- consequences ----------

  ghost predicate NoFarther(r: seq<Node>, s: seq<Node>, t: Id) {
    && |s| <= |r|
    && forall i :: 0 <= i < |s| ==> Dist(t, r[i].id) <= Dist(t, s[i].id)
  }

  lemma InsertImproves(s: seq<Node>, n: Node, t: Id)
    requires Sorted(s, t)
    ensures NoFarther(Insert(s, n, t), s, t)
  {
    hide Dist;
    var ix := InsertionPoint(s, n, t);
    var r := Insert(s, n, t);
    forall i | 0 <= i < |s|
      ensures Dist(t, r[i].id) <= Dist(t, s[i].id)
    {
      if i > ix {
        assert r[i] == s[i - 1];
      }
    }
  }

  lemma TakeImproves(r: seq<Node>, s: seq<Node>, t: Id, k: int)
    requires NoFarther(r, s, t)
    ensures NoFarther(Take(r, k), Take(s, k), t)
  {
  }

  /** More candidates never push a position of the result farther away. */
  lemma {:induction false} NearestImproves(a: seq<Node>, b: seq<Node>, t: Id, k: int)
    ensures NoFarther(Nearest(a + b, t, k), Nearest(a, t, k), t)
  {
    hide Dist;
    if b == [] {
      assert a + b == a;
    } else {
      var b', n := b[..|b| - 1], b[|b| - 1];
      assert (a + b)[..|a + b| - 1] == a + b' && (a + b)[|a + b| - 1] == n;
      NearestImproves(a, b', t, k);
      StableSortIsStableSort(a + b', t);
      InsertImproves(StableSort(a + b', t), n, t);
      TakeImproves(StableSort(a + b, t), StableSort(a + b', t), t, k);
    }
  }

  /** The result in terms of the candidates: the right number of them, in distance order,
      and nothing left out is closer than anything kept. */
  lemma NearestMeaning(ns: seq<Node>, t: Id, k: nat)
    ensures |Nearest(ns, t, k)| == if k < |ns| then k else |ns|
    ensures Sorted(Nearest(ns, t, k), t)
    ensures exists rest: seq<Node> ::
      && multiset(Nearest(ns, t, k)) + multiset(rest) == multiset(ns)
      && forall x, y :: x in Nearest(ns, t, k) && y in rest ==> Dist(t, x.id) <= Dist(t, y.id)
  {
    var s, r := StableSort(ns, t), Nearest(ns, t, k);
    StableSortIsStableSort(ns, t);
    hide Dist, AtDistance, StableSort;
    assert |s| == |ns| by {
      assert |multiset(s)| == |multiset(ns)|;
    }
    assert r == s[..|r|];
    SortedSplit(s, |r|, t);
    var rest := s[|r|..];
    assert multiset(r) + multiset(rest) == multiset(ns);
  }

  /** The front of a sorted list is sorted, and nothing behind it is closer. */
  lemma SortedSplit(s: seq<Node>, n: nat, t: Id)
    requires Sorted(s, t) && n <= |s|
    ensures Sorted(s[..n], t)
    ensures multiset(s[..n]) + multiset(s[n..]) == multiset(s)
    ensures forall x, y :: x in s[..n] && y in s[n..] ==> Dist(t, x.id) <= Dist(t, y.id)
  {
    hide Dist;
    assert s == s[..n] + s[n..];
    forall x, y | x in s[..n] && y in s[n..]
      ensures Dist(t, x.id) <= Dist(t, y.id)
    {
      var i :| 0 <= i < n && s[..n][i] == x;
      var j :| 0 <= j < |s| - n && s[n..][j] == y;
      assert s[i] == x && s[n + j] == y;
    }
  }

  lemma SameIdTwice(ns: seq<Node>, i: nat, j: nat)
    requires i < j < |ns| && ns[i] == ns[j]
    ensures multiset(ns)[ns[i]] >= 2
  {
    assert ns == ns[..j] + [ns[j]] + ns[j + 1..];
    assert ns[..j][i] == ns[i];
    assert multiset(ns) == multiset(ns[..j]) + multiset{ns[j]} + multiset(ns[j + 1..]);
  }

  lemma {:induction false} DistinctCount(ns: seq<Node>, x: Node)
    requires DistinctIds(ns)
    ensures multiset(ns)[x] <= 1
  {
    if ns != [] {
      var front := ns[..|ns| - 1];
      assert ns == front + [ns[|ns| - 1]];
      DistinctCount(front, x);
    }
  }

  lemma SameElements(s: seq<Node>, ns: seq<Node>, i: nat) returns (a: nat)
    requires multiset(s) == multiset(ns) && i < |s|
    ensures a < |ns| && ns[a] == s[i]
  {
    assert s[i] in multiset(s);
    assert s[i] in ns;
    a :| a < |ns| && ns[a] == s[i];
  }

  /** A permutation keeps ids distinct. */
  lemma PermutationDistinct(s: seq<Node>, ns: seq<Node>)
    requires multiset(s) == multiset(ns) && DistinctIds(ns)
    ensures DistinctIds(s)
  {
    hide Dist;
    forall i, j | 0 <= i < j < |s|
      ensures s[i].id != s[j].id
    {
      if s[i].id == s[j].id {
        var a := SameElements(s, ns, i);
        var b := SameElements(s, ns, j);
        assert a == b;
        SameIdTwice(s, i, j);
        DistinctCount(ns, s[i]);
      }
    }
  }

  /** Candidates with distinct ids give a result with distinct ids. */
  lemma NearestDistinct(ns: seq<Node>, t: Id, k: int)
    requires DistinctIds(ns)
    ensures DistinctIds(Nearest(ns, t, k))
  {
    hide Dist;
    StableSortIsStableSort(ns, t);
    PermutationDistinct(StableSort(ns, t), ns);
  }

  /** The result holds candidates only. */
  lemma NearestSubset(ns: seq<Node>, t: Id, k: int, i: nat)
    requires i < |Nearest(ns, t, k)|
    ensures Nearest(ns, t, k)[i] in ns
  {
    StableSortIsStableSort(ns, t);
    assert Nearest(ns, t, k)[i] == StableSort(ns, t)[i];
    var a := SameElements(StableSort(ns, t), ns, i);
  }

  // ---------- the list object ----------

  /** Sliding the tail down by one and writing `n` inserts it; without room for one more
      element the last one falls off. */
  lemma SlideInserts(s: seq<Node>, n: Node, ix: nat)
    requires ix < |s|
    ensures Copy(s + [n], ix + 1, (s + [n])[ix..])[ix := n] == s[..ix] + [n] + s[ix..]
    ensures Copy(s, ix + 1, s[ix..])[ix := n] == (s[..ix] + [n] + s[ix..])[..|s|]
  {
  }

  /** Nodes ordered by distance to a target. */
  class NodesByDistance {
    var entries: seq<Node>
    const target: Id

    ghost predicate Valid()
      reads this
    {
      Sorted(entries, target)
    }

    constructor (target: Id)
      ensures Valid() && entries == [] && this.target == target
    {
      this.target := target;
      entries := [];
    }

    /** Binary search for the first entry that is farther away than the node. */
    method Search(n: Node) returns (ix: nat)
      requires Valid()
      ensures ix <= |entries|
      ensures forall i :: 0 <= i < ix ==> Dist(target, entries[i].id) <= Dist(target, n.id)
      ensures forall i :: ix <= i < |entries| ==> Dist(target, entries[i].id) > Dist(target, n.id)
    {
      hide Dist, DistCmp;
      var hi := |entries|;
      ix := 0;
      while ix < hi
        invariant ix <= hi <= |entries|
        invariant forall i :: 0 <= i < ix ==> Dist(target, entries[i].id) <= Dist(target, n.id)
        invariant forall i :: hi <= i < |entries| ==> Dist(target, entries[i].id) > Dist(target, n.id)
      {
        var h := (ix + hi) / 2;
        DistCmpIsNumeric(target, entries[h].id, n.id);
        if DistCmp(target, entries[h].id, n.id) > 0 {
          hi := h;
        } else {
          ix := h + 1;
        }
      }
    }

    /** Adds the node, keeping the size below the cap: find its place, append if there is
        room, then slide the tail over the appended slot. */
    method Push(n: Node, maxElems: int)
      requires Valid()
      modifies this`entries
      ensures Valid()
      ensures entries == Pushed(old(entries), n, target, maxElems)
    {
      hide Dist, Insert;
      var ix := Search(n);
      InsertAt(entries, n, target, ix);
      if ix < |entries| {
        SlideInserts(entries, n, ix);
      }
      PushedSorted(entries, n, target, maxElems);
      hide Sorted;

      var end := |entries|;
      if |entries| < maxElems {
        entries := entries + [n];
      }
      if ix < end {
        entries := Copy(entries, ix + 1, entries[ix..]);
        entries := entries[ix := n];
      }
      assert entries == Pushed(old(entries), n, target, maxElems);
    }
  }

  lemma PushedSorted(s: seq<Node>, n: Node, t: Id, maxElems: int)
    requires Sorted(s, t)
    ensures Sorted(Pushed(s, n, t, maxElems), t)
  {
    hide Dist, Insert;
    InsertSorted(s, n, t);
  }
}
