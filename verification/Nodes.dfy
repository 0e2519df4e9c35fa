/** Nodes, addresses and the list operations the components share. */
module Nodes {
  import opened Distance

  datatype Option<+T> = None | Some(value: T)

  type Subnet = nat

  /** An IP address up to `net.IP.Equal`. Each address carries what the library predicates
      say about it: whether it is a LAN address, and its subnet prefix. */
  datatype IP = NoIP | Addr(lan: bool, subnet: Subnet, host: nat)

  /** A node of the table: record, time it was added, number of successful liveness checks. */
  datatype Node = Node(id: Id, ip: IP, recordSeq: nat, addedAt: int, checks: nat)

  function Ids(ns: seq<Node>): set<Id> {
    set n | n in ns :: n.id
  }

  ghost predicate DistinctIds(ns: seq<Node>) {
    forall i, j :: 0 <= i < j < |ns| ==> ns[i].id != ns[j].id
  }

  /** Go's built-in `copy(dst[at:], src)`: the source is read before it is written. */
  function Copy<T>(dst: seq<T>, at: nat, src: seq<T>): (r: seq<T>)
    requires at <= |dst|
    ensures |r| == |dst|
    ensures forall i :: 0 <= i < |dst| ==>
      r[i] == if at <= i && i - at < |src| then src[i - at] else dst[i]
  {
    var m := if |src| < |dst| - at then |src| else |dst| - at;
    dst[..at] + src[..m] + dst[at + m..]
  }

  /** The first `k` elements, all of them when there are fewer, none when `k` is negative. */
  function Take<T>(s: seq<T>, k: int): (r: seq<T>) {
    if k <= 0 then [] else if k < |s| then s[..k] else s
  }

  /** The nodes of `ns` whose id is neither in `known` nor that of an earlier node of `ns`. */
  function Fresh(known: set<Id>, ns: seq<Node>): (r: seq<Node>)
    decreases ns
  {
    if ns == [] then []
    else if ns[0].id in known then Fresh(known, ns[1..])
    else [ns[0]] + Fresh(known + {ns[0].id}, ns[1..])
  }

  /** The first node of each id, in order. */
  function Dedup(ns: seq<Node>): seq<Node> {
    Fresh({}, ns)
  }

  lemma IdsConcat(a: seq<Node>, b: seq<Node>)
    ensures Ids(a + b) == Ids(a) + Ids(b)
  {
    forall n | n in a + b
      ensures n.id in Ids(a) + Ids(b)
    {
      assert n in a || n in b;
    }
    forall n | n in a || n in b
      ensures n.id in Ids(a + b)
    {
      assert n in a + b;
    }
  }

  lemma IdsAt(ns: seq<Node>, i: nat)
    requires i < |ns|
    ensures ns[i].id in Ids(ns)
  {
    assert ns[i] in ns;
  }

  /** `Fresh` keeps exactly one node of each new id, and only nodes it was given. */
  lemma {:induction false} FreshKeeps(known: set<Id>, ns: seq<Node>)
    ensures Ids(Fresh(known, ns)) == Ids(ns) - known
    ensures DistinctIds(Fresh(known, ns))
    ensures forall n :: n in Fresh(known, ns) ==> n in ns
    ensures |Fresh(known, ns)| <= |ns|
    decreases ns
  {
    if ns != [] {
      assert ns == [ns[0]] + ns[1..];
      IdsConcat([ns[0]], ns[1..]);
      assert Ids([ns[0]]) == {ns[0].id} by { IdsAt([ns[0]], 0); }
      if ns[0].id in known {
        FreshKeeps(known, ns[1..]);
      } else {
        var rest := Fresh(known + {ns[0].id}, ns[1..]);
        FreshKeeps(known + {ns[0].id}, ns[1..]);
        IdsConcat([ns[0]], rest);
        forall j | 0 <= j < |rest|
          ensures rest[j].id != ns[0].id
        {
          IdsAt(rest, j);
        }
      }
    }
  }

  lemma {:induction false} FreshConcat(known: set<Id>, a: seq<Node>, b: seq<Node>)
    ensures Fresh(known, a + b) == Fresh(known, a) + Fresh(known + Ids(a), b)
    decreases a
  {
    if a == [] {
      assert a + b == b;
      assert known + Ids(a) == known;
    } else {
      var h, t := a[0], a[1..];
      assert a == [h] + t && (a + b)[1..] == t + b && (a + b)[0] == h;
      IdsConcat([h], t);
      assert Ids([h]) == {h.id} by { IdsAt([h], 0); }
      FreshConcat(if h.id in known then known else known + {h.id}, t, b);
      assert known + Ids(a) == (if h.id in known then known else known + {h.id}) + Ids(t);
    }
  }

  /** Distinct ids outside `known` all count as fresh. */
  lemma {:induction false} FreshOfDistinct(known: set<Id>, ns: seq<Node>)
    requires DistinctIds(ns)
    requires forall i :: 0 <= i < |ns| ==> ns[i].id !in known
    ensures Fresh(known, ns) == ns
    decreases ns
  {
    if ns != [] {
      FreshOfDistinct(known + {ns[0].id}, ns[1..]);
    }
  }

  // ---------- selections ----------

  /** `r` holds what `f` makes of the elements of `s` it accepts: there are strictly increasing
      positions, exactly those `f` accepts, and element `k` of `r` comes from position `k`. */
  ghost predicate Picks<A(!new), B>(s: seq<A>, r: seq<B>, f: A -> Option<B>) {
    exists ixs: seq<nat> :: PicksAt(s, r, f, ixs)
  }

  ghost predicate PicksAt<A(!new), B>(s: seq<A>, r: seq<B>, f: A -> Option<B>, ixs: seq<nat>) {
    && |ixs| == |r| && Rising(ixs)
    && (forall k :: 0 <= k < |ixs| ==> ixs[k] < |s| && f(s[ixs[k]]) == Some(r[k]))
    && (forall i :: 0 <= i < |s| && f(s[i]).Some? ==> i in ixs)
  }

  lemma PicksNothing<A(!new), B>(s: seq<A>, r: seq<B>, f: A -> Option<B>)
    requires s == [] && r == []
    ensures Picks(s, r, f)
  {
    assert PicksAt(s, r, f, []);
  }

  ghost predicate Rising(ixs: seq<nat>) {
    forall j, k :: 0 <= j < k < |ixs| ==> ixs[j] < ixs[k]
  }

  /** Positions of a tail, as positions of the whole. */
  function Up(ixs: seq<nat>): (r: seq<nat>)
    ensures |r| == |ixs|
    ensures forall k :: 0 <= k < |ixs| ==> r[k] == ixs[k] + 1
  {
    seq(|ixs|, k requires 0 <= k < |ixs| => ixs[k] + 1)
  }

  lemma UpHas(ixs: seq<nat>, i: nat)
    requires i in ixs
    ensures i + 1 in Up(ixs)
  {
    var k :| 0 <= k < |ixs| && ixs[k] == i;
    assert Up(ixs)[k] == i + 1;
  }

  lemma RisingUp(ixs: seq<nat>)
    requires Rising(ixs)
    ensures Rising(Up(ixs)) && Rising([0] + Up(ixs))
  {
  }

  lemma PicksSkip<A(!new), B>(s: seq<A>, r: seq<B>, f: A -> Option<B>, ixs: seq<nat>)
    requires s != [] && PicksAt(s[1..], r, f, ixs) && f(s[0]).None?
    ensures PicksAt(s, r, f, Up(ixs))
  {
    RisingUp(ixs);
    hide Rising;
    forall k | 0 <= k < |ixs|
      ensures Up(ixs)[k] < |s| && f(s[Up(ixs)[k]]) == Some(r[k])
    {
      assert s[1..][ixs[k]] == s[ixs[k] + 1];
    }
    forall i | 0 <= i < |s| && f(s[i]).Some?
      ensures i in Up(ixs)
    {
      assert s[1..][i - 1] == s[i];
      UpHas(ixs, i - 1);
    }
  }

  lemma PicksTake<A(!new), B>(s: seq<A>, r: seq<B>, f: A -> Option<B>, ixs: seq<nat>)
    requires s != [] && PicksAt(s[1..], r, f, ixs) && f(s[0]).Some?
    ensures PicksAt(s, [f(s[0]).value] + r, f, [0] + Up(ixs))
  {
    RisingUp(ixs);
    hide Rising;
    var all, whole := [0] + Up(ixs), [f(s[0]).value] + r;
    forall k | 0 <= k < |all|
      ensures all[k] < |s| && f(s[all[k]]) == Some(whole[k])
    {
      if k > 0 {
        assert all[k] == ixs[k - 1] + 1 && whole[k] == r[k - 1];
        assert s[1..][ixs[k - 1]] == s[ixs[k - 1] + 1];
      }
    }
    forall i | 0 <= i < |s| && f(s[i]).Some?
      ensures i in all
    {
      if i > 0 {
        assert s[1..][i - 1] == s[i];
        UpHas(ixs, i - 1);
      }
    }
  }

  lemma PicksCons<A(!new), B>(s: seq<A>, r: seq<B>, f: A -> Option<B>)
    requires s != [] && Picks(s[1..], r, f)
    ensures Picks(s, (if f(s[0]).Some? then [f(s[0]).value] else []) + r, f)
  {
    var ixs: seq<nat> :| PicksAt(s[1..], r, f, ixs);
    hide PicksAt;
    if f(s[0]).Some? {
      PicksTake(s, r, f, ixs);
    } else {
      PicksSkip(s, r, f, ixs);
      assert [] + r == r;
    }
  }

  // ---------- the first node of each id ----------

  /** `r` holds the nodes of `ns` at strictly increasing positions, exactly those whose id is
      neither known nor that of an earlier node. */
  ghost predicate FirstOfEachAt(known: set<Id>, ns: seq<Node>, r: seq<Node>, ixs: seq<nat>) {
    && |ixs| == |r| && Rising(ixs)
    && (forall k :: 0 <= k < |ixs| ==> ixs[k] < |ns| && ns[ixs[k]] == r[k] && IsFirst(known, ns, ixs[k]))
    && (forall i: nat :: i < |ns| && IsFirst(known, ns, i) ==> i in ixs)
  }

  predicate IsFirst(known: set<Id>, ns: seq<Node>, i: nat)
    requires i < |ns|
  {
    ns[i].id !in known && forall j :: 0 <= j < i ==> ns[j].id != ns[i].id
  }

  lemma FirstInTail(known: set<Id>, more: set<Id>, ns: seq<Node>, i: nat)
    requires 0 < i < |ns| && more == known + {ns[0].id}
    ensures IsFirst(known, ns, i) <==> IsFirst(more, ns[1..], i - 1)
  {
    var t := ns[1..];
    assert t[i - 1] == ns[i];
    if IsFirst(more, t, i - 1) {
      forall j | 0 <= j < i
        ensures ns[j].id != ns[i].id
      {
        assert j > 0 ==> t[j - 1] == ns[j];
      }
    }
    if IsFirst(known, ns, i) {
      forall j | 0 <= j < i - 1
        ensures t[j].id != ns[i].id
      {
        assert t[j] == ns[j + 1];
      }
    }
  }

  lemma FirstSkip(known: set<Id>, ns: seq<Node>, r: seq<Node>, ixs: seq<nat>)
    requires ns != [] && ns[0].id in known && FirstOfEachAt(known, ns[1..], r, ixs)
    ensures FirstOfEachAt(known, ns, r, Up(ixs))
  {
    RisingUp(ixs);
    assert known + {ns[0].id} == known;
    hide Rising, IsFirst;
    forall k | 0 <= k < |ixs|
      ensures Up(ixs)[k] < |ns| && ns[Up(ixs)[k]] == r[k] && IsFirst(known, ns, Up(ixs)[k])
    {
      assert ns[1..][ixs[k]] == ns[ixs[k] + 1];
      FirstInTail(known, known, ns, ixs[k] + 1);
    }
    forall i: nat | i < |ns| && IsFirst(known, ns, i)
      ensures i in Up(ixs)
    {
      FirstIsNew(known, ns, i);
      FirstInTail(known, known, ns, i);
      UpHas(ixs, i - 1);
    }
  }

  lemma FirstTake(known: set<Id>, ns: seq<Node>, r: seq<Node>, ixs: seq<nat>)
    requires ns != [] && ns[0].id !in known && FirstOfEachAt(known + {ns[0].id}, ns[1..], r, ixs)
    ensures FirstOfEachAt(known, ns, [ns[0]] + r, [0] + Up(ixs))
  {
    RisingUp(ixs);
    assert IsFirst(known, ns, 0);
    hide Rising, IsFirst;
    var more, all, whole := known + {ns[0].id}, [0] + Up(ixs), [ns[0]] + r;
    forall k | 0 <= k < |all|
      ensures all[k] < |ns| && ns[all[k]] == whole[k] && IsFirst(known, ns, all[k])
    {
      if k > 0 {
        assert all[k] == ixs[k - 1] + 1 && whole[k] == r[k - 1];
        assert ns[1..][ixs[k - 1]] == ns[ixs[k - 1] + 1];
        FirstInTail(known, more, ns, ixs[k - 1] + 1);
      }
    }
    forall i: nat | i < |ns| && IsFirst(known, ns, i)
      ensures i in all
    {
      if i > 0 {
        FirstInTail(known, more, ns, i);
        UpHas(ixs, i - 1);
      }
    }
  }

  lemma FirstIsNew(known: set<Id>, ns: seq<Node>, i: nat)
    requires i < |ns| && IsFirst(known, ns, i)
    ensures ns[i].id !in known
  {
  }

  /** `Fresh` keeps exactly the first node of each new id, in order. */
  lemma {:induction false} FreshIsFirstOfEach(known: set<Id>, ns: seq<Node>) returns (ixs: seq<nat>)
    ensures FirstOfEachAt(known, ns, Fresh(known, ns), ixs)
    decreases ns
  {
    hide FirstOfEachAt;
    if ns == [] {
      ixs := [];
      NothingFirst(known, ns);
    } else if ns[0].id in known {
      var tail := FreshIsFirstOfEach(known, ns[1..]);
      ixs := Up(tail);
      FirstSkip(known, ns, Fresh(known, ns[1..]), tail);
    } else {
      var tail := FreshIsFirstOfEach(known + {ns[0].id}, ns[1..]);
      ixs := [0] + Up(tail);
      FirstTake(known, ns, Fresh(known + {ns[0].id}, ns[1..]), tail);
    }
  }

  lemma NothingFirst(known: set<Id>, ns: seq<Node>)
    requires ns == []
    ensures FirstOfEachAt(known, ns, [], [])
  {
  }
}
