/** A lookup started from the node table: the table hands it only its nearest nodes, and that
    loses nothing. */
module TableLookup {
  import opened Distance
  import opened Nodes
  import opened NearestNodes
  import opened LookupProtocol
  import M = TableModel
  import P = TableProperties
  import T = NodeTable

  // ---------- sorted lists ----------

  lemma SortedStays(s: seq<Node>, t: Id)
    requires Sorted(s, t)
    ensures StableSort(s, t) == s
  {
    StableSortCharacterized(s, s, t);
  }

  /** Taking the nearest in two cuts is taking them in one. */
  lemma NearestOfNearest(all: seq<Node>, t: Id, n: int, k: int)
    requires k <= n
    ensures Nearest(Nearest(all, t, n), t, k) == Nearest(all, t, k)
  {
    var s, r := StableSort(all, t), Nearest(all, t, n);
    StableSortIsStableSort(all, t);
    assert Sorted(s, t);
    hide StableSort, IsStableSort, Dist;
    assert Sorted(r, t);
    SortedStays(r, t);
    hide Sorted;
    assert Take(Take(s, n), k) == Take(s, k);
  }

  /** A node that is no closer than all of a full list does not get in. */
  lemma FarNodeStaysOut(r: seq<Node>, n: Node, t: Id, k: int)
    requires k <= |r| && forall i :: 0 <= i < |r| ==> Dist(t, r[i].id) <= Dist(t, n.id)
    ensures Pushed(r, n, t, k) == r
  {
    hide Dist;
    InsertAt(r, n, t, |r|);
  }

  // ---------- pushing with more and with less known ----------

  /** The ids are at least as far as everything in the full list. */
  ghost predicate Far(r: seq<Node>, ids: set<Id>, t: Id, k: int) {
    ids != {} ==> k <= |r| && forall id, i :: id in ids && 0 <= i < |r| ==> Dist(t, r[i].id) <= Dist(t, id)
  }

  lemma FarAfterPush(r: seq<Node>, n: Node, ids: set<Id>, t: Id, k: int)
    requires Sorted(r, t) && Far(r, ids, t, k)
    ensures Sorted(Pushed(r, n, t, k), t)
    ensures Far(Pushed(r, n, t, k), ids, t, k)
  {
    PushedSorted(r, n, t, k);
    if ids != {} {
      InsertImproves(r, n, t);
      hide Dist, Insert;
      assert Pushed(r, n, t, k) == Insert(r, n, t)[..|r|];
      forall id, i | id in ids && 0 <= i < |r|
        ensures Dist(t, Pushed(r, n, t, k)[i].id) <= Dist(t, id)
      {
        assert Dist(t, Insert(r, n, t)[i].id) <= Dist(t, r[i].id);
      }
    }
  }

  lemma PushAllHead(r: seq<Node>, n: Node, ns: seq<Node>, t: Id, k: int)
    ensures PushAll(r, [n] + ns, t, k) == PushAll(Pushed(r, n, t, k), ns, t, k)
  {
    PushAllConcat(r, [n], ns, t, k);
    assert PushAll(r, [n], t, k) == Pushed(r, n, t, k) by {
      PushAllSnoc(r, [], n, t, k);
      assert [] + [n] == [n];
    }
  }

  /** Not knowing that far ids were there before makes no difference. */
  lemma {:induction false} FarIdsDoNotMatter(r: seq<Node>, known: set<Id>, far: set<Id>, ns: seq<Node>, t: Id, k: int)
    requires Sorted(r, t) && Far(r, far, t, k) && known !! far
    ensures PushAll(r, Fresh(known, ns), t, k) == PushAll(r, Fresh(known + far, ns), t, k)
    decreases ns
  {
    hide PushAll, Pushed, Far, Sorted, Dist;
    if ns != [] {
      var n, rest := ns[0], ns[1..];
      if n.id in known {
        FarIdsDoNotMatter(r, known, far, rest, t, k);
      } else if n.id in far {
        FarNode(r, far, n, t, k);
        PushAllHead(r, n, Fresh(known + {n.id}, rest), t, k);
        FarSubset(r, far, far - {n.id}, t, k);
        FarIdsDoNotMatter(r, known + {n.id}, far - {n.id}, rest, t, k);
        assert known + {n.id} + (far - {n.id}) == known + far;
      } else {
        FarAfterPush(r, n, far, t, k);
        PushAllHead(r, n, Fresh(known + {n.id}, rest), t, k);
        PushAllHead(r, n, Fresh(known + far + {n.id}, rest), t, k);
        FarIdsDoNotMatter(Pushed(r, n, t, k), known + {n.id}, far, rest, t, k);
        assert known + {n.id} + far == known + far + {n.id};
      }
    }
  }

  lemma FarNode(r: seq<Node>, far: set<Id>, n: Node, t: Id, k: int)
    requires Far(r, far, t, k) && n.id in far
    ensures Pushed(r, n, t, k) == r
  {
    FarNodeStaysOut(r, n, t, k);
  }

  lemma FarSubset(r: seq<Node>, far: set<Id>, less: set<Id>, t: Id, k: int)
    requires Far(r, far, t, k) && less <= far
    ensures Far(r, less, t, k)
  {
  }

  // ---------- the cap loses nothing ----------

  lemma NearestLength(all: seq<Node>, t: Id, k: int)
    ensures |Nearest(all, t, k)| == if k <= 0 then 0 else if k < |all| then k else |all|
    ensures Sorted(Nearest(all, t, k), t)
  {
    if k > 0 {
      NearestMeaning(all, t, k);
    }
  }

  /** What the cap left out is at least as far as all it kept. */
  lemma LeftOutIsFar(all: seq<Node>, t: Id, k: int, id: Id, i: nat)
    requires id in Ids(all) && id !in Ids(Nearest(all, t, k)) && i < |Nearest(all, t, k)|
    ensures Dist(t, Nearest(all, t, k)[i].id) <= Dist(t, id)
  {
    var r := Nearest(all, t, k);
    NearestLength(all, t, k);
    NearestMeaning(all, t, k);
    hide Nearest, Dist, Sorted;
    var rest: seq<Node> :| multiset(r) + multiset(rest) == multiset(all)
                           && forall x, y :: x in r && y in rest ==> Dist(t, x.id) <= Dist(t, y.id);
    var n :| n in all && n.id == id;
    assert n in multiset(all);
    assert n !in r;
    assert n in multiset(rest);
    assert r[i] in r && n in rest;
  }

  lemma LeftOutAreFar(all: seq<Node>, t: Id, k: int)
    ensures var r := Nearest(all, t, k); Far(r, Ids(all) - Ids(r), t, k)
  {
    var r := Nearest(all, t, k);
    NearestLength(all, t, k);
    if Ids(all) - Ids(r) != {} {
      if |r| < k {
        EverythingKept(all, t, k);
      }
      hide Nearest, Dist, Ids, Sorted;
      forall id, i | id in Ids(all) - Ids(r) && 0 <= i < |r|
        ensures Dist(t, r[i].id) <= Dist(t, id)
      {
        LeftOutIsFar(all, t, k, id, i);
      }
    }
  }

  lemma EverythingKept(all: seq<Node>, t: Id, k: int)
    requires |Nearest(all, t, k)| < k
    ensures Ids(Nearest(all, t, k)) == Ids(all)
  {
    NearestLength(all, t, k);
    StableSortIsStableSort(all, t);
    var r := Nearest(all, t, k);
    assert r == StableSort(all, t);
    hide StableSort, Nearest, Dist;
    assert forall n :: n in r <==> n in multiset(r);
    assert forall n :: n in all <==> n in multiset(all);
  }

  lemma NearestIds(all: seq<Node>, t: Id, k: int)
    ensures Ids(Nearest(all, t, k)) <= Ids(all)
  {
    var r := Nearest(all, t, k);
    hide Nearest;
    forall n | n in r
      ensures n in all
    {
      var i :| 0 <= i < |r| && r[i] == n;
      NearestSubset(all, t, k, i);
    }
  }

  /** Starting from the `n` nearest of some nodes, and looking for `k` of them, is as good as
      starting from all: what the cap left out would never have got into the result, also not
      in the form some answer gives it. */
  lemma CapLosesNothing(all: seq<Node>, answered: seq<Node>, t: Id, n: int, k: int)
    requires DistinctIds(all) && k <= n
    ensures var seeds := Nearest(all, t, n);
      Nearest(seeds + Fresh(Ids(seeds), answered), t, k) == Nearest(Dedup(all + answered), t, k)
  {
    var seeds, best := Nearest(all, t, n), Nearest(all, t, k);
    NearestOfNearest(all, t, n, k);
    NearestLength(all, t, k);
    LeftOutAreFar(all, t, k);
    NearestIds(all, t, n);
    NearestIds(seeds, t, k);
    hide Nearest, Dist, Sorted, Far, Fresh, Ids;
    var far := Ids(all) - Ids(seeds);
    FarSubset(best, Ids(all) - Ids(best), far, t, k);
    FarIdsDoNotMatter(best, Ids(seeds), far, answered, t, k);
    assert Ids(seeds) + far == Ids(all);
    NearestExtends(seeds, Fresh(Ids(seeds), answered), t, k);
    NearestExtends(all, Fresh(Ids(all), answered), t, k);
    DedupOfDistinct(all, answered);
  }

  lemma DedupOfDistinct(all: seq<Node>, answered: seq<Node>)
    requires DistinctIds(all)
    ensures Dedup(all + answered) == all + Fresh(Ids(all), answered)
  {
    FreshConcat({}, all, answered);
    FreshOfDistinct({}, all);
    assert {} + Ids(all) == Ids(all);
  }

  /** A lookup seeded with a search of the table finds, in every interleaving, the nearest of
      everything the search looked at and everything the completed rounds returned, as read
      from the actions of the run. */
  lemma LookupFromTable(t: M.Table, preferLive: bool, nresults: int, p: Params, actions: seq<Action>, s: State)
    requires M.TableInv(t) && p.seeds == Nearest(T.Searched(t, preferLive), p.target, nresults)
    requires p.alpha > 0 && p.wants <= nresults
    requires Reaches(Start(p), actions, s)
    ensures s.result == Nearest(Dedup(T.Searched(t, preferLive) + Completed(actions, map[], [])), p.target, p.wants)
    ensures DistinctIds(s.result)
  {
    T.SearchedDistinct(t, preferLive);
    hide M.TableInv, Nearest, T.Searched, DistinctIds, Reaches, Completed, Delivered;
    var answered := Completed(actions, map[], []);
    CapLosesNothing(T.Searched(t, preferLive), answered, p.target, nresults, p.wants);
    ResultIsNearest(p, actions, s);
    FreshKeeps({}, T.Searched(t, preferLive) + answered);
    NearestDistinct(Dedup(T.Searched(t, preferLive) + answered), p.target, p.wants);
  }
}
