/** The sequential parts of a lookup: the buffer the query workers share, the record of
    asked and seen nodes, and the merge of a round's answers into the result. */
module Lookup {
  import opened Distance
  import opened Nodes
  import opened NearestNodes

  lemma FreshSnoc(known: set<Id>, ns: seq<Node>, i: nat)
    requires i < |ns|
    ensures Fresh(known, ns[..i + 1])
         == Fresh(known, ns[..i]) + if ns[i].id in known + Ids(ns[..i]) then [] else [ns[i]]
    ensures Ids(ns[..i + 1]) == Ids(ns[..i]) + {ns[i].id}
  {
    assert ns[..i + 1] == ns[..i] + [ns[i]];
    FreshConcat(known, ns[..i], [ns[i]]);
    IdsConcat(ns[..i], [ns[i]]);
    assert [ns[i]][0] == ns[i];
  }

  lemma PushAllNone(s: seq<Node>, t: Id, k: int)
    ensures PushAll(s, [], t, k) == s
  {
  }

  lemma NothingFresh(known: set<Id>, ns: seq<Node>)
    ensures Fresh(known, ns[..0]) == []
  {
  }

  lemma InIds(ns: seq<Node>, id: Id)
    ensures id in Ids(ns) <==> exists i :: 0 <= i < |ns| && ns[i].id == id
  {
    if i :| 0 <= i < |ns| && ns[i].id == id {
      IdsAt(ns, i);
    }
  }

  class QueryBuffer {
    var buffer: seq<Node>

    constructor ()
      ensures buffer == []
    {
      buffer := [];
    }

    /** Appends the nodes whose id is not in the buffer yet and returns how many that were. */
    method Append(nodes: seq<Node>) returns (added: nat)
      modifies this
      ensures buffer == old(buffer) + Fresh(Ids(old(buffer)), nodes)
      ensures added == |Fresh(Ids(old(buffer)), nodes)|
    {
      hide Fresh, Ids;
      added := 0;
      ghost var before := Ids(buffer);
      NothingFresh(before, nodes);
      for i := 0 to |nodes|
        invariant buffer == old(buffer) + Fresh(before, nodes[..i])
        invariant added == |Fresh(before, nodes[..i])|
      {
        var node := nodes[i];
        var known := false;
        for j := 0 to |buffer|
          invariant !known
          invariant buffer == old(buffer) + Fresh(before, nodes[..i])
          invariant forall l :: 0 <= l < j ==> buffer[l].id != node.id
        {
          if buffer[j].id == node.id {
            known := true;
            break;
          }
        }
        InIds(buffer, node.id);
        FreshSnoc(before, nodes, i);
        FreshKeeps(before, nodes[..i]);
        IdsConcat(old(buffer), Fresh(before, nodes[..i]));
        if known {
          continue;
        }
        buffer := buffer + [node];
        added := added + 1;
      }
      assert nodes[..|nodes|] == nodes;
    }

    method Slide()
      modifies this
      ensures buffer == []
    {
      buffer := buffer[..0];
    }
  }

  class LookupState {
    var asked: set<Id>
    var seen: set<Id>
    const result: NodesByDistance
    const wants: int

    constructor (seeds: seq<Node>, target: Id, wants: int)
      ensures fresh(result) && result.Valid() && result.target == target && this.wants == wants
      ensures result.entries == Nearest(seeds, target, wants)
      ensures seen == Ids(seeds) && asked == {}
    {
      var r := new NodesByDistance(target);
      var s: set<Id> := {};
      for i := 0 to |seeds|
        invariant fresh(r) && r.Valid() && r.target == target
        invariant r.entries == PushAll([], seeds[..i], target, wants)
        invariant s == Ids(seeds[..i])
      {
        PushAllSnoc([], seeds[..i], seeds[i], target, wants);
        assert seeds[..i + 1] == seeds[..i] + [seeds[i]];
        r.Push(seeds[i], wants);
        s := s + {seeds[i].id};
        FreshSnoc({}, seeds, i);
      }
      assert seeds[..|seeds|] == seeds;
      PushAllIsNearest(seeds, target, wants);
      this.result := r;
      this.wants := wants;
      this.seen := s;
      this.asked := {};
    }

    /** Whether the node may be queried; marks it as asked if so. */
    method CanAsk(node: Node) returns (ok: bool)
      modifies this`asked
      ensures ok <==> node.id !in old(asked)
      ensures asked == old(asked) + {node.id}
    {
      if node.id in asked {
        return false;
      }
      asked := asked + {node.id};
      return true;
    }

    /** Merges the buffered answers of a round: every node not seen before goes into the
        result list. */
    method MergeRound(nodes: seq<Node>)
      requires result.Valid()
      modifies this`seen, result
      ensures result.Valid()
      ensures result.entries == PushAll(old(result.entries), Fresh(old(seen), nodes), result.target, wants)
      ensures seen == old(seen) + Ids(nodes)
    {
      hide PushAll, Pushed, Sorted;
      ghost var known := seen;
      assert result.entries == PushAll(result.entries, [], result.target, wants) by {
        PushAllNone(result.entries, result.target, wants);
      }
      for i := 0 to |nodes|
        invariant result.Valid()
        invariant result.entries == PushAll(old(result.entries), Fresh(known, nodes[..i]), result.target, wants)
        invariant seen == known + Ids(nodes[..i])
      {
        var node := nodes[i];
        FreshSnoc(known, nodes, i);
        if node.id in seen {
          assert Fresh(known, nodes[..i + 1]) == Fresh(known, nodes[..i]);
          continue;
        }
        seen := seen + {node.id};
        PushAllSnoc(old(result.entries), Fresh(known, nodes[..i]), node, result.target, wants);
        result.Push(node, wants);
      }
      assert nodes[..|nodes|] == nodes;
    }
  }
}
