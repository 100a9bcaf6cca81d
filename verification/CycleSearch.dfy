/**
 * Depth-first cycle detection over parent-to-child edges
 * (backend/campaign_lineage.py, _assert_acyclic).
 */
module CycleSearch {
  type Id = string
  type Edge = (Id, Id)
  type Children = map<Id, seq<Id>>

  predicate Adjacent(children: Children, u: Id, v: Id) {
    u in children && v in children[u]
  }

  predicate IsPath(children: Children, p: seq<Id>) {
    forall i :: 0 <= i < |p| - 1 ==> Adjacent(children, p[i], p[i + 1])
  }

  predicate IsCycle(children: Children, p: seq<Id>) {
    |p| >= 2 && p[0] == p[|p| - 1] && IsPath(children, p)
  }

  ghost predicate Cyclic(children: Children) {
    exists p :: IsCycle(children, p)
  }

  /** A finishing order: everything a ranked node points to has a smaller rank. */
  ghost predicate Topological(children: Children, rank: map<Id, nat>) {
    forall u, v :: u in rank && Adjacent(children, u, v) ==> v in rank && rank[v] < rank[u]
  }

  lemma {:induction false} RankedNodesAreOnNoCycle(children: Children, rank: map<Id, nat>, p: seq<Id>)
    requires Topological(children, rank)
    requires |p| > 0 && p[0] in rank
    ensures !IsCycle(children, p)
    decreases if |p| > 0 && p[0] in rank then rank[p[0]] else 0
  {
    if IsCycle(children, p) {
      assert Adjacent(children, p[0], p[1]);
      var rotated := p[1..] + [p[1]];
      forall k | 0 <= k < |rotated| - 1 ensures Adjacent(children, rotated[k], rotated[k + 1]) {
        if k < |p| - 2 {
          assert Adjacent(children, p[k + 1], p[k + 2]);
        }
      }
      RankedNodesAreOnNoCycle(children, rank, rotated);
    }
  }

  class Search {
    const children: Children
    var visited: set<Id>
    var stack: set<Id>
    ghost var rank: map<Id, nat>
    ghost var clock: nat

    constructor (children: Children)
      ensures this.children == children && Valid() && stack == {}
    {
      this.children := children;
      visited, stack, rank, clock := {}, {}, map[], 0;
    }

    /** The visited nodes are ranked in the order they finished. */
    ghost predicate Valid()
      reads this
    {
      && visited == rank.Keys && stack !! visited
      && (forall v :: v in rank ==> rank[v] < clock)
      && Topological(children, rank)
    }

    ghost function Nodes(): set<Id> {
      children.Keys + set u, v | u in children && v in children[u] :: v
    }

    /** A node leaves the stack once all its successors are visited. */
    method Finish(node: Id)
      requires Valid() && node in stack
      requires forall v :: Adjacent(children, node, v) ==> v in visited
      modifies this
      ensures Valid() && stack == old(stack) - {node} && visited == old(visited) + {node}
    {
      RankingKeepsOrder(children, rank, node, clock);
      stack := stack - {node};
      visited := visited + {node};
      rank, clock := rank[node := clock], clock + 1;
    }

    /** The path leads to the node, through every node on the stack. */
    method Visit(node: Id, ghost path: seq<Id>) returns (raised: bool)
      requires Valid() && node in Nodes() && IsPath(children, path + [node])
      requires forall v :: v in stack ==> v in path
      modifies this
      ensures raised ==> Cyclic(children)
      ensures !raised ==> Valid() && stack == old(stack)
      ensures !raised ==> node in visited && old(visited) <= visited
      decreases |Nodes() - stack|, 0
    {
      if node in stack {
        PathCloses(children, path, node);
        return true;
      }
      if node in visited {
        return false;
      }
      FewerLeft(Nodes(), stack, node);
      stack := stack + {node};
      raised := VisitSuccessors(node, path + [node]);
      if !raised {
        Finish(node);
      }
    }

    /** The loop of a visit: every successor of the node on top of the stack. */
    method VisitSuccessors(node: Id, ghost path: seq<Id>) returns (raised: bool)
      requires Valid() && path != [] && path[|path| - 1] == node && IsPath(children, path)
      requires forall v :: v in stack ==> v in path
      modifies this
      ensures raised ==> Cyclic(children)
      ensures !raised ==> Valid() && stack == old(stack)
      ensures !raised ==> old(visited) <= visited && forall v :: Adjacent(children, node, v) ==> v in visited
      decreases |Nodes() - stack|, 1
    {
      raised := false;
      var successors := if node in children then children[node] else [];
      for i := 0 to |successors|
        invariant Valid() && stack == old(stack)
        invariant old(visited) <= visited
        invariant forall j :: 0 <= j < i ==> successors[j] in visited
      {
        PathExtends(children, path, successors[i]);
        raised := Visit(successors[i], path);
        if raised {
          return;
        }
      }
    }
  }

  lemma RankingKeepsOrder(children: Children, rank: map<Id, nat>, node: Id, clock: nat)
    requires Topological(children, rank) && node !in rank
    requires forall v :: v in rank ==> rank[v] < clock
    requires forall v :: Adjacent(children, node, v) ==> v in rank
    ensures Topological(children, rank[node := clock])
  {
  }

  lemma PathExtends(children: Children, path: seq<Id>, v: Id)
    requires path != [] && IsPath(children, path) && Adjacent(children, path[|path| - 1], v)
    ensures IsPath(children, path + [v])
  {
  }

  lemma PathCloses(children: Children, path: seq<Id>, node: Id)
    requires IsPath(children, path + [node]) && node in path
    ensures Cyclic(children)
  {
    var i :| 0 <= i < |path| && path[i] == node;
    var p := path[i..] + [node];
    assert p == (path + [node])[i..];
    forall k | 0 <= k < |p| - 1 ensures Adjacent(children, p[k], p[k + 1]) {
      assert Adjacent(children, (path + [node])[i + k], (path + [node])[i + k + 1]);
    }
    assert IsCycle(children, p);
  }

  lemma FewerLeft(nodes: set<Id>, stack: set<Id>, node: Id)
    requires node in nodes && node !in stack
    ensures |nodes - (stack + {node})| < |nodes - stack|
  {
    assert nodes - stack == (nodes - (stack + {node})) + {node};
  }

  /** The edges as a set of neighbours, in the order the nodes first appear as a parent. */
  method ChildrenOf(edges: seq<Edge>) returns (children: Children, keys: seq<Id>)
    ensures forall u, v :: Adjacent(children, u, v) <==> (u, v) in edges
    ensures forall u :: u in keys <==> u in children
  {
    children, keys := map[], [];
    for i := 0 to |edges|
      invariant forall u, v :: Adjacent(children, u, v) <==> (u, v) in edges[..i]
      invariant forall u :: u in keys <==> u in children
    {
      var (parent, child) := edges[i];
      if parent !in children {
        keys := keys + [parent];
        children := children[parent := []];
      }
      ghost var before := children;
      children := children[parent := children[parent] + [child]];
      assert edges[..i + 1] == edges[..i] + [edges[i]];
      forall u, v ensures Adjacent(children, u, v) <==> (u, v) in edges[..i + 1] {
        assert Adjacent(children, u, v) <==> Adjacent(before, u, v) || (u, v) == edges[i];
      }
    }
    assert edges[..|edges|] == edges;
  }

  /** A list of edges is cyclic when some non-empty walk along them returns to its start. */
  ghost predicate CyclicEdges(edges: seq<Edge>) {
    exists p: seq<Id> :: ClosedWalk(edges, p)
  }

  predicate ClosedWalk(edges: seq<Edge>, p: seq<Id>) {
    |p| >= 2 && p[0] == p[|p| - 1] && forall i :: 0 <= i < |p| - 1 ==> (p[i], p[i + 1]) in edges
  }

  lemma CyclicAgrees(edges: seq<Edge>, children: Children)
    requires forall u, v :: Adjacent(children, u, v) <==> (u, v) in edges
    ensures Cyclic(children) <==> CyclicEdges(edges)
  {
    forall p ensures IsCycle(children, p) <==> ClosedWalk(edges, p) {
      forall i | 0 <= i < |p| - 1 ensures Adjacent(children, p[i], p[i + 1]) <==> (p[i], p[i + 1]) in edges {
      }
    }
  }

  lemma NoCycleLeft(children: Children, rank: map<Id, nat>)
    requires Topological(children, rank)
    requires forall u :: u in children ==> u in rank
    ensures !Cyclic(children)
  {
    forall p ensures !IsCycle(children, p) {
      if IsCycle(children, p) {
        assert Adjacent(children, p[0], p[1]);
        RankedNodesAreOnNoCycle(children, rank, p);
      }
    }
  }

  /** The search raises exactly on cyclic graphs. */
  method FindsCycle(edges: seq<Edge>) returns (raised: bool)
    ensures raised <==> CyclicEdges(edges)
  {
    var children, keys := ChildrenOf(edges);
    CyclicAgrees(edges, children);
    var search := new Search(children);
    for i := 0 to |keys|
      invariant search.Valid() && search.stack == {}
      invariant forall j :: 0 <= j < i ==> keys[j] in search.visited
    {
      raised := search.Visit(keys[i], []);
      if raised {
        return;
      }
    }
    NoCycleLeft(children, search.rank);
    raised := false;
  }
}
