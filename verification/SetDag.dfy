/** The combined set graph, indexed once, and the walks over it. */
module SetDags {
  import opened Primitives
  import opened Distinctness
  import opened Graph

  // ---------------------------------------------------------------- the two indexes, as functions of the edge list

  /** Positions of the edges leaving `x`, in list order. */
  ghost function OutEdges(E: Edges, x: AccountSetId): (out: seq<nat>)
    ensures forall k :: 0 <= k < |out| ==> out[k] < |E| && E[out[k]].container == x
    ensures forall i :: 0 <= i < |E| && E[i].container == x ==> i in out
    ensures Distinct(out)
  {
    if E == [] then []
    else
      var n := |E| - 1;
      OutEdges(E[..n], x) + if E[n].container == x then [n] else []
  }

  /** The adjacency list of `x`. */
  ghost function Children(E: Edges, x: AccountSetId): seq<AccountSetId> {
    var out := OutEdges(E, x);
    seq(|out|, k requires 0 <= k < |out| => E[out[k]].member)
  }

  /** Edges into `n` whose position is not yet processed. */
  ghost function Pending(E: Edges, done: set<nat>, n: AccountSetId): set<nat> {
    set i | 0 <= i < |E| && E[i].member == n && i !in done
  }

  lemma PendingProcess(E: Edges, done: set<nat>, i: nat, n: AccountSetId)
    requires i < |E| && i !in done
    ensures |Pending(E, done + {i}, n)| == |Pending(E, done, n)| - (if E[i].member == n then 1 else 0)
  {
    if E[i].member == n {
      assert Pending(E, done + {i}, n) == Pending(E, done, n) - {i};
    } else {
      assert Pending(E, done + {i}, n) == Pending(E, done, n);
    }
  }

  lemma PendingAppend(E: Edges, e: SetMembership, n: AccountSetId)
    ensures |Pending(E + [e], {}, n)| == |Pending(E, {}, n)| + (if e.member == n then 1 else 0)
  {
    if e.member == n {
      assert Pending(E + [e], {}, n) == Pending(E, {}, n) + {|E|};
    } else {
      assert Pending(E + [e], {}, n) == Pending(E, {}, n);
    }
  }

  /** Positions of the edges whose container has been emitted. */
  ghost function EdgesFrom(E: Edges, order: seq<AccountSetId>): set<nat> {
    set i | 0 <= i < |E| && E[i].container in order
  }

  // ---------------------------------------------------------------- what a traversal says

  /** `order` lists the emitted sets; `depths` holds a depth for every set with a container. */
  datatype Traversal = Traversal(order: seq<AccountSetId>, depths: map<AccountSetId, int>)

  function DepthOf(depths: map<AccountSetId, int>, n: AccountSetId): int {
    if n in depths then depths[n] else 0
  }

  /** The recorded depth of `n`, raised to `through` if that is deeper. */
  function Deepen(depths: map<AccountSetId, int>, n: AccountSetId, through: int): map<AccountSetId, int> {
    depths[n := if n in depths && depths[n] >= through then depths[n] else through]
  }

  /** Every set is preceded by all of its containers. */
  ghost predicate ContainersFirst(E: Edges, order: seq<AccountSetId>) {
    forall i, k :: 0 <= i < |E| && 0 <= k < |order| && E[i].member == order[k]
      ==> E[i].container in order[..k]
  }

  /** `d` is the length of the longest path ending at `n`. */
  ghost predicate IsLongestTo(E: Edges, n: AccountSetId, d: int) {
    Attained(E, n, d) && forall p: Path, a :: IsPath(E, p, a, n) ==> |p| <= d
  }

  ghost predicate Attained(E: Edges, n: AccountSetId, d: int) {
    exists p: Path, a :: IsPath(E, p, a, n) && |p| == d
  }

  /** Depth grows along every edge in `done`. */
  ghost predicate DepthGrows(E: Edges, done: set<nat>, depths: map<AccountSetId, int>) {
    forall i :: 0 <= i < |E| && i in done ==> DepthOf(depths, E[i].container) < DepthOf(depths, E[i].member)
  }

  lemma AttainedStep(E: Edges, i: nat, d: int)
    requires i < |E| && Attained(E, E[i].container, d)
    ensures Attained(E, E[i].member, d + 1)
  {
    var p: Path, a :| IsPath(E, p, a, E[i].container) && |p| == d;
    PathSnoc(E, p, i, a);
    assert |p + [i]| == d + 1;
  }

  lemma AttainedZero(E: Edges, n: AccountSetId)
    ensures Attained(E, n, 0)
  {
    var p: Path := [];
    assert IsPath(E, p, n, n) && |p| == 0;
  }

  lemma DepthsAreLongest(E: Edges, depths: map<AccountSetId, int>, all: set<nat>, n: AccountSetId)
    requires DepthState(E, depths, all) && (forall i :: 0 <= i < |E| ==> i in all)
    ensures Acyclic(E)
    ensures IsLongestTo(E, n, DepthOf(depths, n))
  {
    var rank := (m: AccountSetId) => DepthOf(depths, m);
    assert Ranked(E, rank);
    RankedAcyclic(E, rank);
    forall p: Path, a | IsPath(E, p, a, n) ensures |p| <= DepthOf(depths, n) {
      RankedPath(E, rank, p, a, n);
    }
  }

  lemma StuckNodeHasParent(E: Edges, order: seq<AccountSetId>, R: set<AccountSetId>, m: AccountSetId)
    requires Pending(E, EdgesFrom(E, order), m) != {}
    requires forall n :: n in Nodes(E) && n !in order ==> n in R
    ensures HasParentIn(E, R, m)
  {
    var i :| i in Pending(E, EdgesFrom(E, order), m);
    assert E[i].container in Nodes(E);
  }

  /** Nodes that stay behind keep an edge from a node that stays behind. */
  lemma StuckMeansCyclic(E: Edges, order: seq<AccountSetId>, universe: set<AccountSetId>, n: AccountSetId)
    requires Nodes(E) <= universe
    requires n in universe && n !in order
    requires forall m :: m in universe && m !in order ==> Pending(E, EdgesFrom(E, order), m) != {}
    ensures !Acyclic(E)
  {
    hide Acyclic, Reach, HasParentIn, Nodes, Pending, EdgesFrom;
    var R := set m | m in universe && m !in order;
    forall m | m in R ensures HasParentIn(E, R, m) {
      StuckNodeHasParent(E, order, R, m);
    }
    assert Reach(E, n, n) by { ReachSelf(E, n); }
    ParentedSetHasCycle(E, R, n, {n});
  }

  /** The two maps index exactly the edges of `E`. */
  ghost predicate Indexes(E: Edges, adjacency: map<AccountSetId, seq<AccountSetId>>, indegree: map<AccountSetId, nat>) {
    && Nodes(E) <= indegree.Keys
    && (forall n :: n in indegree ==> indegree[n] == |Pending(E, {}, n)|)
    && (forall n :: n in adjacency ==> adjacency[n] == Children(E, n))
    && (forall n :: n !in adjacency ==> OutEdges(E, n) == [])
  }

  lemma NotANode(E: Edges, n: AccountSetId)
    requires n !in Nodes(E)
    ensures Pending(E, {}, n) == {}
  {
    assert forall i :: 0 <= i < |E| ==> E[i].member in Nodes(E);
  }

  lemma IndexesNothing()
    ensures Indexes([], map[], map[])
  {
  }

  lemma IndexesAppend(E: Edges, e: SetMembership,
                      adj: map<AccountSetId, seq<AccountSetId>>, deg: map<AccountSetId, nat>,
                      adj': map<AccountSetId, seq<AccountSetId>>, deg': map<AccountSetId, nat>)
    requires Indexes(E, adj, deg)
    requires deg'.Keys == deg.Keys + {e.container, e.member}
    requires forall n :: n in deg' ==> deg'[n] == (if n in deg then deg[n] else 0) + (if n == e.member then 1 else 0)
    requires adj' == adj[e.container := (if e.container in adj then adj[e.container] else []) + [e.member]]
    ensures Indexes(E + [e], adj', deg')
  {
    NodesAppend(E, e);
    forall n | n in deg' ensures deg'[n] == |Pending(E + [e], {}, n)| {
      PendingAppend(E, e, n);
      if n !in deg { NotANode(E, n); }
    }
    forall n ensures if n in adj' then adj'[n] == Children(E + [e], n) else OutEdges(E + [e], n) == [] {
      ChildrenAppend(E, e, n);
    }
  }

  class SetDag {
    var adjacency: map<AccountSetId, seq<AccountSetId>>
    var indegree: map<AccountSetId, nat>
    /** The edges indexed so far. */
    ghost var edges: Edges

    ghost predicate Valid()
      reads this
    {
      Indexes(edges, adjacency, indegree)
    }

    constructor (es: seq<SetMembership>)
      ensures Valid() && edges == es
      ensures indegree.Keys == Nodes(es)
    {
      hide Indexes;
      adjacency, indegree, edges := map[], map[], [];
      new;
      IndexesNothing();
      for k := 0 to |es|
        invariant Valid() && edges == es[..k] && indegree.Keys == Nodes(edges)
      {
        AddEdge(es[k]);
        assert es[..k + 1] == es[..k] + [es[k]];
      }
      assert es[..|es|] == es;
    }

    method AddEdge(e: SetMembership)
      requires Valid()
      modifies this
      ensures Valid() && edges == old(edges) + [e]
      ensures indegree.Keys == old(indegree.Keys) + {e.container, e.member}
    {
      hide Indexes;
      var listed := if e.container in adjacency then adjacency[e.container] else [];
      adjacency := adjacency[e.container := listed + [e.member]];
      indegree := indegree[e.member := if e.member in indegree then indegree[e.member] + 1 else 1];
      indegree := indegree[e.container := if e.container in indegree then indegree[e.container] else 0];
      IndexesAppend(edges, e, old(adjacency), old(indegree), adjacency, indegree);
      edges := edges + [e];
    }

    /** Register a set that carries no edges of its own, so it still counts as a node. */
    method AddIsolated(id: AccountSetId)
      requires Valid()
      modifies this
      ensures Valid() && edges == old(edges)
      ensures indegree.Keys == old(indegree.Keys) + {id}
    {
      if id !in indegree {
        NotANode(edges, id);
        indegree := indegree[id := 0];
      }
    }

    function NodeCount(): nat
      reads this
    {
      |indegree|
    }

    function ChildrenOf(id: AccountSetId): (children: seq<AccountSetId>)
      reads this
      requires Valid()
      ensures children == Children(edges, id)
    {
      if id in adjacency then adjacency[id] else []
    }

    /** The sets no edge enters, in an arbitrary order. */
    method ReadySets() returns (queue: seq<AccountSetId>)
      ensures Distinct(queue)
      ensures forall n :: n in queue <==> n in indegree && indegree[n] == 0
    {
      queue := [];
      var scan := indegree.Keys;
      while scan != {}
        invariant scan <= indegree.Keys
        invariant Distinct(queue)
        invariant forall n :: n in queue <==> n in indegree && n !in scan && indegree[n] == 0
        decreases scan
      {
        var n :| n in scan;
        scan := scan - {n};
        if indegree[n] == 0 {
          queue := queue + [n];
        }
      }
    }

    /** Kahn's algorithm. Sets become ready in an arbitrary order. */
    method Traverse() returns (t: Traversal)
      requires Valid()
      ensures Distinct(t.order) && (forall n :: n in t.order ==> n in indegree)
      ensures ContainersFirst(edges, t.order)
      ensures |t.order| <= NodeCount()
      ensures |t.order| == NodeCount() <==> Acyclic(edges)
      ensures Acyclic(edges) ==> forall n :: n in indegree <==> n in t.order
      ensures Acyclic(edges) ==> forall n :: IsLongestTo(edges, n, DepthOf(t.depths, n))
    {
      var remaining := indegree;
      var queue := ReadySets();
      var order: seq<AccountSetId> := [];
      var depths: map<AccountSetId, int> := map[];
      ghost var E, U := edges, indegree.Keys;
      InitialState(E, indegree, queue);
      while queue != []
        invariant KahnState(E, U, order, queue, remaining, EdgesFrom(E, order))
        invariant DepthState(E, depths, EdgesFrom(E, order))
        decreases |U| - |order|
      {
        KahnPop(E, U, order, queue, remaining, EdgesFrom(E, order));
        var id := queue[0];
        queue, remaining, depths := EmitMembers(E, U, id, ChildrenOf(id), order, queue[1..], remaining, depths);
        order := order + [id];
      }
      t := Traversal(order, depths);
      KahnFinish(E, U, order, remaining, depths);
    }

    /** Depth-first search downward. Needs no acyclicity: a visited set is not expanded again. */
    method HasPath(from: AccountSetId, to: AccountSetId) returns (found: bool)
      requires Valid()
      ensures found <==> Reach(edges, from, to)
    {
      ghost var E, U := edges, Nodes(edges) + {from};
      var pending := [from];
      var visited: set<AccountSetId> := {};
      ReachSelf(E, from);
      while pending != []
        invariant SearchState(E, from, U, visited, pending)
        invariant to !in visited
        decreases |U| - |visited|, |pending|
      {
        var current := pending[|pending| - 1];
        SearchMeasure(E, from, U, visited, pending);
        if current == to {
          return true;
        }
        if current in visited {
          SearchSkip(E, from, U, visited, pending);
          pending := pending[..|pending| - 1];
        } else {
          SearchVisit(E, from, U, visited, pending);
          visited := visited + {current};
          pending := pending[..|pending| - 1] + ChildrenOf(current);
        }
      }
      ClosedUnderEdges(E, visited, from, to);
      return false;
    }
  }

  /** Visited sets are explored up to what is still pending. */
  ghost predicate SearchState(E: Edges, from: AccountSetId, U: set<AccountSetId>, visited: set<AccountSetId>,
                              pending: seq<AccountSetId>) {
    && from in visited + Elements(pending)
    && Nodes(E) <= U && visited + Elements(pending) <= U
    && (forall n :: n in visited + Elements(pending) ==> Reach(E, from, n))
    && (forall i :: 0 <= i < |E| && E[i].container in visited ==> E[i].member in visited + Elements(pending))
  }

  lemma SearchMeasure(E: Edges, from: AccountSetId, U: set<AccountSetId>, visited: set<AccountSetId>,
                      pending: seq<AccountSetId>)
    requires SearchState(E, from, U, visited, pending) && pending != []
    ensures Reach(E, from, pending[|pending| - 1])
    ensures pending[|pending| - 1] !in visited ==> |visited| < |U|
  {
    var current := pending[|pending| - 1];
    assert current in Elements(pending);
    if current !in visited {
      SubsetCardinality(visited + {current}, U);
    }
  }

  lemma SearchSkip(E: Edges, from: AccountSetId, U: set<AccountSetId>, visited: set<AccountSetId>,
                   pending: seq<AccountSetId>)
    requires SearchState(E, from, U, visited, pending) && pending != [] && pending[|pending| - 1] in visited
    ensures SearchState(E, from, U, visited, pending[..|pending| - 1])
  {
    hide Reach;
    var rest := pending[..|pending| - 1];
    assert pending == rest + [pending[|pending| - 1]];
    assert visited + Elements(rest) == visited + Elements(pending);
  }

  lemma SearchVisit(E: Edges, from: AccountSetId, U: set<AccountSetId>, visited: set<AccountSetId>,
                    pending: seq<AccountSetId>)
    requires SearchState(E, from, U, visited, pending) && pending != []
    ensures var current := pending[|pending| - 1];
            SearchState(E, from, U, visited + {current}, pending[..|pending| - 1] + Children(E, current))
  {
    hide Reach;
    var current := pending[|pending| - 1];
    var rest := pending[..|pending| - 1];
    var children := Children(E, current);
    assert pending == rest + [current];
    assert current in Elements(pending);
    forall n | n in children ensures Reach(E, from, n) && n in U {
      var k :| 0 <= k < |children| && children[k] == n;
      var i := OutEdges(E, current)[k];
      ReachStep(E, from, i);
      assert E[i].member in Nodes(E);
    }
    forall i | 0 <= i < |E| && E[i].container == current ensures E[i].member in children {
      var k :| 0 <= k < |OutEdges(E, current)| && OutEdges(E, current)[k] == i;
      assert children[k] == E[i].member;
    }
    assert Elements(rest + children) == Elements(rest) + Elements(children);
  }

  /** A set of nodes closed under the edges is never left. */
  lemma ClosedUnderEdges(E: Edges, S: set<AccountSetId>, a: AccountSetId, b: AccountSetId)
    requires a in S && forall i :: 0 <= i < |E| && E[i].container in S ==> E[i].member in S
    ensures Reach(E, a, b) ==> b in S
  {
    if Reach(E, a, b) {
      var p: Path :| IsPath(E, p, a, b);
      ClosedUnderPath(E, S, p, a, b);
    }
  }

  lemma {:induction false} ClosedUnderPath(E: Edges, S: set<AccountSetId>, p: Path, a: AccountSetId, b: AccountSetId)
    requires a in S && forall i :: 0 <= i < |E| && E[i].container in S ==> E[i].member in S
    requires IsPath(E, p, a, b)
    ensures b in S
  {
    if p != [] {
      ClosedUnderPath(E, S, p[1..], E[p[0]].member, b);
    }
  }

  /** The depth of the deepest set, zero for a graph without edges. */
  method MaxDepth(t: Traversal, ghost E: Edges) returns (d: int)
    requires forall n :: IsLongestTo(E, n, DepthOf(t.depths, n))
    ensures IsMaxDepth(E, d)
  {
    d := 0;
    ghost var nothing: Path := [];
    assert IsPath(E, nothing, 0, 0) && |nothing| == 0;
    var scan := t.depths.Keys;
    while scan != {}
      invariant scan <= t.depths.Keys
      invariant 0 <= d && forall n :: n in t.depths && n !in scan ==> t.depths[n] <= d
      invariant HasPathOfLength(E, d)
      decreases scan
    {
      var n :| n in scan;
      scan := scan - {n};
      assert IsLongestTo(E, n, t.depths[n]) by { assert DepthOf(t.depths, n) == t.depths[n]; }
      if t.depths[n] > d {
        d := t.depths[n];
      }
    }
    forall p: Path, a, b | IsPath(E, p, a, b) ensures |p| <= d {
      assert IsLongestTo(E, b, DepthOf(t.depths, b));
    }
  }

  /** The body of the pass for one emitted set `id`: deepen its members and release the ones
      whose last container this was. */
  method EmitMembers(ghost E: Edges, ghost U: set<AccountSetId>, id: AccountSetId, children: seq<AccountSetId>,
                     ghost order: seq<AccountSetId>, queue: seq<AccountSetId>,
                     remaining: map<AccountSetId, nat>, depths: map<AccountSetId, int>)
    returns (queue': seq<AccountSetId>, remaining': map<AccountSetId, nat>, depths': map<AccountSetId, int>)
    requires id !in order && children == Children(E, id)
    requires KahnState(E, U, order + [id], queue, remaining, EdgesFrom(E, order))
    requires DepthState(E, depths, EdgesFrom(E, order))
    ensures KahnState(E, U, order + [id], queue', remaining', EdgesFrom(E, order + [id]))
    ensures DepthState(E, depths', EdgesFrom(E, order + [id]))
  {
    hide KahnState, DepthState;
    queue', remaining', depths' := queue, remaining, depths;
    ProcessedBounds(E, order, id);
    var parentDepth := DepthOf(depths, id);
    for k := 0 to |children|
      invariant KahnState(E, U, order + [id], queue', remaining', Processed(E, order, id, k))
      invariant DepthState(E, depths', Processed(E, order, id, k))
      invariant parentDepth == DepthOf(depths', id)
    {
      var child := children[k];
      MemberStep(E, U, order, id, queue', remaining', depths', k);
      depths' := Deepen(depths', child, parentDepth + 1);
      var left := remaining'[child] - 1;
      remaining' := remaining'[child := left];
      queue' := if left == 0 then queue' + [child] else queue';
    }
  }

  /** Edges processed once the first `k` members of `id` have been visited. */
  ghost function Processed(E: Edges, order: seq<AccountSetId>, id: AccountSetId, k: nat): set<nat>
    requires k <= |OutEdges(E, id)|
  {
    EdgesFrom(E, order) + Elements(OutEdges(E, id)[..k])
  }

  lemma ProcessedBounds(E: Edges, order: seq<AccountSetId>, id: AccountSetId)
    ensures Processed(E, order, id, 0) == EdgesFrom(E, order)
    ensures Processed(E, order, id, |OutEdges(E, id)|) == EdgesFrom(E, order + [id])
  {
    assert OutEdges(E, id)[..|OutEdges(E, id)|] == OutEdges(E, id);
  }

  lemma ProcessedStep(E: Edges, order: seq<AccountSetId>, id: AccountSetId, k: nat)
    requires k < |OutEdges(E, id)| && id !in order
    ensures OutEdges(E, id)[k] < |E| && E[OutEdges(E, id)[k]] == SetMembership(id, Children(E, id)[k])
    ensures OutEdges(E, id)[k] !in Processed(E, order, id, k)
    ensures Processed(E, order, id, k + 1) == Processed(E, order, id, k) + {OutEdges(E, id)[k]}
  {
    var out := OutEdges(E, id);
    assert out[..k + 1] == out[..k] + [out[k]];
  }

  /** Bookkeeping of a Kahn pass: `done` holds the processed edges, a set is queued or emitted
      exactly when no unprocessed edge enters it, and every emitted set follows its containers. */
  ghost predicate KahnState(E: Edges, universe: set<AccountSetId>, order: seq<AccountSetId>, queue: seq<AccountSetId>,
                            remaining: map<AccountSetId, nat>, done: set<nat>)
  {
    && Nodes(E) <= universe == remaining.Keys
    && Distinct(order + queue)
    && (forall n :: n in order + queue ==> n in universe)
    && (forall n :: n in universe ==> remaining[n] == |Pending(E, done, n)|)
    && (forall n :: n in universe ==> (remaining[n] == 0 <==> n in order + queue))
    && ContainersFirst(E, order)
    && done <= EdgesFrom(E, order)
  }

  ghost predicate DepthState(E: Edges, depths: map<AccountSetId, int>, done: set<nat>) {
    && DepthGrows(E, done, depths)
    && (forall n :: n in depths ==> depths[n] >= 0)
    && (forall n :: Attained(E, n, DepthOf(depths, n)))
  }

  lemma InitialState(E: Edges, indegree: map<AccountSetId, nat>, queue: seq<AccountSetId>)
    requires Nodes(E) <= indegree.Keys && Distinct(queue)
    requires forall n :: n in indegree ==> indegree[n] == |Pending(E, {}, n)|
    requires forall n :: n in queue <==> n in indegree && indegree[n] == 0
    ensures KahnState(E, indegree.Keys, [], queue, indegree, EdgesFrom(E, []))
    ensures DepthState(E, map[], EdgesFrom(E, []))
  {
    assert EdgesFrom(E, []) == {};
    assert [] + queue == queue;
    forall n ensures Attained(E, n, 0) { AttainedZero(E, n); }
  }

  lemma KahnPop(E: Edges, universe: set<AccountSetId>, order: seq<AccountSetId>, queue: seq<AccountSetId>,
                remaining: map<AccountSetId, nat>, done: set<nat>)
    requires KahnState(E, universe, order, queue, remaining, done)
    requires done == EdgesFrom(E, order) && queue != []
    ensures KahnState(E, universe, order + [queue[0]], queue[1..], remaining, done)
    ensures queue[0] !in order
    ensures |order| < |universe|
  {
    var id := queue[0];
    var all := order + queue;
    DistinctWithin(all, universe);
    assert all == order + [id] + queue[1..];
    assert all[|order|] == id;
    assert forall k :: 0 <= k < |order| ==> all[k] == order[k];
    assert id in all && remaining[id] == 0;
    forall i | 0 <= i < |E| && E[i].member == id ensures E[i].container in order {
      assert i !in Pending(E, done, id);
    }
    assert forall k :: 0 <= k <= |order| ==> (order + [id])[..k] == order[..k];
  }

  lemma KahnStep(E: Edges, universe: set<AccountSetId>, order: seq<AccountSetId>, queue: seq<AccountSetId>,
                 remaining: map<AccountSetId, nat>, done: set<nat>, i: nat)
    requires KahnState(E, universe, order, queue, remaining, done)
    requires i < |E| && i !in done && E[i].container in order
    ensures E[i].member in remaining && remaining[E[i].member] > 0
    ensures E[i].member !in order + queue
    ensures forall j :: 0 <= j < |E| && j in done ==> E[j].container != E[i].member
    ensures var child := E[i].member;
            var left := remaining[child] - 1;
            KahnState(E, universe, order, if left == 0 then queue + [child] else queue,
                      remaining[child := left], done + {i})
  {
    var child := E[i].member;
    assert child in Nodes(E);
    assert i in Pending(E, done, child);
    forall n { PendingProcess(E, done, i, n); }
    assert order + (queue + [child]) == (order + queue) + [child];
  }

  lemma DepthStep(E: Edges, depths: map<AccountSetId, int>, done: set<nat>, i: nat)
    requires DepthState(E, depths, done)
    requires i < |E| && E[i].member != E[i].container
    requires forall j :: 0 <= j < |E| && j in done ==> E[j].container != E[i].member
    ensures DepthState(E, Deepen(depths, E[i].member, DepthOf(depths, E[i].container) + 1), done + {i})
  {
    AttainedStep(E, i, DepthOf(depths, E[i].container));
    var depths' := Deepen(depths, E[i].member, DepthOf(depths, E[i].container) + 1);
    forall n ensures Attained(E, n, DepthOf(depths', n)) {
      assert Attained(E, n, DepthOf(depths, n));
      if n != E[i].member { assert DepthOf(depths', n) == DepthOf(depths, n); }
    }
  }

  /** One iteration over the members of `id`. */
  lemma MemberStep(E: Edges, U: set<AccountSetId>, order: seq<AccountSetId>, id: AccountSetId, queue: seq<AccountSetId>,
                   remaining: map<AccountSetId, nat>, depths: map<AccountSetId, int>, k: nat)
    requires id !in order && k < |Children(E, id)|
    requires KahnState(E, U, order + [id], queue, remaining, Processed(E, order, id, k))
    requires DepthState(E, depths, Processed(E, order, id, k))
    ensures var child := Children(E, id)[k];
            && child in remaining && remaining[child] > 0 && child != id
            && KahnState(E, U, order + [id], if remaining[child] - 1 == 0 then queue + [child] else queue,
                         remaining[child := remaining[child] - 1], Processed(E, order, id, k + 1))
            && DepthState(E, Deepen(depths, child, DepthOf(depths, id) + 1), Processed(E, order, id, k + 1))
  {
    hide KahnState, DepthState;
    var i := OutEdges(E, id)[k];
    ProcessedStep(E, order, id, k);
    KahnStep(E, U, order + [id], queue, remaining, Processed(E, order, id, k), i);
    DepthStep(E, depths, Processed(E, order, id, k), i);
  }

  /** When no set is ready any more, all sets were emitted or the rest lies on or below a cycle. */
  lemma KahnFinish(E: Edges, universe: set<AccountSetId>, order: seq<AccountSetId>,
                   remaining: map<AccountSetId, nat>, depths: map<AccountSetId, int>)
    requires KahnState(E, universe, order, [], remaining, EdgesFrom(E, order))
    requires DepthState(E, depths, EdgesFrom(E, order))
    ensures Distinct(order) && ContainersFirst(E, order)
    ensures forall n :: n in order ==> n in universe
    ensures |order| <= |universe|
    ensures |order| == |universe| <==> Acyclic(E)
    ensures Acyclic(E) ==> forall n :: n in universe <==> n in order
    ensures Acyclic(E) ==> forall n :: IsLongestTo(E, n, DepthOf(depths, n))
  {
    assert order + [] == order;
    DistinctWithin(order, universe);
    if |order| == |universe| {
      assert forall i :: 0 <= i < |E| ==> E[i].container in Nodes(E);
      forall n ensures IsLongestTo(E, n, DepthOf(depths, n)) && Acyclic(E) {
        DepthsAreLongest(E, depths, EdgesFrom(E, order), n);
      }
    } else {
      var n :| n in universe && n !in order;
      StuckMeansCyclic(E, order, universe, n);
    }
  }

  lemma NodesAppend(E: Edges, e: SetMembership)
    ensures Nodes(E + [e]) == Nodes(E) + {e.container, e.member}
  {
    var F := E + [e];
    forall n | n in Nodes(E) + {e.container, e.member} ensures n in Nodes(F) {
      if n == e.container || n == e.member {
        assert F[|E|] == e;
      } else {
        var i :| 0 <= i < |E| && (E[i].container == n || E[i].member == n);
        assert F[i] == E[i];
      }
    }
  }

  lemma ChildrenAppend(E: Edges, e: SetMembership, n: AccountSetId)
    ensures Children(E + [e], n) == Children(E, n) + if e.container == n then [e.member] else []
    ensures OutEdges(E + [e], n) == OutEdges(E, n) + if e.container == n then [|E|] else []
  {
    assert (E + [e])[..|E|] == E;
  }
}
