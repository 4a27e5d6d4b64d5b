/** The in-process snapshot of the set graph and the local validation it serves. */
module GraphCache {
  import opened Primitives
  import opened Distinctness
  import opened Graph
  import opened SetDags
  import opened Validation
  import opened Localization

  datatype SetMeta = SetMeta(journalId: JournalId, eventuallyConsistent: bool)

  /** One row of the graph read: a set and one of its direct containers, if it has any. */
  datatype SetGraphNode = SetGraphNode(id: AccountSetId, meta: SetMeta, parent: Option<AccountSetId>)

  /** `parents` points up, `children` points down, `meta` holds every known set. */
  datatype GraphSnapshot = GraphSnapshot(
    epoch: int,
    parents: map<AccountSetId, seq<AccountSetId>>,
    children: map<AccountSetId, seq<AccountSetId>>,
    meta: map<AccountSetId, SetMeta>)

  function Listed(lists: map<AccountSetId, seq<AccountSetId>>, n: AccountSetId): seq<AccountSetId> {
    if n in lists then lists[n] else []
  }

  /** The edges a graph read carries, in row order. */
  ghost function EdgesOf(nodes: seq<SetGraphNode>): Edges {
    if nodes == [] then []
    else
      var node := nodes[|nodes| - 1];
      EdgesOf(nodes[..|nodes| - 1]) +
      match node.parent
      case None => []
      case Some(parent) => [SetMembership(parent, node.id)]
  }

  /** The maps index exactly the edges of `E`. */
  ghost predicate Caches(parents: map<AccountSetId, seq<AccountSetId>>,
                         children: map<AccountSetId, seq<AccountSetId>>, E: Edges) {
    forall n, m :: (m in Listed(parents, n) <==> SetMembership(m, n) in E) && (m in Listed(children, n) <==> SetMembership(n, m) in E)
  }

  ghost function Reversed(E: Edges): Edges {
    seq(|E|, i requires 0 <= i < |E| => SetMembership(E[i].member, E[i].container))
  }

  /** The direct containers of `n`, one per edge. */
  ghost function Parents(E: Edges, n: AccountSetId): seq<AccountSetId> {
    Children(Reversed(E), n)
  }

  /** The lists hold one entry per edge, in the order of `E`. */
  ghost predicate Indexed(parents: map<AccountSetId, seq<AccountSetId>>,
                          children: map<AccountSetId, seq<AccountSetId>>, E: Edges) {
    forall n :: Listed(parents, n) == Parents(E, n) && Listed(children, n) == Children(E, n)
  }

  function Append(lists: map<AccountSetId, seq<AccountSetId>>, n: AccountSetId,
                  m: AccountSetId): map<AccountSetId, seq<AccountSetId>> {
    lists[n := Listed(lists, n) + [m]]
  }

  /** Index the rows of a graph read. */
  method IndexNodes(nodes: seq<SetGraphNode>)
    returns (parents: map<AccountSetId, seq<AccountSetId>>, children: map<AccountSetId, seq<AccountSetId>>, meta: map<AccountSetId, SetMeta>)
    ensures Indexed(parents, children, EdgesOf(nodes))
    ensures meta.Keys == set k | 0 <= k < |nodes| :: nodes[k].id
    ensures forall n :: n in meta ==> exists k :: 0 <= k < |nodes| && nodes[k].id == n && nodes[k].meta == meta[n]
  {
    hide Indexed;
    parents, children, meta := map[], map[], map[];
    IndexedNothing();
    for i := 0 to |nodes|
      invariant Indexed(parents, children, EdgesOf(nodes[..i]))
      invariant meta.Keys == set k | 0 <= k < i :: nodes[k].id
      invariant forall n :: n in meta ==> exists k :: 0 <= k < |nodes| && nodes[k].id == n && nodes[k].meta == meta[n]
    {
      var node := nodes[i];
      meta := meta[node.id := node.meta];
      EdgesOfStep(nodes, i);
      if node.parent.Some? {
        IndexedAppend(parents, children, EdgesOf(nodes[..i]), node.parent.value, node.id);
        parents := Append(parents, node.id, node.parent.value);
        children := Append(children, node.parent.value, node.id);
      }
    }
    assert nodes[..|nodes|] == nodes;
  }

  lemma EdgesOfStep(nodes: seq<SetGraphNode>, i: nat)
    requires i < |nodes|
    ensures EdgesOf(nodes[..i + 1]) == match nodes[i].parent
                                       case None => EdgesOf(nodes[..i])
                                       case Some(parent) => EdgesOf(nodes[..i]) + [SetMembership(parent, nodes[i].id)]
  {
    assert nodes[..i + 1][..i] == nodes[..i];
  }

  lemma IndexedNothing()
    ensures Indexed(map[], map[], [])
  {
  }

  lemma IndexedAppend(parents: map<AccountSetId, seq<AccountSetId>>, children: map<AccountSetId, seq<AccountSetId>>,
                      E: Edges, container: AccountSetId, member: AccountSetId)
    requires Indexed(parents, children, E)
    ensures Indexed(Append(parents, member, container), Append(children, container, member), E + [SetMembership(container, member)])
  {
    hide OutEdges, Children;
    var e := SetMembership(container, member);
    assert Reversed(E + [e]) == Reversed(E) + [SetMembership(member, container)];
    forall n
      ensures Listed(Append(parents, member, container), n) == Parents(E + [e], n)
      ensures Listed(Append(children, container, member), n) == Children(E + [e], n)
    {
      ChildrenAppend(E, e, n);
      ChildrenAppend(Reversed(E), SetMembership(member, container), n);
    }
  }

  /** An index of the edge list, however it was enumerated, serves the table it lists. */
  lemma IndexedCaches(parents: map<AccountSetId, seq<AccountSetId>>, children: map<AccountSetId, seq<AccountSetId>>,
                      E: Edges, table: Edges)
    requires Indexed(parents, children, E)
    requires forall e :: e in E <==> e in table
    ensures Caches(parents, children, table)
  {
    forall n, m ensures m in Listed(parents, n) <==> SetMembership(m, n) in table
                ensures m in Listed(children, n) <==> SetMembership(n, m) in table
    {
      ChildrenMember(E, n, m);
      ChildrenMember(Reversed(E), n, m);
      if SetMembership(m, n) in E {
        var i := IndexOf(E, SetMembership(m, n));
        assert Reversed(E)[i] == SetMembership(n, m);
      }
    }
  }

  lemma ChildrenMember(E: Edges, n: AccountSetId, m: AccountSetId)
    ensures m in Children(E, n) <==> SetMembership(n, m) in E
  {
    var out := OutEdges(E, n);
    if m in Children(E, n) {
      var k :| 0 <= k < |out| && E[out[k]].member == m;
      assert E[out[k]] == SetMembership(n, m);
    }
    if SetMembership(n, m) in E {
      var i := IndexOf(E, SetMembership(n, m));
      var k :| 0 <= k < |out| && out[k] == i;
      assert Children(E, n)[k] == m;
    }
  }

  // ---------------------------------------------------------------- connected edges

  function Endpoints(P: Edges): set<AccountSetId> {
    (set e | e in P :: e.container) + (set e | e in P :: e.member)
  }

  /** Every edge in both directions: what is reachable here is connected. */
  ghost function Undirected(E: Edges): Edges {
    E + seq(|E|, i requires 0 <= i < |E| => SetMembership(E[i].member, E[i].container))
  }

  /** `n` lies in the component of some endpoint of the batch. */
  ghost predicate ConnectedTo(E: Edges, P: Edges, n: AccountSetId) {
    exists a :: a in Endpoints(P) && Reach(Undirected(E), a, n)
  }

  lemma ConnectedStep(E: Edges, P: Edges, e: SetMembership)
    requires e in E
    ensures ConnectedTo(E, P, e.container) <==> ConnectedTo(E, P, e.member)
  {
    var i := IndexOf(E, e);
    var U := Undirected(E);
    assert U[i] == e && U[|E| + i] == SetMembership(e.member, e.container);
    if ConnectedTo(E, P, e.container) {
      var a :| a in Endpoints(P) && Reach(U, a, e.container);
      ReachStep(U, a, i);
    }
    if ConnectedTo(E, P, e.member) {
      var a :| a in Endpoints(P) && Reach(U, a, e.member);
      ReachStep(U, a, |E| + i);
    }
  }

  /** Explored nodes have all their edges collected and their neighbours noted. */
  ghost predicate ComponentState(E: Edges, P: Edges, visited: set<AccountSetId>, pending: seq<AccountSetId>,
                                 found: set<SetMembership>) {
    && (forall n :: n in visited || n in pending ==> ConnectedTo(E, P, n))
    && (forall n :: n in Endpoints(P) ==> n in visited || n in pending)
    && (forall e :: e in found <==> e in E && (e.container in visited || e.member in visited))
    && (forall e :: e in E && (e.container in visited || e.member in visited)
          ==> (e.container in visited || e.container in pending) && (e.member in visited || e.member in pending))
  }

  /** Select the committed edges connected to a batch, looking only at the cached index. */
  method EdgesConnectedTo(snapshot: GraphSnapshot, ghost E: Edges, members: Edges)
    returns (edges: Edges, ghost V: set<AccountSetId>)
    requires Caches(snapshot.parents, snapshot.children, E) && Distinct(E)
    ensures Distinct(edges)
    ensures forall e :: e in edges <==> e in E && ConnectedTo(E, members, e.container)
    ensures IsLocal(E, edges, members, V)
  {
    hide ConnectedTo, ComponentState;
    var pending: seq<AccountSetId> := [];
    for i := 0 to |members|
      invariant forall n :: n in pending <==> n in Endpoints(members[..i])
    {
      pending := pending + [members[i].container, members[i].member];
      assert members[..i + 1] == members[..i] + [members[i]];
    }
    assert members[..|members|] == members;
    var visited: set<AccountSetId> := {};
    var found: set<SetMembership> := {};
    ghost var U := Nodes(E) + Endpoints(members);
    ComponentStart(E, members, pending);
    while pending != []
      invariant ComponentState(E, members, visited, pending, found)
      invariant visited <= U && forall n :: n in pending ==> n in U
      decreases |U| - |visited|, |pending|
    {
      var id := pending[|pending| - 1];
      var rest := pending[..|pending| - 1];
      if id in visited {
        ComponentSkip(E, members, visited, pending, found);
        pending := rest;
      } else {
        var up, down := Listed(snapshot.parents, id), Listed(snapshot.children, id);
        ComponentVisit(E, members, snapshot, visited, pending, found);
        NeighboursAreNodes(E, snapshot, id);
        SubsetCardinality(visited + {id}, U);
        assert |visited + {id}| == |visited| + 1;
        visited := visited + {id};
        found := found + (set p | p in up :: SetMembership(p, id)) + (set m | m in down :: SetMembership(id, m));
        pending := rest + up + down;
      }
    }
    edges := SetToSeq(found);
    ComponentEnd(E, members, visited, found);
    ComponentIsLocal(E, edges, members, visited);
    V := visited;
  }

  /** An arbitrary enumeration of a set. */
  method SetToSeq<T(==)>(s: set<T>) returns (xs: seq<T>)
    ensures Distinct(xs) && forall x :: x in xs <==> x in s
  {
    xs := [];
    var left := s;
    while left != {}
      invariant left <= s && Distinct(xs)
      invariant forall x :: x in xs <==> x in s && x !in left
      decreases left
    {
      var x :| x in left;
      xs := xs + [x];
      left := left - {x};
    }
  }

  lemma ComponentStart(E: Edges, P: Edges, pending: seq<AccountSetId>)
    requires forall n :: n in pending <==> n in Endpoints(P)
    ensures ComponentState(E, P, {}, pending, {})
  {
    forall n | n in Endpoints(P) ensures ConnectedTo(E, P, n) {
      ReachSelf(Undirected(E), n);
    }
  }

  lemma ComponentSkip(E: Edges, P: Edges, visited: set<AccountSetId>, pending: seq<AccountSetId>,
                      found: set<SetMembership>)
    requires ComponentState(E, P, visited, pending, found)
    requires pending != [] && pending[|pending| - 1] in visited
    ensures ComponentState(E, P, visited, pending[..|pending| - 1], found)
  {
    hide ConnectedTo;
    assert pending == pending[..|pending| - 1] + [pending[|pending| - 1]];
  }

  lemma ComponentVisit(E: Edges, P: Edges, snapshot: GraphSnapshot,
                       visited: set<AccountSetId>, pending: seq<AccountSetId>, found: set<SetMembership>)
    requires Caches(snapshot.parents, snapshot.children, E)
    requires ComponentState(E, P, visited, pending, found)
    requires pending != []
    ensures var id := pending[|pending| - 1];
            var up, down := Listed(snapshot.parents, id), Listed(snapshot.children, id);
            ComponentState(E, P, visited + {id}, pending[..|pending| - 1] + up + down,
                           found + (set p | p in up :: SetMembership(p, id)) + (set m | m in down :: SetMembership(id, m)))
  {
    hide ConnectedTo;
    var id := pending[|pending| - 1];
    var up, down := Listed(snapshot.parents, id), Listed(snapshot.children, id);
    assert pending == pending[..|pending| - 1] + [id];
    forall n | n in up ensures ConnectedTo(E, P, n) { ConnectedStep(E, P, SetMembership(n, id)); }
    forall n | n in down ensures ConnectedTo(E, P, n) { ConnectedStep(E, P, SetMembership(id, n)); }
    FoundNext(E, snapshot, visited, found, id);
  }

  /** The edges touching the set just visited are found too. */
  lemma FoundNext(E: Edges, snapshot: GraphSnapshot, visited: set<AccountSetId>, found: set<SetMembership>,
                  id: AccountSetId)
    requires Caches(snapshot.parents, snapshot.children, E)
    requires forall e :: e in found <==> e in E && (e.container in visited || e.member in visited)
    ensures var up, down := Listed(snapshot.parents, id), Listed(snapshot.children, id);
            forall e :: e in found + (set p | p in up :: SetMembership(p, id)) + (set m | m in down :: SetMembership(id, m)) <==>
                        e in E && (e.container in visited + {id} || e.member in visited + {id})
  {
    var up, down := Listed(snapshot.parents, id), Listed(snapshot.children, id);
    var found' := found + (set p | p in up :: SetMembership(p, id)) + (set m | m in down :: SetMembership(id, m));
    forall e ensures e in found' <==> e in E && (e.container in visited + {id} || e.member in visited + {id}) {
      assert e == SetMembership(e.container, e.member);
    }
  }

  lemma NeighboursAreNodes(E: Edges, snapshot: GraphSnapshot, id: AccountSetId)
    requires Caches(snapshot.parents, snapshot.children, E)
    ensures forall n :: n in Listed(snapshot.parents, id) || n in Listed(snapshot.children, id) ==> n in Nodes(E)
  {
    forall n | n in Listed(snapshot.parents, id) ensures n in Nodes(E) {
      assert E[IndexOf(E, SetMembership(n, id))].container == n;
    }
    forall n | n in Listed(snapshot.children, id) ensures n in Nodes(E) {
      assert E[IndexOf(E, SetMembership(id, n))].member == n;
    }
  }

  lemma ComponentEnd(E: Edges, P: Edges, visited: set<AccountSetId>, found: set<SetMembership>)
    requires ComponentState(E, P, visited, [], found)
    ensures forall e :: e in E ==> (e.container in visited <==> e.member in visited)
    ensures forall n :: n in visited <==> ConnectedTo(E, P, n)
    ensures forall n :: n in Endpoints(P) ==> n in visited
    ensures forall e :: e in found <==> e in E && e.container in visited
  {
    var U := Undirected(E);
    forall i | 0 <= i < |U| && U[i].container in visited ensures U[i].member in visited {
      var e := if i < |E| then E[i] else E[i - |E|];
      assert e in E;
    }
    forall n | ConnectedTo(E, P, n) ensures n in visited {
      var a :| a in Endpoints(P) && Reach(U, a, n);
      ClosedUnderEdges(U, visited, a, n);
    }
  }

  lemma ComponentIsLocal(E: Edges, C: Edges, P: Edges, V: set<AccountSetId>)
    requires Distinct(E) && Distinct(C)
    requires forall e :: e in C <==> e in E && e.container in V
    requires forall e :: e in E ==> (e.container in V <==> e.member in V)
    requires forall n :: n in Endpoints(P) ==> n in V
    ensures IsLocal(E, C, P, V)
  {
    forall e | e in P ensures e.container in V && e.member in V {
      assert e.container in Endpoints(P) && e.member in Endpoints(P);
    }
  }

  // ---------------------------------------------------------------- affected accounts

  /** The sets at or below a member of the batch, in the graph with the batch applied. */
  method AffectedSets(existing: Edges, members: Edges) returns (affected: set<AccountSetId>)
    ensures IsAffected(existing, members, affected)
    ensures forall n :: n in affected <==> BelowBatch(existing + members, members, n)
  {
    hide BelowBatch, Indexes, AffectedState, IsAffected, OutEdges, Children, Nodes;
    var L := existing + members;
    var dag := new SetDag(L);
    var pending: seq<AccountSetId> := seq(|members|, k requires 0 <= k < |members| => members[k].member);
    affected := {};
    ghost var U := Nodes(L);
    AffectedStart(existing, members, pending);
    while pending != []
      invariant dag.Valid() && dag.edges == L
      invariant AffectedState(L, members, affected, pending)
      invariant affected <= U && forall n :: n in pending ==> n in U
      decreases |U| - |affected|, |pending|
    {
      var id := pending[|pending| - 1];
      var rest := pending[..|pending| - 1];
      assert pending == rest + [id];
      if id in affected {
        AffectedSkip(L, members, affected, pending);
        pending := rest;
      } else {
        var children := dag.ChildrenOf(id);
        AffectedVisit(L, members, affected, pending);
        SubsetCardinality(affected + {id}, U);
        assert |affected + {id}| == |affected| + 1;
        affected := affected + {id};
        pending := rest + children;
      }
    }
    AffectedEnd(existing, members, affected);
  }

  ghost predicate BelowBatch(L: Edges, P: Edges, n: AccountSetId) {
    exists e :: e in P && Reach(L, e.member, n)
  }

  ghost predicate AffectedState(L: Edges, P: Edges, affected: set<AccountSetId>, pending: seq<AccountSetId>) {
    && (forall n :: n in affected || n in pending ==> BelowBatch(L, P, n))
    && (forall e :: e in P ==> e.member in affected || e.member in pending)
    && (forall i :: 0 <= i < |L| && L[i].container in affected ==> L[i].member in affected || L[i].member in pending)
  }

  lemma AffectedStart(existing: Edges, P: Edges, pending: seq<AccountSetId>)
    requires pending == seq(|P|, k requires 0 <= k < |P| => P[k].member)
    ensures AffectedState(existing + P, P, {}, pending)
    ensures forall n :: n in pending ==> n in Nodes(existing + P)
  {
    var L := existing + P;
    forall n | n in pending ensures BelowBatch(L, P, n) && n in Nodes(L) {
      var k :| 0 <= k < |P| && P[k].member == n;
      ReachSelf(L, n);
      assert P[k] in P;
      assert L[|existing| + k] == P[k];
    }
    forall e | e in P ensures e.member in pending {
      var k :| 0 <= k < |P| && P[k] == e;
      assert pending[k] == e.member;
    }
  }

  lemma AffectedSkip(L: Edges, P: Edges, affected: set<AccountSetId>, pending: seq<AccountSetId>)
    requires AffectedState(L, P, affected, pending)
    requires pending != [] && pending[|pending| - 1] in affected
    ensures AffectedState(L, P, affected, pending[..|pending| - 1])
  {
    hide BelowBatch;
    assert pending == pending[..|pending| - 1] + [pending[|pending| - 1]];
  }

  lemma AffectedVisit(L: Edges, P: Edges, affected: set<AccountSetId>, pending: seq<AccountSetId>)
    requires AffectedState(L, P, affected, pending)
    requires pending != []
    ensures var id := pending[|pending| - 1];
            AffectedState(L, P, affected + {id}, pending[..|pending| - 1] + Children(L, id))
    ensures forall n :: n in Children(L, pending[|pending| - 1]) ==> n in Nodes(L)
  {
    hide Reach;
    var id := pending[|pending| - 1];
    assert pending == pending[..|pending| - 1] + [id];
    var out := OutEdges(L, id);
    forall n | n in Children(L, id) ensures BelowBatch(L, P, n) && n in Nodes(L) {
      var k :| 0 <= k < |out| && L[out[k]].member == n;
      assert BelowBatch(L, P, id);
      var e :| e in P && Reach(L, e.member, id);
      ReachStep(L, e.member, out[k]);
    }
    forall i | 0 <= i < |L| && L[i].container == id ensures L[i].member in Children(L, id) {
      var k :| 0 <= k < |out| && out[k] == i;
      assert Children(L, id)[k] == L[i].member;
    }
  }

  lemma AffectedEnd(existing: Edges, P: Edges, affected: set<AccountSetId>)
    requires AffectedState(existing + P, P, affected, [])
    ensures IsAffected(existing, P, affected)
    ensures forall n :: n in affected <==> BelowBatch(existing + P, P, n)
  {
    var L := existing + P;
    forall e | e in L && e.container in affected ensures e.member in affected {
      assert L[IndexOf(L, e)] == e;
    }
    forall n ensures n in affected <==> BelowBatch(L, P, n) {
      if BelowBatch(L, P, n) {
        var e :| e in P && Reach(L, e.member, n);
        ClosedUnderEdges(L, affected, e.member, n);
      }
    }
  }

  /** All direct memberships of the accounts that have one in an affected set: at or below a proposed member. */
  method FetchAffectedAccountMemberships(table: seq<AccountMembership>, existing: Edges, members: Edges)
    returns (rows: seq<AccountMembership>, ghost D: set<AccountSetId>)
    requires Distinct(table)
    ensures IsAffected(existing, members, D) && IsAffectedList(table, D, rows)
    ensures forall n :: n in D <==> BelowBatch(existing + members, members, n)
    ensures Distinct(rows)
    ensures forall m :: m in rows <==>
              m in table && exists n :: n in table && n.account == m.account && BelowBatch(existing + members, members, n.container)
  {
    hide IsAffected, BelowBatch;
    var affected := AffectedSets(existing, members);
    var candidates := set m | m in table && m.container in affected :: m.account;
    rows := [];
    for k := 0 to |table|
      invariant Distinct(rows)
      invariant forall m :: m in rows <==> m in table[..k] && m.account in candidates
    {
      var m := table[k];
      assert table[..k + 1] == table[..k] + [m];
      assert m !in table[..k] by { DistinctAt(table, k); }
      if m.account in candidates {
        rows := rows + [m];
      }
    }
    assert table[..|table|] == table;
    D := affected;
    forall account ensures account in candidates <==> HasMembershipIn(table, D, account) {
    }
  }

  // ---------------------------------------------------------------- the check

  /** Validate a batch against the graph. A snapshot of the current epoch answers from memory;
      otherwise all committed edges are read. Either way only the memberships of affected accounts
      are loaded, and the outcome is the one of validating everything. */
  method AssertValidSetMemberships(snapshot: GraphSnapshot, epoch: int, committed: Edges,
                                   table: seq<AccountMembership>, members: Edges)
    returns (r: Outcome)
    requires Distinct(committed) && Distinct(table) && ValidGraph(committed, table)
    requires snapshot.epoch == epoch ==> Caches(snapshot.parents, snapshot.children, committed)
    ensures Verdict(committed, members, table, r)
  {
    hide ValidGraph, Verdict, IsLocal, IsAffected, IsAffectedList, Caches, DepthAtMost;
    var existing := committed;
    ghost var V := Nodes(committed) + Endpoints(members);
    if snapshot.epoch == epoch {
      existing, V := EdgesConnectedTo(snapshot, committed, members);
    } else {
      EverythingIsLocal(committed, members);
    }
    var rows, D := FetchAffectedAccountMemberships(table, existing, members);
    LocalIsShallow(committed, existing, members, V, table);
    r := ValidateSetMemberships(existing, members, rows);
    LocalVerdict(committed, existing, members, V, D, table, rows, r);
  }

  lemma EverythingIsLocal(E: Edges, P: Edges)
    requires Distinct(E)
    ensures IsLocal(E, E, P, Nodes(E) + Endpoints(P))
  {
    forall e | e in E ensures e.container in Nodes(E) && e.member in Nodes(E) {
      assert E[IndexOf(E, e)] == e;
    }
    ComponentIsLocal(E, E, P, Nodes(E) + Endpoints(P));
  }

  lemma LocalIsShallow(E: Edges, C: Edges, P: Edges, V: set<AccountSetId>, M: seq<AccountMembership>)
    requires ValidGraph(E, M) && IsLocal(E, C, P, V)
    ensures DepthAtMost(C, MAX_MEMBERSHIP_DEPTH)
  {
    assert IsLocal(E, C, [], V);
    assert E + [] == E && C + [] == C;
    LocalDepth(E, C, [], V, MAX_MEMBERSHIP_DEPTH);
  }
}
