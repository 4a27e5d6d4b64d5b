/** The combined-graph validation of a batch of set memberships. */
module Validation {
  import opened Primitives
  import opened Distinctness
  import opened Graph
  import opened SetDags

  /** Maximum number of set-to-set edges in any membership chain. */
  const MAX_MEMBERSHIP_DEPTH: int := 16

  datatype MembershipError =
    | MembershipCycleDetected(container: AccountSetId, member: AccountSetId)
    | MemberAlreadyAdded
    | MembershipDepthExceeded(container: AccountSetId, member: AccountSetId, depth: int, max: int)

  datatype Outcome = Accepted | Rejected(error: MembershipError)

  // ---------------------------------------------------------------- what a valid graph is

  /** The invariant of the committed graph. */
  ghost predicate ValidGraph(E: Edges, M: seq<AccountMembership>) {
    UniquePaths(E) && AccountUnique(E, M) && DepthAtMost(E, MAX_MEMBERSHIP_DEPTH)
  }

  /** `e` closes a cycle. */
  ghost predicate OnCycle(E: Edges, e: SetMembership) {
    Reach(E, e.member, e.container)
  }

  /** The first proposed edge on a cycle; the first existing edge when the cycle was there before. */
  ghost predicate CycleBlame(existing: Edges, proposed: Edges, e: SetMembership) {
    var E := existing + proposed;
    || (exists k :: 0 <= k < |proposed| && e == proposed[k] && OnCycle(E, e)
                    && forall l :: 0 <= l < k ==> !OnCycle(E, proposed[l]))
    || (existing != [] && e == existing[0] && forall l :: 0 <= l < |proposed| ==> !OnCycle(E, proposed[l]))
  }

  /** The first proposed edge whose prefix is too deep, and how deep that prefix is. */
  ghost predicate OverflowAt(existing: Edges, proposed: Edges, k: int, depth: int) {
    && 0 <= k < |proposed|
    && IsMaxDepth(existing + proposed[..k + 1], depth) && depth > MAX_MEMBERSHIP_DEPTH
    && forall l :: 0 < l <= k ==> DepthAtMost(existing + proposed[..l], MAX_MEMBERSHIP_DEPTH)
  }

  ghost predicate DepthBlame(existing: Edges, proposed: Edges, e: SetMembership, depth: int) {
    exists k :: OverflowAt(existing, proposed, k, depth) && e == proposed[k]
  }

  /** The outcome the validation must give, error payload included. */
  ghost predicate Verdict(existing: Edges, proposed: Edges, members: seq<AccountMembership>, r: Outcome) {
    var E := existing + proposed;
    match r
    case Accepted =>
      Acyclic(E) && ValidGraph(E, members)
    case Rejected(MembershipCycleDetected(container, member)) =>
      !Acyclic(E) && CycleBlame(existing, proposed, SetMembership(container, member))
    case Rejected(MemberAlreadyAdded) =>
      Acyclic(E) && !(UniquePaths(E) && AccountUnique(E, members))
    case Rejected(MembershipDepthExceeded(container, member, depth, max)) =>
      && Acyclic(E) && UniquePaths(E) && AccountUnique(E, members)
      && max == MAX_MEMBERSHIP_DEPTH
      && DepthBlame(existing, proposed, SetMembership(container, member), depth)
  }

  /** No input has two verdicts. */
  lemma VerdictUnique(existing: Edges, proposed: Edges, members: seq<AccountMembership>, r: Outcome, s: Outcome)
    requires Verdict(existing, proposed, members, r) && Verdict(existing, proposed, members, s)
    ensures r == s
  {
    var E := existing + proposed;
    if r.Rejected? && r.error.MembershipDepthExceeded? {
      var k :| OverflowAt(existing, proposed, k, r.error.depth) && SetMembership(r.error.container, r.error.member) == proposed[k];
      OverflowTooDeep(existing, proposed, k, r.error.depth);
      if s.Rejected? && s.error.MembershipDepthExceeded? {
        var l :| OverflowAt(existing, proposed, l, s.error.depth) && SetMembership(s.error.container, s.error.member) == proposed[l];
        OverflowUnique(existing, proposed, k, r.error.depth, l, s.error.depth);
      }
    } else if s.Rejected? && s.error.MembershipDepthExceeded? {
      var l :| OverflowAt(existing, proposed, l, s.error.depth) && SetMembership(s.error.container, s.error.member) == proposed[l];
      OverflowTooDeep(existing, proposed, l, s.error.depth);
    }
  }

  lemma MaxDepthUnique(E: Edges, d: int, e: int)
    requires IsMaxDepth(E, d) && IsMaxDepth(E, e)
    ensures d == e
  {
    var p: Path, a, b :| IsPath(E, p, a, b) && |p| == d;
    var q: Path, a', b' :| IsPath(E, q, a', b') && |q| == e;
  }

  lemma MaxDepthExceeds(E: Edges, d: int)
    requires IsMaxDepth(E, d) && d > MAX_MEMBERSHIP_DEPTH
    ensures !DepthAtMost(E, MAX_MEMBERSHIP_DEPTH)
  {
    var p: Path, a, b :| IsPath(E, p, a, b) && |p| == d;
  }

  lemma OverflowUnique(existing: Edges, proposed: Edges, k: int, d: int, l: int, e: int)
    requires OverflowAt(existing, proposed, k, d) && OverflowAt(existing, proposed, l, e)
    ensures k == l && d == e
  {
    MaxDepthExceeds(existing + proposed[..k + 1], d);
    MaxDepthExceeds(existing + proposed[..l + 1], e);
    MaxDepthUnique(existing + proposed[..k + 1], d, if k == l then e else d);
  }

  /** A too deep prefix makes the whole batch too deep. */
  lemma OverflowTooDeep(existing: Edges, proposed: Edges, k: int, d: int)
    requires OverflowAt(existing, proposed, k, d)
    ensures !DepthAtMost(existing + proposed, MAX_MEMBERSHIP_DEPTH)
  {
    MaxDepthExceeds(existing + proposed[..k + 1], d);
    assert proposed[..|proposed|] == proposed;
    if DepthAtMost(existing + proposed, MAX_MEMBERSHIP_DEPTH) {
      DepthMonotone(existing, proposed, k + 1, |proposed|, MAX_MEMBERSHIP_DEPTH);
    }
  }

  /** Adding edges never makes the graph shallower. */
  lemma DepthMonotone(existing: Edges, proposed: Edges, k: int, l: int, d: int)
    requires 0 <= k <= l <= |proposed|
    requires DepthAtMost(existing + proposed[..l], d)
    ensures DepthAtMost(existing + proposed[..k], d)
  {
    var E, F := existing + proposed[..k], existing + proposed[..l];
    assert E <= F;
    PrefixEmbeds(E, F);
    SubgraphKeeps(E, F, seq(|E|, i requires 0 <= i < |E| => i));
  }

  lemma PrefixAcyclic(existing: Edges, proposed: Edges, k: int)
    requires 0 <= k <= |proposed|
    requires Acyclic(existing + proposed)
    ensures Acyclic(existing + proposed[..k])
  {
    var E, F := existing + proposed[..k], existing + proposed;
    assert E <= F;
    PrefixEmbeds(E, F);
    SubgraphKeeps(E, F, seq(|E|, i requires 0 <= i < |E| => i));
  }

  // ---------------------------------------------------------------- depth overflow

  /** The depth of the existing graph together with the first `take` proposed edges. */
  method PrefixDepth(existing: Edges, proposed: Edges, take: nat) returns (d: int)
    requires take <= |proposed| && Acyclic(existing + proposed)
    ensures IsMaxDepth(existing + proposed[..take], d)
  {
    PrefixAcyclic(existing, proposed, take);
    var dag := new SetDag(existing + proposed[..take]);
    var t := dag.Traverse();
    d := MaxDepth(t, existing + proposed[..take]);
  }

  /** Binary search for the first proposed edge that makes the combined graph too deep. */
  method FirstDepthOverflow(existing: Edges, proposed: Edges) returns (index: nat, depth: int)
    requires proposed != [] && Acyclic(existing + proposed)
    requires !DepthAtMost(existing + proposed, MAX_MEMBERSHIP_DEPTH)
    ensures OverflowAt(existing, proposed, index, depth)
  {
    hide Acyclic, DepthAtMost, IsMaxDepth;
    var low, high := 1, |proposed|;
    assert proposed[..high] == proposed;
    while low < high
      invariant 1 <= low <= high <= |proposed|
      invariant !DepthAtMost(existing + proposed[..high], MAX_MEMBERSHIP_DEPTH)
      invariant forall l :: 0 < l < low ==> DepthAtMost(existing + proposed[..l], MAX_MEMBERSHIP_DEPTH)
    {
      var middle := (low + high) / 2;
      var d := PrefixDepth(existing, proposed, middle);
      DepthTest(existing + proposed[..middle], d);
      if d > MAX_MEMBERSHIP_DEPTH {
        high := middle;
      } else {
        forall l | 0 < l <= middle ensures DepthAtMost(existing + proposed[..l], MAX_MEMBERSHIP_DEPTH) {
          DepthMonotone(existing, proposed, l, middle, MAX_MEMBERSHIP_DEPTH);
        }
        low := middle + 1;
      }
    }
    depth := PrefixDepth(existing, proposed, low);
    DepthTest(existing + proposed[..low], depth);
    index := low - 1;
  }

  /** Comparing the measured depth with the bound decides the bound. */
  lemma DepthTest(E: Edges, d: int)
    requires IsMaxDepth(E, d)
    ensures d > MAX_MEMBERSHIP_DEPTH <==> !DepthAtMost(E, MAX_MEMBERSHIP_DEPTH)
  {
    if d > MAX_MEMBERSHIP_DEPTH { MaxDepthExceeds(E, d); }
  }

  // ---------------------------------------------------------------- path uniqueness by ancestor sets

  /** `a` is an ancestor of `n` through an edge in `done`. */
  ghost predicate AncestorVia(E: Edges, done: set<nat>, a: AccountSetId, n: AccountSetId) {
    exists i :: 0 <= i < |E| && i in done && E[i].member == n && Reach(E, a, E[i].container)
  }

  /** No two edges in `done` into one node share an ancestor. */
  ghost predicate NoDiamondIn(E: Edges, done: set<nat>) {
    forall i, j, a | 0 <= i < |E| && 0 <= j < |E| && i in done && j in done && i != j && E[i].member == E[j].member
      :: Reach(E, a, E[i].container) ==> !Reach(E, a, E[j].container)
  }

  function AncestorsOf(ancestors: map<AccountSetId, set<AccountSetId>>, n: AccountSetId): set<AccountSetId> {
    if n in ancestors then ancestors[n] else {}
  }

  function Inherit(ancestors: map<AccountSetId, set<AccountSetId>>, n: AccountSetId, contribution: set<AccountSetId>)
    : map<AccountSetId, set<AccountSetId>>
  {
    ancestors[n := AncestorsOf(ancestors, n) + contribution]
  }

  /** `ancestors` holds exactly the ancestors through the edges processed so far. */
  ghost predicate AncestorState(E: Edges, done: set<nat>, ancestors: map<AccountSetId, set<AccountSetId>>) {
    && NoDiamondIn(E, done)
    && forall n, a :: a in AncestorsOf(ancestors, n) <==> AncestorVia(E, done, a, n)
  }

  /** All edges into an emitted set are processed, so its contribution is complete. */
  lemma ContributionComplete(E: Edges, order: seq<AccountSetId>, k: nat,
                             ancestors: map<AccountSetId, set<AccountSetId>>, a: AccountSetId)
    requires ContainersFirst(E, order) && k < |order|
    requires AncestorState(E, EdgesFrom(E, order[..k]), ancestors)
    ensures a in AncestorsOf(ancestors, order[k]) + {order[k]} <==> Reach(E, a, order[k])
  {
    var n := order[k];
    if AncestorVia(E, EdgesFrom(E, order[..k]), a, n) {
      var i :| 0 <= i < |E| && i in EdgesFrom(E, order[..k]) && E[i].member == n && Reach(E, a, E[i].container);
      ReachStep(E, a, i);
    }
    ReachSelf(E, n);
    if Reach(E, a, n) && a != n {
      var p: Path :| IsPath(E, p, a, n);
      PathLast(E, p, a, n);
      var i := p[|p| - 1];
      assert Reach(E, a, E[i].container);
      assert i in EdgesFrom(E, order[..k]);
    }
  }

  lemma AncestorStep(E: Edges, done: set<nat>, ancestors: map<AccountSetId, set<AccountSetId>>, i: nat,
                     contribution: set<AccountSetId>)
    requires i < |E| && i !in done
    requires AncestorState(E, done, ancestors)
    requires forall a :: a in contribution <==> Reach(E, a, E[i].container)
    ensures AncestorsOf(ancestors, E[i].member) * contribution != {} ==> !NoDiamond(E)
    ensures var child := E[i].member;
            AncestorsOf(ancestors, child) * contribution == {} ==>
            AncestorState(E, done + {i}, Inherit(ancestors, child, contribution))
  {
    hide Reach;
    var child := E[i].member;
    if AncestorsOf(ancestors, child) * contribution != {} {
      var a :| a in AncestorsOf(ancestors, child) * contribution;
      assert AncestorVia(E, done, a, child);
    } else {
      var ancestors' := Inherit(ancestors, child, contribution);
      forall n, a ensures a in AncestorsOf(ancestors', n) <==> AncestorVia(E, done + {i}, a, n) {
        AncestorViaAdd(E, done, i, a, n);
      }
      forall j, a | 0 <= j < |E| && j in done && E[j].member == child && Reach(E, a, E[j].container)
        ensures !Reach(E, a, E[i].container)
      {
        assert AncestorVia(E, done, a, child);
        assert a in AncestorsOf(ancestors, child) && a !in AncestorsOf(ancestors, child) * contribution;
      }
    }
  }

  lemma AncestorViaAdd(E: Edges, done: set<nat>, i: nat, a: AccountSetId, n: AccountSetId)
    requires i < |E|
    ensures AncestorVia(E, done + {i}, a, n) <==>
            AncestorVia(E, done, a, n) || (E[i].member == n && Reach(E, a, E[i].container))
  {
    hide Reach;
  }

  /** Fold the contribution of `order[k]` into each of its members. */
  method PassAncestors(dag: SetDag, order: seq<AccountSetId>, k: nat, ancestors: map<AccountSetId, set<AccountSetId>>)
    returns (ok: bool, ancestors': map<AccountSetId, set<AccountSetId>>)
    requires dag.Valid() && k < |order| && Distinct(order) && ContainersFirst(dag.edges, order)
    requires AncestorState(dag.edges, EdgesFrom(dag.edges, order[..k]), ancestors)
    ensures ok ==> AncestorState(dag.edges, EdgesFrom(dag.edges, order[..k + 1]), ancestors')
    ensures !ok ==> !NoDiamond(dag.edges)
  {
    hide AncestorState, Reach, NoDiamond, Indexes, Distinct, ContainersFirst, Processed, EdgesFrom, Inherit,
         AncestorsOf, OutEdges;
    ghost var E := dag.edges;
    var id := order[k];
    DistinctAt(order, k);
    ancestors' := ancestors;
    var contribution := AncestorsOf(ancestors, id) + {id};
    forall a ensures a in contribution <==> Reach(E, a, id) {
      ContributionComplete(E, order, k, ancestors, a);
    }
    ProcessedBounds(E, order[..k], id);
    var children := dag.ChildrenOf(id);
    for j := 0 to |children|
      invariant AncestorState(E, Processed(E, order[..k], id, j), ancestors')
    {
      var child := children[j];
      ProcessedStep(E, order[..k], id, j);
      AncestorStep(E, Processed(E, order[..k], id, j), ancestors', OutEdges(E, id)[j], contribution);
      if AncestorsOf(ancestors', child) * contribution != {} {
        return false, ancestors';
      }
      ancestors' := Inherit(ancestors', child, contribution);
    }
    assert order[..k + 1] == order[..k] + [id];
    ok := true;
  }

  /** Walk the sets in topological order. An overlap means a set has two paths to one ancestor. */
  method CollectAncestors(dag: SetDag, order: seq<AccountSetId>)
    returns (ok: bool, ancestors: map<AccountSetId, set<AccountSetId>>)
    requires dag.Valid() && Acyclic(dag.edges)
    requires Distinct(order) && ContainersFirst(dag.edges, order)
    requires forall n :: n in Nodes(dag.edges) ==> n in order
    ensures ok <==> UniquePaths(dag.edges)
    ensures ok ==> forall n, a :: a in AncestorsOf(ancestors, n) + {n} <==> Reach(dag.edges, a, n)
    ensures ok ==> forall n :: n !in AncestorsOf(ancestors, n)
  {
    hide AncestorState, Reach, NoDiamond, UniquePaths, Acyclic;
    ghost var E := dag.edges;
    UniquePathsIffNoDiamond(E);
    ancestors := map[];
    NothingCollected(E);
    for k := 0 to |order|
      invariant AncestorState(E, EdgesFrom(E, order[..k]), ancestors)
    {
      ok, ancestors := PassAncestors(dag, order, k, ancestors);
      if !ok {
        return;
      }
    }
    assert order[..|order|] == order;
    AllCollected(E, order, ancestors);
    ok := true;
  }

  lemma NothingCollected(E: Edges)
    ensures AncestorState(E, EdgesFrom(E, [][..0]), map[])
  {
    assert EdgesFrom(E, [][..0]) == {};
  }

  lemma AllCollected(E: Edges, order: seq<AccountSetId>, ancestors: map<AccountSetId, set<AccountSetId>>)
    requires Acyclic(E)
    requires forall n :: n in Nodes(E) ==> n in order
    requires AncestorState(E, EdgesFrom(E, order), ancestors)
    ensures NoDiamond(E)
    ensures forall n, a :: a in AncestorsOf(ancestors, n) + {n} <==> Reach(E, a, n)
    ensures forall n :: n !in AncestorsOf(ancestors, n)
  {
    assert forall i :: 0 <= i < |E| ==> E[i].container in Nodes(E);
    assert forall i :: 0 <= i < |E| ==> i in EdgesFrom(E, order);
    forall n, a ensures a in AncestorsOf(ancestors, n) ==> Reach(E, a, n) && a != n
                ensures Reach(E, a, n) && a != n ==> a in AncestorsOf(ancestors, n)
    {
      if AncestorVia(E, EdgesFrom(E, order), a, n) {
        var i :| 0 <= i < |E| && i in EdgesFrom(E, order) && E[i].member == n && Reach(E, a, E[i].container);
        ReachStep(E, a, i);
        if a == n { ClosingEdgeMakesCycle(E, i); }
      }
      if Reach(E, a, n) && a != n {
        var p: Path :| IsPath(E, p, a, n);
        PathLast(E, p, a, n);
        assert Reach(E, a, E[p[|p| - 1]].container);
        assert AncestorVia(E, EdgesFrom(E, order), a, n);
      }
    }
    forall n ensures Reach(E, n, n) { ReachSelf(E, n); }
  }

  // ---------------------------------------------------------------- account paths

  /** Everything the first `k` memberships contain, directly or inherited. */
  ghost predicate ContainedBy(E: Edges, M: seq<AccountMembership>, k: nat, c: AccountMembership)
    requires k <= |M|
  {
    exists m :: 0 <= m < k && M[m].account == c.account && Reach(E, c.container, M[m].container)
  }

  ghost predicate NoSharedAncestorIn(E: Edges, M: seq<AccountMembership>, k: nat)
    requires k <= |M|
  {
    forall i, j, s | 0 <= i < j < k && M[i].account == M[j].account
      :: Reach(E, s, M[i].container) ==> !Reach(E, s, M[j].container)
  }

  /** Insert a membership and everything it inherits; a repeated insert is a duplicate containment path. */
  method AddContainments(m: AccountMembership, containers: set<AccountSetId>, paths: set<AccountMembership>)
    returns (ok: bool, paths': set<AccountMembership>)
    requires m.container !in containers
    ensures ok <==> forall s :: s in containers + {m.container} ==> AccountMembership(s, m.account) !in paths
    ensures ok ==> paths' == paths + set s | s in containers + {m.container} :: AccountMembership(s, m.account)
  {
    paths' := paths;
    if m in paths' {
      assert AccountMembership(m.container, m.account) in paths;
      return false, paths';
    }
    paths' := paths' + {m};
    var scan := containers;
    while scan != {}
      invariant scan <= containers
      invariant forall s :: s in containers + {m.container} && s !in scan ==> AccountMembership(s, m.account) !in paths
      invariant paths' == paths + set s | s in containers + {m.container} && s !in scan :: AccountMembership(s, m.account)
      decreases scan
    {
      var c :| c in scan;
      var inherited := AccountMembership(c, m.account);
      if inherited in paths' {
        return false, paths';
      }
      paths' := paths' + {inherited};
      scan := scan - {c};
    }
    ok := true;
  }

  method CheckAccountPaths(ghost E: Edges, members: seq<AccountMembership>,
                           ancestors: map<AccountSetId, set<AccountSetId>>)
    returns (ok: bool)
    requires forall n, a :: a in AncestorsOf(ancestors, n) + {n} <==> Reach(E, a, n)
    requires forall n :: n !in AncestorsOf(ancestors, n)
    ensures ok <==> NoSharedAncestor(E, members)
  {
    hide Reach;
    var paths: set<AccountMembership> := {};
    for k := 0 to |members|
      invariant NoSharedAncestorIn(E, members, k)
      invariant forall c :: c in paths <==> ContainedBy(E, members, k, c)
    {
      var m := members[k];
      ghost var before := paths;
      ok, paths := AddContainments(m, AncestorsOf(ancestors, m.container), paths);
      if !ok {
        SharedFound(E, members, k, ancestors, before);
        return;
      }
      ContainmentStep(E, members, k, ancestors, before, paths);
    }
    ok := true;
  }

  lemma SharedFound(E: Edges, members: seq<AccountMembership>, k: nat,
                    ancestors: map<AccountSetId, set<AccountSetId>>, paths: set<AccountMembership>)
    requires k < |members|
    requires forall n, a :: a in AncestorsOf(ancestors, n) + {n} <==> Reach(E, a, n)
    requires forall c :: c in paths <==> ContainedBy(E, members, k, c)
    requires exists s :: s in AncestorsOf(ancestors, members[k].container) + {members[k].container}
                         && AccountMembership(s, members[k].account) in paths
    ensures !NoSharedAncestor(E, members)
  {
    hide Reach;
    var m := members[k];
    var s :| s in AncestorsOf(ancestors, m.container) + {m.container} && AccountMembership(s, m.account) in paths;
    assert ContainedBy(E, members, k, AccountMembership(s, m.account));
    assert Reach(E, s, m.container);
  }

  lemma ContainmentStep(E: Edges, members: seq<AccountMembership>, k: nat,
                        ancestors: map<AccountSetId, set<AccountSetId>>,
                        paths: set<AccountMembership>, paths': set<AccountMembership>)
    requires k < |members|
    requires forall n, a :: a in AncestorsOf(ancestors, n) + {n} <==> Reach(E, a, n)
    requires forall c :: c in paths <==> ContainedBy(E, members, k, c)
    requires NoSharedAncestorIn(E, members, k)
    requires forall s :: s in AncestorsOf(ancestors, members[k].container) + {members[k].container}
                         ==> AccountMembership(s, members[k].account) !in paths
    requires paths' == paths + set s | s in AncestorsOf(ancestors, members[k].container) + {members[k].container}
                                     :: AccountMembership(s, members[k].account)
    ensures NoSharedAncestorIn(E, members, k + 1)
    ensures forall c :: c in paths' <==> ContainedBy(E, members, k + 1, c)
  {
    hide Reach;
    var m := members[k];
    forall c ensures c in paths' <==> ContainedBy(E, members, k + 1, c) {
      if c.account == m.account && Reach(E, c.container, m.container) {
        assert c == AccountMembership(c.container, m.account);
      }
    }
    forall i, s | 0 <= i < k && members[i].account == m.account && Reach(E, s, members[i].container)
      ensures !Reach(E, s, m.container)
    {
      assert ContainedBy(E, members, k, AccountMembership(s, m.account));
    }
  }

  // ---------------------------------------------------------------- the validation

  /** Attribute a cycle to the first proposed edge that lies on one. */
  method BlameCycle(dag: SetDag, existing: Edges, proposed: Edges) returns (edge: SetMembership)
    requires dag.Valid() && dag.edges == existing + proposed
    requires !Acyclic(existing + proposed)
    ensures CycleBlame(existing, proposed, edge)
  {
    hide Acyclic, Reach;
    ghost var E := existing + proposed;
    for k := 0 to |proposed|
      invariant forall l :: 0 <= l < k ==> !OnCycle(E, proposed[l])
    {
      edge := proposed[k];
      if edge.container == edge.member {
        ReachSelf(E, edge.container);
        return;
      }
      var closes := dag.HasPath(edge.member, edge.container);
      if closes {
        return;
      }
    }
    CyclicHasEdge(E);
    edge := existing[0];
  }

  lemma CyclicHasEdge(E: Edges)
    requires !Acyclic(E)
    ensures exists i :: 0 <= i < |E| && OnCycle(E, E[i])
  {
    var p: Path, a :| IsPath(E, p, a, a) && p != [];
    assert IsPath(E, p[1..], E[p[0]].member, a);
    assert OnCycle(E, E[p[0]]);
  }

  /** The existing graph must be within the depth bound unless some edge is proposed:
      otherwise there would be no edge to blame. */
  method ValidateSetMemberships(existing: Edges, proposed: Edges, members: seq<AccountMembership>) returns (r: Outcome)
    requires proposed != [] || DepthAtMost(existing, MAX_MEMBERSHIP_DEPTH)
    ensures Verdict(existing, proposed, members, r)
  {
    hide Acyclic, UniquePaths, AccountUnique, Reach, DepthAtMost, IsMaxDepth, CycleBlame;
    var E := existing + proposed;
    var dag := new SetDag(E);
    for k := 0 to |members|
      invariant dag.Valid() && dag.edges == E && Nodes(E) <= dag.indegree.Keys
    {
      dag.AddIsolated(members[k].container);
    }
    var t := dag.Traverse();
    if |t.order| != dag.NodeCount() {
      var edge := BlameCycle(dag, existing, proposed);
      return Rejected(MembershipCycleDetected(edge.container, edge.member));
    }
    var ok, ancestors := CollectAncestors(dag, t.order);
    if !ok {
      return Rejected(MemberAlreadyAdded);
    }
    ok := CheckAccountPaths(E, members, ancestors);
    AccountUniqueIff(E, members);
    if !ok {
      return Rejected(MemberAlreadyAdded);
    }
    var depth := MaxDepth(t, E);
    DepthTest(E, depth);
    assert proposed == [] ==> E == existing;
    if depth > MAX_MEMBERSHIP_DEPTH {
      var index, d := FirstDepthOverflow(existing, proposed);
      return Rejected(MembershipDepthExceeded(proposed[index].container, proposed[index].member, d, MAX_MEMBERSHIP_DEPTH));
    }
    return Accepted;
  }
}
