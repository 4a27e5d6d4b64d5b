/** Directed multigraphs of set-to-set edges, and what their paths say.
    A graph is a sequence of edges, so the same edge listed twice is two parallel edges;
    a path is the sequence of the positions of the edges it takes. */
module Graph {
  import opened Primitives

  type Edges = seq<SetMembership>
  type Path = seq<nat>

  /** `p` leads from `a` down to `b`. */
  ghost predicate IsPath(E: Edges, p: Path, a: AccountSetId, b: AccountSetId) {
    if p == [] then a == b
    else p[0] < |E| && E[p[0]].container == a && IsPath(E, p[1..], E[p[0]].member, b)
  }

  ghost predicate Reach(E: Edges, a: AccountSetId, b: AccountSetId) {
    exists p: Path :: IsPath(E, p, a, b)
  }

  ghost predicate Acyclic(E: Edges) {
    forall p: Path, a :: IsPath(E, p, a, a) ==> p == []
  }

  /** Any two sets are joined by at most one path. */
  ghost predicate UniquePaths(E: Edges) {
    forall p: Path, q: Path, a, b :: IsPath(E, p, a, b) && IsPath(E, q, a, b) ==> p == q
  }

  ghost predicate DepthAtMost(E: Edges, d: int) {
    forall p: Path, a, b :: IsPath(E, p, a, b) ==> |p| <= d
  }

  ghost predicate HasPathOfLength(E: Edges, d: int) {
    exists p: Path, a, b :: IsPath(E, p, a, b) && |p| == d
  }

  /** `d` is the number of edges of the longest chain. */
  ghost predicate IsMaxDepth(E: Edges, d: int) {
    DepthAtMost(E, d) && HasPathOfLength(E, d)
  }

  /** Every account reaches every set by at most one containment path: a direct membership
      followed upward by a path of set edges. */
  ghost predicate AccountUnique(E: Edges, M: seq<AccountMembership>) {
    forall i, j, p: Path, q: Path, s ::
      0 <= i < |M| && 0 <= j < |M| && M[i].account == M[j].account
      && IsPath(E, p, s, M[i].container) && IsPath(E, q, s, M[j].container)
      ==> i == j && p == q
  }

  function Nodes(E: Edges): set<AccountSetId> {
    (set i | 0 <= i < |E| :: E[i].container) + (set i | 0 <= i < |E| :: E[i].member)
  }

  // ---------------------------------------------------------------- paths

  lemma {:induction false} PathConcat(E: Edges, p: Path, q: Path, a: AccountSetId, b: AccountSetId, c: AccountSetId)
    requires IsPath(E, p, a, b) && IsPath(E, q, b, c)
    ensures IsPath(E, p + q, a, c)
  {
    if p == [] {
      assert p + q == q;
    } else {
      PathConcat(E, p[1..], q, E[p[0]].member, b, c);
      assert (p + q)[1..] == p[1..] + q;
    }
  }

  lemma PathEdge(E: Edges, i: nat)
    requires i < |E|
    ensures IsPath(E, [i], E[i].container, E[i].member)
  {
    assert [i][1..] == [];
  }

  lemma PathSnoc(E: Edges, p: Path, i: nat, a: AccountSetId)
    requires i < |E| && IsPath(E, p, a, E[i].container)
    ensures IsPath(E, p + [i], a, E[i].member)
  {
    PathEdge(E, i);
    PathConcat(E, p, [i], a, E[i].container, E[i].member);
  }

  /** The node where a concatenation of paths is cut. */
  lemma {:induction false} PathSplit(E: Edges, p: Path, q: Path, a: AccountSetId, c: AccountSetId)
    returns (b: AccountSetId)
    requires IsPath(E, p + q, a, c)
    ensures IsPath(E, p, a, b) && IsPath(E, q, b, c)
  {
    if p == [] {
      assert p + q == q;
      b := a;
    } else {
      assert (p + q)[1..] == p[1..] + q;
      b := PathSplit(E, p[1..], q, E[p[0]].member, c);
    }
  }

  /** The last edge of a path enters its end. */
  lemma PathLast(E: Edges, p: Path, a: AccountSetId, b: AccountSetId)
    requires IsPath(E, p, a, b) && p != []
    ensures p[|p| - 1] < |E| && E[p[|p| - 1]].member == b
    ensures IsPath(E, p[..|p| - 1], a, E[p[|p| - 1]].container)
  {
    var n := |p| - 1;
    assert p == p[..n] + [p[n]];
    var m := PathSplit(E, p[..n], [p[n]], a, b);
    assert [p[n]][1..] == [];
  }

  lemma ReachStep(E: Edges, a: AccountSetId, i: nat)
    requires i < |E| && Reach(E, a, E[i].container)
    ensures Reach(E, a, E[i].member)
  {
    var p: Path :| IsPath(E, p, a, E[i].container);
    PathSnoc(E, p, i, a);
  }

  lemma ReachTrans(E: Edges, a: AccountSetId, b: AccountSetId, c: AccountSetId)
    requires Reach(E, a, b) && Reach(E, b, c)
    ensures Reach(E, a, c)
  {
    var p: Path :| IsPath(E, p, a, b);
    var q: Path :| IsPath(E, q, b, c);
    PathConcat(E, p, q, a, b, c);
  }

  lemma ReachSelf(E: Edges, a: AccountSetId)
    ensures Reach(E, a, a)
  {
    assert IsPath(E, [], a, a);
  }

  lemma UniquePathsAcyclic(E: Edges)
    requires UniquePaths(E)
    ensures Acyclic(E)
  {
    forall p: Path, a | IsPath(E, p, a, a) ensures p == [] {
      assert IsPath(E, [], a, a);
    }
  }

  // ---------------------------------------------------------------- ranks

  /** A rank that grows along every edge. */
  ghost predicate Ranked(E: Edges, rank: AccountSetId -> int) {
    forall i :: 0 <= i < |E| ==> rank(E[i].container) < rank(E[i].member)
  }

  lemma {:induction false} RankedPath(E: Edges, rank: AccountSetId -> int, p: Path, a: AccountSetId, b: AccountSetId)
    requires Ranked(E, rank) && IsPath(E, p, a, b)
    ensures rank(a) + |p| <= rank(b)
  {
    if p != [] {
      RankedPath(E, rank, p[1..], E[p[0]].member, b);
    }
  }

  lemma RankedAcyclic(E: Edges, rank: AccountSetId -> int)
    requires Ranked(E, rank)
    ensures Acyclic(E)
  {
    forall p: Path, a | IsPath(E, p, a, a) ensures p == [] {
      RankedPath(E, rank, p, a, a);
    }
  }

  // ---------------------------------------------------------------- cycles

  ghost predicate HasParentIn(E: Edges, R: set<AccountSetId>, n: AccountSetId) {
    exists i :: 0 <= i < |E| && E[i].member == n && E[i].container in R
  }

  lemma ClosingEdgeMakesCycle(E: Edges, i: nat)
    requires i < |E| && Reach(E, E[i].member, E[i].container)
    ensures !Acyclic(E)
  {
    var p: Path :| IsPath(E, p, E[i].member, E[i].container);
    PathSnoc(E, p, i, E[i].member);
    assert p + [i] != [];
  }

  /** In a nonempty finite set of nodes that each have a parent in the set, walking upward
      must meet a node again. */
  lemma {:induction false} ParentedSetHasCycle(E: Edges, R: set<AccountSetId>, a: AccountSetId, seen: set<AccountSetId>)
    requires a in seen && seen <= R
    requires forall n :: n in R ==> HasParentIn(E, R, n)
    requires forall n :: n in seen ==> Reach(E, a, n)
    ensures !Acyclic(E)
    decreases R - seen
  {
    var i :| 0 <= i < |E| && E[i].member == a && E[i].container in R;
    var c := E[i].container;
    if c in seen {
      ClosingEdgeMakesCycle(E, i);
    } else {
      PathEdge(E, i);
      assert Reach(E, c, a);
      forall n | n in seen + {c} ensures Reach(E, c, n) {
        if n == c { ReachSelf(E, c); } else { ReachTrans(E, c, a, n); }
      }
      ParentedSetHasCycle(E, R, c, seen + {c});
    }
  }

  // ---------------------------------------------------------------- path uniqueness, edge by edge

  /** No node is entered by two edges that share an ancestor. */
  ghost predicate NoDiamond(E: Edges) {
    forall i, j, a | 0 <= i < |E| && 0 <= j < |E| && i != j && E[i].member == E[j].member
      :: Reach(E, a, E[i].container) ==> !Reach(E, a, E[j].container)
  }

  lemma {:induction false} NoDiamondUnique(E: Edges, p: Path, q: Path, a: AccountSetId, b: AccountSetId)
    requires Acyclic(E) && NoDiamond(E)
    requires IsPath(E, p, a, b) && IsPath(E, q, a, b)
    ensures p == q
    decreases |p|
  {
    if p != [] && q != [] {
      PathLast(E, p, a, b);
      PathLast(E, q, a, b);
      var i, j := p[|p| - 1], q[|q| - 1];
      assert Reach(E, a, E[i].container) && Reach(E, a, E[j].container);
      assert i == j;
      NoDiamondUnique(E, p[..|p| - 1], q[..|q| - 1], a, E[i].container);
      assert p == p[..|p| - 1] + [i] && q == q[..|q| - 1] + [i];
    }
  }

  /** Path uniqueness, stated on edges and ancestors only. */
  lemma UniquePathsIffNoDiamond(E: Edges)
    requires Acyclic(E)
    ensures UniquePaths(E) <==> NoDiamond(E)
  {
    if NoDiamond(E) {
      forall p: Path, q: Path, a, b | IsPath(E, p, a, b) && IsPath(E, q, a, b) ensures p == q {
        NoDiamondUnique(E, p, q, a, b);
      }
    }
    if UniquePaths(E) {
      forall i, j, a | 0 <= i < |E| && 0 <= j < |E| && i != j && E[i].member == E[j].member
                       && Reach(E, a, E[i].container)
        ensures !Reach(E, a, E[j].container)
      {
        if Reach(E, a, E[j].container) {
          var p: Path :| IsPath(E, p, a, E[i].container);
          var q: Path :| IsPath(E, q, a, E[j].container);
          assert p + [i] != q + [j] by {
            assert (p + [i])[|p + [i]| - 1] == i && (q + [j])[|q + [j]| - 1] == j;
          }
          PathSnoc(E, p, i, a);
          PathSnoc(E, q, j, a);
        }
      }
    }
  }

  /** No account has two memberships whose containers share an ancestor. */
  ghost predicate NoSharedAncestor(E: Edges, M: seq<AccountMembership>) {
    forall i, j, s | 0 <= i < j < |M| && M[i].account == M[j].account
      :: Reach(E, s, M[i].container) ==> !Reach(E, s, M[j].container)
  }

  lemma AccountUniqueIff(E: Edges, M: seq<AccountMembership>)
    requires UniquePaths(E)
    ensures AccountUnique(E, M) <==> NoSharedAncestor(E, M)
  {
    if AccountUnique(E, M) {
      forall i, j, s | 0 <= i < j < |M| && M[i].account == M[j].account && Reach(E, s, M[i].container)
        ensures !Reach(E, s, M[j].container)
      {
        if Reach(E, s, M[j].container) {
          assert false;
        }
      }
    }
    if NoSharedAncestor(E, M) {
      forall i, j, p: Path, q: Path, s | 0 <= i < |M| && 0 <= j < |M| && M[i].account == M[j].account
          && IsPath(E, p, s, M[i].container) && IsPath(E, q, s, M[j].container)
        ensures i == j && p == q
      {
        assert Reach(E, s, M[i].container) && Reach(E, s, M[j].container);
        if i < j { assert false; } else if j < i { assert false; }
      }
    }
  }

  // ---------------------------------------------------------------- embeddings

  /** `f` places the edges of `E` at distinct positions of `F`. */
  ghost predicate Embeds(E: Edges, F: Edges, f: seq<nat>) {
    && |f| == |E|
    && (forall i :: 0 <= i < |E| ==> f[i] < |F| && F[f[i]] == E[i])
    && (forall i, j :: 0 <= i < |E| && 0 <= j < |E| && f[i] == f[j] ==> i == j)
  }

  ghost function Lift(f: seq<nat>, p: Path): Path {
    seq(|p|, k requires 0 <= k < |p| => if p[k] < |f| then f[p[k]] else 0)
  }

  lemma {:induction false} LiftPath(E: Edges, F: Edges, f: seq<nat>, p: Path, a: AccountSetId, b: AccountSetId)
    requires Embeds(E, F, f) && IsPath(E, p, a, b)
    ensures IsPath(F, Lift(f, p), a, b)
  {
    if p != [] {
      LiftPath(E, F, f, p[1..], E[p[0]].member, b);
      assert Lift(f, p)[1..] == Lift(f, p[1..]);
    }
  }

  lemma {:induction false} PathWithin(E: Edges, p: Path, a: AccountSetId, b: AccountSetId)
    requires IsPath(E, p, a, b)
    ensures forall k :: 0 <= k < |p| ==> p[k] < |E|
  {
    if p != [] {
      PathWithin(E, p[1..], E[p[0]].member, b);
    }
  }

  lemma LiftInjective(E: Edges, F: Edges, f: seq<nat>, p: Path, q: Path)
    requires Embeds(E, F, f)
    requires forall k :: 0 <= k < |p| ==> p[k] < |E|
    requires forall k :: 0 <= k < |q| ==> q[k] < |E|
    requires Lift(f, p) == Lift(f, q)
    ensures p == q
  {
    assert |p| == |Lift(f, p)| == |q|;
    forall k | 0 <= k < |p| ensures p[k] == q[k] {
      assert Lift(f, p)[k] == Lift(f, q)[k];
    }
  }

  /** Every structural property survives in a subgraph. */
  lemma SubgraphKeeps(E: Edges, F: Edges, f: seq<nat>)
    requires Embeds(E, F, f)
    ensures Acyclic(F) ==> Acyclic(E)
    ensures UniquePaths(F) ==> UniquePaths(E)
    ensures forall d :: DepthAtMost(F, d) ==> DepthAtMost(E, d)
    ensures forall a, b :: Reach(E, a, b) ==> Reach(F, a, b)
  {
    if Acyclic(F) {
      forall p: Path, a | IsPath(E, p, a, a) ensures p == [] {
        LiftPath(E, F, f, p, a, a);
        assert |Lift(f, p)| == |p|;
      }
    }
    if UniquePaths(F) {
      forall p: Path, q: Path, a, b | IsPath(E, p, a, b) && IsPath(E, q, a, b) ensures p == q {
        LiftPath(E, F, f, p, a, b);
        LiftPath(E, F, f, q, a, b);
        PathWithin(E, p, a, b);
        PathWithin(E, q, a, b);
        LiftInjective(E, F, f, p, q);
      }
    }
    forall d | DepthAtMost(F, d) ensures DepthAtMost(E, d) {
      forall p: Path, a, b | IsPath(E, p, a, b) ensures |p| <= d {
        LiftPath(E, F, f, p, a, b);
        assert |Lift(f, p)| == |p|;
      }
    }
    forall a, b | Reach(E, a, b) ensures Reach(F, a, b) {
      var p: Path :| IsPath(E, p, a, b);
      LiftPath(E, F, f, p, a, b);
    }
  }

  /** A prefix of the edge list is a subgraph; this is what makes depth grow with the prefix. */
  lemma PrefixEmbeds(E: Edges, F: Edges)
    requires E <= F
    ensures Embeds(E, F, seq(|E|, i requires 0 <= i < |E| => i))
  {
  }
}
