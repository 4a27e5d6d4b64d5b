/** Why validating one component, with the memberships of the affected accounts only,
    decides the same as validating the whole committed graph. */
module Localization {
  import opened Primitives
  import opened Distinctness
  import opened Graph
  import opened Validation

  /** `V` contains the endpoints of the batch `P`, no edge of `E` crosses its border,
      and `C` lists the edges of `E` inside it. */
  ghost predicate IsLocal(E: Edges, C: Edges, P: Edges, V: set<AccountSetId>) {
    && Distinct(E) && Distinct(C)
    && (forall e :: e in C <==> e in E && e.container in V)
    && (forall e :: e in E ==> (e.container in V <==> e.member in V))
    && (forall e :: e in P ==> e.container in V && e.member in V)
  }

  /** `D` contains the members of the batch and is closed under descent in the local graph. */
  ghost predicate IsAffected(C: Edges, P: Edges, D: set<AccountSetId>) {
    && (forall e :: e in P ==> e.member in D)
    && (forall e :: e in C + P && e.container in D ==> e.member in D)
  }

  /** `A` lists the memberships of exactly those accounts that have one in `D`. */
  ghost predicate IsAffectedList(M: seq<AccountMembership>, D: set<AccountSetId>, A: seq<AccountMembership>) {
    && Distinct(M) && Distinct(A)
    && forall m :: m in A <==> m in M && HasMembershipIn(M, D, m.account)
  }

  ghost predicate HasMembershipIn(M: seq<AccountMembership>, D: set<AccountSetId>, account: AccountId) {
    exists m :: m in M && m.account == account && m.container in D
  }

  ghost function IndexOf<T>(s: seq<T>, x: T): (i: nat)
    requires x in s
    ensures i < |s| && s[i] == x
  {
    if s[0] == x then 0 else 1 + IndexOf(s[1..], x)
  }

  /** Where each local edge sits in the whole graph. */
  ghost function Placement(E: Edges, C: Edges, P: Edges): seq<nat>
    requires forall e :: e in C ==> e in E
  {
    seq(|C| + |P|, i requires 0 <= i < |C| + |P| => if i < |C| then IndexOf(E, C[i]) else |E| + (i - |C|))
  }

  lemma LocalEmbeds(E: Edges, C: Edges, P: Edges, V: set<AccountSetId>)
    requires IsLocal(E, C, P, V)
    ensures Embeds(C + P, E + P, Placement(E, C, P))
  {
    var f := Placement(E, C, P);
    forall i, j | 0 <= i < |C + P| && 0 <= j < |C + P| && f[i] == f[j] ensures i == j {
      if i < |C| && j < |C| { assert C[i] == C[j]; }
    }
  }

  // ---------------------------------------------------------------- paths of the whole graph

  /** A path of the combined graph either keeps to committed edges or starts inside `V`. */
  lemma {:induction false} CommittedOrInside(E: Edges, C: Edges, P: Edges, V: set<AccountSetId>, p: Path,
                                             a: AccountSetId, b: AccountSetId)
    requires IsLocal(E, C, P, V) && IsPath(E + P, p, a, b)
    ensures IsPath(E, p, a, b) || a in V
  {
    if p != [] {
      var F := E + P;
      CommittedOrInside(E, C, P, V, p[1..], F[p[0]].member, b);
      if p[0] < |E| {
        assert E[p[0]] in E;
      } else {
        assert F[p[0]] in P;
      }
    }
  }

  /** A path that starts inside `V` is a path of the local graph. */
  lemma {:induction false} PullBack(E: Edges, C: Edges, P: Edges, V: set<AccountSetId>, p: Path, a: AccountSetId,
                                    b: AccountSetId)
    returns (q: Path)
    requires IsLocal(E, C, P, V) && IsPath(E + P, p, a, b) && a in V
    ensures IsPath(C + P, q, a, b) && Lift(Placement(E, C, P), q) == p && |q| == |p|
  {
    if p == [] {
      q := [];
    } else {
      var F := E + P;
      var i: nat;
      if p[0] < |E| {
        assert F[p[0]] == E[p[0]] && E[p[0]] in E;
        i := IndexOf(C, E[p[0]]);
        PositionUnique(E, IndexOf(E, C[i]), p[0]);
      } else {
        assert F[p[0]] in P;
        i := |C| + (p[0] - |E|);
      }
      assert (C + P)[i] == F[p[0]] && Placement(E, C, P)[i] == p[0];
      var tail := PullBack(E, C, P, V, p[1..], F[p[0]].member, b);
      q := [i] + tail;
      assert q[1..] == tail;
      assert Lift(Placement(E, C, P), q) == [p[0]] + p[1..];
    }
  }

  lemma PositionUnique<T>(s: seq<T>, i: nat, j: nat)
    requires Distinct(s) && i < |s| && j < |s| && s[i] == s[j]
    ensures i == j
  {
  }

  // ---------------------------------------------------------------- the properties, one by one

  lemma LocalAcyclic(E: Edges, C: Edges, P: Edges, V: set<AccountSetId>)
    requires IsLocal(E, C, P, V) && Acyclic(E)
    ensures Acyclic(C + P) <==> Acyclic(E + P)
  {
    LocalEmbeds(E, C, P, V);
    SubgraphKeeps(C + P, E + P, Placement(E, C, P));
    if Acyclic(C + P) {
      forall p: Path, a | IsPath(E + P, p, a, a) ensures p == [] {
        CommittedOrInside(E, C, P, V, p, a, a);
        if a in V {
          var q := PullBack(E, C, P, V, p, a, a);
        }
      }
    }
  }

  lemma LocalUniquePaths(E: Edges, C: Edges, P: Edges, V: set<AccountSetId>)
    requires IsLocal(E, C, P, V) && UniquePaths(E)
    ensures UniquePaths(C + P) <==> UniquePaths(E + P)
  {
    LocalEmbeds(E, C, P, V);
    SubgraphKeeps(C + P, E + P, Placement(E, C, P));
    if UniquePaths(C + P) {
      forall p: Path, q: Path, a, b | IsPath(E + P, p, a, b) && IsPath(E + P, q, a, b) ensures p == q {
        CommittedOrInside(E, C, P, V, p, a, b);
        CommittedOrInside(E, C, P, V, q, a, b);
        if a in V {
          var p' := PullBack(E, C, P, V, p, a, b);
          var q' := PullBack(E, C, P, V, q, a, b);
        }
      }
    }
  }

  lemma LocalDepth(E: Edges, C: Edges, P: Edges, V: set<AccountSetId>, d: int)
    requires IsLocal(E, C, P, V) && DepthAtMost(E, MAX_MEMBERSHIP_DEPTH)
    requires d >= MAX_MEMBERSHIP_DEPTH
    ensures DepthAtMost(C + P, d) <==> DepthAtMost(E + P, d)
    ensures d > MAX_MEMBERSHIP_DEPTH ==> (IsMaxDepth(C + P, d) <==> IsMaxDepth(E + P, d))
  {
    var f := Placement(E, C, P);
    LocalEmbeds(E, C, P, V);
    SubgraphKeeps(C + P, E + P, f);
    if DepthAtMost(C + P, d) {
      forall p: Path, a, b | IsPath(E + P, p, a, b) ensures |p| <= d {
        CommittedOrInside(E, C, P, V, p, a, b);
        if a in V {
          var q := PullBack(E, C, P, V, p, a, b);
        }
      }
    }
    if d > MAX_MEMBERSHIP_DEPTH && HasPathOfLength(E + P, d) {
      var p: Path, a, b :| IsPath(E + P, p, a, b) && |p| == d;
      CommittedOrInside(E, C, P, V, p, a, b);
      var q := PullBack(E, C, P, V, p, a, b);
      assert HasPathOfLength(C + P, d);
    }
    if HasPathOfLength(C + P, d) {
      var p: Path, a, b :| IsPath(C + P, p, a, b) && |p| == d;
      LiftPath(C + P, E + P, f, p, a, b);
      assert |Lift(f, p)| == d;
    }
  }

  lemma LocalReach(E: Edges, C: Edges, P: Edges, V: set<AccountSetId>, a: AccountSetId, b: AccountSetId)
    requires IsLocal(E, C, P, V) && a in V
    ensures Reach(C + P, a, b) <==> Reach(E + P, a, b)
  {
    if Reach(C + P, a, b) {
      LocalEmbeds(E, C, P, V);
      SubgraphKeeps(C + P, E + P, Placement(E, C, P));
    }
    if Reach(E + P, a, b) {
      var p: Path :| IsPath(E + P, p, a, b);
      var q := PullBack(E, C, P, V, p, a, b);
    }
  }

  // ---------------------------------------------------------------- accounts

  /** Below a member of the batch everything is affected. */
  lemma {:induction false} DescendsInAffected(E: Edges, C: Edges, P: Edges, V: set<AccountSetId>, D: set<AccountSetId>,
                                              p: Path, a: AccountSetId, b: AccountSetId)
    requires IsLocal(E, C, P, V) && IsAffected(C, P, D)
    requires IsPath(E + P, p, a, b) && a in V && a in D
    ensures b in D
  {
    if p != [] {
      var e := (E + P)[p[0]];
      if p[0] < |E| { assert e in E; } else { assert e in P; }
      assert e in C + P;
      DescendsInAffected(E, C, P, V, D, p[1..], e.member, b);
    }
  }

  /** A path with a proposed edge ends at an affected set. */
  lemma {:induction false} CommittedOrAffected(E: Edges, C: Edges, P: Edges, V: set<AccountSetId>, D: set<AccountSetId>,
                                               p: Path, a: AccountSetId, b: AccountSetId)
    requires IsLocal(E, C, P, V) && IsAffected(C, P, D) && IsPath(E + P, p, a, b)
    ensures IsPath(E, p, a, b) || b in D
  {
    if p != [] {
      var e := (E + P)[p[0]];
      if p[0] < |E| {
        CommittedOrAffected(E, C, P, V, D, p[1..], e.member, b);
      } else {
        assert e in P;
        DescendsInAffected(E, C, P, V, D, p[1..], e.member, b);
      }
    }
  }

  lemma LocalAccountUniqueOnlyIf(E: Edges, C: Edges, P: Edges, V: set<AccountSetId>, D: set<AccountSetId>,
                                 M: seq<AccountMembership>, A: seq<AccountMembership>)
    requires IsLocal(E, C, P, V) && IsAffectedList(M, D, A)
    requires AccountUnique(E + P, M)
    ensures AccountUnique(C + P, A)
  {
    var L, F, f := C + P, E + P, Placement(E, C, P);
    LocalEmbeds(E, C, P, V);
    forall i, j, p: Path, q: Path, s | 0 <= i < |A| && 0 <= j < |A| && A[i].account == A[j].account
        && IsPath(L, p, s, A[i].container) && IsPath(L, q, s, A[j].container)
      ensures i == j && p == q
    {
      LiftPath(L, F, f, p, s, A[i].container);
      LiftPath(L, F, f, q, s, A[j].container);
      var k, l := IndexOf(M, A[i]), IndexOf(M, A[j]);
      assert k == l && Lift(f, p) == Lift(f, q);
      PathWithin(L, p, s, A[i].container);
      PathWithin(L, q, s, A[j].container);
      LiftInjective(L, F, f, p, q);
      PositionUnique(A, i, j);
    }
  }

  lemma LocalAccountUniqueIf(E: Edges, C: Edges, P: Edges, V: set<AccountSetId>, D: set<AccountSetId>,
                             M: seq<AccountMembership>, A: seq<AccountMembership>)
    requires IsLocal(E, C, P, V) && IsAffected(C, P, D) && IsAffectedList(M, D, A)
    requires AccountUnique(E, M) && AccountUnique(C + P, A)
    ensures AccountUnique(E + P, M)
  {
    var L, F := C + P, E + P;
    forall i, j, p: Path, q: Path, s | 0 <= i < |M| && 0 <= j < |M| && M[i].account == M[j].account
        && IsPath(F, p, s, M[i].container) && IsPath(F, q, s, M[j].container)
      ensures i == j && p == q
    {
      CommittedOrInside(E, C, P, V, p, s, M[i].container);
      CommittedOrInside(E, C, P, V, q, s, M[j].container);
      CommittedOrAffected(E, C, P, V, D, p, s, M[i].container);
      CommittedOrAffected(E, C, P, V, D, q, s, M[j].container);
      if !(IsPath(E, p, s, M[i].container) && IsPath(E, q, s, M[j].container)) {
        var p' := PullBack(E, C, P, V, p, s, M[i].container);
        var q' := PullBack(E, C, P, V, q, s, M[j].container);
        assert HasMembershipIn(M, D, M[i].account);
        var k, l := IndexOf(A, M[i]), IndexOf(A, M[j]);
        assert k == l && p' == q';
        PositionUnique(M, i, j);
      }
    }
  }

  // ---------------------------------------------------------------- blame

  /** A cycle in a graph that was acyclic before passes through a proposed edge. */
  lemma NewCycleUsesProposed(E: Edges, P: Edges)
    requires Acyclic(E) && !Acyclic(E + P)
    ensures exists k :: 0 <= k < |P| && OnCycle(E + P, P[k])
  {
    var F := E + P;
    var p: Path, a :| IsPath(F, p, a, a) && p != [];
    PathWithin(F, p, a, a);
    if j :| 0 <= j < |p| && p[j] >= |E| {
      assert p == p[..j] + p[j..];
      var m := PathSplit(F, p[..j], p[j..], a, a);
      assert p[j..][1..] == p[j + 1..];
      assert Reach(F, F[p[j]].member, a) && Reach(F, a, F[p[j]].container);
      ReachTrans(F, F[p[j]].member, a, F[p[j]].container);
      assert F[p[j]] == P[p[j] - |E|];
    } else {
      StaysCommitted(E, P, p, a, a);
    }
  }

  lemma {:induction false} StaysCommitted(E: Edges, P: Edges, p: Path, a: AccountSetId, b: AccountSetId)
    requires IsPath(E + P, p, a, b) && forall j :: 0 <= j < |p| ==> p[j] < |E|
    ensures IsPath(E, p, a, b)
  {
    if p != [] {
      StaysCommitted(E, P, p[1..], E[p[0]].member, b);
    }
  }

  lemma LocalCycleBlame(E: Edges, C: Edges, P: Edges, V: set<AccountSetId>, e: SetMembership)
    requires IsLocal(E, C, P, V) && Acyclic(E) && !Acyclic(E + P)
    ensures CycleBlame(C, P, e) <==> CycleBlame(E, P, e)
  {
    hide Reach, Acyclic;
    forall k | 0 <= k < |P| ensures OnCycle(C + P, P[k]) <==> OnCycle(E + P, P[k]) {
      assert P[k] in P;
      LocalReach(E, C, P, V, P[k].member, P[k].container);
    }
    NewCycleUsesProposed(E, P);
  }

  lemma PrefixIsLocal(E: Edges, C: Edges, P: Edges, V: set<AccountSetId>, l: int)
    requires IsLocal(E, C, P, V) && 0 <= l <= |P|
    ensures IsLocal(E, C, P[..l], V)
  {
  }

  lemma LocalDepthBlame(E: Edges, C: Edges, P: Edges, V: set<AccountSetId>, e: SetMembership, depth: int)
    requires IsLocal(E, C, P, V) && DepthAtMost(E, MAX_MEMBERSHIP_DEPTH)
    ensures DepthBlame(C, P, e, depth) <==> DepthBlame(E, P, e, depth)
  {
    hide DepthAtMost, IsMaxDepth, IsLocal;
    forall l | 0 <= l <= |P|
      ensures DepthAtMost(C + P[..l], MAX_MEMBERSHIP_DEPTH) <==> DepthAtMost(E + P[..l], MAX_MEMBERSHIP_DEPTH)
      ensures depth > MAX_MEMBERSHIP_DEPTH ==> (IsMaxDepth(C + P[..l], depth) <==> IsMaxDepth(E + P[..l], depth))
    {
      PrefixIsLocal(E, C, P, V, l);
      LocalDepth(E, C, P[..l], V, MAX_MEMBERSHIP_DEPTH);
      if depth > MAX_MEMBERSHIP_DEPTH { LocalDepth(E, C, P[..l], V, depth); }
    }
    forall k ensures OverflowAt(C, P, k, depth) <==> OverflowAt(E, P, k, depth) {
    }
  }

  /** The local verdict is the global one, error payload included. */
  lemma LocalVerdict(E: Edges, C: Edges, P: Edges, V: set<AccountSetId>, D: set<AccountSetId>,
                     M: seq<AccountMembership>, A: seq<AccountMembership>, r: Outcome)
    requires ValidGraph(E, M)
    requires IsLocal(E, C, P, V) && IsAffected(C, P, D) && IsAffectedList(M, D, A)
    ensures Verdict(C, P, A, r) <==> Verdict(E, P, M, r)
  {
    UniquePathsAcyclic(E);
    hide Acyclic, UniquePaths, AccountUnique, DepthAtMost, CycleBlame, DepthBlame, IsLocal, IsAffected, IsAffectedList;
    LocalAcyclic(E, C, P, V);
    LocalUniquePaths(E, C, P, V);
    LocalDepth(E, C, P, V, MAX_MEMBERSHIP_DEPTH);
    if AccountUnique(E + P, M) { LocalAccountUniqueOnlyIf(E, C, P, V, D, M, A); }
    if AccountUnique(C + P, A) { LocalAccountUniqueIf(E, C, P, V, D, M, A); }
    if r.Rejected? && r.error.MembershipCycleDetected? && !Acyclic(E + P) {
      LocalCycleBlame(E, C, P, V, SetMembership(r.error.container, r.error.member));
    }
    if r.Rejected? && r.error.MembershipDepthExceeded? {
      LocalDepthBlame(E, C, P, V, SetMembership(r.error.container, r.error.member), r.error.depth);
    }
  }
}
