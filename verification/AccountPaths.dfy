/** Counting the containment paths of accounts upward through the set graph. */
module AccountPaths {
  import opened Primitives
  import opened Distinctness
  import opened Graph
  import opened SetDags
  import opened GraphCache

  /** The direct containers of every known set; an unknown set has no entry. */
  type Known = map<AccountSetId, seq<AccountSetId>>

  /** The walk that takes entry `w[0]` of the containers of `from`, then `w[1]` of that one's, and so on up to `to`. */
  ghost predicate UpWalk(known: Known, w: seq<nat>, from: AccountSetId, to: AccountSetId) {
    if w == [] then from == to
    else from in known && w[0] < |known[from]| && UpWalk(known, w[1..], known[from][w[0]], to)
  }

  /** Some set is reached twice: from two seeds, or by two walks. */
  ghost predicate DuplicateSeeds(known: Known, seeds: seq<AccountSetId>) {
    exists i, j, w: seq<nat>, v: seq<nat>, t :: TwoWalks(known, seeds, i, w, j, v, t)
  }

  ghost predicate TwoWalks(known: Known, seeds: seq<AccountSetId>, i: int, w: seq<nat>, j: int, v: seq<nat>,
                           t: AccountSetId) {
    && 0 <= i < |seeds| && 0 <= j < |seeds| && !(i == j && w == v)
    && UpWalk(known, w, seeds[i], t) && UpWalk(known, v, seeds[j], t)
  }

  ghost predicate ReachedFrom(known: Known, seeds: seq<AccountSetId>, t: AccountSetId) {
    exists i, w: seq<nat> :: 0 <= i < |seeds| && UpWalk(known, w, seeds[i], t)
  }

  /** Every set the walks meet is known. */
  ghost predicate CompleteSeeds(known: Known, seeds: seq<AccountSetId>) {
    forall t :: ReachedFrom(known, seeds, t) ==> t in known
  }

  // ---------------------------------------------------------------- walks

  lemma {:induction false} WalkSnoc(known: Known, w: seq<nat>, k: nat, from: AccountSetId, x: AccountSetId)
    requires UpWalk(known, w, from, x) && x in known && k < |known[x]|
    ensures UpWalk(known, w + [k], from, known[x][k])
  {
    if w == [] {
      assert [k][1..] == [];
    } else {
      WalkSnoc(known, w[1..], k, known[from][w[0]], x);
      assert (w + [k])[1..] == w[1..] + [k];
    }
  }

  lemma {:induction false} WalkLast(known: Known, w: seq<nat>, from: AccountSetId, to: AccountSetId)
    returns (x: AccountSetId)
    requires UpWalk(known, w, from, to) && w != []
    ensures x in known && w[|w| - 1] < |known[x]| && known[x][w[|w| - 1]] == to
    ensures UpWalk(known, w[..|w| - 1], from, x)
  {
    if |w| == 1 {
      x := from;
    } else {
      x := WalkLast(known, w[1..], known[from][w[0]], to);
      assert w[1..][..|w| - 2] == w[..|w| - 1][1..];
    }
  }

  lemma {:induction false} WalkEnd(known: Known, w: seq<nat>, from: AccountSetId, x: AccountSetId, y: AccountSetId)
    requires UpWalk(known, w, from, x) && UpWalk(known, w, from, y)
    ensures x == y
  {
    if w != [] {
      WalkEnd(known, w[1..], known[from][w[0]], x, y);
    }
  }

  // ---------------------------------------------------------------- where queue entries come from

  /** A queue entry is a seed, or entry `k` of the containers of a counted set. */
  datatype Origin = Seed(i: nat) | Up(x: AccountSetId, k: nat)

  ghost predicate IsOrigin(known: Known, seeds: seq<AccountSetId>, o: Origin) {
    match o
    case Seed(i) => i < |seeds|
    case Up(x, k) => x in known && k < |known[x]|
  }

  ghost function Target(known: Known, seeds: seq<AccountSetId>, o: Origin): AccountSetId {
    match o
    case Seed(i) => if i < |seeds| then seeds[i] else 0
    case Up(x, k) => if x in known && k < |known[x]| then known[x][k] else 0
  }

  /** The walk behind a queue entry. */
  lemma OriginWalk(known: Known, seeds: seq<AccountSetId>, o: Origin) returns (i: nat, w: seq<nat>)
    requires IsOrigin(known, seeds, o)
    requires o.Up? ==> ReachedFrom(known, seeds, o.x)
    ensures i < |seeds| && UpWalk(known, w, seeds[i], Target(known, seeds, o))
    ensures o.Seed? ==> i == o.i && w == []
    ensures o.Up? ==> w != [] && w[|w| - 1] == o.k && UpWalk(known, w[..|w| - 1], seeds[i], o.x)
  {
    if o.Seed? {
      i, w := o.i, [];
    } else {
      var j, v: seq<nat> :| 0 <= j < |seeds| && UpWalk(known, v, seeds[j], o.x);
      WalkSnoc(known, v, o.k, seeds[j], o.x);
      i, w := j, v + [o.k];
      assert w[..|w| - 1] == v;
    }
  }

  /** Two queue entries for one set are two walks to it. */
  lemma TwoOrigins(known: Known, seeds: seq<AccountSetId>, o: Origin, o': Origin)
    requires IsOrigin(known, seeds, o) && IsOrigin(known, seeds, o') && o != o'
    requires o.Up? ==> ReachedFrom(known, seeds, o.x)
    requires o'.Up? ==> ReachedFrom(known, seeds, o'.x)
    requires Target(known, seeds, o) == Target(known, seeds, o')
    ensures DuplicateSeeds(known, seeds)
  {
    var i, w := OriginWalk(known, seeds, o);
    var j, v := OriginWalk(known, seeds, o');
    if i == j && w == v && o.Up? && o'.Up? {
      WalkEnd(known, w[..|w| - 1], seeds[i], o.x, o'.x);
    }
    assert TwoWalks(known, seeds, i, w, j, v, Target(known, seeds, o));
  }

  ghost function Targets(known: Known, seeds: seq<AccountSetId>, pushed: seq<Origin>): seq<AccountSetId> {
    seq(|pushed|, k requires 0 <= k < |pushed| => Target(known, seeds, pushed[k]))
  }

  /** `pushed[..h]` were counted, each set once; the rest waits in the queue. */
  ghost predicate CountState(known: Known, seeds: seq<AccountSetId>, pushed: seq<Origin>, h: nat,
                             counted: set<AccountSetId>, queue: seq<AccountSetId>) {
    && h <= |pushed| && Distinct(pushed)
    && (forall o :: o in pushed ==> IsOrigin(known, seeds, o) && (o.Up? ==> o.x in counted))
    && Targets(known, seeds, pushed)[h..] == queue
    && Distinct(Targets(known, seeds, pushed)[..h])
    && counted == Elements(Targets(known, seeds, pushed)[..h])
    && (forall x :: x in counted ==> x in known && ReachedFrom(known, seeds, x))
    && (forall i :: 0 <= i < |seeds| ==> Seed(i) in pushed)
    && (forall x, k :: x in counted && 0 <= k < |known[x]| ==> Up(x, k) in pushed)
  }

  ghost function Ups(known: Known, x: AccountSetId): seq<Origin>
    requires x in known
  {
    seq(|known[x]|, k requires 0 <= k < |known[x]| => Up(x, k))
  }

  lemma CountStart(known: Known, seeds: seq<AccountSetId>)
    ensures CountState(known, seeds, seq(|seeds|, i requires 0 <= i < |seeds| => Seed(i)), 0, {}, seeds)
  {
    var pushed := seq(|seeds|, i requires 0 <= i < |seeds| => Seed(i));
    forall i | 0 <= i < |seeds| ensures Seed(i) in pushed {
      assert pushed[i] == Seed(i);
    }
  }

  lemma HeadReached(known: Known, seeds: seq<AccountSetId>, pushed: seq<Origin>, h: nat, counted: set<AccountSetId>,
                    queue: seq<AccountSetId>)
    requires CountState(known, seeds, pushed, h, counted, queue) && queue != []
    ensures ReachedFrom(known, seeds, queue[0])
    ensures queue[0] in counted ==> DuplicateSeeds(known, seeds)
  {
    hide UpWalk, ReachedFrom;
    var o := pushed[h];
    assert Target(known, seeds, o) == queue[0];
    var i, w := OriginWalk(known, seeds, o);
    IsReached(known, seeds, i, w, queue[0]);
    if queue[0] in counted {
      var k :| 0 <= k < h && Targets(known, seeds, pushed)[..h][k] == queue[0];
      TwoOrigins(known, seeds, pushed[k], o);
    }
  }

  lemma IsReached(known: Known, seeds: seq<AccountSetId>, i: nat, w: seq<nat>, t: AccountSetId)
    requires i < |seeds| && UpWalk(known, w, seeds[i], t)
    ensures ReachedFrom(known, seeds, t)
  {
  }

  lemma CountNext(known: Known, seeds: seq<AccountSetId>, pushed: seq<Origin>, h: nat, counted: set<AccountSetId>,
                  queue: seq<AccountSetId>)
    requires CountState(known, seeds, pushed, h, counted, queue) && queue != []
    requires queue[0] in known && queue[0] !in counted
    ensures CountState(known, seeds, pushed + Ups(known, queue[0]), h + 1, counted + {queue[0]}, queue[1..] + known[queue[0]])
  {
    hide UpWalk, ReachedFrom, Target, IsOrigin;
    HeadReached(known, seeds, pushed, h, counted, queue);
    var x := queue[0];
    var more := Ups(known, x);
    var pushed' := pushed + more;
    UpsAreNew(known, seeds, pushed, counted, x);
    forall k | 0 <= k < |known[x]| ensures Up(x, k) in pushed' {
      assert pushed'[|pushed| + k] == Up(x, k);
    }
    var targets, targets' := Targets(known, seeds, pushed), Targets(known, seeds, pushed');
    assert targets' == targets + known[x] by { TargetsAppend(known, seeds, pushed, x); }
    hide Targets;
    assert targets[h] == targets[h..][0] == x;
    assert targets'[..h + 1] == targets[..h] + [x];
    assert targets'[h + 1..] == queue[1..] + known[x];
  }

  lemma TargetsAppend(known: Known, seeds: seq<AccountSetId>, pushed: seq<Origin>, x: AccountSetId)
    requires x in known
    ensures Targets(known, seeds, pushed + Ups(known, x)) == Targets(known, seeds, pushed) + known[x]
  {
  }

  lemma UpsAreNew(known: Known, seeds: seq<AccountSetId>, pushed: seq<Origin>, counted: set<AccountSetId>,
                  x: AccountSetId)
    requires x in known && x !in counted && Distinct(pushed)
    requires forall o :: o in pushed ==> IsOrigin(known, seeds, o) && (o.Up? ==> o.x in counted)
    ensures Distinct(pushed + Ups(known, x))
    ensures forall o :: o in Ups(known, x) ==> IsOrigin(known, seeds, o) && o.Up? && o.x == x
  {
    var more := Ups(known, x);
    assert forall k :: 0 <= k < |more| ==> more[k] == Up(x, k) && more[k] !in pushed;
  }

  /** When the queue runs dry, every walk was followed and no set was met twice. */
  lemma {:induction false} AllCounted(known: Known, seeds: seq<AccountSetId>, pushed: seq<Origin>,
                                      counted: set<AccountSetId>,
                                      i: nat, w: seq<nat>, t: AccountSetId) returns (k: nat)
    requires CountState(known, seeds, pushed, |pushed|, counted, [])
    requires i < |seeds| && UpWalk(known, w, seeds[i], t)
    ensures t in counted && k < |pushed| && Target(known, seeds, pushed[k]) == t
    ensures w == [] ==> pushed[k] == Seed(i)
    ensures w != [] ==> pushed[k].Up? && pushed[k].k == w[|w| - 1] && UpWalk(known, w[..|w| - 1], seeds[i], pushed[k].x)
    decreases |w|
  {
    if w == [] {
      k :| 0 <= k < |pushed| && pushed[k] == Seed(i);
    } else {
      var x := WalkLast(known, w, seeds[i], t);
      var l := AllCounted(known, seeds, pushed, counted, i, w[..|w| - 1], x);
      k :| 0 <= k < |pushed| && pushed[k] == Up(x, w[|w| - 1]);
    }
    assert Targets(known, seeds, pushed)[..|pushed|][k] == t;
  }

  lemma SameTarget(known: Known, seeds: seq<AccountSetId>, pushed: seq<Origin>, counted: set<AccountSetId>, k: nat,
                   l: nat)
    requires CountState(known, seeds, pushed, |pushed|, counted, [])
    requires k < |pushed| && l < |pushed|
    requires Target(known, seeds, pushed[k]) == Target(known, seeds, pushed[l])
    ensures k == l
  {
    var targets := Targets(known, seeds, pushed)[..|pushed|];
    assert targets[k] == targets[l];
  }

  lemma {:induction false} CountedOnce(known: Known, seeds: seq<AccountSetId>, pushed: seq<Origin>,
                                       counted: set<AccountSetId>,
                                       i: nat, w: seq<nat>, j: nat, v: seq<nat>, t: AccountSetId)
    requires CountState(known, seeds, pushed, |pushed|, counted, [])
    requires i < |seeds| && UpWalk(known, w, seeds[i], t)
    requires j < |seeds| && UpWalk(known, v, seeds[j], t)
    ensures i == j && w == v
    decreases |w|
  {
    hide CountState, UpWalk, Target;
    var k := AllCounted(known, seeds, pushed, counted, i, w, t);
    var l := AllCounted(known, seeds, pushed, counted, j, v, t);
    SameTarget(known, seeds, pushed, counted, k, l);
    if w != [] {
      CountedOnce(known, seeds, pushed, counted, i, w[..|w| - 1], j, v[..|v| - 1], pushed[k].x);
      assert w == w[..|w| - 1] + [w[|w| - 1]] && v == v[..|v| - 1] + [v[|v| - 1]];
    }
  }

  lemma CountEnd(known: Known, seeds: seq<AccountSetId>, pushed: seq<Origin>, counted: set<AccountSetId>)
    requires CountState(known, seeds, pushed, |pushed|, counted, [])
    ensures !DuplicateSeeds(known, seeds) && CompleteSeeds(known, seeds)
  {
    if DuplicateSeeds(known, seeds) {
      var i, j, w: seq<nat>, v: seq<nat>, t :| TwoWalks(known, seeds, i, w, j, v, t);
      CountedOnce(known, seeds, pushed, counted, i, w, j, v, t);
    }
    forall t | ReachedFrom(known, seeds, t) ensures t in known {
      var i, w: seq<nat> :| 0 <= i < |seeds| && UpWalk(known, w, seeds[i], t);
      var k := AllCounted(known, seeds, pushed, counted, i, w, t);
    }
  }

  /** Breadth-first walk from one account's seeds. Ends even on a cyclic graph: a set met twice stops it. */
  method CountPaths(known: Known, seeds: seq<AccountSetId>) returns (r: Option<bool>)
    ensures r == Some(true) ==> DuplicateSeeds(known, seeds)
    ensures r == Some(false) ==> !DuplicateSeeds(known, seeds) && CompleteSeeds(known, seeds)
    ensures r == None ==> !CompleteSeeds(known, seeds)
  {
    hide CountState, DuplicateSeeds, UpWalk;
    var pathCounts: map<AccountSetId, nat> := map[];
    var queue := seeds;
    ghost var pushed: seq<Origin> := seq(|seeds|, i requires 0 <= i < |seeds| => Seed(i));
    ghost var h := 0;
    CountStart(known, seeds);
    while queue != []
      invariant CountState(known, seeds, pushed, h, pathCounts.Keys, queue)
      invariant forall x :: x in pathCounts ==> pathCounts[x] == 1
      invariant pathCounts.Keys <= known.Keys
      decreases |known| - |pathCounts|
    {
      var id := queue[0];
      HeadReached(known, seeds, pushed, h, pathCounts.Keys, queue);
      if id !in known {
        return None;
      }
      var count := (if id in pathCounts then pathCounts[id] else 0) + 1;
      if count > 1 {
        return Some(true);
      }
      CountNext(known, seeds, pushed, h, pathCounts.Keys, queue);
      SubsetCardinality(pathCounts.Keys + {id}, known.Keys);
      pushed, h := pushed + Ups(known, id), h + 1;
      assert (pathCounts[id := count]).Keys == pathCounts.Keys + {id};
      pathCounts := pathCounts[id := count];
      queue := queue[1..] + known[id];
    }
    CountDone(known, seeds, pushed, h, pathCounts.Keys);
    return Some(false);
  }

  lemma CountDone(known: Known, seeds: seq<AccountSetId>, pushed: seq<Origin>, h: nat, counted: set<AccountSetId>)
    requires CountState(known, seeds, pushed, h, counted, [])
    ensures !DuplicateSeeds(known, seeds) && CompleteSeeds(known, seeds)
  {
    CountEnd(known, seeds, pushed, counted);
  }

  // ---------------------------------------------------------------- all accounts

  /** Memberships read as edges from accounts to sets, so that an account's seeds are its adjacency list. */
  ghost function SeedEdges(M: seq<AccountMembership>): Edges {
    seq(|M|, i requires 0 <= i < |M| => SetMembership(M[i].account, M[i].container))
  }

  ghost function SeedsOf(M: seq<AccountMembership>, account: AccountId): seq<AccountSetId> {
    Children(SeedEdges(M), account)
  }

  /** The recursive count over seeds and edges, with multiplicity, has a group of more than one row. */
  ghost predicate HasDuplicate(known: Known, M: seq<AccountMembership>) {
    exists i, j, w: seq<nat>, v: seq<nat>, t :: DuplicateRows(known, M, i, w, j, v, t)
  }

  /** Two containment rows for one account and one set. */
  ghost predicate DuplicateRows(known: Known, M: seq<AccountMembership>, i: int, w: seq<nat>, j: int, v: seq<nat>,
                                t: AccountSetId) {
    && 0 <= i < |M| && 0 <= j < |M| && M[i].account == M[j].account && !(i == j && w == v)
    && UpWalk(known, w, M[i].container, t) && UpWalk(known, v, M[j].container, t)
  }

  ghost predicate Complete(known: Known, M: seq<AccountMembership>) {
    forall i, w: seq<nat>, t :: 0 <= i < |M| && UpWalk(known, w, M[i].container, t) ==> t in known
  }

  lemma SeedPosition(M: seq<AccountMembership>, i: nat) returns (k: nat)
    requires i < |M|
    ensures k < |SeedsOf(M, M[i].account)| && OutEdges(SeedEdges(M), M[i].account)[k] == i
    ensures SeedsOf(M, M[i].account)[k] == M[i].container
  {
    var out := OutEdges(SeedEdges(M), M[i].account);
    assert SeedEdges(M)[i].container == M[i].account;
    k :| 0 <= k < |out| && out[k] == i;
  }

  lemma DuplicateByAccount(known: Known, M: seq<AccountMembership>)
    ensures HasDuplicate(known, M) <==> exists a :: DuplicateSeeds(known, SeedsOf(M, a))
  {
    hide UpWalk, OutEdges;
    if HasDuplicate(known, M) {
      var i, j, w: seq<nat>, v: seq<nat>, t :| DuplicateRows(known, M, i, w, j, v, t);
      var k := SeedPosition(M, i);
      var l := SeedPosition(M, j);
      assert TwoWalks(known, SeedsOf(M, M[i].account), k, w, l, v, t);
    }
    if a :| DuplicateSeeds(known, SeedsOf(M, a)) {
      var k, l, w: seq<nat>, v: seq<nat>, t :| TwoWalks(known, SeedsOf(M, a), k, w, l, v, t);
      var out := OutEdges(SeedEdges(M), a);
      assert out[k] == out[l] ==> k == l;
      assert DuplicateRows(known, M, out[k], w, out[l], v, t);
    }
  }

  lemma CompleteByAccount(known: Known, M: seq<AccountMembership>)
    ensures Complete(known, M) <==> forall a :: CompleteSeeds(known, SeedsOf(M, a))
  {
    hide UpWalk;
    if Complete(known, M) {
      forall a, t | ReachedFrom(known, SeedsOf(M, a), t) ensures t in known {
        var k, w: seq<nat> :| 0 <= k < |SeedsOf(M, a)| && UpWalk(known, w, SeedsOf(M, a)[k], t);
        assert M[OutEdges(SeedEdges(M), a)[k]].container == SeedsOf(M, a)[k];
      }
    }
    if forall a :: CompleteSeeds(known, SeedsOf(M, a)) {
      forall i, w: seq<nat>, t | 0 <= i < |M| && UpWalk(known, w, M[i].container, t) ensures t in known {
        var k := SeedPosition(M, i);
        IsReached(known, SeedsOf(M, M[i].account), k, w, t);
      }
    }
  }

  /** Group the memberships by account, in list order. */
  method GroupSeeds(M: seq<AccountMembership>) returns (perAccount: map<AccountId, seq<AccountSetId>>)
    ensures forall a :: Listed(perAccount, a) == SeedsOf(M, a)
  {
    hide OutEdges, Children;
    perAccount := map[];
    assert SeedEdges(M[..0]) == [];
    forall a ensures SeedsOf(M[..0], a) == [] { NoSeeds(a); }
    for k := 0 to |M|
      invariant forall a :: Listed(perAccount, a) == SeedsOf(M[..k], a)
    {
      var m := M[k];
      assert SeedEdges(M[..k + 1]) == SeedEdges(M[..k]) + [SetMembership(m.account, m.container)];
      forall a ensures Listed(Append(perAccount, m.account, m.container), a) == SeedsOf(M[..k + 1], a) {
        ChildrenAppend(SeedEdges(M[..k]), SetMembership(m.account, m.container), a);
        assert SeedsOf(M[..k], a) + [] == SeedsOf(M[..k], a);
      }
      perAccount := Append(perAccount, m.account, m.container);
    }
    assert M[..|M|] == M;
  }

  lemma NoSeeds(a: AccountId)
    ensures Children([], a) == []
  {
  }

  /** `None` when a traversed set is unknown, otherwise whether some account reaches some set twice.
      Accounts are visited in an arbitrary order. */
  method HasDuplicateAccountMembershipPaths(proposed: seq<AccountMembership>, existing: seq<AccountMembership>,
                                            known: Known)
    returns (r: Option<bool>)
    ensures r == Some(true) ==> HasDuplicate(known, proposed + existing)
    ensures r == Some(false) ==> !HasDuplicate(known, proposed + existing) && Complete(known, proposed + existing)
    ensures r == None ==> !Complete(known, proposed + existing)
  {
    hide HasDuplicate, Complete, DuplicateSeeds, CompleteSeeds, SeedsOf;
    var M := proposed + existing;
    var perAccount := GroupSeeds(M);
    DuplicateByAccount(known, M);
    CompleteByAccount(known, M);
    NoSeedsNoDuplicate(known);
    var accounts := perAccount.Keys;
    while accounts != {}
      invariant accounts <= perAccount.Keys
      invariant forall a :: a !in accounts ==> !DuplicateSeeds(known, SeedsOf(M, a)) && CompleteSeeds(known, SeedsOf(M, a))
      decreases accounts
    {
      var a :| a in accounts;
      assert perAccount[a] == Listed(perAccount, a);
      r := CountPaths(known, perAccount[a]);
      if r != Some(false) {
        return;
      }
      accounts := accounts - {a};
    }
    return Some(false);
  }

  lemma NoSeedsNoDuplicate(known: Known)
    ensures !DuplicateSeeds(known, []) && CompleteSeeds(known, [])
  {
  }

  // ---------------------------------------------------------------- walks of the index are paths of the graph

  /** The index agrees with the graph wherever it knows a set. */
  ghost predicate Mirrors(known: Known, E: Edges) {
    forall x :: x in known ==> known[x] == Parents(E, x)
  }

  /** The edges an upward walk climbs, from its start to its end. */
  ghost function Climb(E: Edges, w: seq<nat>, x: AccountSetId): Path {
    if w == [] then []
    else
      var out := OutEdges(Reversed(E), x);
      if w[0] < |out| then [out[w[0]]] + Climb(E, w[1..], Reversed(E)[out[w[0]]].member) else []
  }

  lemma {:induction false} ClimbIsPath(known: Known, E: Edges, w: seq<nat>, x: AccountSetId, t: AccountSetId)
    requires Mirrors(known, E) && UpWalk(known, w, x, t)
    ensures IsPath(Reversed(E), Climb(E, w, x), x, t) && |Climb(E, w, x)| == |w|
  {
    hide OutEdges;
    if w != [] {
      var i := OutEdges(Reversed(E), x)[w[0]];
      ClimbIsPath(known, E, w[1..], Reversed(E)[i].member, t);
      assert Climb(E, w, x)[1..] == Climb(E, w[1..], Reversed(E)[i].member);
    }
  }

  lemma {:induction false} ClimbInjective(known: Known, E: Edges, w: seq<nat>, v: seq<nat>, x: AccountSetId,
                                          t: AccountSetId, u: AccountSetId)
    requires Mirrors(known, E) && UpWalk(known, w, x, t) && UpWalk(known, v, x, u)
    requires Climb(E, w, x) == Climb(E, v, x)
    ensures w == v
  {
    hide OutEdges;
    ClimbIsPath(known, E, w, x, t);
    ClimbIsPath(known, E, v, x, u);
    if w != [] {
      var out := OutEdges(Reversed(E), x);
      assert Climb(E, w, x)[0] == out[w[0]] && Climb(E, v, x)[0] == out[v[0]];
      assert w[0] == v[0];
      assert Climb(E, w[1..], Reversed(E)[out[w[0]]].member) == Climb(E, w, x)[1..];
      assert Climb(E, v[1..], Reversed(E)[out[w[0]]].member) == Climb(E, v, x)[1..];
      ClimbInjective(known, E, w[1..], v[1..], Reversed(E)[out[w[0]]].member, t, u);
      assert w == [w[0]] + w[1..] && v == [v[0]] + v[1..];
    }
  }

  /** Every path is climbed by a walk, as long as the index knows the sets on it. */
  lemma {:induction false} PathIsClimbed(known: Known, E: Edges, p: Path, x: AccountSetId, t: AccountSetId)
    returns (w: seq<nat>)
    requires Mirrors(known, E) && IsPath(Reversed(E), p, x, t)
    requires forall v: seq<nat>, u :: UpWalk(known, v, x, u) ==> u in known
    ensures UpWalk(known, w, x, t) && Climb(E, w, x) == p
  {
    hide OutEdges;
    if p == [] {
      w := [];
    } else {
      var nothing: seq<nat> := [];
      assert UpWalk(known, nothing, x, x);
      var out := OutEdges(Reversed(E), x);
      var k :| 0 <= k < |out| && out[k] == p[0];
      var y := Reversed(E)[p[0]].member;
      forall v: seq<nat>, u | UpWalk(known, v, y, u) ensures u in known {
        assert ([k] + v)[1..] == v;
        assert UpWalk(known, [k] + v, x, u);
      }
      var rest := PathIsClimbed(known, E, p[1..], y, t);
      w := [k] + rest;
      assert w[1..] == rest;
    }
  }

  ghost function Backward(p: Path): Path {
    seq(|p|, k requires 0 <= k < |p| => p[|p| - 1 - k])
  }

  lemma {:induction false} ReversedPath(E: Edges, p: Path, a: AccountSetId, b: AccountSetId)
    requires IsPath(E, p, a, b)
    ensures IsPath(Reversed(E), Backward(p), b, a)
    decreases |p|
  {
    if p != [] {
      var i := p[0];
      ReversedPath(E, p[1..], E[i].member, b);
      PathSnoc(Reversed(E), Backward(p[1..]), i, b);
      assert Backward(p) == Backward(p[1..]) + [i];
    }
  }

  lemma BackwardTwice(p: Path)
    ensures Backward(Backward(p)) == p
  {
  }

  lemma ReversedTwice(E: Edges)
    ensures Reversed(Reversed(E)) == E
  {
  }

  lemma WalkToPath(known: Known, E: Edges, w: seq<nat>, x: AccountSetId, t: AccountSetId)
    requires Mirrors(known, E) && UpWalk(known, w, x, t)
    ensures IsPath(E, Backward(Climb(E, w, x)), t, x)
  {
    ClimbIsPath(known, E, w, x, t);
    ReversedPath(Reversed(E), Climb(E, w, x), x, t);
    ReversedTwice(E);
  }

  lemma PathToWalk(known: Known, E: Edges, p: Path, x: AccountSetId, t: AccountSetId) returns (w: seq<nat>)
    requires Mirrors(known, E) && IsPath(E, p, t, x)
    requires forall v: seq<nat>, u :: UpWalk(known, v, x, u) ==> u in known
    ensures UpWalk(known, w, x, t) && Backward(Climb(E, w, x)) == p
  {
    ReversedPath(E, p, t, x);
    w := PathIsClimbed(known, E, Backward(p), x, t);
    BackwardTwice(p);
  }

  /** A duplicate found before an unknown set was met is a conflict all the same. */
  lemma DuplicateIsConflict(known: Known, E: Edges, M: seq<AccountMembership>)
    requires Mirrors(known, E) && HasDuplicate(known, M)
    ensures !AccountUnique(E, M)
  {
    hide UpWalk, IsPath, OutEdges;
    var i, j, w: seq<nat>, v: seq<nat>, t :| DuplicateRows(known, M, i, w, j, v, t);
    WalkToPath(known, E, w, M[i].container, t);
    WalkToPath(known, E, v, M[j].container, t);
    var p, q := Backward(Climb(E, w, M[i].container)), Backward(Climb(E, v, M[j].container));
    if i == j && p == q {
      BackwardTwice(Climb(E, w, M[i].container));
      BackwardTwice(Climb(E, v, M[j].container));
      ClimbInjective(known, E, w, v, M[i].container, t, t);
    }
  }

  /** The count decides account-level path uniqueness of the graph behind the index. */
  lemma DuplicateIffNotUnique(known: Known, E: Edges, M: seq<AccountMembership>)
    requires Mirrors(known, E) && Complete(known, M)
    ensures HasDuplicate(known, M) <==> !AccountUnique(E, M)
  {
    hide UpWalk, IsPath, OutEdges;
    if HasDuplicate(known, M) { DuplicateIsConflict(known, E, M); }
    if !AccountUnique(E, M) {
      var i, j, p: Path, q: Path, s :| 0 <= i < |M| && 0 <= j < |M| && M[i].account == M[j].account
        && IsPath(E, p, s, M[i].container) && IsPath(E, q, s, M[j].container) && !(i == j && p == q);
      var w := PathToWalk(known, E, p, M[i].container, s);
      var v := PathToWalk(known, E, q, M[j].container, s);
      assert DuplicateRows(known, M, i, w, j, v, s);
    }
  }
}
