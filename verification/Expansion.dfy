/** Ancestor resolution and the double-membership check, answered from a snapshot. */
module Expansion {
  import opened Primitives
  import opened Distinctness
  import opened Ordering
  import opened Graph
  import opened SetDags
  import opened GraphCache
  import opened AccountPaths

  /** Op-local nodes for sets the shared snapshot does not know. */
  datatype Overlay = Overlay(parents: map<AccountSetId, seq<AccountSetId>>, meta: map<AccountSetId, SetMeta>)

  function MetaOf(snapshot: GraphSnapshot, overlay: Option<Overlay>, id: AccountSetId): Option<SetMeta> {
    if id in snapshot.meta then Some(snapshot.meta[id])
    else if overlay.Some? && id in overlay.value.meta then Some(overlay.value.meta[id])
    else None
  }

  function ParentsOf(snapshot: GraphSnapshot, overlay: Option<Overlay>, id: AccountSetId): seq<AccountSetId> {
    if id in snapshot.parents then snapshot.parents[id]
    else if overlay.Some? then Listed(overlay.value.parents, id)
    else []
  }

  /** The sets the lookup knows, with their containers. */
  function KnownParents(snapshot: GraphSnapshot, overlay: Option<Overlay>): (known: Known)
    ensures forall id :: id in known <==> MetaOf(snapshot, overlay, id).Some?
  {
    var ids := snapshot.meta.Keys + if overlay.Some? then overlay.value.meta.Keys else {};
    map id | id in ids :: ParentsOf(snapshot, overlay, id)
  }

  /** A snapshot of the graph, and an overlay that agrees with it, mirror the graph together. */
  lemma LookupMirrors(snapshot: GraphSnapshot, overlay: Option<Overlay>, E: Edges)
    requires Indexed(snapshot.parents, snapshot.children, E)
    requires overlay.Some? ==> forall n :: n in overlay.value.parents ==> overlay.value.parents[n] == Parents(E, n)
    ensures Mirrors(KnownParents(snapshot, overlay), E)
  {
    hide OutEdges, Children;
    forall n | n in KnownParents(snapshot, overlay) ensures KnownParents(snapshot, overlay)[n] == Parents(E, n) {
      assert Listed(snapshot.parents, n) == Parents(E, n);
    }
  }

  // ---------------------------------------------------------------- expansion of one account

  lemma {:induction false} ReachedStaysIn(known: Known, S: set<AccountSetId>, w: seq<nat>, from: AccountSetId,
                                          to: AccountSetId)
    requires from in S && UpWalk(known, w, from, to)
    requires forall x, k :: x in S && x in known && 0 <= k < |known[x]| ==> known[x][k] in S
    ensures to in S
  {
    if w != [] {
      ReachedStaysIn(known, S, w[1..], known[from][w[0]], to);
    }
  }

  lemma ReachedStep(known: Known, seeds: seq<AccountSetId>, x: AccountSetId, k: nat)
    requires ReachedFrom(known, seeds, x) && x in known && k < |known[x]|
    ensures ReachedFrom(known, seeds, known[x][k])
  {
    var i, w: seq<nat> :| 0 <= i < |seeds| && UpWalk(known, w, seeds[i], x);
    WalkSnoc(known, w, k, seeds[i], x);
  }

  lemma ReachedSeed(known: Known, seeds: seq<AccountSetId>, i: nat)
    requires i < |seeds|
    ensures ReachedFrom(known, seeds, seeds[i])
  {
    var nothing: seq<nat> := [];
    assert UpWalk(known, nothing, seeds[i], seeds[i]);
  }

  ghost function ReachedSet(known: Known, seeds: seq<AccountSetId>): iset<AccountSetId> {
    iset x | ReachedFrom(known, seeds, x)
  }

  ghost predicate ExpandState(known: Known, seeds: seq<AccountSetId>, visited: set<AccountSetId>,
                              queue: seq<AccountSetId>) {
    && visited <= known.Keys
    && (forall x :: x in visited || x in queue ==> ReachedFrom(known, seeds, x))
    && (forall x :: x in seeds ==> x in visited || x in queue)
    && (forall x, k :: x in visited && 0 <= k < |known[x]| ==> known[x][k] in visited || known[x][k] in queue)
  }

  lemma ExpandStart(known: Known, seeds: seq<AccountSetId>)
    ensures ExpandState(known, seeds, {}, seeds)
  {
    forall x | x in seeds ensures ReachedFrom(known, seeds, x) {
      var i :| 0 <= i < |seeds| && seeds[i] == x;
      ReachedSeed(known, seeds, i);
    }
  }

  lemma ExpandVisit(known: Known, seeds: seq<AccountSetId>, visited: set<AccountSetId>, queue: seq<AccountSetId>)
    requires ExpandState(known, seeds, visited, queue) && queue != []
    ensures ReachedFrom(known, seeds, queue[0])
    ensures queue[0] in visited ==> ExpandState(known, seeds, visited, queue[1..])
    ensures queue[0] in known ==> ExpandState(known, seeds, visited + {queue[0]}, queue[1..] + known[queue[0]])
  {
    hide ReachedFrom;
    assert queue == [queue[0]] + queue[1..];
    if queue[0] in known {
      forall k | 0 <= k < |known[queue[0]]| ensures ReachedFrom(known, seeds, known[queue[0]][k]) {
        ReachedStep(known, seeds, queue[0], k);
      }
    }
  }

  lemma ExpandEnd(known: Known, seeds: seq<AccountSetId>, visited: set<AccountSetId>)
    requires ExpandState(known, seeds, visited, [])
    ensures forall x :: x in visited <==> ReachedFrom(known, seeds, x)
  {
    forall x | ReachedFrom(known, seeds, x) ensures x in visited {
      var i, w: seq<nat> :| 0 <= i < |seeds| && UpWalk(known, w, seeds[i], x);
      assert seeds[i] in seeds;
      ReachedStaysIn(known, visited, w, seeds[i], x);
    }
  }

  /** The resolved ancestors of one account in the journal, and the synchronous ones among them. */
  datatype Ancestors = Ancestors(all: seq<AccountSetId>, nonEc: seq<AccountSetId>)

  ghost predicate IsAncestors(snapshot: GraphSnapshot, overlay: Option<Overlay>, journal: JournalId,
                              reached: iset<AccountSetId>, r: Ancestors) {
    && Distinct(r.all) && Distinct(r.nonEc)
    && (forall x :: x in r.all <==> x in reached && MetaOf(snapshot, overlay, x).Some?
                                    && MetaOf(snapshot, overlay, x).value.journalId == journal)
    && (forall x :: x in r.nonEc <==> x in r.all && !MetaOf(snapshot, overlay, x).value.eventuallyConsistent)
  }

  lemma NoAncestors(snapshot: GraphSnapshot, overlay: Option<Overlay>, journal: JournalId, visited: set<AccountSetId>)
    requires visited == {}
    ensures IsAncestors(snapshot, overlay, journal, (iset x | x in visited), Ancestors([], []))
  {
  }

  lemma AncestorsEnd(snapshot: GraphSnapshot, overlay: Option<Overlay>, journal: JournalId, seeds: seq<AccountSetId>,
                     visited: set<AccountSetId>, r: Ancestors)
    requires IsAncestors(snapshot, overlay, journal, (iset x | x in visited), r)
    requires forall x :: x in visited <==> ReachedFrom(KnownParents(snapshot, overlay), seeds, x)
    ensures IsAncestors(snapshot, overlay, journal, ReachedSet(KnownParents(snapshot, overlay), seeds), r)
  {
    hide ReachedFrom, KnownParents;
  }

  lemma ExpandLookup(snapshot: GraphSnapshot, overlay: Option<Overlay>, id: AccountSetId)
    requires MetaOf(snapshot, overlay, id).Some?
    ensures id in KnownParents(snapshot, overlay) && KnownParents(snapshot, overlay)[id] == ParentsOf(snapshot, overlay, id)
  {
  }

  lemma AncestorsStep(snapshot: GraphSnapshot, overlay: Option<Overlay>, journal: JournalId,
                      visited: set<AccountSetId>, r: Ancestors, id: AccountSetId)
    requires IsAncestors(snapshot, overlay, journal, (iset x | x in visited), r)
    requires id !in visited && MetaOf(snapshot, overlay, id).Some?
    ensures var meta := MetaOf(snapshot, overlay, id).value;
            IsAncestors(snapshot, overlay, journal, (iset x | x in visited + {id}),
                        if meta.journalId != journal then r
                        else Ancestors(r.all + [id], if meta.eventuallyConsistent then r.nonEc else r.nonEc + [id]))
  {
  }

  /** Breadth-first walk that passes through sets of other journals and keeps those of this one. */
  method ExpandAccount(snapshot: GraphSnapshot, overlay: Option<Overlay>, journal: JournalId, seeds: seq<AccountSetId>)
    returns (r: Option<Ancestors>)
    ensures r.None? <==> !CompleteSeeds(KnownParents(snapshot, overlay), seeds)
    ensures r.Some? ==> IsAncestors(snapshot, overlay, journal,
                                    ReachedSet(KnownParents(snapshot, overlay), seeds), r.value)
  {
    hide ReachedFrom, ExpandState, IsAncestors, KnownParents, ParentsOf;
    ghost var known := KnownParents(snapshot, overlay);
    var visited: set<AccountSetId> := {};
    var queue := seeds;
    var all: seq<AccountSetId>, nonEc: seq<AccountSetId> := [], [];
    ExpandStart(known, seeds);
    NoAncestors(snapshot, overlay, journal, visited);
    while queue != []
      invariant ExpandState(known, seeds, visited, queue)
      invariant visited <= known.Keys
      invariant IsAncestors(snapshot, overlay, journal, (iset x | x in visited), Ancestors(all, nonEc))
      decreases |known.Keys| - |visited|, |queue|
    {
      var id := queue[0];
      ExpandVisit(known, seeds, visited, queue);
      if id in visited {
        queue := queue[1..];
      } else {
        var meta := MetaOf(snapshot, overlay, id);
        if meta.None? {
          assert !CompleteSeeds(known, seeds);
          return None;
        }
        ExpandLookup(snapshot, overlay, id);
        SubsetCardinality(visited + {id}, known.Keys);
        assert |visited + {id}| == |visited| + 1;
        AncestorsStep(snapshot, overlay, journal, visited, Ancestors(all, nonEc), id);
        visited := visited + {id};
        if meta.value.journalId == journal {
          all := all + [id];
          if !meta.value.eventuallyConsistent {
            nonEc := nonEc + [id];
          }
        }
        queue := queue[1..] + ParentsOf(snapshot, overlay, id);
      }
    }
    ExpandEnd(known, seeds, visited);
    AncestorsEnd(snapshot, overlay, journal, seeds, visited, Ancestors(all, nonEc));
    r := Some(Ancestors(all, nonEc));
  }

  // ---------------------------------------------------------------- expansion of a posting

  /** One entry account with one of its currencies. */
  datatype EntryPair = EntryPair(account: AccountId, currency: Currency)

  datatype LockPair = LockPair(setId: AccountSetId, currency: Currency)

  predicate LockPairLess(x: LockPair, y: LockPair) {
    x.setId < y.setId || (x.setId == y.setId && x.currency < y.currency)
  }

  datatype Resolution = Resolution(mappings: map<AccountId, seq<AccountSetId>>, lockPairs: seq<LockPair>)

  ghost function Reached(snapshot: GraphSnapshot, overlay: Option<Overlay>, seeds: seq<AccountMembership>,
                         account: AccountId): iset<AccountSetId> {
    ReachedSet(KnownParents(snapshot, overlay), SeedsOf(seeds, account))
  }

  /** `x` is a set of the journal at or above a seed of the account. */
  ghost predicate IsAncestorOf(snapshot: GraphSnapshot, overlay: Option<Overlay>, journal: JournalId,
                               seeds: seq<AccountMembership>, account: AccountId, x: AccountSetId)
  {
    && x in Reached(snapshot, overlay, seeds, account)
    && MetaOf(snapshot, overlay, x).Some? && MetaOf(snapshot, overlay, x).value.journalId == journal
  }

  ghost predicate IsSyncAncestorOf(snapshot: GraphSnapshot, overlay: Option<Overlay>, journal: JournalId,
                                   seeds: seq<AccountMembership>, account: AccountId, x: AccountSetId)
  {
    && IsAncestorOf(snapshot, overlay, journal, seeds, account, x)
    && !MetaOf(snapshot, overlay, x).value.eventuallyConsistent
  }

  method Expand(snapshot: GraphSnapshot, overlay: Option<Overlay>, journal: JournalId,
                seeds: seq<AccountMembership>, entries: seq<EntryPair>) returns (r: Option<Resolution>)
    ensures r.None? <==> !Complete(KnownParents(snapshot, overlay), seeds)
    ensures r.Some? ==> forall a :: a in r.value.mappings ==> r.value.mappings[a] != [] && Distinct(r.value.mappings[a])
    ensures r.Some? ==> forall a, x :: x in Listed(r.value.mappings, a) <==>
              IsAncestorOf(snapshot, overlay, journal, seeds, a, x)
    ensures r.Some? ==> Ascending(LockPairLess, r.value.lockPairs)
    ensures r.Some? ==> forall p :: p in r.value.lockPairs <==>
              exists e :: e in entries && e.currency == p.currency && IsSyncAncestorOf(snapshot, overlay, journal, seeds, e.account, p.setId)
  {
    hide IsAncestors, Complete, CompleteSeeds, SeedsOf, ReachedFrom;
    var perAccount := GroupSeeds(seeds);
    CompleteByAccount(KnownParents(snapshot, overlay), seeds);
    var mappings: map<AccountId, seq<AccountSetId>>, nonEc: map<AccountId, seq<AccountSetId>> := map[], map[];
    var accounts := perAccount.Keys;
    while accounts != {}
      invariant accounts <= perAccount.Keys
      invariant forall a :: a in perAccount && a !in accounts ==>
                  CompleteSeeds(KnownParents(snapshot, overlay), SeedsOf(seeds, a))
      invariant forall a :: a in perAccount && a !in accounts ==>
                  IsAncestors(snapshot, overlay, journal, Reached(snapshot, overlay, seeds, a), Ancestors(Listed(mappings, a), Listed(nonEc, a)))
      invariant forall a :: a !in perAccount || a in accounts ==> a !in mappings && a !in nonEc
      invariant forall a :: a in mappings ==> mappings[a] != []
      decreases accounts
    {
      var a :| a in accounts;
      assert perAccount[a] == Listed(perAccount, a);
      var found := ExpandAccount(snapshot, overlay, journal, perAccount[a]);
      if found.None? {
        return None;
      }
      if found.value.nonEc != [] {
        nonEc := nonEc[a := found.value.nonEc];
      }
      if found.value.all != [] {
        mappings := mappings[a := found.value.all];
      }
      assert Ancestors(Listed(mappings, a), Listed(nonEc, a)) == found.value;
      accounts := accounts - {a};
    }
    forall a ensures IsAncestors(snapshot, overlay, journal, Reached(snapshot, overlay, seeds, a), Ancestors(Listed(mappings, a), Listed(nonEc, a)))
             ensures CompleteSeeds(KnownParents(snapshot, overlay), SeedsOf(seeds, a))
    {
      if a !in perAccount {
        NothingReached(snapshot, overlay, journal, seeds, a);
      }
    }
    var pairs := CollectLockPairs(entries, nonEc);
    LockPairOrder();
    var lockPairs := SortedDeduped(LockPairLess, pairs);
    ResolutionMeaning(snapshot, overlay, journal, seeds, entries, mappings, nonEc, lockPairs);
    r := Some(Resolution(mappings, lockPairs));
  }

  /** Each leaf's currencies go to exactly its own ancestors. */
  method CollectLockPairs(entries: seq<EntryPair>, nonEc: map<AccountId, seq<AccountSetId>>)
    returns (pairs: seq<LockPair>)
    ensures forall p :: p in pairs <==> exists e :: e in entries && e.currency == p.currency && p.setId in Listed(nonEc, e.account)
  {
    pairs := [];
    for k := 0 to |entries|
      invariant forall p :: p in pairs <==> exists e :: e in entries[..k] && e.currency == p.currency && p.setId in Listed(nonEc, e.account)
    {
      var e := entries[k];
      var sets := Listed(nonEc, e.account);
      var own := seq(|sets|, i requires 0 <= i < |sets| => LockPair(sets[i], e.currency));
      assert forall p :: p in own <==> p.currency == e.currency && p.setId in sets by {
        forall p: LockPair | p.currency == e.currency && p.setId in sets ensures p in own {
          var i :| 0 <= i < |sets| && sets[i] == p.setId;
          assert own[i] == p;
        }
      }
      assert entries[..k + 1] == entries[..k] + [e];
      pairs := pairs + own;
    }
    assert entries[..|entries|] == entries;
  }

  lemma LockPairOrder()
    ensures StrictOrder(LockPairLess)
  {
  }

  lemma NothingReached(snapshot: GraphSnapshot, overlay: Option<Overlay>, journal: JournalId,
                       seeds: seq<AccountMembership>, a: AccountId)
    requires SeedsOf(seeds, a) == []
    ensures IsAncestors(snapshot, overlay, journal, Reached(snapshot, overlay, seeds, a), Ancestors([], []))
    ensures CompleteSeeds(KnownParents(snapshot, overlay), SeedsOf(seeds, a))
  {
  }

  lemma ResolutionMeaning(snapshot: GraphSnapshot, overlay: Option<Overlay>, journal: JournalId,
                          seeds: seq<AccountMembership>,
                          entries: seq<EntryPair>, mappings: map<AccountId, seq<AccountSetId>>, nonEc: map<AccountId, seq<AccountSetId>>,
                          lockPairs: seq<LockPair>)
    requires forall a :: IsAncestors(snapshot, overlay, journal, Reached(snapshot, overlay, seeds, a), Ancestors(Listed(mappings, a), Listed(nonEc, a)))
    requires forall p :: p in lockPairs <==> exists e :: e in entries && e.currency == p.currency && p.setId in Listed(nonEc, e.account)
    ensures forall a :: a in mappings ==> Distinct(mappings[a])
    ensures forall a, x :: x in Listed(mappings, a) <==> IsAncestorOf(snapshot, overlay, journal, seeds, a, x)
    ensures forall p :: p in lockPairs <==>
              exists e :: e in entries && e.currency == p.currency && IsSyncAncestorOf(snapshot, overlay, journal, seeds, e.account, p.setId)
  {
    hide Reached;
    forall a ensures a in mappings ==> Distinct(mappings[a]) {
      assert IsAncestors(snapshot, overlay, journal, Reached(snapshot, overlay, seeds, a), Ancestors(Listed(mappings, a), Listed(nonEc, a)));
    }
    forall a, x ensures x in Listed(mappings, a) <==> IsAncestorOf(snapshot, overlay, journal, seeds, a, x)
                ensures x in Listed(nonEc, a) <==> IsSyncAncestorOf(snapshot, overlay, journal, seeds, a, x)
    {
      assert IsAncestors(snapshot, overlay, journal, Reached(snapshot, overlay, seeds, a), Ancestors(Listed(mappings, a), Listed(nonEc, a)));
    }
  }

  // ---------------------------------------------------------------- agreement with the recursive walk

  /** What the walk over the edge table resolves: the ancestors of a direct membership, the membership included. */
  ghost predicate WalkReaches(E: Edges, seeds: seq<AccountMembership>, account: AccountId, x: AccountSetId) {
    exists i :: 0 <= i < |seeds| && seeds[i].account == account && Reach(E, x, seeds[i].container)
  }

  lemma ExpansionIsWalk(snapshot: GraphSnapshot, overlay: Option<Overlay>, E: Edges, seeds: seq<AccountMembership>,
                        account: AccountId, x: AccountSetId)
    requires Mirrors(KnownParents(snapshot, overlay), E) && Complete(KnownParents(snapshot, overlay), seeds)
    ensures x in Reached(snapshot, overlay, seeds, account) <==> WalkReaches(E, seeds, account, x)
  {
    hide UpWalk, IsPath, OutEdges, KnownParents;
    var known := KnownParents(snapshot, overlay);
    if x in Reached(snapshot, overlay, seeds, account) {
      var k, w: seq<nat> :| 0 <= k < |SeedsOf(seeds, account)| && UpWalk(known, w, SeedsOf(seeds, account)[k], x);
      var i := OutEdges(SeedEdges(seeds), account)[k];
      WalkToPath(known, E, w, seeds[i].container, x);
      assert Reach(E, x, seeds[i].container);
    }
    if WalkReaches(E, seeds, account, x) {
      var i :| 0 <= i < |seeds| && seeds[i].account == account && Reach(E, x, seeds[i].container);
      var p: Path :| IsPath(E, p, x, seeds[i].container);
      var w := PathToWalk(known, E, p, seeds[i].container, x);
      var k := SeedPosition(seeds, i);
      IsReached(known, SeedsOf(seeds, account), k, w, x);
    }
  }

  // ---------------------------------------------------------------- double membership

  datatype AttachOutcome = Attached | MemberAlreadyAdded

  /** Path uniqueness of the new memberships together with the probed ones. `conflict` is the answer
      of the recursive statement, asked only when the snapshot is stale or does not know a set. */
  method AssertNoDoubleMembership(snapshot: GraphSnapshot, overlay: Option<Overlay>, probeEpoch: int, ghost E: Edges,
                                  members: seq<AccountMembership>, probed: seq<AccountMembership>, conflict: bool)
    returns (r: AttachOutcome)
    requires snapshot.epoch == probeEpoch ==> Mirrors(KnownParents(snapshot, overlay), E)
    requires conflict <==> !AccountUnique(E, members + probed)
    ensures r == Attached <==> AccountUnique(E, members + probed)
  {
    hide Mirrors, KnownParents, AccountUnique, HasDuplicate, Complete;
    if snapshot.epoch != probeEpoch {
      return if conflict then MemberAlreadyAdded else Attached;
    }
    var known := KnownParents(snapshot, overlay);
    var answer := HasDuplicateAccountMembershipPaths(members, probed, known);
    match answer {
      case Some(false) =>
        DuplicateIffNotUnique(known, E, members + probed);
        return Attached;
      case Some(true) =>
        DuplicateIsConflict(known, E, members + probed);
        return MemberAlreadyAdded;
      case None =>
        return if conflict then MemberAlreadyAdded else Attached;
    }
  }
}
