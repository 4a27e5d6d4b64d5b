/** The two callers that post effective balances: the inline batch, one pass per journal and date, and the rollup,
    one pass per transaction. */
module EffectiveBatch {
  import opened Primitives
  import opened Distinctness
  import opened Ordering
  import opened Snapshots
  import opened EntrySort
  import opened Balances
  import opened EffectiveData
  import opened EffectiveHistory
  import opened EffectivePosting

  datatype DatedTransaction = DatedTransaction(journal: JournalId, effective: Date, entries: seq<EntryValues>)

  /** How entries travel: the ancestor sets per journal, the accounts read, and the leaves the rollup owns (the inline path has none). */
  datatype Route = Route(enabled: set<JournalId>, mappings: AncestorMappings, accounts: AccountMeta, ecLeaves: Option<set<AccountId>>) {
    ghost function Reaching(entries: seq<EntryValues>, id: BalanceId): seq<EntryValues> {
      EntriesFor(TouchesOf(MappingsOf(mappings, id.journal), LeavesOf(ecLeaves), entries), id.AsKey())
    }

    /** The accounts this path maintains. */
    predicate Owns(a: AccountId) {
      a in accounts && accounts[a] == ecLeaves.Some?
    }

    ghost predicate Serves(id: BalanceId) {
      id.journal in enabled && Owns(id.account)
    }

    /** One posting of entries at a date, as balance `id` sees it. */
    ghost function PostTo(journal: JournalId, effective: Date, entries: seq<EntryValues>, id: BalanceId): seq<Posted> {
      if journal == id.journal && Serves(id) && Reaching(entries, id) != [] then [Posted(effective, Reaching(entries, id))] else []
    }

    /** The transactions one after the other, as balance `id` sees them. */
    ghost function TxPosts(txs: seq<DatedTransaction>, id: BalanceId): seq<Posted> {
      if txs == [] then []
      else TxPosts(txs[..|txs| - 1], id) + PostTo(txs[|txs| - 1].journal, txs[|txs| - 1].effective, txs[|txs| - 1].entries, id)
    }
  }

  // ---------------------------------------------------------------- one posting

  /** The pairs a posting involves: the fan-out of its entries, kept to the accounts of this path. */
  method Involved(route: Route, journal: JournalId, entries: seq<EntryValues>) returns (pairs: set<Key>)
    ensures forall id: BalanceId :: id.journal == journal ==>
              (id.AsKey() in pairs <==> route.Owns(id.account) && route.Reaching(entries, id) != [])
  {
    hide TouchesOf, EntriesFor, FanOut, Route.Owns;
    var own := MappingsOf(route.mappings, journal);
    ghost var leaves := LeavesOf(route.ecLeaves);
    pairs := {};
    NothingTouched(own, leaves);
    for i := 0 to |entries|
      invariant forall k: Key :: k in pairs <==> route.Owns(k.account) && EntriesFor(TouchesOf(own, leaves, entries[..i]), k) != []
    {
      var e := entries[i];
      var fan := SetsOf(own, e.accountId) + if route.ecLeaves.None? || e.accountId in route.ecLeaves.value then [e.accountId] else [];
      FanIs(own, route.ecLeaves, e, fan);
      ghost var before := pairs;
      for j := 0 to |fan|
        invariant forall k: Key :: k in pairs <==> k in before || (route.Owns(k.account) && e.currency == k.currency && k.account in fan[..j])
      {
        assert fan[..j + 1] == fan[..j] + [fan[j]];
        if route.Owns(fan[j]) { pairs := pairs + {Key(fan[j], e.currency)}; }
      }
      assert fan[..|fan|] == fan;
      assert entries[..i + 1] == entries[..i] + [e];
      forall k: Key ensures EntriesFor(TouchesOf(own, leaves, entries[..i + 1]), k) != [] <==>
                            EntriesFor(TouchesOf(own, leaves, entries[..i]), k) != [] || (e.currency == k.currency && k.account in fan) {
        TouchedIff(own, leaves, entries[..i], e, k);
      }
    }
    assert entries[..|entries|] == entries;
    forall id: BalanceId | id.journal == journal
      ensures id.AsKey() in pairs <==> route.Owns(id.account) && route.Reaching(entries, id) != [] {
    }
  }

  lemma NothingTouched(mappings: Mappings, leaves: iset<AccountId>)
    ensures forall k :: EntriesFor(TouchesOf(mappings, leaves, []), k) == []
  {
  }

  lemma FanIs(mappings: Mappings, ecLeaves: Option<set<AccountId>>, e: EntryValues, fan: seq<AccountId>)
    requires fan == SetsOf(mappings, e.accountId) + if ecLeaves.None? || e.accountId in ecLeaves.value then [e.accountId] else []
    ensures fan == FanOut(mappings, LeavesOf(ecLeaves), e)
  {
  }

  lemma TouchedIff(mappings: Mappings, leaves: iset<AccountId>, entries: seq<EntryValues>, e: EntryValues, k: Key)
    ensures EntriesFor(TouchesOf(mappings, leaves, entries + [e]), k) != [] <==>
            EntriesFor(TouchesOf(mappings, leaves, entries), k) != [] || (e.currency == k.currency && k.account in FanOut(mappings, leaves, e))
  {
    assert (entries + [e])[..|entries|] == entries;
    EntriesForConcat(TouchesOf(mappings, leaves, entries), TouchesOfEntry(mappings, leaves, e), k);
    SomeTouch(FanOut(mappings, leaves, e), e, k);
  }

  lemma {:induction false} SomeTouch(fan: seq<AccountId>, e: EntryValues, k: Key)
    ensures EntriesFor(seq(|fan|, i requires 0 <= i < |fan| => Touch(fan[i], e)), k) != [] <==> e.currency == k.currency && k.account in fan
  {
    var touches := seq(|fan|, i requires 0 <= i < |fan| => Touch(fan[i], e));
    if fan != [] {
      var n := |fan| - 1;
      assert touches[..n] == seq(n, i requires 0 <= i < n => Touch(fan[..n][i], e));
      SomeTouch(fan[..n], e, k);
      assert fan == fan[..n] + [fan[n]];
    }
  }

  // ---------------------------------------------------------------- what the callers provide

  /** Entries carry their transaction's journal and identities of their own, across the batch and against everything posted. */
  ghost predicate NewEntries(txs: seq<DatedTransaction>) {
    && (forall tx :: tx in txs ==> OwnEntries(tx.journal, tx.entries))
    && (forall i, j, x, y :: 0 <= i < j < |txs| && x in txs[i].entries && y in txs[j].entries ==> x.id != y.id)
  }

  ghost predicate UnseenBy(txs: seq<DatedTransaction>, posts: BalanceId -> seq<Posted>) {
    forall tx, id :: tx in txs ==> NotInPosts(tx.entries, posts(id))
  }

  ghost predicate NotInPosts(entries: seq<EntryValues>, posts: seq<Posted>) {
    forall post, e, x :: post in posts && e in entries && x in post.entries ==> e.id != x.id
  }

  /** No account is reached twice: what path uniqueness of the membership graph gives. */
  ghost predicate SinglePaths(route: Route) {
    forall journal, e :: Distinct(FanOut(MappingsOf(route.mappings, journal), LeavesOf(route.ecLeaves), e))
  }

  lemma {:induction false} PostedEntries(posts: seq<Posted>, x: EntryValues)
    requires x in Entries(LogAfter([], posts))
    ensures exists post :: post in posts && x in post.entries
  {
    if posts != [] {
      var n := |posts| - 1;
      var log, es := LogAfter([], posts[..n]), posts[n].entries;
      LogAfterByDate([], posts[..n]);
      InsertedMember(log, posts[n].date, es, x);
      if x !in es { PostedEntries(posts[..n], x); }
    }
  }

  lemma InsertedMember(log: Log, date: Date, es: seq<EntryValues>, x: EntryValues)
    requires ByDate(log) && x in Entries(Inserted(log, date, es))
    ensures x in es || x in Entries(log)
  {
    hide Inserted, ByDate, SortBySequence, Entries, UpTo;
    var j := UpTo(log, date);
    InsertedByDate(log, date, es);
    SortMembers(es, x);
    assert log == log[..j] + log[j..];
    EntriesConcat(log[..j], log[j..]);
  }

  lemma UnseenEntries(p: Posting, id: BalanceId, posts: seq<Posted>)
    requires p.Maintains(id) ==> NotInPosts(p.entries, posts)
    ensures Unseen(p, id, posts)
  {
    if p.Maintains(id) {
      forall e, x | e in p.entries && x in Entries(LogAfter([], posts)) ensures e.id != x.id {
        PostedEntries(posts, x);
      }
    }
  }

  /** Post one list of entries of one journal at one date. */
  method PostGroup(repo: EffectiveBalanceRepo, route: Route, journal: JournalId, effective: Date,
                   entries: seq<EntryValues>)
    requires repo.Valid() && SinglePaths(route) && OwnEntries(journal, entries) && journal in route.enabled
    requires forall id :: NotInPosts(entries, repo.posts(id))
    modifies repo
    ensures repo.Valid()
    ensures forall id :: repo.posts(id) == old(repo.posts)(id) + route.PostTo(journal, effective, entries, id)
  {
    hide EntriesFor, TouchesOf, FanOut, InStep, Unseen, NotInPosts, OwnEntries;
    var pairs := Involved(route, journal, entries);
    if pairs == {} { return; }
    var p := Posting(journal, entries, effective, MappingsOf(route.mappings, journal), pairs, route.accounts, route.ecLeaves);
    forall k | k in pairs ensures route.Owns(k.account) {
      assert BalanceId(journal, k.account, k.currency).AsKey() == k;
    }
    forall id ensures p.Maintains(id) <==> id.journal == journal && route.Owns(id.account) && route.Reaching(entries, id) != [] {
      MaintainsIff(p, route, id);
    }
    forall id ensures Unseen(p, id, repo.posts(id)) { UnseenEntries(p, id, repo.posts(id)); }
    repo.Post(p);
  }

  lemma MaintainsIff(p: Posting, route: Route, id: BalanceId)
    requires p.accounts == route.accounts && p.ecLeaves == route.ecLeaves
    requires forall k :: k in p.pairs ==> route.Owns(k.account)
    ensures p.Maintains(id) <==> id.journal == p.journal && id.AsKey() in p.pairs
  {
  }

  // ---------------------------------------------------------------- the rollup: one transaction after the other

  /** Every balance sees the transactions one by one, in order. */
  method ApplyEach(repo: EffectiveBalanceRepo, route: Route, txs: seq<DatedTransaction>)
    requires repo.Valid() && SinglePaths(route) && NewEntries(txs) && UnseenBy(txs, repo.posts)
    modifies repo
    ensures repo.Valid()
    ensures forall id :: repo.posts(id) == old(repo.posts)(id) + route.TxPosts(txs, id)
  {
    hide EffectiveBalanceRepo.Valid, SinglePaths, OwnEntries, Route.PostTo, Route.Reaching;
    ghost var past := repo.posts;
    for i := 0 to |txs|
      invariant repo.Valid()
      invariant forall id :: repo.posts(id) == past(id) + route.TxPosts(txs[..i], id)
    {
      assert txs[..i + 1][..i] == txs[..i];
      assert txs[i] in txs;
      forall id ensures NotInPosts(txs[i].entries, repo.posts(id)) { StillUnseen(route, txs, i, past, id); }
      if txs[i].journal in route.enabled {
        PostGroup(repo, route, txs[i].journal, txs[i].effective, txs[i].entries);
      } else {
        NotServed(route, txs[i]);
      }
    }
    assert txs[..|txs|] == txs;
  }

  lemma NotServed(route: Route, tx: DatedTransaction)
    requires tx.journal !in route.enabled
    ensures forall id :: route.PostTo(tx.journal, tx.effective, tx.entries, id) == []
  {
  }

  /** The entries of later transactions are still new. */
  lemma StillUnseen(route: Route, txs: seq<DatedTransaction>, i: nat, past: BalanceId -> seq<Posted>, id: BalanceId)
    requires i < |txs| && NewEntries(txs) && UnseenBy(txs, past) && SinglePaths(route)
    ensures NotInPosts(txs[i].entries, past(id) + route.TxPosts(txs[..i], id))
  {
    assert txs[i] in txs;
    var posts := past(id) + route.TxPosts(txs[..i], id);
    forall post, e, x | post in posts && e in txs[i].entries && x in post.entries ensures e.id != x.id {
      if post in past(id) {
        assert NotInPosts(txs[i].entries, past(id));
      } else {
        var l := TxOfPost(route, txs[..i], id, post);
        ReachedMember(route, txs[l].entries, id, x);
      }
    }
  }

  lemma {:induction false} TxOfPost(route: Route, txs: seq<DatedTransaction>, id: BalanceId, post: Posted)
    returns (l: nat)
    requires post in route.TxPosts(txs, id)
    ensures l < |txs| && txs[l].journal == id.journal && post == Posted(txs[l].effective, route.Reaching(txs[l].entries, id))
  {
    var n := |txs| - 1;
    hide Route.Reaching;
    if post in route.TxPosts(txs[..n], id) {
      l := TxOfPost(route, txs[..n], id, post);
    } else {
      l := n;
    }
  }

  lemma ReachedMember(route: Route, entries: seq<EntryValues>, id: BalanceId, x: EntryValues)
    requires x in route.Reaching(entries, id)
    ensures x in entries
  {
    TouchMember(MappingsOf(route.mappings, id.journal), LeavesOf(route.ecLeaves), entries, id.AsKey(), x);
  }

  lemma {:induction false} TouchMember(mappings: Mappings, leaves: iset<AccountId>, entries: seq<EntryValues>, k: Key,
                                       x: EntryValues)
    requires x in EntriesFor(TouchesOf(mappings, leaves, entries), k)
    ensures x in entries
  {
    if entries != [] {
      var n := |entries| - 1;
      EntriesForConcat(TouchesOf(mappings, leaves, entries[..n]), TouchesOfEntry(mappings, leaves, entries[n]), k);
      if x in EntriesFor(TouchesOf(mappings, leaves, entries[..n]), k) {
        TouchMember(mappings, leaves, entries[..n], k, x);
      } else {
        OnlyItself(FanOut(mappings, leaves, entries[n]), entries[n], k, x);
      }
    }
  }

  lemma {:induction false} OnlyItself(fan: seq<AccountId>, e: EntryValues, k: Key, x: EntryValues)
    requires x in EntriesFor(seq(|fan|, i requires 0 <= i < |fan| => Touch(fan[i], e)), k)
    ensures x == e
  {
    var touches := seq(|fan|, i requires 0 <= i < |fan| => Touch(fan[i], e));
    if fan != [] {
      var n := |fan| - 1;
      assert touches[..n] == seq(n, i requires 0 <= i < n => Touch(fan[..n][i], e));
      if x in EntriesFor(touches[..n], k) { OnlyItself(fan[..n], e, k, x); }
    }
  }

  // ---------------------------------------------------------------- the inline batch: one group per journal and date

  datatype GroupKey = GroupKey(journal: JournalId, effective: Date)

  predicate GroupLess(x: GroupKey, y: GroupKey) {
    x.journal < y.journal || (x.journal == y.journal && x.effective < y.effective)
  }

  /** The entries of one group, in input order. */
  function EntriesWith(txs: seq<DatedTransaction>, key: GroupKey): seq<EntryValues> {
    if txs == [] then []
    else
      var tx, front := txs[|txs| - 1], EntriesWith(txs[..|txs| - 1], key);
      if GroupKey(tx.journal, tx.effective) == key then front + tx.entries else front
  }

  ghost function GroupPosts(route: Route, txs: seq<DatedTransaction>, keys: seq<GroupKey>, id: BalanceId): seq<Posted> {
    if keys == [] then []
    else
      var key := keys[|keys| - 1];
      GroupPosts(route, txs, keys[..|keys| - 1], id) + route.PostTo(key.journal, key.effective, EntriesWith(txs, key), id)
  }

  ghost predicate Grouped(route: Route, txs: seq<DatedTransaction>, groups: map<GroupKey, seq<EntryValues>>) {
    forall key :: if key in groups then key.journal in route.enabled && groups[key] == EntriesWith(txs, key)
                  else key.journal in route.enabled ==> EntriesWith(txs, key) == []
  }

  /** Collect the batch into groups, in order of first appearance. */
  method CollectGroups(route: Route, txs: seq<DatedTransaction>)
    returns (groups: map<GroupKey, seq<EntryValues>>, order: seq<GroupKey>)
    ensures Grouped(route, txs, groups) && forall key :: key in order <==> key in groups
  {
    groups, order := map[], [];
    for i := 0 to |txs|
      invariant Grouped(route, txs[..i], groups) && forall key :: key in order <==> key in groups
    {
      assert txs[..i + 1][..i] == txs[..i];
      var tx := txs[i];
      var key := GroupKey(tx.journal, tx.effective);
      if tx.journal in route.enabled {
        if key in groups {
          groups := groups[key := groups[key] + tx.entries];
        } else {
          assert EntriesWith(txs[..i], key) + tx.entries == tx.entries;
          order := order + [key];
          groups := groups[key := tx.entries];
        }
      }
    }
    assert txs[..|txs|] == txs;
  }

  /** After the batch a balance has seen what it had before, and then one posting per date holding everything of that date. */
  ghost predicate SawBatch(route: Route, txs: seq<DatedTransaction>, id: BalanceId, before: seq<Posted>,
                           after: seq<Posted>) {
    |before| <= |after| && after[..|before|] == before && Groups(route.TxPosts(txs, id), after[|before|..])
  }

  method UpdateEffectiveBalances(repo: EffectiveBalanceRepo, route: Route, txs: seq<DatedTransaction>)
    requires repo.Valid() && SinglePaths(route) && NewEntries(txs) && UnseenBy(txs, repo.posts)
    modifies repo
    ensures repo.Valid()
    ensures forall id :: SawBatch(route, txs, id, old(repo.posts)(id), repo.posts(id))
  {
    hide EffectiveBalanceRepo.Valid, SinglePaths, OwnEntries, Route.PostTo, Route.Reaching, NewEntries, UnseenBy,
         SawBatch, EntriesWith, Route.TxPosts,
         Grouped, GroupLess, StrictOrder, Ascending, NotInPosts;
    GroupOrder();
    ghost var past := repo.posts;
    var groups, order := CollectGroups(route, txs);
    var keys := SortedDeduped<GroupKey>(GroupLess, order);
    for i := 0 to |keys|
      invariant repo.Valid()
      invariant forall id :: repo.posts(id) == past(id) + GroupPosts(route, txs, keys[..i], id)
    {
      assert keys[..i + 1][..i] == keys[..i];
      assert keys[i] in keys;
      GroupIs(route, txs, groups, keys[i]);
      GroupOwnEntries(txs, keys[i]);
      forall id ensures NotInPosts(groups[keys[i]], repo.posts(id)) { GroupUnseen(route, txs, keys, i, past, id); }
      PostGroup(repo, route, keys[i].journal, keys[i].effective, groups[keys[i]]);
    }
    assert keys[..|keys|] == keys;
    forall id ensures SawBatch(route, txs, id, past(id), repo.posts(id)) {
      GroupsAreGroups(route, txs, groups, keys, id);
      AppendedGroups(route, txs, id, past(id), GroupPosts(route, txs, keys, id));
    }
  }

  lemma GroupOrder()
    ensures StrictOrder(GroupLess)
  {
  }

  lemma GroupIs(route: Route, txs: seq<DatedTransaction>, groups: map<GroupKey, seq<EntryValues>>, key: GroupKey)
    requires Grouped(route, txs, groups) && key in groups
    ensures key.journal in route.enabled && groups[key] == EntriesWith(txs, key)
  {
  }

  lemma AppendedGroups(route: Route, txs: seq<DatedTransaction>, id: BalanceId, before: seq<Posted>,
                       groups: seq<Posted>)
    requires Groups(route.TxPosts(txs, id), groups)
    ensures SawBatch(route, txs, id, before, before + groups)
  {
    assert (before + groups)[|before|..] == groups;
  }

  // ---------------------------------------------------------------- groups gather what their transactions hold

  lemma ReachingConcat(route: Route, a: seq<EntryValues>, b: seq<EntryValues>, id: BalanceId)
    ensures route.Reaching(a + b, id) == route.Reaching(a, id) + route.Reaching(b, id)
    ensures route.Reaching([], id) == []
  {
    var own, leaves := MappingsOf(route.mappings, id.journal), LeavesOf(route.ecLeaves);
    TouchesConcat(own, leaves, a, b);
    EntriesForConcat(TouchesOf(own, leaves, a), TouchesOf(own, leaves, b), id.AsKey());
  }

  lemma {:induction false} GatheredConcat(a: seq<Posted>, b: seq<Posted>, d: Date)
    ensures Gathered(a + b, d) == Gathered(a, d) + Gathered(b, d)
  {
    if b == [] {
      assert a + b == a;
    } else {
      GatheredConcat(a, b[..|b| - 1], d);
      assert (a + b)[..|a + b| - 1] == a + b[..|b| - 1];
    }
  }

  lemma GatheredOne(route: Route, journal: JournalId, effective: Date, entries: seq<EntryValues>, id: BalanceId,
                    d: Date)
    ensures Gathered(route.PostTo(journal, effective, entries, id), d) ==
            if GroupKey(journal, effective) == GroupKey(id.journal, d) && route.Serves(id) then route.Reaching(entries, id) else []
  {
    var posts := route.PostTo(journal, effective, entries, id);
    if posts != [] { assert posts[..0] == []; }
  }

  lemma {:induction false} GatheredTxs(route: Route, txs: seq<DatedTransaction>, id: BalanceId, d: Date)
    ensures Gathered(route.TxPosts(txs, id), d) ==
            if route.Serves(id) then route.Reaching(EntriesWith(txs, GroupKey(id.journal, d)), id) else []
  {
    ReachingConcat(route, [], [], id);
    if txs != [] {
      var n, tx := |txs| - 1, txs[|txs| - 1];
      var front := EntriesWith(txs[..n], GroupKey(id.journal, d));
      GatheredTxs(route, txs[..n], id, d);
      GatheredOne(route, tx.journal, tx.effective, tx.entries, id, d);
      ReachingConcat(route, front, tx.entries, id);
      hide Route.Reaching, Route.PostTo, Gathered;
      GatheredConcat(route.TxPosts(txs[..n], id), route.PostTo(tx.journal, tx.effective, tx.entries, id), d);
    }
  }

  lemma {:induction false} GatheredGroups(route: Route, txs: seq<DatedTransaction>, keys: seq<GroupKey>,
                                          id: BalanceId, d: Date)
    requires Ascending(GroupLess, keys)
    ensures var key := GroupKey(id.journal, d);
            Gathered(GroupPosts(route, txs, keys, id), d) ==
            if key in keys && route.Serves(id) then route.Reaching(EntriesWith(txs, key), id) else []
  {
    if keys != [] {
      var n, key := |keys| - 1, keys[|keys| - 1];
      assert keys == keys[..n] + [key] && key !in keys[..n];
      GatheredGroups(route, txs, keys[..n], id, d);
      GatheredOne(route, key.journal, key.effective, EntriesWith(txs, key), id, d);
      hide Route.Reaching, Route.PostTo, Gathered, EntriesWith;
      GatheredConcat(GroupPosts(route, txs, keys[..n], id), route.PostTo(key.journal, key.effective, EntriesWith(txs, key), id), d);
    }
  }

  lemma DateHasKey(route: Route, txs: seq<DatedTransaction>, keys: seq<GroupKey>, id: BalanceId, i: nat)
    requires i < |GroupPosts(route, txs, keys, id)|
    ensures GroupKey(id.journal, GroupPosts(route, txs, keys, id)[i].date) in keys
  {
    var post := GroupPosts(route, txs, keys, id)[i];
    assert post in GroupPosts(route, txs, keys, id);
    var l := KeyOfPost(route, txs, keys, id, post);
  }

  /** One posting per date, in ascending order. */
  lemma {:induction false} GroupDates(route: Route, txs: seq<DatedTransaction>, keys: seq<GroupKey>, id: BalanceId)
    requires Ascending(GroupLess, keys)
    ensures forall i, j :: 0 <= i < j < |GroupPosts(route, txs, keys, id)| ==>
              GroupPosts(route, txs, keys, id)[i].date < GroupPosts(route, txs, keys, id)[j].date
  {
    if keys != [] {
      var n := |keys| - 1;
      GroupDates(route, txs, keys[..n], id);
      var front, posts := GroupPosts(route, txs, keys[..n], id), GroupPosts(route, txs, keys, id);
      forall i, j | 0 <= i < j < |posts| ensures posts[i].date < posts[j].date {
        assert posts[i] == front[i];
        DateHasKey(route, txs, keys[..n], id, i);
        if j >= |front| {
          assert GroupKey(id.journal, posts[j].date) == keys[n];
        } else {
          assert posts[j] == front[j];
        }
      }
    }
  }

  lemma GroupsAreGroups(route: Route, txs: seq<DatedTransaction>, groups: map<GroupKey, seq<EntryValues>>,
                        keys: seq<GroupKey>, id: BalanceId)
    requires Grouped(route, txs, groups) && Ascending(GroupLess, keys) && forall key :: key in keys <==> key in groups
    ensures Groups(route.TxPosts(txs, id), GroupPosts(route, txs, keys, id))
  {
    GroupDates(route, txs, keys, id);
    hide Gathered, GroupPosts, Route.TxPosts, EntriesWith, Route.Reaching;
    forall d ensures Gathered(GroupPosts(route, txs, keys, id), d) == Gathered(route.TxPosts(txs, id), d) {
      GatheredTxs(route, txs, id, d);
      GatheredGroups(route, txs, keys, id, d);
      ReachingConcat(route, [], [], id);
      assert GroupKey(id.journal, d) in keys <==> GroupKey(id.journal, d) in groups;
    }
  }

  // ---------------------------------------------------------------- identities across groups

  lemma {:induction false} EntryOfTx(txs: seq<DatedTransaction>, key: GroupKey, x: EntryValues) returns (l: nat)
    requires x in EntriesWith(txs, key)
    ensures l < |txs| && GroupKey(txs[l].journal, txs[l].effective) == key && x in txs[l].entries
  {
    var n := |txs| - 1;
    if x in EntriesWith(txs[..n], key) {
      l := EntryOfTx(txs[..n], key, x);
    } else {
      l := n;
    }
  }

  lemma {:induction false} GroupOwnEntries(txs: seq<DatedTransaction>, key: GroupKey)
    requires NewEntries(txs)
    ensures OwnEntries(key.journal, EntriesWith(txs, key))
  {
    if txs != [] {
      var n, tx := |txs| - 1, txs[|txs| - 1];
      assert forall i :: 0 <= i < n ==> txs[..n][i] == txs[i];
      GroupOwnEntries(txs[..n], key);
      assert tx in txs;
      forall x, y | x in EntriesWith(txs[..n], key) && y in tx.entries ensures x.id != y.id {
        var l := EntryOfTx(txs[..n], key, x);
        assert x in txs[l].entries && y in txs[n].entries;
      }
    }
  }

  lemma {:induction false} KeyOfPost(route: Route, txs: seq<DatedTransaction>, keys: seq<GroupKey>, id: BalanceId,
                                     post: Posted) returns (l: nat)
    requires post in GroupPosts(route, txs, keys, id)
    ensures l < |keys| && keys[l].journal == id.journal && post == Posted(keys[l].effective, route.Reaching(EntriesWith(txs, keys[l]), id))
  {
    hide Route.Reaching, EntriesWith;
    var n := |keys| - 1;
    if post in GroupPosts(route, txs, keys[..n], id) {
      l := KeyOfPost(route, txs, keys[..n], id, post);
    } else {
      l := n;
    }
  }

  lemma GroupUnseen(route: Route, txs: seq<DatedTransaction>, keys: seq<GroupKey>, i: nat,
                    past: BalanceId -> seq<Posted>, id: BalanceId)
    requires i < |keys| && NewEntries(txs) && UnseenBy(txs, past) && Ascending(GroupLess, keys)
    ensures NotInPosts(EntriesWith(txs, keys[i]), past(id) + GroupPosts(route, txs, keys[..i], id))
  {
    hide EntriesWith, Route.Reaching, GroupPosts;
    var posts := past(id) + GroupPosts(route, txs, keys[..i], id);
    forall post, e, x | post in posts && e in EntriesWith(txs, keys[i]) && x in post.entries ensures e.id != x.id {
      var m := EntryOfTx(txs, keys[i], e);
      if post in past(id) {
        assert txs[m] in txs && NotInPosts(txs[m].entries, past(id));
      } else {
        var l := KeyOfPost(route, txs, keys[..i], id, post);
        ReachedMember(route, EntriesWith(txs, keys[l]), id, x);
        var n := EntryOfTx(txs, keys[l], x);
        assert GroupLess(keys[l], keys[i]) && m != n;
        assert x in txs[n].entries && e in txs[m].entries;
      }
    }
  }

  // ---------------------------------------------------------------- what a balance shows

  lemma {:induction false} LogAfterConcat(log: Log, a: seq<Posted>, b: seq<Posted>)
    ensures LogAfter(log, a + b) == LogAfter(LogAfter(log, a), b)
  {
    if b == [] {
      assert a + b == a;
    } else {
      var n := |b| - 1;
      LogAfterConcat(log, a, b[..n]);
      assert a + b == (a + b[..n]) + [b[n]] && b == b[..n] + [b[n]];
      LogAfterSnoc(log, a + b[..n], b[n]);
      LogAfterSnoc(LogAfter(log, a), b[..n], b[n]);
    }
  }

  lemma NothingUpTo(d: Date, layer: Layer, direction: DebitOrCredit)
    ensures SumUpTo([], d, layer, direction) == 0 && UpTo([], d) == 0 && ByDate([]) && Units([], layer, direction) == 0
  {
  }

  /** What is found at a date: on every layer and side, everything posted on or before it, in whatever order it was
      posted; the row's all-time version counts those entries. */
  lemma FoundTotals(id: BalanceId, posts: seq<Posted>, d: Date, layer: Layer, direction: DebitOrCredit)
    ensures var log := LogAfter([], posts);
            && UpTo(log, d) == CountUpTo(posts, d)
            && (UpTo(log, d) > 0 ==>
                  RowAt(id, log, UpTo(log, d) - 1).allTimeVersion == CountUpTo(posts, d)
                  && RowAt(id, log, UpTo(log, d) - 1).values.Amount(layer).Side(direction) == PostedUpTo(posts, d, layer, direction))
            && (UpTo(log, d) == 0 ==> PostedUpTo(posts, d, layer, direction) == 0)
  {
    NothingUpTo(d, layer, direction);
    hide LogAfter, ByDate, PostedUpTo, CountUpTo, UpTo, SumUpTo, BalanceSnapshot.Amount, LastId;
    var log := LogAfter([], posts);
    LogAfterByDate([], posts);
    SumAfter([], posts, d, layer, direction);
    SumIsPrefix(log, d, layer, direction);
    if UpTo(log, d) > 0 {
      RowMeaning(id, log, UpTo(log, d) - 1, layer);
    } else {
      assert Entries(log)[..0] == [];
    }
  }

  /** Transaction by transaction, a balance's entries stay proper. */
  lemma {:induction false} OneByOneProper(route: Route, txs: seq<DatedTransaction>, n: nat, id: BalanceId,
                                          past: BalanceId -> seq<Posted>)
    requires SinglePaths(route) && NewEntries(txs) && UnseenBy(txs, past) && n <= |txs|
    requires ValidLog(id, LogAfter([], past(id)))
    ensures ValidLog(id, LogAfter([], past(id) + route.TxPosts(txs[..n], id)))
  {
    hide LogAfter, ByDate, Proper, SinglePaths, NewEntries, UnseenBy, Route.PostTo, ValidLog;
    var posts := past(id) + route.TxPosts(txs[..n], id);
    if n == 0 {
      assert posts == past(id);
    } else {
      var tx, before := txs[n - 1], past(id) + route.TxPosts(txs[..n - 1], id);
      OneByOneProper(route, txs, n - 1, id, past);
      assert txs[..n][..n - 1] == txs[..n - 1];
      assert posts == before + route.PostTo(tx.journal, tx.effective, tx.entries, id);
      StillUnseen(route, txs, n - 1, past, id);
      PostToProper(route, txs, n - 1, id, before);
    }
  }

  lemma PostToProper(route: Route, txs: seq<DatedTransaction>, n: nat, id: BalanceId, before: seq<Posted>)
    requires SinglePaths(route) && NewEntries(txs) && n < |txs| && ValidLog(id, LogAfter([], before))
    requires NotInPosts(txs[n].entries, before)
    ensures ValidLog(id, LogAfter([], before + route.PostTo(txs[n].journal, txs[n].effective, txs[n].entries, id)))
  {
    hide LogAfter, ByDate, Proper, EntriesFor, TouchesOf, FanOut, Inserted, NotInPosts, Entries;
    var tx, log := txs[n], LogAfter([], before);
    if route.PostTo(tx.journal, tx.effective, tx.entries, id) == [] {
      assert before + [] == before;
    } else {
      assert tx in txs;
      NotInLog(tx.entries, before);
      NextProper(id, log, tx.effective, tx.entries, MappingsOf(route.mappings, id.journal), LeavesOf(route.ecLeaves));
      InsertedByDate(log, tx.effective, route.Reaching(tx.entries, id));
      LogAfterSnoc([], before, Posted(tx.effective, route.Reaching(tx.entries, id)));
    }
  }

  lemma NotInLog(entries: seq<EntryValues>, posts: seq<Posted>)
    requires NotInPosts(entries, posts)
    ensures NotIn(entries, Entries(LogAfter([], posts)))
  {
    forall e, x | e in entries && x in Entries(LogAfter([], posts)) ensures e.id != x.id {
      PostedEntries(posts, x);
    }
  }

  /** After an inline batch of new entries, a balance shows the same rows as after its transactions one by one exactly
      when, within each date, later transactions carry no smaller sequence numbers. */
  lemma BatchShowsSameRows(route: Route, txs: seq<DatedTransaction>, id: BalanceId, past: BalanceId -> seq<Posted>,
                           after: seq<Posted>)
    requires SinglePaths(route) && NewEntries(txs) && UnseenBy(txs, past) && ValidLog(id, LogAfter([], past(id)))
    requires SawBatch(route, txs, id, past(id), after)
    ensures SameRows(id, LogAfter([], after), LogAfter([], past(id) + route.TxPosts(txs, id))) <==>
              InSequence(route.TxPosts(txs, id))
  {
    hide Groups, Route.TxPosts, SameRows, InSequence, LogAfter, SinglePaths, NewEntries, UnseenBy, ByDate, Entries;
    var log, groups := LogAfter([], past(id)), after[|past(id)|..];
    assert txs[..|txs|] == txs;
    OneByOneProper(route, txs, |txs|, id, past);
    assert after == past(id) + groups;
    LogAfterConcat([], past(id), groups);
    LogAfterConcat([], past(id), route.TxPosts(txs, id));
    BatchRowsEqual(id, log, route.TxPosts(txs, id), groups);
  }

  /** Whatever the sequence numbers, both agree at the end of every date. */
  lemma BatchShowsSameEndOfDate(route: Route, txs: seq<DatedTransaction>, id: BalanceId, before: seq<Posted>,
                                after: seq<Posted>,
                                d: Date, layer: Layer, direction: DebitOrCredit)
    requires SawBatch(route, txs, id, before, after)
    ensures var once, apart := LogAfter([], after), LogAfter([], before + route.TxPosts(txs, id));
            && UpTo(once, d) == UpTo(apart, d)
            && (UpTo(apart, d) > 0 ==>
                  var r, s := RowAt(id, once, UpTo(apart, d) - 1), RowAt(id, apart, UpTo(apart, d) - 1);
                  && r.effective == s.effective && r.allTimeVersion == s.allTimeVersion && r.values.version == s.values.version
                  && r.values.Amount(layer).Side(direction) == s.values.Amount(layer).Side(direction))
  {
    hide Groups, Route.TxPosts, LogAfter, UpTo, RowAt, BalanceSnapshot.Amount, BalanceAmount.Side;
    var groups := after[|before|..];
    LogAfterByDate([], before);
    assert after == before + groups;
    LogAfterConcat([], before, groups);
    LogAfterConcat([], before, route.TxPosts(txs, id));
    BatchAgreesAtEndOfDate(id, LogAfter([], before), route.TxPosts(txs, id), groups, d, layer, direction);
  }
}
