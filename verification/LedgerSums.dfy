/** The ledger as a whole: postings and guarded changes of the membership graph, each atomic, with every balance
    maintained inline. Set balances stay the sums of what they contain, and double entry is conserved. */
module LedgerSums {
  import opened Primitives
  import opened Distinctness
  import opened Graph
  import opened Snapshots
  import opened Balances
  import opened Sums
  import AccountPaths
  import Expansion
  import GraphCache
  import MembershipProtocol
  import TxTemplate

  datatype Ledger = Ledger(edges: Edges, members: set<AccountMembership>, journalOf: map<AccountSetId, JournalId>,
                           accounts: set<AccountId>, table: Table)
  {
    /** The account is contained in the set, directly or through other sets. */
    ghost predicate InSet(a: AccountId, x: AccountSetId) {
      exists m :: m in members && m.account == a && Reach(edges, x, m.container)
    }

    /** The leaf accounts of a set. */
    ghost function Below(x: AccountSetId): set<AccountId> {
      set a | a in accounts && InSet(a, x)
    }

    ghost function Amount(id: BalanceId, layer: Layer, direction: DebitOrCredit): int {
      SideOf(Lookup(table, id), layer, direction)
    }

    /** The amounts of one journal, currency, layer and side, by account. */
    ghost function Amounts(journal: JournalId, c: Cell): AccountId -> int {
      (a: AccountId) => Amount(BalanceId(journal, a, c.currency), c.layer, c.direction)
    }

    /** The guard of every membership change: no activity of the member in the journal. */
    ghost predicate HistoryEmpty(journal: JournalId, member: AccountId) {
      forall currency :: BalanceId(journal, member, currency) !in table
    }
  }

  datatype Cell = Cell(currency: Currency, layer: Layer, direction: DebitOrCredit)

  // ---------------------------------------------------------------- the steps

  datatype Step =
    | Post(txs: seq<Transaction>, mappings: AncestorMappings)
    | CreateAccount(account: AccountId, initial: Option<AccountSetId>)
    | CreateSet(x: AccountSetId, journal: JournalId)
    | AttachAccount(row: AccountMembership)
    | DetachAccount(row: AccountMembership)
    | AttachSets(batch: Edges)
    | DetachSet(edge: SetMembership)

  /** The mappings of a posting: for every entry account, each set of the journal that contains it, once. */
  ghost predicate Resolved(s: Ledger, txs: seq<Transaction>, mappings: AncestorMappings) {
    forall journal, e :: e in JournalEntries(txs, journal) ==>
      var sets := SetsOf(MappingsOf(mappings, journal), e.accountId);
      && Distinct(sets)
      && forall x :: x in sets <==> x in s.journalOf && s.journalOf[x] == journal && s.InSet(e.accountId, x)
  }

  ghost predicate SameJournal(s: Ledger, e: SetMembership) {
    e.container in s.journalOf && e.member in s.journalOf && s.journalOf[e.container] == s.journalOf[e.member]
  }

  ghost predicate NextStep(s: Ledger, t: Ledger, step: Step) {
    match step
    case Post(txs, mappings) =>
      && (forall tx :: tx in txs ==> tx.Valid())
      && (forall tx, e :: tx in txs && e in tx.entries ==> e.accountId in s.accounts)
      && Resolved(s, txs, mappings)
      && t == s.(table := t.table)
      && forall id :: Lookup(t.table, id) == After(Lookup(s.table, id), txs, mappings, ALL_LEAVES, id)
    case CreateAccount(a, initial) =>
      && a !in s.accounts && a !in s.journalOf
      && (initial.Some? ==> initial.value in s.journalOf)
      && t == s.(accounts := s.accounts + {a},
                 members := if initial.Some? then s.members + {AccountMembership(initial.value, a)} else s.members)
    case CreateSet(x, journal) =>
      && x !in s.accounts && x !in s.journalOf
      && t == s.(journalOf := s.journalOf[x := journal])
    case AttachAccount(row) =>
      && row.container in s.journalOf && row.account in s.accounts
      && s.HistoryEmpty(s.journalOf[row.container], row.account)
      && MembershipProtocol.AttachAccepted(s.edges, s.members, {row})
      && t == s.(members := s.members + {row})
    case DetachAccount(row) =>
      && row.container in s.journalOf
      && s.HistoryEmpty(s.journalOf[row.container], row.account)
      && t == s.(members := s.members - {row})
    case AttachSets(batch) =>
      && (forall e :: e in batch ==> SameJournal(s, e) && s.HistoryEmpty(s.journalOf[e.container], e.member))
      && MembershipProtocol.ValidTables(s.edges + batch, s.members)
      && t == s.(edges := s.edges + batch)
    case DetachSet(edge) =>
      && SameJournal(s, edge) && s.HistoryEmpty(s.journalOf[edge.container], edge.member)
      && t == s.(edges := MembershipProtocol.Without(s.edges, edge))
  }

  ghost predicate Next(s: Ledger, t: Ledger, step: Step) {
    NextStep(s, t, step)
  }

  ghost predicate IsRun(run: seq<Ledger>, steps: seq<Step>) {
    && |run| == |steps| + 1 && run[0] == Ledger([], {}, map[], {}, map[])
    && forall i :: 0 <= i < |steps| ==> Next(run[i], run[i + 1], steps[i])
  }

  // ---------------------------------------------------------------- the invariant

  ghost predicate WellFormed(s: Ledger) {
    && (forall e :: e in s.edges ==> SameJournal(s, e))
    && (forall m :: m in s.members ==> m.container in s.journalOf && m.account in s.accounts)
    && s.accounts !! s.journalOf.Keys
    && (forall id :: id in s.table ==> id.account in s.accounts || id.account in s.journalOf)
  }

  /** A set's balance is the sum over the leaf accounts below it. */
  ghost predicate SetSum(s: Ledger, x: AccountSetId, c: Cell) {
    x in s.journalOf ==>
      s.Amount(BalanceId(s.journalOf[x], x, c.currency), c.layer, c.direction) == SumOver(s.Below(x), s.Amounts(s.journalOf[x], c))
  }

  /** A set has activity exactly when a leaf below it has. */
  ghost predicate ActivityMatches(s: Ledger, x: AccountSetId, currency: Currency) {
    x in s.journalOf ==>
      (BalanceId(s.journalOf[x], x, currency) in s.table <==>
       exists a :: a in s.Below(x) && BalanceId(s.journalOf[x], a, currency) in s.table)
  }

  ghost predicate Inv(s: Ledger) {
    && WellFormed(s) && MembershipProtocol.ValidTables(s.edges, s.members)
    && (forall x, c :: SetSum(s, x, c))
    && (forall x, currency :: ActivityMatches(s, x, currency))
  }

  // ---------------------------------------------------------------- what a posting adds to one balance

  /** The entries of one currency on a group of accounts. */
  ghost function Where(es: seq<EntryValues>, currency: Currency, A: set<AccountId>): seq<EntryValues> {
    if es == [] then []
    else
      var front, e := Where(es[..|es| - 1], currency, A), es[|es| - 1];
      if e.currency == currency && e.accountId in A then front + [e] else front
  }

  /** If an entry reaches `k` exactly when its account is in the group, each reaching it once, then what reaches `k` is
      what the group's accounts are posted. */
  lemma {:induction false} ReachedIsWhere(m: Mappings, es: seq<EntryValues>, k: Key, A: set<AccountId>)
    requires forall e :: e in es ==> Distinct(FanOut(m, ALL_LEAVES, e)) && (k.account in FanOut(m, ALL_LEAVES, e) <==> e.accountId in A)
    ensures EntriesFor(TouchesOf(m, ALL_LEAVES, es), k) == Where(es, k.currency, A)
  {
    hide FanOut;
    if es != [] {
      var front, e := es[..|es| - 1], es[|es| - 1];
      assert es == front + [e];
      ReachedIsWhere(m, front, k, A);
      ReachedStep(m, ALL_LEAVES, front, e, k);
    }
  }

  ghost function Posted(es: seq<EntryValues>, A: set<AccountId>, c: Cell): int {
    Units(Where(es, c.currency, A), c.layer, c.direction)
  }

  /** What one account is posted, by account. */
  ghost function PostedTo(es: seq<EntryValues>, c: Cell): AccountId -> int {
    (a: AccountId) => Posted(es, {a}, c)
  }

  lemma PostedSnoc(es: seq<EntryValues>, e: EntryValues, A: set<AccountId>, c: Cell)
    ensures Posted(es + [e], A, c) == Posted(es, A, c) +
            if e.currency == c.currency && e.accountId in A && e.layer == c.layer && e.direction == c.direction then e.units else 0
    ensures Posted([], A, c) == 0
  {
    assert (es + [e])[..|es|] == es;
    var w := Where(es, c.currency, A);
    assert (w + [e])[..|w|] == w;
  }

  /** What a group is posted is the sum of what its accounts are posted. */
  lemma {:induction false} PostedAdds(es: seq<EntryValues>, A: set<AccountId>, c: Cell)
    ensures Posted(es, A, c) == SumOver(A, PostedTo(es, c))
  {
    hide Posted;
    if es == [] {
      forall a | a in A ensures PostedTo(es, c)(a) == 0 { PostedNothing({a}, c); }
      PostedNothing(A, c);
      SumZeros({}, A, PostedTo(es, c));
    } else {
      var front, e := es[..|es| - 1], es[|es| - 1];
      assert es == front + [e];
      PostedAdds(front, A, c);
      PostedSnoc(front, e, A, c);
      var amount := if e.currency == c.currency && e.layer == c.layer && e.direction == c.direction then e.units else 0;
      var one: AccountId -> int := (a: AccountId) => if a == e.accountId then amount else 0;
      forall a | a in A ensures PostedTo(es, c)(a) == PostedTo(front, c)(a) + one(a) { PostedSnoc(front, e, {a}, c); }
      SumPlus(A, PostedTo(front, c), one, PostedTo(es, c));
      SumSingle(A, one, e.accountId);
    }
  }

  lemma PostedNothing(A: set<AccountId>, c: Cell)
    ensures Posted([], A, c) == 0
  {
  }

  lemma SumSingle(A: set<AccountId>, f: AccountId -> int, x: AccountId)
    requires forall a :: a != x ==> f(a) == 0
    ensures SumOver(A, f) == if x in A then f(x) else 0
  {
    if x in A {
      SumRemove(A, f, x);
      SumZeros({}, A - {x}, f);
    } else {
      SumZeros({}, A, f);
    }
  }

  lemma {:induction false} WhereSome(es: seq<EntryValues>, currency: Currency, A: set<AccountId>)
    ensures Where(es, currency, A) != [] <==> exists a :: a in A && Where(es, currency, {a}) != []
  {
    if es != [] {
      var front, e := es[..|es| - 1], es[|es| - 1];
      WhereSome(front, currency, A);
      if e.currency == currency && e.accountId in A { assert Where(es, currency, {e.accountId}) != []; }
      if a :| a in A && Where(front, currency, {a}) != [] { assert Where(es, currency, {a}) != []; }
      if a :| a in A && Where(es, currency, {a}) != [] {
        assert Where(front, currency, {a}) != [] || (e.currency == currency && e.accountId == a);
      }
    }
  }

  // ---------------------------------------------------------------- one posting

  lemma FanOutOf(s: Ledger, txs: seq<Transaction>, mappings: AncestorMappings, journal: JournalId, e: EntryValues)
    requires WellFormed(s) && Resolved(s, txs, mappings) && e in JournalEntries(txs, journal) && e.accountId in s.accounts
    ensures var fan := FanOut(MappingsOf(mappings, journal), ALL_LEAVES, e);
            && Distinct(fan)
            && (forall x :: x in s.journalOf && s.journalOf[x] == journal ==> (x in fan <==> e.accountId in s.Below(x)))
            && (forall a :: a in s.accounts ==> (a in fan <==> a == e.accountId))
  {
    var sets := SetsOf(MappingsOf(mappings, journal), e.accountId);
    assert FanOut(MappingsOf(mappings, journal), ALL_LEAVES, e) == sets + [e.accountId];
    assert e.accountId !in sets;
  }

  lemma {:induction false} EntriesOnAccounts(s: Ledger, txs: seq<Transaction>, journal: JournalId)
    requires forall tx, e :: tx in txs && e in tx.entries ==> e.accountId in s.accounts
    ensures forall e :: e in JournalEntries(txs, journal) ==> e.accountId in s.accounts
  {
    if txs != [] {
      assert txs[|txs| - 1] in txs;
      EntriesOnAccounts(s, txs[..|txs| - 1], journal);
    }
  }

  /** What reaches a leaf account, and what reaches a set of the journal. */
  lemma LeafEntries(s: Ledger, txs: seq<Transaction>, mappings: AncestorMappings, id: BalanceId)
    requires WellFormed(s) && Resolved(s, txs, mappings) && forall tx, e :: tx in txs && e in tx.entries ==>
               e.accountId in s.accounts
    requires id.account in s.accounts
    ensures EntriesOf(txs, mappings, ALL_LEAVES, id) == Where(JournalEntries(txs, id.journal), id.currency, {id.account})
  {
    EntriesOnAccounts(s, txs, id.journal);
    forall e | e in JournalEntries(txs, id.journal)
      ensures Distinct(FanOut(MappingsOf(mappings, id.journal), ALL_LEAVES, e))
      ensures id.account in FanOut(MappingsOf(mappings, id.journal), ALL_LEAVES, e) <==> e.accountId in {id.account}
    {
      FanOutOf(s, txs, mappings, id.journal, e);
    }
    ReachedIsWhere(MappingsOf(mappings, id.journal), JournalEntries(txs, id.journal), id.AsKey(), {id.account});
  }

  lemma SetEntries(s: Ledger, txs: seq<Transaction>, mappings: AncestorMappings, id: BalanceId)
    requires WellFormed(s) && Resolved(s, txs, mappings) && forall tx, e :: tx in txs && e in tx.entries ==>
               e.accountId in s.accounts
    requires id.account in s.journalOf && s.journalOf[id.account] == id.journal
    ensures EntriesOf(txs, mappings, ALL_LEAVES, id) == Where(JournalEntries(txs, id.journal), id.currency, s.Below(id.account))
  {
    EntriesOnAccounts(s, txs, id.journal);
    forall e | e in JournalEntries(txs, id.journal)
      ensures Distinct(FanOut(MappingsOf(mappings, id.journal), ALL_LEAVES, e))
      ensures id.account in FanOut(MappingsOf(mappings, id.journal), ALL_LEAVES, e) <==>
                e.accountId in s.Below(id.account)
    {
      FanOutOf(s, txs, mappings, id.journal, e);
    }
    ReachedIsWhere(MappingsOf(mappings, id.journal), JournalEntries(txs, id.journal), id.AsKey(), s.Below(id.account));
  }

  /** A balance moves by what reaches it, and exists once something has. */
  lemma PostMoves(base: Option<BalanceSnapshot>, txs: seq<Transaction>, mappings: AncestorMappings, id: BalanceId,
                  layer: Layer, direction: DebitOrCredit)
    ensures var es := EntriesOf(txs, mappings, ALL_LEAVES, id);
            && SideOf(After(base, txs, mappings, ALL_LEAVES, id), layer, direction) == SideOf(base, layer, direction) + Units(es, layer, direction)
            && (After(base, txs, mappings, ALL_LEAVES, id).Some? <==> base.Some? || es != [])
  {
    var es := EntriesOf(txs, mappings, ALL_LEAVES, id);
    if es != [] {
      FoldedTotals(if base.Some? then base.value else ZeroSnapshot(id.account, es[0]), es, layer, direction);
    }
  }

  /** One leaf account across a posting. */
  lemma PostLeaf(s: Ledger, t: Ledger, txs: seq<Transaction>, mappings: AncestorMappings, journal: JournalId,
                 a: AccountId, c: Cell)
    requires WellFormed(s) && Next(s, t, Post(txs, mappings)) && a in s.accounts
    ensures t.Amounts(journal, c)(a) == s.Amounts(journal, c)(a) + PostedTo(JournalEntries(txs, journal), c)(a)
    ensures BalanceId(journal, a, c.currency) in t.table <==>
            BalanceId(journal, a, c.currency) in s.table || Where(JournalEntries(txs, journal), c.currency, {a}) != []
  {
    hide After, EntriesOf, Where, Units, SideOf, JournalEntries, WellFormed, Resolved;
    var id := BalanceId(journal, a, c.currency);
    LeafEntries(s, txs, mappings, id);
    PostMoves(Lookup(s.table, id), txs, mappings, id, c.layer, c.direction);
    assert Lookup(t.table, id) == After(Lookup(s.table, id), txs, mappings, ALL_LEAVES, id);
  }

  /** One set across a posting. */
  lemma PostSet(s: Ledger, t: Ledger, txs: seq<Transaction>, mappings: AncestorMappings, x: AccountSetId, c: Cell)
    requires WellFormed(s) && Next(s, t, Post(txs, mappings)) && x in s.journalOf
    ensures var journal := s.journalOf[x];
            var id, es := BalanceId(journal, x, c.currency), JournalEntries(txs, journal);
            && t.Amount(id, c.layer, c.direction) == s.Amount(id, c.layer, c.direction) + Posted(es, s.Below(x), c)
            && (id in t.table <==> id in s.table || Where(es, c.currency, s.Below(x)) != [])
  {
    hide After, EntriesOf, Where, Units, SideOf, JournalEntries, WellFormed, Resolved;
    var id := BalanceId(s.journalOf[x], x, c.currency);
    SetEntries(s, txs, mappings, id);
    PostMoves(Lookup(s.table, id), txs, mappings, id, c.layer, c.direction);
    assert Lookup(t.table, id) == After(Lookup(s.table, id), txs, mappings, ALL_LEAVES, id);
  }

  lemma PostKeepsSum(s: Ledger, t: Ledger, txs: seq<Transaction>, mappings: AncestorMappings, x: AccountSetId, c: Cell)
    requires WellFormed(s) && Next(s, t, Post(txs, mappings)) && SetSum(s, x, c)
    ensures SetSum(t, x, c)
  {
    if x in s.journalOf {
      var journal := s.journalOf[x];
      var es := JournalEntries(txs, journal);
      PostSet(s, t, txs, mappings, x, c);
      PostedAdds(es, s.Below(x), c);
      forall a | a in s.Below(x) ensures t.Amounts(journal, c)(a) == s.Amounts(journal, c)(a) + PostedTo(es, c)(a) {
        PostLeaf(s, t, txs, mappings, journal, a, c);
      }
      SumPlus(s.Below(x), s.Amounts(journal, c), PostedTo(es, c), t.Amounts(journal, c));
      assert t.Below(x) == s.Below(x);
    }
  }

  lemma PostKeepsActivity(s: Ledger, t: Ledger, txs: seq<Transaction>, mappings: AncestorMappings, x: AccountSetId,
                          currency: Currency)
    requires WellFormed(s) && Next(s, t, Post(txs, mappings)) && ActivityMatches(s, x, currency)
    ensures ActivityMatches(t, x, currency)
  {
    if x in s.journalOf {
      var journal, c := s.journalOf[x], Cell(currency, Settled, Debit);
      var es := JournalEntries(txs, journal);
      PostSet(s, t, txs, mappings, x, c);
      WhereSome(es, currency, s.Below(x));
      forall a | a in s.Below(x)
        ensures BalanceId(journal, a, currency) in t.table <==>
                  BalanceId(journal, a, currency) in s.table || Where(es, currency, {a}) != []
      {
        PostLeaf(s, t, txs, mappings, journal, a, c);
      }
      assert t.Below(x) == s.Below(x);
    }
  }

  // ---------------------------------------------------------------- one change of the membership graph

  /** Leaves that enter or leave the set have no activity in its journal. */
  ghost predicate Neutral(s: Ledger, t: Ledger, x: AccountSetId) {
    x in s.journalOf && forall a :: a in s.Below(x) + t.Below(x) && !(a in s.Below(x) && a in t.Below(x)) ==> s.HistoryEmpty(s.journalOf[x], a)
  }

  lemma NeutralKeepsSum(s: Ledger, t: Ledger, x: AccountSetId, c: Cell)
    requires t.table == s.table && Neutral(s, t, x) && x in t.journalOf && t.journalOf[x] == s.journalOf[x] && SetSum(s, x, c)
    ensures SetSum(t, x, c)
  {
    var journal := s.journalOf[x];
    var f, common := s.Amounts(journal, c), s.Below(x) * t.Below(x);
    forall a | a in s.Below(x) + t.Below(x) && a !in common ensures f(a) == 0 {
      assert s.HistoryEmpty(journal, a);
    }
    SumZeros(common, s.Below(x), f);
    SumZeros(common, t.Below(x), f);
    SumSame(t.Below(x), f, t.Amounts(journal, c));
  }

  lemma NeutralKeepsActivity(s: Ledger, t: Ledger, x: AccountSetId, currency: Currency)
    requires t.table == s.table && Neutral(s, t, x) && x in t.journalOf && t.journalOf[x] == s.journalOf[x] && ActivityMatches(s, x, currency)
    ensures ActivityMatches(t, x, currency)
  {
    forall a | a in s.Below(x) + t.Below(x) && BalanceId(s.journalOf[x], a, currency) in s.table ensures a in s.Below(x) && a in t.Below(x) {
    }
  }

  lemma {:induction false} PathStaysInJournal(s: Ledger, p: Path, x: AccountSetId, y: AccountSetId)
    requires WellFormed(s) && IsPath(s.edges, p, x, y) && y in s.journalOf
    ensures x in s.journalOf && s.journalOf[x] == s.journalOf[y]
  {
    if p != [] {
      assert s.edges[p[0]] in s.edges;
      PathStaysInJournal(s, p[1..], s.edges[p[0]].member, y);
    }
  }

  lemma ReachStaysInJournal(s: Ledger, x: AccountSetId, y: AccountSetId)
    requires WellFormed(s) && Reach(s.edges, x, y) && y in s.journalOf
    ensures x in s.journalOf && s.journalOf[x] == s.journalOf[y]
  {
    var p: Path :| IsPath(s.edges, p, x, y);
    PathStaysInJournal(s, p, x, y);
  }

  /** Adding or removing one row moves only its account, and only in the journal of its set. */
  lemma RowChangeIsNeutral(s: Ledger, t: Ledger, row: AccountMembership, x: AccountSetId)
    requires WellFormed(s) && x in s.journalOf && row.container in s.journalOf
    requires t.edges == s.edges && t.accounts == s.accounts && (t.members == s.members + {row} || t.members == s.members - {row})
    requires s.HistoryEmpty(s.journalOf[row.container], row.account)
    ensures Neutral(s, t, x)
  {
    forall a | a in s.Below(x) + t.Below(x) && !(a in s.Below(x) && a in t.Below(x)) ensures s.HistoryEmpty(s.journalOf[x], a) {
      var m :| (m in s.members || m in t.members) && m.account == a && Reach(s.edges, x, m.container);
      assert m != row ==> (m in s.members <==> m in t.members);
      assert m == row;
      ReachStaysInJournal(s, x, m.container);
    }
  }

  /** A path over old and new edges either takes no new edge or leaves the last one into old territory. */
  lemma {:induction false} LastNewEdge(E: Edges, batch: Edges, p: Path, x: AccountSetId, y: AccountSetId)
    requires IsPath(E + batch, p, x, y)
    ensures Reach(E, x, y) || exists e :: e in batch && Reach(E, e.member, y)
  {
    if p == [] {
      ReachSelf(E, x);
    } else {
      var e := (E + batch)[p[0]];
      LastNewEdge(E, batch, p[1..], e.member, y);
      if Reach(E, e.member, y) {
        if p[0] < |E| {
          ReachSelf(E, x);
          ReachStep(E, x, p[0]);
          ReachTrans(E, x, e.member, y);
        } else {
          assert e in batch;
        }
      }
    }
  }

  /** Nothing below a set without activity has activity. */
  lemma QuietBelow(s: Ledger, x: AccountSetId, a: AccountId)
    requires Inv(s) && x in s.journalOf && s.HistoryEmpty(s.journalOf[x], x) && a in s.Below(x)
    ensures s.HistoryEmpty(s.journalOf[x], a)
  {
    forall currency ensures BalanceId(s.journalOf[x], a, currency) !in s.table {
      assert ActivityMatches(s, x, currency);
    }
  }

  lemma AttachedSetsAreNeutral(s: Ledger, t: Ledger, batch: Edges, x: AccountSetId)
    requires Inv(s) && Next(s, t, AttachSets(batch)) && x in s.journalOf
    ensures Neutral(s, t, x)
  {
    assert s.edges <= s.edges + batch;
    PrefixEmbeds(s.edges, s.edges + batch);
    SubgraphKeeps(s.edges, s.edges + batch, seq(|s.edges|, i requires 0 <= i < |s.edges| => i));
    forall a | a in s.Below(x) ensures a in t.Below(x) {
      var m :| m in s.members && m.account == a && Reach(s.edges, x, m.container);
      assert Reach(t.edges, x, m.container);
    }
    forall a | a in t.Below(x) && a !in s.Below(x) ensures s.HistoryEmpty(s.journalOf[x], a) {
      var m :| m in s.members && m.account == a && Reach(t.edges, x, m.container);
      var p: Path :| IsPath(t.edges, p, x, m.container);
      LastNewEdge(s.edges, batch, p, x, m.container);
      var e :| e in batch && Reach(s.edges, e.member, m.container);
      assert a in s.Below(e.member);
      assert SameJournal(s, e) && s.HistoryEmpty(s.journalOf[e.container], e.member);
      QuietBelow(s, e.member, a);
      JournalAlongBatch(s, t, batch, p, x, m.container);
      ReachStaysInJournal(s, e.member, m.container);
    }
  }

  lemma {:induction false} JournalAlongBatch(s: Ledger, t: Ledger, batch: Edges, p: Path, x: AccountSetId,
                                             y: AccountSetId)
    requires WellFormed(s) && Next(s, t, AttachSets(batch)) && IsPath(t.edges, p, x, y) && y in s.journalOf
    ensures x in s.journalOf && s.journalOf[x] == s.journalOf[y]
  {
    if p != [] {
      var e := t.edges[p[0]];
      assert e in s.edges || e in batch;
      JournalAlongBatch(s, t, batch, p[1..], e.member, y);
    }
  }

  /** A path that a removed edge cuts runs through that edge. */
  lemma {:induction false} CutPath(E: Edges, edge: SetMembership, p: Path, x: AccountSetId, y: AccountSetId)
    requires IsPath(E, p, x, y)
    ensures Reach(MembershipProtocol.Without(E, edge), x, y) || Reach(E, edge.member, y)
  {
    var F := MembershipProtocol.Without(E, edge);
    if p == [] {
      ReachSelf(F, x);
    } else {
      var e := E[p[0]];
      assert IsPath(E, p[1..], e.member, y);
      CutPath(E, edge, p[1..], e.member, y);
      if e != edge && Reach(F, e.member, y) {
        assert e in F;
        var i :| 0 <= i < |F| && F[i] == e;
        ReachSelf(F, x);
        ReachStep(F, x, i);
        ReachTrans(F, x, e.member, y);
      }
    }
  }

  lemma DetachedSetIsNeutral(s: Ledger, t: Ledger, edge: SetMembership, x: AccountSetId)
    requires Inv(s) && Next(s, t, DetachSet(edge)) && x in s.journalOf
    ensures Neutral(s, t, x)
  {
    var f := MembershipProtocol.WithoutEmbeds(s.edges, edge);
    SubgraphKeeps(t.edges, s.edges, f);
    forall a | a in t.Below(x) ensures a in s.Below(x) {
      var m :| m in s.members && m.account == a && Reach(t.edges, x, m.container);
      assert Reach(s.edges, x, m.container);
    }
    forall a | a in s.Below(x) && a !in t.Below(x) ensures s.HistoryEmpty(s.journalOf[x], a) {
      var m :| m in s.members && m.account == a && Reach(s.edges, x, m.container);
      var p: Path :| IsPath(s.edges, p, x, m.container);
      CutPath(s.edges, edge, p, x, m.container);
      assert Reach(s.edges, edge.member, m.container);
      assert a in s.Below(edge.member);
      QuietBelow(s, edge.member, a);
      ReachStaysInJournal(s, x, m.container);
      ReachStaysInJournal(s, edge.member, m.container);
    }
  }

  lemma CreatedAccountIsNeutral(s: Ledger, t: Ledger, a: AccountId, initial: Option<AccountSetId>, x: AccountSetId)
    requires WellFormed(s) && Next(s, t, CreateAccount(a, initial)) && x in s.journalOf
    ensures Neutral(s, t, x)
  {
    forall b | b != a ensures b in s.Below(x) <==> b in t.Below(x) {
      if s.InSet(b, x) {
        var m :| m in s.members && m.account == b && Reach(s.edges, x, m.container);
        assert m in t.members;
      }
      if t.InSet(b, x) {
        var m :| m in t.members && m.account == b && Reach(t.edges, x, m.container);
        assert m in s.members;
      }
    }
    assert s.HistoryEmpty(s.journalOf[x], a);
  }

  // ---------------------------------------------------------------- every step keeps the invariant

  lemma StructureStep(s: Ledger, t: Ledger, step: Step, x: AccountSetId)
    requires Inv(s) && Next(s, t, step) && !step.Post? && x in s.journalOf
    ensures Neutral(s, t, x) && x in t.journalOf && t.journalOf[x] == s.journalOf[x] && t.table == s.table
  {
    hide Neutral;
    match step
    case CreateAccount(a, initial) => CreatedAccountIsNeutral(s, t, a, initial, x);
    case CreateSet(y, journal) => SameBelow(s, t, x);
    case AttachAccount(row) => RowChangeIsNeutral(s, t, row, x);
    case DetachAccount(row) => RowChangeIsNeutral(s, t, row, x);
    case AttachSets(batch) => AttachedSetsAreNeutral(s, t, batch, x);
    case DetachSet(edge) => DetachedSetIsNeutral(s, t, edge, x);
  }

  lemma SameBelow(s: Ledger, t: Ledger, x: AccountSetId)
    requires t.edges == s.edges && t.accounts == s.accounts && t.members == s.members && x in s.journalOf
    ensures Neutral(s, t, x) && t.Below(x) == s.Below(x)
  {
  }

  /** A new set is empty: no leaf below it, no balance. */
  lemma NewSetIsEmpty(s: Ledger, t: Ledger, x: AccountSetId, journal: JournalId, c: Cell)
    requires Inv(s) && Next(s, t, CreateSet(x, journal))
    ensures SetSum(t, x, c) && ActivityMatches(t, x, c.currency)
  {
    assert t.Below(x) == {} by {
      forall a | a in t.Below(x) ensures false {
        var m :| m in s.members && m.account == a && Reach(s.edges, x, m.container);
        ReachStaysInJournal(s, x, m.container);
      }
    }
    assert BalanceId(journal, x, c.currency) !in s.table;
  }

  lemma SumStep(s: Ledger, t: Ledger, step: Step, x: AccountSetId, c: Cell)
    requires Inv(s) && Next(s, t, step)
    ensures SetSum(t, x, c) && ActivityMatches(t, x, c.currency)
  {
    assert SetSum(s, x, c) && ActivityMatches(s, x, c.currency);
    if step.Post? {
      PostKeepsSum(s, t, step.txs, step.mappings, x, c);
      PostKeepsActivity(s, t, step.txs, step.mappings, x, c.currency);
    } else if x in s.journalOf {
      StructureStep(s, t, step, x);
      NeutralKeepsSum(s, t, x, c);
      NeutralKeepsActivity(s, t, x, c.currency);
    } else if step.CreateSet? && step.x == x {
      NewSetIsEmpty(s, t, x, step.journal, c);
    } else {
      assert x !in t.journalOf;
    }
  }

  lemma ValidStep(s: Ledger, t: Ledger, step: Step)
    requires Inv(s) && Next(s, t, step)
    ensures MembershipProtocol.ValidTables(t.edges, t.members)
  {
    hide MembershipProtocol.TableUnique, UniquePaths, DepthAtMost, SetSum, ActivityMatches;
    match step
    case Post(txs, mappings) =>
    case CreateAccount(a, initial) =>
      if initial.Some? { MembershipProtocol.FreshMembersKeepUnique(s.edges, s.members, {AccountMembership(initial.value, a)}); }
    case CreateSet(x, journal) =>
    case AttachAccount(row) => MembershipProtocol.AcceptedAttachKeepsUnique(s.edges, s.members, {row});
    case DetachAccount(row) => MembershipProtocol.FewerRowsKeepUnique(s.edges, s.members, t.members);
    case AttachSets(batch) =>
    case DetachSet(edge) => MembershipProtocol.RemovedEdgeKeepsValid(s.edges, s.members, edge);
  }

  lemma WellFormedStep(s: Ledger, t: Ledger, step: Step)
    requires Inv(s) && Next(s, t, step)
    ensures WellFormed(t)
  {
    hide MembershipProtocol.ValidTables, SetSum, ActivityMatches;
    if step.Post? {
      forall id: BalanceId | id.account !in s.accounts && id.account !in s.journalOf ensures id !in t.table {
        NothingReachesUnknown(s, step.txs, step.mappings, id);
        assert Lookup(t.table, id) == After(Lookup(s.table, id), step.txs, step.mappings, ALL_LEAVES, id);
      }
    }
  }

  /** Nothing reaches an account the ledger does not know. */
  lemma NothingReachesUnknown(s: Ledger, txs: seq<Transaction>, mappings: AncestorMappings, id: BalanceId)
    requires WellFormed(s) && Resolved(s, txs, mappings) && forall tx, e :: tx in txs && e in tx.entries ==> e.accountId in s.accounts
    requires id.account !in s.accounts && id.account !in s.journalOf
    ensures After(Lookup(s.table, id), txs, mappings, ALL_LEAVES, id) == Lookup(s.table, id)
  {
    var es := JournalEntries(txs, id.journal);
    EntriesOnAccounts(s, txs, id.journal);
    forall e | e in es
      ensures Distinct(FanOut(MappingsOf(mappings, id.journal), ALL_LEAVES, e))
      ensures id.account !in FanOut(MappingsOf(mappings, id.journal), ALL_LEAVES, e)
    {
      FanOutOf(s, txs, mappings, id.journal, e);
    }
    ReachedIsWhere(MappingsOf(mappings, id.journal), es, id.AsKey(), {});
    WhereSome(es, id.currency, {});
  }

  lemma InvStep(s: Ledger, t: Ledger, step: Step)
    requires Inv(s) && Next(s, t, step)
    ensures Inv(t)
  {
    hide SetSum, ActivityMatches, WellFormed, MembershipProtocol.ValidTables, Next;
    WellFormedStep(s, t, step);
    ValidStep(s, t, step);
    forall x, c ensures SetSum(t, x, c) { SumStep(s, t, step, x, c); }
    forall x, currency ensures ActivityMatches(t, x, currency) { SumStep(s, t, step, x, Cell(currency, Settled, Debit)); }
  }

  lemma {:induction false} InvRun(run: seq<Ledger>, steps: seq<Step>, k: nat)
    requires IsRun(run, steps) && k < |run|
    ensures Inv(run[k])
  {
    hide Inv, Next;
    if k == 0 {
      EmptyLedger();
    } else {
      InvRun(run, steps, k - 1);
      assert Next(run[k - 1], run[k - 1 + 1], steps[k - 1]);
      InvStep(run[k - 1], run[k], steps[k - 1]);
    }
  }

  lemma EmptyLedger()
    ensures Inv(Ledger([], {}, map[], {}, map[]))
  {
    MembershipProtocol.EmptyIsValid();
  }

  // ---------------------------------------------------------------- the main results

  /** In every reachable state a set's balance is the sum over the leaf accounts below it, per currency, layer and side. */
  lemma SetBalanceIsLeafSum(run: seq<Ledger>, steps: seq<Step>, k: nat, x: AccountSetId, c: Cell)
    requires IsRun(run, steps) && k < |run| && x in run[k].journalOf
    ensures var s, journal := run[k], run[k].journalOf[x];
            s.Amount(BalanceId(journal, x, c.currency), c.layer, c.direction) == SumOver(s.Below(x), s.Amounts(journal, c))
  {
    hide IsRun, Next;
    InvRun(run, steps, k);
    assert SetSum(run[k], x, c);
  }

  // ---------------------------------------------------------------- a set is the sum of its direct members

  ghost function DirectAccounts(s: Ledger, x: AccountSetId): set<AccountId> {
    set m | m in s.members && m.container == x :: m.account
  }

  /** The direct member sets, one per edge. */
  ghost function DirectSets(s: Ledger, x: AccountSetId): set<AccountSetId> {
    set e | e in s.edges && e.container == x :: e.member
  }

  /** The leaves below some of the sets. */
  ghost function BelowAny(s: Ledger, ys: set<AccountSetId>): set<AccountId> {
    set a | a in s.accounts && exists y :: y in ys && s.InSet(a, y)
  }

  /** The leaves below a set are its direct accounts and the leaves below its direct sets. */
  lemma BelowSplits(s: Ledger, x: AccountSetId)
    requires WellFormed(s)
    ensures s.Below(x) == DirectAccounts(s, x) + BelowAny(s, DirectSets(s, x))
  {
    forall a | a in s.Below(x) ensures a in DirectAccounts(s, x) + BelowAny(s, DirectSets(s, x)) {
      var m :| m in s.members && m.account == a && Reach(s.edges, x, m.container);
      var p: Path :| IsPath(s.edges, p, x, m.container);
      if p != [] {
        var e := s.edges[p[0]];
        assert e in s.edges && IsPath(s.edges, p[1..], e.member, m.container);
        assert e.member in DirectSets(s, x) && s.InSet(a, e.member);
      }
    }
    forall a | a in DirectAccounts(s, x) ensures a in s.Below(x) {
      var m :| m in s.members && m.container == x && m.account == a;
      ReachSelf(s.edges, x);
    }
    forall a | a in BelowAny(s, DirectSets(s, x)) ensures a in s.Below(x) {
      var y :| y in DirectSets(s, x) && s.InSet(a, y);
      var e :| e in s.edges && e.container == x && e.member == y;
      var m :| m in s.members && m.account == a && Reach(s.edges, y, m.container);
      StepDown(s.edges, e);
      ReachTrans(s.edges, x, y, m.container);
    }
  }

  lemma StepDown(E: Edges, e: SetMembership)
    requires e in E
    ensures Reach(E, e.container, e.member)
  {
    var i :| 0 <= i < |E| && E[i] == e;
    ReachSelf(E, e.container);
    ReachStep(E, e.container, i);
  }

  /** Path uniqueness keeps the parts apart: no leaf is both a direct account and below a direct set, or below two. */
  lemma PartsAreApart(s: Ledger, x: AccountSetId)
    requires WellFormed(s) && MembershipProtocol.ValidTables(s.edges, s.members)
    ensures DirectAccounts(s, x) !! BelowAny(s, DirectSets(s, x))
    ensures forall y, z :: y in DirectSets(s, x) && z in DirectSets(s, x) && y != z ==> s.Below(y) !! s.Below(z)
  {
    forall y, z, a | y in DirectSets(s, x) && z in DirectSets(s, x) && y != z && a in s.Below(y) ensures a !in s.Below(z) {
      if a in s.Below(z) { OnePathOnly(s, x, y, z, a); }
    }
    forall a | a in DirectAccounts(s, x) ensures a !in BelowAny(s, DirectSets(s, x)) {
      if a in BelowAny(s, DirectSets(s, x)) {
        var y :| y in DirectSets(s, x) && s.InSet(a, y);
        DirectOnly(s, x, y, a);
      }
    }
  }

  /** The way from a set through one of its direct sets to a membership of an account. */
  lemma PathThrough(s: Ledger, x: AccountSetId, y: AccountSetId, a: AccountId) returns (m: AccountMembership, p: Path)
    requires y in DirectSets(s, x) && s.InSet(a, y)
    ensures m in s.members && m.account == a && IsPath(s.edges, p, x, m.container)
    ensures p != [] && p[0] < |s.edges| && s.edges[p[0]].member == y
  {
    m :| m in s.members && m.account == a && Reach(s.edges, y, m.container);
    var q: Path :| IsPath(s.edges, q, y, m.container);
    var e :| e in s.edges && e.container == x && e.member == y;
    var i: nat :| i < |s.edges| && s.edges[i] == e;
    p := [i] + q;
    assert p[1..] == q;
  }

  lemma OnePathOnly(s: Ledger, x: AccountSetId, y: AccountSetId, z: AccountSetId, a: AccountId)
    requires MembershipProtocol.ValidTables(s.edges, s.members)
    requires y in DirectSets(s, x) && z in DirectSets(s, x) && s.InSet(a, y) && s.InSet(a, z)
    ensures y == z
  {
    var m, p := PathThrough(s, x, y, a);
    var n, q := PathThrough(s, x, z, a);
    assert m == n && p == q;
  }

  lemma DirectOnly(s: Ledger, x: AccountSetId, y: AccountSetId, a: AccountId)
    requires MembershipProtocol.ValidTables(s.edges, s.members)
    requires a in DirectAccounts(s, x) && y in DirectSets(s, x)
    ensures !s.InSet(a, y)
  {
    var m :| m in s.members && m.container == x && m.account == a;
    var nothing: Path := [];
    assert IsPath(s.edges, nothing, x, m.container);
    if s.InSet(a, y) {
      var n, p := PathThrough(s, x, y, a);
    }
  }

  /** The leaf sums, by set. */
  ghost function LeafSums(s: Ledger, f: AccountId -> int): AccountId -> int {
    (y: AccountSetId) => SumOver(s.Below(y), f)
  }

  lemma {:induction false} SumOfParts(s: Ledger, ys: set<AccountSetId>, f: AccountId -> int)
    requires forall y, z :: y in ys && z in ys && y != z ==> s.Below(y) !! s.Below(z)
    ensures SumOver(BelowAny(s, ys), f) == SumOver(ys, LeafSums(s, f))
    decreases |ys|
  {
    if ys == {} {
      assert BelowAny(s, ys) == {};
      SumZeros({}, ys, LeafSums(s, f));
    } else {
      var y :| y in ys;
      SumOfParts(s, ys - {y}, f);
      OnePart(s, ys, y);
      hide BelowAny, SumOver, Ledger.Below, Ledger.InSet;
      SumUnion(s.Below(y), BelowAny(s, ys - {y}), f);
      SumRemove(ys, LeafSums(s, f), y);
    }
  }

  lemma OnePart(s: Ledger, ys: set<AccountSetId>, y: AccountSetId)
    requires y in ys && forall z :: z in ys && z != y ==> s.Below(y) !! s.Below(z)
    ensures BelowAny(s, ys) == s.Below(y) + BelowAny(s, ys - {y})
    ensures s.Below(y) !! BelowAny(s, ys - {y})
  {
    hide Ledger.InSet;
    forall a | a in BelowAny(s, ys - {y}) ensures a !in s.Below(y) {
      var z :| z in ys - {y} && s.InSet(a, z);
      assert a in s.Below(z);
    }
  }

  /** In every reachable state a set's balance is the sum of the balances of its direct members, accounts and sets. */
  lemma SetBalanceIsMemberSum(run: seq<Ledger>, steps: seq<Step>, k: nat, x: AccountSetId, c: Cell)
    requires IsRun(run, steps) && k < |run| && x in run[k].journalOf
    ensures var s, journal := run[k], run[k].journalOf[x];
            s.Amount(BalanceId(journal, x, c.currency), c.layer, c.direction) ==
            SumOver(DirectAccounts(s, x), s.Amounts(journal, c)) + SumOver(DirectSets(s, x), s.Amounts(journal, c))
  {
    hide IsRun, Next;
    InvRun(run, steps, k);
    var s, journal := run[k], run[k].journalOf[x];
    var f, ys := s.Amounts(journal, c), DirectSets(s, x);
    assert SetSum(s, x, c);
    BelowSplits(s, x);
    PartsAreApart(s, x);
    SumUnion(DirectAccounts(s, x), BelowAny(s, ys), f);
    SumOfParts(s, ys, f);
    forall y | y in ys ensures SumOver(s.Below(y), f) == f(y) {
      assert SetSum(s, y, c);
      var e :| e in s.edges && e.container == x && e.member == y;
      assert SameJournal(s, e);
    }
    SumSame(ys, LeafSums(s, f), f);
  }

  // ---------------------------------------------------------------- double entry

  ghost predicate PostsBalanced(step: Step) {
    step.Post? ==> forall tx :: tx in step.txs ==> TxTemplate.Balanced(tx.entries)
  }

  /** Total debits and credits of the plain accounts of a journal, in one currency and layer. */
  ghost function TotalOf(s: Ledger, journal: JournalId, c: Cell): int {
    SumOver(s.accounts, s.Amounts(journal, c))
  }

  lemma {:induction false} AllPosted(s: Ledger, txs: seq<Transaction>, journal: JournalId, c: Cell)
    requires forall tx, e :: tx in txs && e in tx.entries ==> e.accountId in s.accounts
    ensures Posted(JournalEntries(txs, journal), s.accounts, c) ==
              TxTemplate.UnitsIn(JournalEntries(txs, journal), c.currency, c.layer, c.direction)
  {
    EntriesOnAccounts(s, txs, journal);
    AllOnAccounts(s, JournalEntries(txs, journal), c);
  }

  lemma {:induction false} AllOnAccounts(s: Ledger, es: seq<EntryValues>, c: Cell)
    requires forall e :: e in es ==> e.accountId in s.accounts
    ensures Posted(es, s.accounts, c) == TxTemplate.UnitsIn(es, c.currency, c.layer, c.direction)
  {
    PostedNothing(s.accounts, c);
    if es != [] {
      var front, e := es[..|es| - 1], es[|es| - 1];
      assert es == front + [e];
      AllOnAccounts(s, front, c);
      PostedSnoc(front, e, s.accounts, c);
    }
  }

  lemma {:induction false} NetConcat(a: seq<EntryValues>, b: seq<EntryValues>, currency: Currency, layer: Layer)
    ensures TxTemplate.Net(a + b, currency, layer) == TxTemplate.Net(a, currency, layer) + TxTemplate.Net(b, currency, layer)
  {
    if b == [] {
      assert a + b == a;
    } else {
      NetConcat(a, b[..|b| - 1], currency, layer);
      assert (a + b)[..|a + b| - 1] == a + b[..|b| - 1];
    }
  }

  lemma {:induction false} BatchIsBalanced(txs: seq<Transaction>, journal: JournalId, currency: Currency, layer: Layer)
    requires forall tx :: tx in txs ==> TxTemplate.Balanced(tx.entries)
    ensures TxTemplate.Net(JournalEntries(txs, journal), currency, layer) == 0
  {
    if txs != [] {
      var tx := txs[|txs| - 1];
      assert tx in txs && TxTemplate.Net(tx.entries, currency, layer) == 0;
      BatchIsBalanced(txs[..|txs| - 1], journal, currency, layer);
      NetConcat(JournalEntries(txs[..|txs| - 1], journal), if tx.journal == journal then tx.entries else [], currency, layer);
    }
  }

  ghost predicate DoubleEntry(s: Ledger, journal: JournalId, currency: Currency, layer: Layer) {
    TotalOf(s, journal, Cell(currency, layer, Debit)) == TotalOf(s, journal, Cell(currency, layer, Credit))
  }

  /** A posting moves the total of a journal by what it posts there. */
  lemma PostTotal(s: Ledger, t: Ledger, txs: seq<Transaction>, mappings: AncestorMappings, journal: JournalId, c: Cell)
    requires WellFormed(s) && Next(s, t, Post(txs, mappings))
    ensures TotalOf(t, journal, c) == TotalOf(s, journal, c) + TxTemplate.UnitsIn(JournalEntries(txs, journal), c.currency, c.layer, c.direction)
  {
    var es := JournalEntries(txs, journal);
    forall a | a in s.accounts ensures t.Amounts(journal, c)(a) == s.Amounts(journal, c)(a) + PostedTo(es, c)(a) {
      PostLeaf(s, t, txs, mappings, journal, a, c);
    }
    SumPlus(s.accounts, s.Amounts(journal, c), PostedTo(es, c), t.Amounts(journal, c));
    PostedAdds(es, s.accounts, c);
    AllPosted(s, txs, journal, c);
  }

  lemma DoubleEntryStep(s: Ledger, t: Ledger, step: Step, journal: JournalId, currency: Currency, layer: Layer)
    requires Inv(s) && Next(s, t, step) && PostsBalanced(step) && DoubleEntry(s, journal, currency, layer)
    ensures DoubleEntry(t, journal, currency, layer)
  {
    if step.Post? {
      var es := JournalEntries(step.txs, journal);
      PostTotal(s, t, step.txs, step.mappings, journal, Cell(currency, layer, Debit));
      PostTotal(s, t, step.txs, step.mappings, journal, Cell(currency, layer, Credit));
      BatchIsBalanced(step.txs, journal, currency, layer);
      TxTemplate.NetIsDifference(es, currency, layer);
    } else {
      SameTotal(s, t, step, journal, Cell(currency, layer, Debit));
      SameTotal(s, t, step, journal, Cell(currency, layer, Credit));
    }
  }

  lemma SameTotal(s: Ledger, t: Ledger, step: Step, journal: JournalId, c: Cell)
    requires Inv(s) && Next(s, t, step) && !step.Post?
    ensures TotalOf(t, journal, c) == TotalOf(s, journal, c)
  {
    hide MembershipProtocol.ValidTables, SetSum, ActivityMatches;
    assert t.table == s.table && s.accounts <= t.accounts;
    forall a | a in t.accounts - s.accounts ensures t.Amounts(journal, c)(a) == 0 {
      assert BalanceId(journal, a, c.currency) !in s.table;
    }
    SumZeros(s.accounts, t.accounts, t.Amounts(journal, c));
    SumSame(s.accounts, s.Amounts(journal, c), t.Amounts(journal, c));
  }

  /** When every posted transaction was accepted by the balance check, the plain accounts of each journal always carry
      equal debits and credits, in every currency and layer. */
  lemma {:induction false} DoubleEntryConserved(run: seq<Ledger>, steps: seq<Step>, k: nat, journal: JournalId,
                                                currency: Currency, layer: Layer)
    requires IsRun(run, steps) && k < |run| && forall i :: 0 <= i < |steps| ==> PostsBalanced(steps[i])
    ensures DoubleEntry(run[k], journal, currency, layer)
  {
    hide Inv, Next, PostsBalanced;
    if k > 0 {
      DoubleEntryConserved(run, steps, k - 1, journal, currency, layer);
      InvRun(run, steps, k - 1);
      assert Next(run[k - 1], run[k - 1 + 1], steps[k - 1]);
      DoubleEntryStep(run[k - 1], run[k], steps[k - 1], journal, currency, layer);
    }
  }

  // ---------------------------------------------------------------- the inline posting takes such steps

  /** Where every account and set of the ledger is maintained inline, what the inline posting leaves behind is a step. */
  lemma InlinePostingIsAStep(s: Ledger, txs: seq<Transaction>, accounts: AccountMeta, mappings: AncestorMappings, after: Table)
    requires WellFormed(s) && Resolved(s, txs, mappings)
    requires forall tx :: tx in txs ==> tx.Valid()
    requires forall tx, e :: tx in txs && e in tx.entries ==> e.accountId in s.accounts
    requires forall a :: a in s.accounts || a in s.journalOf ==> IsSync(accounts, a)
    requires forall id :: Lookup(after, id) ==
               if IsSync(accounts, id.account) then After(Lookup(s.table, id), txs, mappings, ALL_LEAVES, id) else Lookup(s.table, id)
    ensures Next(s, s.(table := after), Post(txs, mappings))
  {
    hide After, Resolved;
    forall id: BalanceId ensures Lookup(after, id) == After(Lookup(s.table, id), txs, mappings, ALL_LEAVES, id) {
      if !IsSync(accounts, id.account) { NothingReachesUnknown(s, txs, mappings, id); }
    }
  }

  /** What the expansion of a posting resolves for an account are the sets of the journal that contain it, each once. */
  lemma ExpansionResolves(s: Ledger, snapshot: GraphCache.GraphSnapshot, overlay: Option<Expansion.Overlay>, journal: JournalId,
                          seeds: seq<AccountMembership>, mappings: Mappings, a: AccountId)
    requires AccountPaths.Mirrors(Expansion.KnownParents(snapshot, overlay), s.edges)
    requires AccountPaths.Complete(Expansion.KnownParents(snapshot, overlay), seeds)
    requires forall x :: Expansion.MetaOf(snapshot, overlay, x).Some? ==>
               x in s.journalOf && s.journalOf[x] == Expansion.MetaOf(snapshot, overlay, x).value.journalId
    requires forall m: AccountMembership :: m.account == a ==> (m in seeds <==> m in s.members)
    requires forall b :: b in mappings ==> Distinct(mappings[b])
    requires forall b, x :: x in SetsOf(mappings, b) <==> Expansion.IsAncestorOf(snapshot, overlay, journal, seeds, b, x)
    ensures Distinct(SetsOf(mappings, a))
    ensures forall x :: x in SetsOf(mappings, a) <==> x in s.journalOf && s.journalOf[x] == journal && s.InSet(a, x)
  {
    hide AccountPaths.Mirrors, Expansion.KnownParents, Reach;
    forall x ensures Expansion.WalkReaches(s.edges, seeds, a, x) <==> s.InSet(a, x) {
      if s.InSet(a, x) {
        var m :| m in s.members && m.account == a && Reach(s.edges, x, m.container);
        var i :| 0 <= i < |seeds| && seeds[i] == m;
      }
    }
    forall x ensures x in SetsOf(mappings, a) <==> x in s.journalOf && s.journalOf[x] == journal && s.InSet(a, x) {
      Expansion.ExpansionIsWalk(snapshot, overlay, s.edges, seeds, a, x);
      if x in Expansion.Reached(snapshot, overlay, seeds, a) { ReachedIsKnown(snapshot, overlay, seeds, a, x); }
    }
  }

  lemma ReachedIsKnown(snapshot: GraphCache.GraphSnapshot, overlay: Option<Expansion.Overlay>, seeds: seq<AccountMembership>,
                       a: AccountId, x: AccountSetId)
    requires AccountPaths.Complete(Expansion.KnownParents(snapshot, overlay), seeds)
    requires x in Expansion.Reached(snapshot, overlay, seeds, a)
    ensures Expansion.MetaOf(snapshot, overlay, x).Some?
  {
    AccountPaths.CompleteByAccount(Expansion.KnownParents(snapshot, overlay), seeds);
    assert AccountPaths.CompleteSeeds(Expansion.KnownParents(snapshot, overlay), AccountPaths.SeedsOf(seeds, a));
  }
}
