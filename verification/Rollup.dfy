/** The streaming rollup: transactions and entries collected from an ordered event stream, cut into batches
    anywhere, and applied to the balances of eventually consistent sets and leaves. */
module Rollup {
  import opened Primitives
  import opened Distinctness
  import opened Snapshots
  import opened Balances

  // ---------------------------------------------------------------- applying one group of transactions

  /** The pairs the group writes, with what the table holds. */
  method LoadGroup(entries: seq<EntryValues>, ecMappings: Mappings, ecLeaves: set<AccountId>, table: Table,
                   journal: JournalId)
    returns (current: Loaded)
    ensures LoadedFrom(current, table, journal)
    ensures forall i, a :: 0 <= i < |entries| && a in FanOut(ecMappings, AsLeaves(ecLeaves), entries[i]) ==>
              Key(a, entries[i].currency) in current
  {
    current := map[];
    for i := 0 to |entries|
      invariant LoadedFrom(current, table, journal)
      invariant forall l, a :: 0 <= l < i && a in FanOut(ecMappings, AsLeaves(ecLeaves), entries[l]) ==>
                  Key(a, entries[l].currency) in current
    {
      var e := entries[i];
      var fan := SetsOf(ecMappings, e.accountId) + if e.accountId in ecLeaves then [e.accountId] else [];
      for j := 0 to |fan|
        invariant LoadedFrom(current, table, journal)
        invariant forall l, a :: 0 <= l < i && a in FanOut(ecMappings, AsLeaves(ecLeaves), entries[l]) ==>
                    Key(a, entries[l].currency) in current
        invariant forall l :: 0 <= l < j ==> Key(fan[l], e.currency) in current
      {
        var k := Key(fan[j], e.currency);
        current := current[k := Lookup(table, BalanceId(journal, k.account, k.currency))];
      }
    }
  }

  /** Overwrite the loaded balances with the rows just written: per pair the last row wins. */
  method Overwrite(current: Loaded, rows: seq<BalanceSnapshot>) returns (next: Loaded)
    requires forall row :: row in rows ==> KeyOf(row) in current
    ensures next.Keys == current.Keys
    ensures forall k :: k in current ==> next[k] == Written(current[k], RowsFor(rows, k))
  {
    next := current;
    hide RowsFor, KeyOf;
    NoRowsFor();
    for i := 0 to |rows|
      invariant next.Keys == current.Keys
      invariant forall k :: k in current ==> next[k] == Written(current[k], RowsFor(rows[..i], k))
    {
      assert rows[i] in rows;
      forall k ensures RowsFor(rows[..i + 1], k) == if KeyOf(rows[i]) == k then RowsFor(rows[..i], k) + [rows[i]] else RowsFor(rows[..i], k) {
        RowsForSnoc(rows, i, k);
      }
      next := next[KeyOf(rows[i]) := Some(rows[i])];
    }
    assert rows[..|rows|] == rows;
  }

  lemma NoRowsFor()
    ensures forall k :: RowsFor([], k) == []
  {
  }

  lemma RowsForSnoc(rows: seq<BalanceSnapshot>, i: nat, k: Key)
    requires i < |rows|
    ensures RowsFor(rows[..i + 1], k) == if KeyOf(rows[i]) == k then RowsFor(rows[..i], k) + [rows[i]] else RowsFor(rows[..i], k)
  {
    assert rows[..i + 1][..i] == rows[..i];
  }

  /** What `k` holds after some of the group's entries. */
  ghost predicate GroupState(base: Loaded, current: Loaded, rows: seq<BalanceSnapshot>, touches: seq<Touch>, k: Key) {
    && RowsFor(rows, k) == EmittedFor(base, touches, k)
    && (k in base <==> k in current)
    && (k in base ==> current[k] == Latest(k, base[k], EntriesFor(touches, k)))
  }

  lemma GroupStep(base: Loaded, current: Loaded, rows: seq<BalanceSnapshot>, touches: seq<Touch>, more: seq<Touch>,
                  added: seq<BalanceSnapshot>, next: Loaded, k: Key)
    requires GroupState(base, current, rows, touches, k)
    requires RowsFor(added, k) == EmittedFor(current, more, k)
    requires next.Keys == current.Keys && (k in current ==> next[k] == Written(current[k], RowsFor(added, k)))
    ensures GroupState(base, next, rows + added, touches + more, k)
  {
    RowsForConcat(rows, added, k);
    EntriesForConcat(touches, more, k);
    if k in base {
      EmittedConcat(k, base[k], EntriesFor(touches, k), EntriesFor(more, k));
      EmittedGrows(k, current[k], EntriesFor(more, k));
    }
  }

  lemma RowsAreLoaded(current: Loaded, touches: seq<Touch>, rows: seq<BalanceSnapshot>)
    requires forall k :: RowsFor(rows, k) == EmittedFor(current, touches, k)
    ensures forall row :: row in rows ==> KeyOf(row) in current
  {
    forall row | row in rows ensures KeyOf(row) in current {
      RowInItsKey(rows, row);
    }
  }

  /** Loaded balances stay filed under their keys while the group is folded. */
  lemma GroupFiled(base: Loaded, current: Loaded, rows: seq<BalanceSnapshot>, touches: seq<Touch>)
    requires WellFiled(base) && forall k :: GroupState(base, current, rows, touches, k)
    ensures WellFiled(current)
  {
    forall k | k in current && current[k].Some? ensures KeyOf(current[k].value) == k {
      assert GroupState(base, current, rows, touches, k);
      var es := EntriesFor(touches, k);
      EntriesForCurrency(touches, k);
      if es != [] { ChainedKey(k, base[k], es); }
    }
  }

  /** Fold a group of transactions of one journal, chaining them in memory. */
  method FoldGroup(base: Loaded, group: seq<Transaction>, journal: JournalId, ecMappings: Mappings,
                   ecLeaves: set<AccountId>)
    returns (rows: seq<BalanceSnapshot>)
    requires WellFiled(base) && forall tx :: tx in group ==> tx.journal == journal
    ensures forall k :: RowsFor(rows, k) == EmittedFor(base, TouchesOf(ecMappings, AsLeaves(ecLeaves), JournalEntries(group, journal)), k)
  {
    hide GroupState, RowsFor, EmittedFor, WellFiled, TouchesOf;
    ghost var leaves := AsLeaves(ecLeaves);
    var current := base;
    rows := [];
    GroupStart(base, ecMappings, leaves);
    for i := 0 to |group|
      invariant forall k :: GroupState(base, current, rows, TouchesOf(ecMappings, leaves, JournalEntries(group[..i], journal)), k)
    {
      ghost var touches := TouchesOf(ecMappings, leaves, JournalEntries(group[..i], journal));
      ghost var more := TouchesOf(ecMappings, leaves, group[i].entries);
      GroupFiled(base, current, rows, touches);
      var added := FromEcEntries(current, group[i].entries, ecMappings, ecLeaves);
      RowsAreLoaded(current, more, added);
      var next := Overwrite(current, added);
      forall k ensures GroupState(base, next, rows + added, touches + more, k) {
        GroupStep(base, current, rows, touches, more, added, next, k);
      }
      assert group[..i + 1][..i] == group[..i];
      assert group[i] in group;
      TouchesConcat(ecMappings, leaves, JournalEntries(group[..i], journal), group[i].entries);
      current := next;
      rows := rows + added;
    }
    assert group[..|group|] == group;
    GroupEnd(base, current, rows, TouchesOf(ecMappings, leaves, JournalEntries(group, journal)));
  }

  lemma GroupStart(base: Loaded, ecMappings: Mappings, leaves: iset<AccountId>)
    ensures TouchesOf(ecMappings, leaves, []) == []
    ensures forall k :: GroupState(base, base, [], [], k)
  {
  }

  lemma GroupEnd(base: Loaded, current: Loaded, rows: seq<BalanceSnapshot>, touches: seq<Touch>)
    requires forall k :: GroupState(base, current, rows, touches, k)
    ensures forall k :: RowsFor(rows, k) == EmittedFor(base, touches, k)
  {
    forall k ensures RowsFor(rows, k) == EmittedFor(base, touches, k) {
      assert GroupState(base, current, rows, touches, k);
    }
  }

  /** The rollup's part of a balance: its entries, through the eventually consistent sets and leaves only. */
  ghost function RolledUp(base: Option<BalanceSnapshot>, txs: seq<Transaction>, ecMappings: AncestorMappings,
                          ecLeaves: set<AccountId>, id: BalanceId)
    : Option<BalanceSnapshot>
  {
    After(base, txs, ecMappings, AsLeaves(ecLeaves), id)
  }

  /** The transactions of one journal, in order. */
  function OfJournal(txs: seq<Transaction>, journal: JournalId): (group: seq<Transaction>)
    ensures forall tx :: tx in group ==> tx.journal == journal && tx in txs
  {
    if txs == [] then []
    else
      var front := OfJournal(txs[..|txs| - 1], journal);
      if txs[|txs| - 1].journal == journal then front + [txs[|txs| - 1]] else front
  }

  lemma {:induction false} OfJournalEntries(txs: seq<Transaction>, journal: JournalId)
    ensures JournalEntries(OfJournal(txs, journal), journal) == JournalEntries(txs, journal)
  {
    if txs != [] {
      var front, last := txs[..|txs| - 1], txs[|txs| - 1];
      OfJournalEntries(front, journal);
      if last.journal == journal {
        assert OfJournal(txs, journal)[..|OfJournal(front, journal)|] == OfJournal(front, journal);
      }
    }
  }

  /** Apply one journal's group: one load over the union of involved pairs, a chained fold, one insert. */
  method ApplyGroup(tables: BalanceTables, group: seq<Transaction>, journal: JournalId, ecMappings: AncestorMappings,
                    ecLeaves: set<AccountId>, chunkSize: nat)
    requires chunkSize > 0 && Filed(tables.current) && forall tx :: tx in group ==> tx.Valid() && tx.journal == journal
    modifies tables
    ensures forall id :: Lookup(tables.current, id) ==
              if id.journal == journal then RolledUp(Lookup(old(tables.current), id), group, ecMappings, ecLeaves, id)
              else Lookup(old(tables.current), id)
    ensures Filed(tables.current)
  {
    hide RowsForId, GrowingFor, Lookup, RolledUp, Filed;
    ghost var before := tables.current;
    var own := MappingsOf(ecMappings, journal);
    var entries := JournalEntries(group, journal);
    var base := LoadGroup(entries, own, ecLeaves, tables.current, journal);
    LoadedIsFiled(base, tables.current, journal);
    var rows := FoldGroup(base, group, journal, own, ecLeaves);
    forall id
      ensures GrowingFor(Lookup(before, id), RowsForId(rows, id))
      ensures Written(Lookup(before, id), RowsForId(rows, id)) ==
              if id.journal == journal then RolledUp(Lookup(before, id), group, ecMappings, ecLeaves, id) else Lookup(before, id)
    {
      GroupWrites(before, group, journal, ecMappings, ecLeaves, base, rows, id);
    }
    tables.InsertNewSnapshots(rows, chunkSize);
    RolledUpStaysFiled(before, tables.current, group, ecMappings, ecLeaves);
  }

  lemma RolledUpStaysFiled(before: Table, table: Table, txs: seq<Transaction>, ecMappings: AncestorMappings,
                           ecLeaves: set<AccountId>)
    requires Filed(before) && forall tx :: tx in txs ==> tx.Valid()
    requires forall id :: Lookup(table, id) == Lookup(before, id) || Lookup(table, id) == RolledUp(Lookup(before, id), txs, ecMappings, ecLeaves, id)
    ensures Filed(table)
  {
    StaysFiled(before, table, txs, ecMappings, AsLeaves(ecLeaves));
  }

  lemma GroupWrites(before: Table, txs: seq<Transaction>, journal: JournalId, ecMappings: AncestorMappings,
                    ecLeaves: set<AccountId>,
                    base: Loaded, rows: seq<BalanceSnapshot>, id: BalanceId)
    requires Filed(before) && forall tx :: tx in txs ==> tx.Valid()
    requires LoadedFrom(base, before, journal)
    requires var own := MappingsOf(ecMappings, journal);
             var entries := JournalEntries(txs, journal);
             && (forall i, a :: 0 <= i < |entries| && a in FanOut(own, AsLeaves(ecLeaves), entries[i]) ==> Key(a, entries[i].currency) in base)
             && forall k :: RowsFor(rows, k) == EmittedFor(base, TouchesOf(own, AsLeaves(ecLeaves), entries), k)
    ensures GrowingFor(Lookup(before, id), RowsForId(rows, id))
    ensures Written(Lookup(before, id), RowsForId(rows, id)) ==
            if id.journal == journal then RolledUp(Lookup(before, id), txs, ecMappings, ecLeaves, id) else Lookup(before, id)
  {
    var own, leaves := MappingsOf(ecMappings, journal), AsLeaves(ecLeaves);
    var entries := JournalEntries(txs, journal);
    var touches := TouchesOf(own, leaves, entries);
    JournalEntriesJournal(txs, journal);
    TouchesJournal(own, leaves, entries, journal);
    EmittedJournal(base, before, journal, touches, rows);
    RowsOfOneJournal(rows, journal, id);
    if id.journal == journal {
      EmittedGrows(id.AsKey(), Lookup(before, id), EntriesFor(touches, id.AsKey()));
      if id.AsKey() !in base {
        UntouchedHasNoEntries(own, leaves, entries, id.AsKey());
      }
    }
  }

  datatype JournalGroup = JournalGroup(journal: JournalId, txs: seq<Transaction>)

  ghost function JournalsIn(groups: seq<JournalGroup>): seq<JournalId> {
    seq(|groups|, i requires 0 <= i < |groups| => groups[i].journal)
  }

  /** Every journal of the list has one group, which holds its transactions in their order. */
  ghost predicate IsGrouping(txs: seq<Transaction>, groups: seq<JournalGroup>) {
    && Distinct(JournalsIn(groups))
    && (forall g :: g in groups ==> g.txs == OfJournal(txs, g.journal))
    && (forall tx :: tx in txs ==> tx.journal in JournalsIn(groups))
  }

  /** Group a batch by journal, in order of first appearance; within a group the order is kept. */
  method GroupByJournal(txs: seq<Transaction>) returns (groups: seq<JournalGroup>)
    ensures IsGrouping(txs, groups)
  {
    groups := [];
    for i := 0 to |txs|
      invariant IsGrouping(txs[..i], groups)
    {
      hide IsGrouping;
      var tx := txs[i];
      assert txs[..i + 1] == txs[..i] + [tx];
      var k := 0;
      while k < |groups| && groups[k].journal != tx.journal
        invariant 0 <= k <= |groups|
        invariant forall l :: 0 <= l < k ==> groups[l].journal != tx.journal
      {
        k := k + 1;
      }
      if k < |groups| {
        JoinGroup(txs[..i], groups, tx, k);
        groups := groups[k := JournalGroup(tx.journal, groups[k].txs + [tx])];
      } else {
        OpenGroup(txs[..i], groups, tx);
        groups := groups + [JournalGroup(tx.journal, [tx])];
      }
    }
    assert txs[..|txs|] == txs;
  }

  lemma JoinGroup(txs: seq<Transaction>, groups: seq<JournalGroup>, tx: Transaction, k: nat)
    requires IsGrouping(txs, groups) && k < |groups| && groups[k].journal == tx.journal
    ensures IsGrouping(txs + [tx], groups[k := JournalGroup(tx.journal, groups[k].txs + [tx])])
  {
    hide OfJournal;
    var next := groups[k := JournalGroup(tx.journal, groups[k].txs + [tx])];
    assert JournalsIn(next) == JournalsIn(groups);
    forall g | g in next ensures g.txs == OfJournal(txs + [tx], g.journal) {
      var l :| 0 <= l < |next| && next[l] == g;
      assert groups[l] in groups && JournalsIn(groups)[l] == groups[l].journal && JournalsIn(groups)[k] == tx.journal;
      OfJournalSnoc(txs, tx, g.journal);
    }
    assert JournalsIn(groups)[k] in JournalsIn(groups);
  }

  lemma OpenGroup(txs: seq<Transaction>, groups: seq<JournalGroup>, tx: Transaction)
    requires IsGrouping(txs, groups) && forall l :: 0 <= l < |groups| ==> groups[l].journal != tx.journal
    ensures IsGrouping(txs + [tx], groups + [JournalGroup(tx.journal, [tx])])
  {
    hide OfJournal;
    var next := groups + [JournalGroup(tx.journal, [tx])];
    assert tx.journal !in JournalsIn(groups) && JournalsIn(next) == JournalsIn(groups) + [tx.journal];
    NotYetSeen(txs, JournalsIn(groups), tx.journal);
    forall g | g in next ensures g.txs == OfJournal(txs + [tx], g.journal) {
      OfJournalSnoc(txs, tx, g.journal);
      if g in groups {
        var l :| 0 <= l < |groups| && groups[l] == g;
      }
    }
  }

  lemma OfJournalSnoc(txs: seq<Transaction>, tx: Transaction, journal: JournalId)
    ensures OfJournal(txs + [tx], journal) == if tx.journal == journal then OfJournal(txs, journal) + [tx] else OfJournal(txs, journal)
  {
    assert (txs + [tx])[..|txs|] == txs;
  }

  lemma {:induction false} NotYetSeen(txs: seq<Transaction>, journals: seq<JournalId>, journal: JournalId)
    requires journal !in journals && forall tx :: tx in txs ==> tx.journal in journals
    ensures OfJournal(txs, journal) == []
  {
    if txs != [] {
      NotYetSeen(txs[..|txs| - 1], journals, journal);
      assert txs[|txs| - 1] in txs;
    }
  }

  /** Apply a batch journal by journal, in order of first appearance. Grouping does not change the result. */
  method ApplyEcRollup(tables: BalanceTables, txs: seq<Transaction>, ecMappings: AncestorMappings,
                       ecLeaves: set<AccountId>, chunkSize: nat)
    requires chunkSize > 0 && Filed(tables.current) && forall tx :: tx in txs ==> tx.Valid()
    modifies tables
    ensures forall id :: Lookup(tables.current, id) == RolledUp(Lookup(old(tables.current), id), txs, ecMappings, ecLeaves, id)
    ensures Filed(tables.current)
  {
    hide Lookup, RolledUp, Filed;
    ghost var before := tables.current;
    var groups := GroupByJournal(txs);
    ghost var journals := JournalsIn(groups);
    for i := 0 to |groups|
      invariant Filed(tables.current)
      invariant forall id :: Lookup(tables.current, id) ==
                  if id.journal in journals[..i] then RolledUp(Lookup(before, id), txs, ecMappings, ecLeaves, id) else Lookup(before, id)
    {
      DistinctAt(journals, i);
      assert journals[..i + 1] == journals[..i] + [journals[i]];
      assert groups[i] in groups;
      ApplyGroup(tables, groups[i].txs, groups[i].journal, ecMappings, ecLeaves, chunkSize);
      forall id: BalanceId | id.journal == groups[i].journal
        ensures RolledUp(Lookup(before, id), groups[i].txs, ecMappings, ecLeaves, id) == RolledUp(Lookup(before, id), txs, ecMappings, ecLeaves, id)
      {
        GroupIsEnough(Lookup(before, id), txs, ecMappings, ecLeaves, id);
      }
    }
    assert journals[..|journals|] == journals;
    forall id: BalanceId | id.journal !in journals
      ensures RolledUp(Lookup(before, id), txs, ecMappings, ecLeaves, id) == Lookup(before, id)
    {
      NothingRolledUp(Lookup(before, id), txs, ecMappings, ecLeaves, id);
    }
  }

  /** A balance sees only the transactions of its journal. */
  lemma GroupIsEnough(base: Option<BalanceSnapshot>, txs: seq<Transaction>, ecMappings: AncestorMappings,
                      ecLeaves: set<AccountId>, id: BalanceId)
    ensures RolledUp(base, OfJournal(txs, id.journal), ecMappings, ecLeaves, id) == RolledUp(base, txs, ecMappings, ecLeaves, id)
  {
    OfJournalEntries(txs, id.journal);
  }

  lemma NothingRolledUp(base: Option<BalanceSnapshot>, txs: seq<Transaction>, ecMappings: AncestorMappings,
                        ecLeaves: set<AccountId>, id: BalanceId)
    requires forall tx :: tx in txs ==> tx.journal != id.journal
    ensures RolledUp(base, txs, ecMappings, ecLeaves, id) == base
  {
    OtherJournalHasNoEntries(txs, id.journal);
  }
}
