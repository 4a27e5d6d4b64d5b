/** The settled-balance tables and the two writers that maintain them: the inline posting fold and the
    rollup of eventually consistent balances. */
module Balances {
  import opened Primitives
  import opened Distinctness
  import opened Ordering
  import opened Snapshots

  datatype BalanceId = BalanceId(journal: JournalId, account: AccountId, currency: Currency) {
    function AsKey(): Key { Key(account, currency) }
  }

  type Table = map<BalanceId, BalanceSnapshot>

  function IdOf(s: BalanceSnapshot): BalanceId {
    BalanceId(s.journalId, s.accountId, s.currency)
  }

  function Lookup(table: Table, id: BalanceId): Option<BalanceSnapshot> {
    if id in table then Some(table[id]) else None
  }

  /** Every row is filed under its own identity. */
  ghost predicate Filed(table: Table) {
    forall id :: id in table ==> IdOf(table[id]) == id
  }

  /** The rows of one balance, in order. */
  ghost function RowsForId(rows: seq<BalanceSnapshot>, id: BalanceId): seq<BalanceSnapshot> {
    if rows == [] then []
    else RowsForId(rows[..|rows| - 1], id) + if IdOf(rows[|rows| - 1]) == id then [rows[|rows| - 1]] else []
  }

  lemma {:induction false} RowsForIdConcat(a: seq<BalanceSnapshot>, b: seq<BalanceSnapshot>, id: BalanceId)
    ensures RowsForId(a + b, id) == RowsForId(a, id) + RowsForId(b, id)
  {
    if b == [] {
      assert a + b == a;
    } else {
      RowsForIdConcat(a, b[..|b| - 1], id);
      assert (a + b)[..|a + b| - 1] == a + b[..|b| - 1];
    }
  }

  // ---------------------------------------------------------------- the upsert

  /** The row with the greatest version of one balance in a chunk. */
  function Best(rows: seq<BalanceSnapshot>, id: BalanceId): Option<BalanceSnapshot> {
    if rows == [] then None
    else
      var rest, row := Best(rows[..|rows| - 1], id), rows[|rows| - 1];
      if IdOf(row) == id && (rest.None? || rest.value.version < row.version) then Some(row) else rest
  }

  function IdsOf(rows: seq<BalanceSnapshot>): set<BalanceId> {
    set row | row in rows :: IdOf(row)
  }

  /** One statement: per balance the greatest version of the chunk, written unless the table already has a greater one. */
  function Upsert(table: Table, rows: seq<BalanceSnapshot>): Table {
    map id | id in table.Keys + IdsOf(rows) ::
      var best := Best(rows, id);
      if best.None? then (if id in table then table[id] else rows[0])
      else if id in table && table[id].version >= best.value.version then table[id]
      else best.value
  }

  /** Versions of every balance grow along the rows, and start above the table. */
  ghost predicate Growing(table: Table, rows: seq<BalanceSnapshot>) {
    forall id :: GrowingFor(Lookup(table, id), RowsForId(rows, id))
  }

  ghost predicate GrowingFor(base: Option<BalanceSnapshot>, rows: seq<BalanceSnapshot>) {
    && (forall i, j :: 0 <= i < j < |rows| ==> rows[i].version < rows[j].version)
    && (forall i :: 0 <= i < |rows| && base.Some? ==> base.value.version < rows[i].version)
  }

  /** The balance once all rows are written: the last row, or what was there. */
  ghost function Written(base: Option<BalanceSnapshot>, rows: seq<BalanceSnapshot>): Option<BalanceSnapshot> {
    if rows == [] then base else Some(rows[|rows| - 1])
  }

  lemma {:induction false} BestIsLast(rows: seq<BalanceSnapshot>, id: BalanceId)
    requires GrowingFor(None, RowsForId(rows, id))
    ensures Best(rows, id) == Written(None, RowsForId(rows, id))
    ensures id in IdsOf(rows) <==> RowsForId(rows, id) != []
  {
    if rows != [] {
      var front, row := rows[..|rows| - 1], rows[|rows| - 1];
      assert rows == front + [row];
      GrowingPrefix(None, RowsForId(front, id), if IdOf(row) == id then [row] else []);
      BestIsLast(front, id);
      assert IdsOf(rows) == IdsOf(front) + {IdOf(row)};
    }
  }

  lemma UpsertWrites(table: Table, rows: seq<BalanceSnapshot>, id: BalanceId)
    requires GrowingFor(Lookup(table, id), RowsForId(rows, id))
    ensures Lookup(Upsert(table, rows), id) == Written(Lookup(table, id), RowsForId(rows, id))
  {
    BestIsLast(rows, id);
  }

  lemma GrowingPrefix(base: Option<BalanceSnapshot>, a: seq<BalanceSnapshot>, b: seq<BalanceSnapshot>)
    requires GrowingFor(base, a + b)
    ensures GrowingFor(base, a) && GrowingFor(Written(base, a), b)
    ensures Written(base, a + b) == Written(Written(base, a), b)
  {
    assert forall i :: 0 <= i < |a| ==> (a + b)[i] == a[i];
    assert forall i :: 0 <= i < |b| ==> (a + b)[|a| + i] == b[i];
  }

  class BalanceTables {
    var current: Table
    var history: seq<BalanceSnapshot>

    constructor ()
      ensures current == map[] && history == []
    {
      current, history := map[], [];
    }

    /** Append the rows to the history and bring the current balances up to date, chunk by chunk. */
    method InsertNewSnapshots(rows: seq<BalanceSnapshot>, chunkSize: nat)
      requires chunkSize > 0 && Growing(current, rows)
      modifies this
      ensures history == old(history) + rows
      ensures forall id :: Lookup(current, id) == Written(Lookup(old(current), id), RowsForId(rows, id))
    {
      hide GrowingFor, Upsert, Lookup;
      ghost var before := current;
      var i := 0;
      while i < |rows|
        invariant 0 <= i <= |rows|
        invariant history == old(history) + rows[..i]
        invariant forall id :: Lookup(current, id) == Written(Lookup(before, id), RowsForId(rows[..i], id))
      {
        var j := if i + chunkSize < |rows| then i + chunkSize else |rows|;
        var chunk := rows[i..j];
        forall id ensures Lookup(Upsert(current, chunk), id) == Written(Lookup(before, id), RowsForId(rows[..j], id)) {
          ChunkWrites(before, current, rows, i, j, id);
        }
        assert rows[..j] == rows[..i] + chunk;
        history := history + chunk;
        current := Upsert(current, chunk);
        i := j;
      }
      assert rows[..|rows|] == rows;
    }
  }

  lemma ChunkWrites(before: Table, current: Table, rows: seq<BalanceSnapshot>, i: nat, j: nat, id: BalanceId)
    requires i <= j <= |rows| && GrowingFor(Lookup(before, id), RowsForId(rows, id))
    requires Lookup(current, id) == Written(Lookup(before, id), RowsForId(rows[..i], id))
    ensures Lookup(Upsert(current, rows[i..j]), id) == Written(Lookup(before, id), RowsForId(rows[..j], id))
  {
    var a, b, c := rows[..i], rows[i..j], rows[j..];
    assert rows == rows[..j] + c && rows[..j] == a + b;
    RowsForIdConcat(rows[..j], c, id);
    RowsForIdConcat(a, b, id);
    GrowingPrefix(Lookup(before, id), RowsForId(rows[..j], id), RowsForId(c, id));
    GrowingPrefix(Lookup(before, id), RowsForId(a, id), RowsForId(b, id));
    UpsertWrites(current, b, id);
  }

  // ---------------------------------------------------------------- the specification: one balance, its entries in order

  /** A transaction's journal and entries; every entry carries the journal of its transaction. */
  datatype Transaction = Transaction(journal: JournalId, entries: seq<EntryValues>) {
    ghost predicate Valid() {
      forall e :: e in entries ==> e.journalId == journal
    }
  }

  /** The entries posted in one journal, in input order. */
  function JournalEntries(txs: seq<Transaction>, journal: JournalId): seq<EntryValues> {
    if txs == [] then []
    else
      var tx := txs[|txs| - 1];
      JournalEntries(txs[..|txs| - 1], journal) + if tx.journal == journal then tx.entries else []
  }

  lemma {:induction false} JournalEntriesConcat(a: seq<Transaction>, b: seq<Transaction>, journal: JournalId)
    ensures JournalEntries(a + b, journal) == JournalEntries(a, journal) + JournalEntries(b, journal)
  {
    if b == [] {
      assert a + b == a;
    } else {
      JournalEntriesConcat(a, b[..|b| - 1], journal);
      assert (a + b)[..|a + b| - 1] == a + b[..|b| - 1];
    }
  }

  lemma {:induction false} JournalEntriesJournal(txs: seq<Transaction>, journal: JournalId)
    requires forall tx :: tx in txs ==> tx.Valid()
    ensures forall e :: e in JournalEntries(txs, journal) ==> e.journalId == journal
  {
    if txs != [] {
      assert txs[|txs| - 1] in txs;
      JournalEntriesJournal(txs[..|txs| - 1], journal);
    }
  }

  /** Ancestor sets per journal. */
  type AncestorMappings = map<JournalId, Mappings>

  function MappingsOf(mappings: AncestorMappings, journal: JournalId): Mappings {
    if journal in mappings then mappings[journal] else map[]
  }

  /** The entries that reach balance `id`, in order. */
  ghost function EntriesOf(txs: seq<Transaction>, mappings: AncestorMappings, leaves: iset<AccountId>,
                           id: BalanceId): seq<EntryValues> {
    EntriesFor(TouchesOf(MappingsOf(mappings, id.journal), leaves, JournalEntries(txs, id.journal)), id.AsKey())
  }

  /** Balance `id` after the transactions, one entry after the other. */
  ghost function After(base: Option<BalanceSnapshot>, txs: seq<Transaction>, mappings: AncestorMappings,
                       leaves: iset<AccountId>, id: BalanceId)
    : Option<BalanceSnapshot>
  {
    Latest(id.AsKey(), base, EntriesOf(txs, mappings, leaves, id))
  }

  lemma EntriesOfConcat(a: seq<Transaction>, b: seq<Transaction>, mappings: AncestorMappings, leaves: iset<AccountId>,
                        id: BalanceId)
    ensures EntriesOf(a + b, mappings, leaves, id) == EntriesOf(a, mappings, leaves, id) + EntriesOf(b, mappings, leaves, id)
  {
    var m := MappingsOf(mappings, id.journal);
    JournalEntriesConcat(a, b, id.journal);
    TouchesConcat(m, leaves, JournalEntries(a, id.journal), JournalEntries(b, id.journal));
    EntriesForConcat(TouchesOf(m, leaves, JournalEntries(a, id.journal)), TouchesOf(m, leaves, JournalEntries(b, id.journal)), id.AsKey());
  }

  /** Posting a batch leaves every balance where posting its parts one after the other leaves it. */
  lemma BatchIsSequential(base: Option<BalanceSnapshot>, a: seq<Transaction>, b: seq<Transaction>,
                          mappings: AncestorMappings, leaves: iset<AccountId>, id: BalanceId)
    ensures After(base, a + b, mappings, leaves, id) == After(After(base, a, mappings, leaves, id), b, mappings, leaves, id)
  {
    EntriesOfConcat(a, b, mappings, leaves, id);
    EmittedConcat(id.AsKey(), base, EntriesOf(a, mappings, leaves, id), EntriesOf(b, mappings, leaves, id));
  }

  // ---------------------------------------------------------------- from keys to balances

  /** Rows of one journal's fold belong to that journal. */
  lemma {:induction false} RowsOfOneJournal(rows: seq<BalanceSnapshot>, journal: JournalId, id: BalanceId)
    requires forall row :: row in rows ==> row.journalId == journal
    ensures RowsForId(rows, id) == if id.journal == journal then RowsFor(rows, id.AsKey()) else []
  {
    if rows != [] {
      RowsOfOneJournal(rows[..|rows| - 1], journal, id);
    }
  }

  /** A loaded map for one journal: the given keys with what the table holds. */
  ghost predicate LoadedFrom(current: Loaded, table: Table, journal: JournalId) {
    forall k :: k in current ==> current[k] == Lookup(table, BalanceId(journal, k.account, k.currency))
  }

  lemma LoadedIsFiled(current: Loaded, table: Table, journal: JournalId)
    requires Filed(table) && LoadedFrom(current, table, journal)
    ensures WellFiled(current)
  {
  }

  lemma {:induction false} EntriesForMembers(touches: seq<Touch>, k: Key, journal: JournalId)
    requires forall t :: t in touches ==> t.entry.journalId == journal
    ensures forall e :: e in EntriesFor(touches, k) ==> e.journalId == journal
  {
    if touches != [] { EntriesForMembers(touches[..|touches| - 1], k, journal); }
  }

  lemma {:induction false} TouchesJournal(mappings: Mappings, leaves: iset<AccountId>, es: seq<EntryValues>,
                                          journal: JournalId)
    requires forall e :: e in es ==> e.journalId == journal
    ensures forall t :: t in TouchesOf(mappings, leaves, es) ==> t.entry.journalId == journal
  {
    if es != [] { TouchesJournal(mappings, leaves, es[..|es| - 1], journal); }
  }

  lemma {:induction false} RowInItsKey(rows: seq<BalanceSnapshot>, row: BalanceSnapshot)
    requires row in rows
    ensures row in RowsFor(rows, KeyOf(row))
  {
    if row != rows[|rows| - 1] {
      assert row in rows[..|rows| - 1];
      RowInItsKey(rows[..|rows| - 1], row);
    }
  }

  /** Every row a fold of one journal emits belongs to that journal. */
  lemma EmittedJournal(current: Loaded, table: Table, journal: JournalId, touches: seq<Touch>,
                       rows: seq<BalanceSnapshot>)
    requires Filed(table) && LoadedFrom(current, table, journal)
    requires forall t :: t in touches ==> t.entry.journalId == journal
    requires forall k :: RowsFor(rows, k) == EmittedFor(current, touches, k)
    ensures forall row :: row in rows ==> row.journalId == journal
  {
    forall row | row in rows ensures row.journalId == journal {
      var k := KeyOf(row);
      RowInItsKey(rows, row);
      var es := EntriesFor(touches, k);
      var i :| 0 <= i < |es| && Emitted(k, current[k], es)[i] == row;
      EmittedShape(k, current[k], es, i, Settled, Debit);
      EntriesForMembers(touches, k, journal);
    }
  }

  /** Emitted rows grow on top of their base. */
  lemma EmittedGrows(k: Key, base: Option<BalanceSnapshot>, es: seq<EntryValues>)
    ensures GrowingFor(base, Emitted(k, base, es))
    ensures Written(base, Emitted(k, base, es)) == Latest(k, base, es)
  {
    forall i | 0 <= i < |es| ensures Emitted(k, base, es)[i].version == VersionOf(base) + i + 1 {
      EmittedShape(k, base, es, i, Settled, Debit);
    }
    assert es[..|es|] == es;
  }

  /** A balance stays filed under its own identity. */
  lemma AfterFiled(base: Option<BalanceSnapshot>, txs: seq<Transaction>, mappings: AncestorMappings,
                   leaves: iset<AccountId>, id: BalanceId)
    requires forall tx :: tx in txs ==> tx.Valid()
    requires base.Some? ==> IdOf(base.value) == id
    ensures After(base, txs, mappings, leaves, id).Some? ==> IdOf(After(base, txs, mappings, leaves, id).value) == id
  {
    var touches := TouchesOf(MappingsOf(mappings, id.journal), leaves, JournalEntries(txs, id.journal));
    var es := EntriesFor(touches, id.AsKey());
    JournalEntriesJournal(txs, id.journal);
    TouchesJournal(MappingsOf(mappings, id.journal), leaves, JournalEntries(txs, id.journal), id.journal);
    EntriesForMembers(touches, id.AsKey(), id.journal);
    EntriesForCurrency(touches, id.AsKey());
    if es != [] {
      assert es[0] in es;
      FoldedTotals(if base.Some? then base.value else ZeroSnapshot(id.account, es[0]), es, Settled, Debit);
    }
  }

  // ---------------------------------------------------------------- the posting fold

  /** What the posting read about an account: whether the rollup owns its balance. */
  type AccountMeta = map<AccountId, bool>

  predicate IsSync(accounts: AccountMeta, a: AccountId) {
    a in accounts && !accounts[a]
  }

  /** The pairs the flow loaded: each entry's leaf and mapped sets, without eventually consistent accounts. */
  method LoadInvolved(entries: seq<EntryValues>, mappings: Mappings, accounts: AccountMeta, table: Table,
                      journal: JournalId)
    returns (current: Loaded)
    ensures LoadedFrom(current, table, journal)
    ensures forall k :: k in current ==> IsSync(accounts, k.account)
    ensures forall i, a :: 0 <= i < |entries| && a in FanOut(mappings, ALL_LEAVES, entries[i]) && IsSync(accounts, a)
              ==> Key(a, entries[i].currency) in current
  {
    current := map[];
    for i := 0 to |entries|
      invariant LoadedFrom(current, table, journal)
      invariant forall k :: k in current ==> IsSync(accounts, k.account)
      invariant forall l, a :: 0 <= l < i && a in FanOut(mappings, ALL_LEAVES, entries[l]) && IsSync(accounts, a)
                  ==> Key(a, entries[l].currency) in current
    {
      var e := entries[i];
      var fan := SetsOf(mappings, e.accountId) + [e.accountId];
      for j := 0 to |fan|
        invariant LoadedFrom(current, table, journal)
        invariant forall k :: k in current ==> IsSync(accounts, k.account)
        invariant forall l, a :: 0 <= l < i && a in FanOut(mappings, ALL_LEAVES, entries[l]) && IsSync(accounts, a)
                    ==> Key(a, entries[l].currency) in current
        invariant forall l :: 0 <= l < j && IsSync(accounts, fan[l]) ==> Key(fan[l], e.currency) in current
      {
        var k := Key(fan[j], e.currency);
        if IsSync(accounts, fan[j]) && k !in current {
          current := current[k := Lookup(table, BalanceId(journal, k.account, k.currency))];
        }
      }
    }
  }

  lemma {:induction false} UntouchedHasNoEntries(mappings: Mappings, leaves: iset<AccountId>, es: seq<EntryValues>,
                                                 k: Key)
    requires forall i :: 0 <= i < |es| && es[i].currency == k.currency ==> k.account !in FanOut(mappings, leaves, es[i])
    ensures EntriesFor(TouchesOf(mappings, leaves, es), k) == []
  {
    if es != [] {
      var front, e := es[..|es| - 1], es[|es| - 1];
      UntouchedHasNoEntries(mappings, leaves, front, k);
      EntriesForConcat(TouchesOf(mappings, leaves, front), TouchesOfEntry(mappings, leaves, e), k);
      NoTouchNoEntry(TouchesOfEntry(mappings, leaves, e), k);
    }
  }

  lemma {:induction false} NoTouchNoEntry(touches: seq<Touch>, k: Key)
    requires forall t :: t in touches ==> Key(t.account, t.entry.currency) != k
    ensures EntriesFor(touches, k) == []
  {
    if touches != [] { NoTouchNoEntry(touches[..|touches| - 1], k); }
  }

  /** What one journal's fold must emit for a balance. */
  ghost function EmittedOf(table: Table, accounts: AccountMeta, txs: seq<Transaction>, mappings: AncestorMappings,
                           id: BalanceId): seq<BalanceSnapshot> {
    if IsSync(accounts, id.account) then Emitted(id.AsKey(), Lookup(table, id), EntriesOf(txs, mappings, ALL_LEAVES, id)) else []
  }

  /** Fold the entries of one journal. */
  method FoldJournal(txs: seq<Transaction>, accounts: AccountMeta, table: Table, mappings: AncestorMappings,
                     journal: JournalId)
    returns (rows: seq<BalanceSnapshot>)
    requires Filed(table) && forall tx :: tx in txs ==> tx.Valid()
    ensures forall id :: RowsForId(rows, id) == if id.journal == journal then EmittedOf(table, accounts, txs, mappings, id) else []
  {
    var own := MappingsOf(mappings, journal);
    var entries := JournalEntries(txs, journal);
    var current := LoadInvolved(entries, own, accounts, table, journal);
    LoadedIsFiled(current, table, journal);
    rows := FromEntries(current, entries, own);
    ghost var touches := TouchesOf(own, ALL_LEAVES, entries);
    JournalEntriesJournal(txs, journal);
    TouchesJournal(own, ALL_LEAVES, entries, journal);
    EmittedJournal(current, table, journal, touches, rows);
    forall id ensures RowsForId(rows, id) == if id.journal == journal then EmittedOf(table, accounts, txs, mappings, id) else [] {
      RowsOfOneJournal(rows, journal, id);
      if id.journal == journal && id.AsKey() !in current && IsSync(accounts, id.account) {
        UntouchedHasNoEntries(own, ALL_LEAVES, entries, id.AsKey());
      }
    }
  }

  predicate IdLess(x: nat, y: nat) {
    x < y
  }

  /** The journals of a batch in ascending order. */
  method JournalsOf(txs: seq<Transaction>) returns (journals: seq<JournalId>)
    ensures Distinct(journals)
    ensures forall j :: j in journals <==> exists tx :: tx in txs && tx.journal == j
  {
    var all: seq<JournalId> := seq(|txs|, i requires 0 <= i < |txs| => txs[i].journal);
    journals := SortedDeduped<JournalId>(IdLess, all);
    forall j ensures j in all <==> exists tx :: tx in txs && tx.journal == j {
      if tx :| tx in txs && tx.journal == j {
        var i :| 0 <= i < |txs| && txs[i] == tx;
        assert all[i] == j;
      }
    }
  }

  lemma {:induction false} OtherJournalHasNoEntries(txs: seq<Transaction>, journal: JournalId)
    requires forall tx :: tx in txs ==> tx.journal != journal
    ensures JournalEntries(txs, journal) == []
  {
    if txs != [] {
      assert txs[|txs| - 1] in txs;
      OtherJournalHasNoEntries(txs[..|txs| - 1], journal);
    }
  }

  /** Chain the whole batch, journal by journal. */
  method FoldBalances(txs: seq<Transaction>, accounts: AccountMeta, table: Table, mappings: AncestorMappings)
    returns (rows: seq<BalanceSnapshot>)
    requires Filed(table) && forall tx :: tx in txs ==> tx.Valid()
    ensures forall id :: RowsForId(rows, id) == EmittedOf(table, accounts, txs, mappings, id)
  {
    hide EmittedOf, RowsForId;
    var journals := JournalsOf(txs);
    rows := [];
    NoRows();
    for i := 0 to |journals|
      invariant forall id :: RowsForId(rows, id) == if id.journal in journals[..i] then EmittedOf(table, accounts, txs, mappings, id) else []
    {
      var more := FoldJournal(txs, accounts, table, mappings, journals[i]);
      assert journals[..i + 1] == journals[..i] + [journals[i]];
      DistinctAt(journals, i);
      forall id ensures RowsForId(rows + more, id) == if id.journal in journals[..i + 1] then EmittedOf(table, accounts, txs, mappings, id) else [] {
        RowsForIdConcat(rows, more, id);
      }
      rows := rows + more;
    }
    assert journals[..|journals|] == journals;
    forall id: BalanceId | id.journal !in journals ensures EmittedOf(table, accounts, txs, mappings, id) == [] {
      NothingEmitted(table, accounts, txs, mappings, id);
    }
  }

  lemma NoRows()
    ensures forall id :: RowsForId([], id) == []
  {
  }

  lemma NothingEmitted(table: Table, accounts: AccountMeta, txs: seq<Transaction>, mappings: AncestorMappings,
                       id: BalanceId)
    requires forall tx :: tx in txs ==> tx.journal != id.journal
    ensures EmittedOf(table, accounts, txs, mappings, id) == []
  {
    OtherJournalHasNoEntries(txs, id.journal);
  }

  lemma EmittedOfGrows(table: Table, accounts: AccountMeta, txs: seq<Transaction>, mappings: AncestorMappings,
                       id: BalanceId)
    ensures GrowingFor(Lookup(table, id), EmittedOf(table, accounts, txs, mappings, id))
    ensures Written(Lookup(table, id), EmittedOf(table, accounts, txs, mappings, id)) ==
            if IsSync(accounts, id.account) then After(Lookup(table, id), txs, mappings, ALL_LEAVES, id) else Lookup(table, id)
  {
    EmittedGrows(id.AsKey(), Lookup(table, id), EntriesOf(txs, mappings, ALL_LEAVES, id));
  }

  /** Post a batch: fold it and write the snapshots. Every synchronous balance ends where its own entries, applied in
      input order, take it; balances the rollup owns stay as they are. */
  method PostSettled(tables: BalanceTables, txs: seq<Transaction>, accounts: AccountMeta, mappings: AncestorMappings,
                     chunkSize: nat)
    requires chunkSize > 0 && Filed(tables.current) && forall tx :: tx in txs ==> tx.Valid()
    modifies tables
    ensures forall id :: Lookup(tables.current, id) ==
              if IsSync(accounts, id.account) then After(Lookup(old(tables.current), id), txs, mappings, ALL_LEAVES, id)
              else Lookup(old(tables.current), id)
    ensures Filed(tables.current)
    ensures forall id :: RowsForId(tables.history, id) ==
              RowsForId(old(tables.history), id) + EmittedOf(old(tables.current), accounts, txs, mappings, id)
  {
    hide EmittedOf, RowsForId, After, Lookup, GrowingFor;
    ghost var before, past := tables.current, tables.history;
    var rows := FoldBalances(txs, accounts, tables.current, mappings);
    forall id
      ensures GrowingFor(Lookup(before, id), RowsForId(rows, id))
      ensures Written(Lookup(before, id), RowsForId(rows, id)) ==
              if IsSync(accounts, id.account) then After(Lookup(before, id), txs, mappings, ALL_LEAVES, id) else Lookup(before, id)
      ensures RowsForId(past + rows, id) == RowsForId(past, id) + RowsForId(rows, id)
    {
      EmittedOfGrows(before, accounts, txs, mappings, id);
      RowsForIdConcat(past, rows, id);
    }
    tables.InsertNewSnapshots(rows, chunkSize);
    StaysFiled(before, tables.current, txs, mappings, ALL_LEAVES);
  }

  lemma StaysFiled(before: Table, table: Table, txs: seq<Transaction>, mappings: AncestorMappings,
                   leaves: iset<AccountId>)
    requires Filed(before) && forall tx :: tx in txs ==> tx.Valid()
    requires forall id :: Lookup(table, id) == Lookup(before, id) || Lookup(table, id) == After(Lookup(before, id), txs, mappings, leaves, id)
    ensures Filed(table)
  {
    hide After;
    forall id | id in table ensures IdOf(table[id]) == id {
      AfterFiled(Lookup(before, id), txs, mappings, leaves, id);
      assert Lookup(table, id) == Some(table[id]);
    }
  }
}
