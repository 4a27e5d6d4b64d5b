/** Running totals by effective date, and the replay that inserts back-dated entries into them. */
module EffectiveData {
  import opened Primitives
  import opened Snapshots
  import opened EntrySort
  import opened Balances

  // ---------------------------------------------------------------- the specification

  /** An entry at its effective date. */
  datatype Dated = Dated(date: Date, entry: EntryValues)

  /** The entries of one balance, ordered by date, within a date in the order they were posted. */
  type Log = seq<Dated>

  ghost function Entries(log: Log): (es: seq<EntryValues>)
    ensures |es| == |log|
  {
    seq(|log|, i requires 0 <= i < |log| => log[i].entry)
  }

  ghost predicate ByDate(log: Log) {
    forall i, j :: 0 <= i < j < |log| ==> log[i].date <= log[j].date
  }

  /** Entries of one balance, with real and pairwise different identities. */
  ghost predicate Proper(id: BalanceId, es: seq<EntryValues>) {
    && (forall e :: e in es ==> e.journalId == id.journal && e.currency == id.currency && e.id != UNASSIGNED_ENTRY_ID)
    && (forall i, j :: 0 <= i < j < |es| ==> es[i].id != es[j].id)
  }

  ghost predicate ValidLog(id: BalanceId, log: Log) {
    ByDate(log) && Proper(id, Entries(log))
  }

  /** How many entries of the log have the date. */
  ghost function OnDate(log: Log, date: Date): nat {
    if log == [] then 0 else OnDate(log[..|log| - 1], date) + if log[|log| - 1].date == date then 1 else 0
  }

  /** How many entries are dated on or before the date. */
  ghost function UpTo(log: Log, date: Date): (n: nat)
    ensures n <= |log|
  {
    if log == [] then 0 else UpTo(log[..|log| - 1], date) + if log[|log| - 1].date <= date then 1 else 0
  }

  function Zero(id: BalanceId): BalanceSnapshot {
    BalanceSnapshot(id.journal, id.account, id.currency, 0, UNASSIGNED_ENTRY_ID, NOTHING, NOTHING, NOTHING)
  }

  datatype EffectiveRow = EffectiveRow(effective: Date, allTimeVersion: nat, values: BalanceSnapshot)

  /** The running total after the first `i + 1` entries: the version counts within the date, the all-time version overall. */
  ghost function SnapAt(id: BalanceId, log: Log, i: nat): BalanceSnapshot
    requires i < |log|
  {
    Folded(Zero(id), Entries(log)[..i + 1]).(version := OnDate(log[..i + 1], log[i].date))
  }

  ghost function RowAt(id: BalanceId, log: Log, i: nat): EffectiveRow
    requires i < |log|
  {
    EffectiveRow(log[i].date, i + 1, SnapAt(id, log, i))
  }

  /** What a list of entries leaves on a layer: both sides added up, and the last entry of the layer. */
  ghost function AmountOf(es: seq<EntryValues>, layer: Layer): BalanceAmount {
    BalanceAmount(Units(es, layer, Debit), Units(es, layer, Credit), LastId(es, layer, UNASSIGNED_ENTRY_ID))
  }

  /** What row `i` says: layer amounts are prefix sums, each layer points at its last entry in the prefix. */
  lemma RowMeaning(id: BalanceId, log: Log, i: nat, layer: Layer)
    requires i < |log|
    ensures var row := RowAt(id, log, i);
            && row.effective == log[i].date && row.allTimeVersion == i + 1
            && row.values.version == OnDate(log[..i + 1], log[i].date)
            && row.values.entryId == log[i].entry.id
            && row.values.Amount(layer) == AmountOf(Entries(log)[..i + 1], layer)
            && IdOf(row.values) == id
  {
    FoldedTotals(Zero(id), Entries(log)[..i + 1], layer, Debit);
    FoldedTotals(Zero(id), Entries(log)[..i + 1], layer, Credit);
  }

  ghost function AllAt(date: Date, es: seq<EntryValues>): Log {
    seq(|es|, i requires 0 <= i < |es| => Dated(date, es[i]))
  }

  /** Post entries at a date: behind everything dated on or before it, ordered among themselves by sequence. */
  ghost function Inserted(log: Log, date: Date, es: seq<EntryValues>): Log {
    var j := UpTo(log, date);
    log[..j] + AllAt(date, SortBySequence(es)) + log[j..]
  }

  // ---------------------------------------------------------------- facts about logs

  lemma {:induction false} UpToSplits(log: Log, date: Date)
    requires ByDate(log)
    ensures forall i :: 0 <= i < |log| ==> (log[i].date <= date <==> i < UpTo(log, date))
  {
    if log != [] {
      var front := log[..|log| - 1];
      assert forall i :: 0 <= i < |front| ==> front[i] == log[i];
      UpToSplits(front, date);
      assert forall i :: 0 <= i < |front| ==> front[i].date <= log[|log| - 1].date;
    }
  }

  lemma {:induction false} OnDateConcat(a: Log, b: Log, date: Date)
    ensures OnDate(a + b, date) == OnDate(a, date) + OnDate(b, date)
  {
    if b == [] {
      assert a + b == a;
    } else {
      OnDateConcat(a, b[..|b| - 1], date);
      assert (a + b)[..|a + b| - 1] == a + b[..|b| - 1];
    }
  }

  lemma {:induction false} OnDateNone(log: Log, date: Date)
    requires forall i :: 0 <= i < |log| ==> log[i].date != date
    ensures OnDate(log, date) == 0
  {
    if log != [] { OnDateNone(log[..|log| - 1], date); }
  }

  lemma {:induction false} OnDateAll(log: Log, date: Date)
    requires forall i :: 0 <= i < |log| ==> log[i].date == date
    ensures OnDate(log, date) == |log|
  {
    if log != [] { OnDateAll(log[..|log| - 1], date); }
  }

  lemma EntriesConcat(a: Log, b: Log)
    ensures Entries(a + b) == Entries(a) + Entries(b)
  {
  }

  lemma EntriesPrefix(log: Log, n: nat)
    requires n <= |log|
    ensures Entries(log)[..n] == Entries(log[..n])
  {
  }

  lemma EntriesAllAt(date: Date, es: seq<EntryValues>)
    ensures Entries(AllAt(date, es)) == es
  {
  }

  /** Prefixes that reach behind the posting date: the inserted entries sit in the middle. */
  lemma InsertedPrefix(log: Log, date: Date, es: seq<EntryValues>, k: nat)
    requires UpTo(log, date) <= k < |log|
    ensures |SortBySequence(es)| == |es| && |Inserted(log, date, es)| == |log| + |es|
    ensures Inserted(log, date, es)[k + |es|] == log[k]
    ensures var head, mid, tail := log[..UpTo(log, date)], AllAt(date, SortBySequence(es)), log[UpTo(log, date)..k + 1];
            log[..k + 1] == head + tail && Inserted(log, date, es)[..k + |es| + 1] == head + mid + tail
  {
    SortSorts(es);
  }

  lemma InsertedByDate(log: Log, date: Date, es: seq<EntryValues>)
    requires ByDate(log)
    ensures ByDate(Inserted(log, date, es))
    ensures |Inserted(log, date, es)| == |log| + |es|
    ensures Entries(Inserted(log, date, es)) == Entries(log[..UpTo(log, date)]) + SortBySequence(es) + Entries(log[UpTo(log, date)..])
  {
    UpToSplits(log, date);
    SortSorts(es);
    hide UpTo, SortBySequence, BySequence;
    var j, sorted := UpTo(log, date), SortBySequence(es);
    JoinByDate(log, j, date, AllAt(date, sorted));
    EntriesAllAt(date, sorted);
    hide Entries, AllAt, ByDate;
    EntriesConcat(log[..j] + AllAt(date, sorted), log[j..]);
    EntriesConcat(log[..j], AllAt(date, sorted));
  }

  lemma JoinByDate(log: Log, j: nat, date: Date, mid: Log)
    requires ByDate(log) && j <= |log|
    requires forall i :: 0 <= i < |log| ==> (log[i].date <= date <==> i < j)
    requires forall i :: 0 <= i < |mid| ==> mid[i].date == date
    ensures ByDate(log[..j] + mid + log[j..])
  {
  }

  // ---------------------------------------------------------------- the replay data

  datatype SnapshotOrEntry =
    | Snapshot(effective: Date, values: BalanceSnapshot)
    | Entry(effective: Date, entry: EntryValues)

  /** Rows and entries never share a date: loaded rows are strictly later than the entries pushed after them. */
  ghost predicate Separated(us: seq<SnapshotOrEntry>) {
    forall i, j :: 0 <= i < |us| && 0 <= j < |us| && us[i].effective == us[j].effective ==> us[i].Entry? == us[j].Entry?
  }

  /** The order of the replay: by date; rows of a date by version, entries of a date by sequence. */
  predicate Before(u: SnapshotOrEntry, v: SnapshotOrEntry) {
    u.effective < v.effective ||
    (u.effective == v.effective &&
     ((u.Snapshot? && v.Snapshot? && u.values.version < v.values.version) ||
      (u.Entry? && v.Entry? && u.entry.sequence < v.entry.sequence)))
  }

  /** `u` goes behind everything it does not precede. */
  function InsertUpdate(us: seq<SnapshotOrEntry>, u: SnapshotOrEntry): seq<SnapshotOrEntry> {
    if us == [] then [u]
    else if Before(u, us[0]) then [u] + us
    else [us[0]] + InsertUpdate(us[1..], u)
  }

  /** The stable sort of the updates. */
  function SortUpdates(us: seq<SnapshotOrEntry>): seq<SnapshotOrEntry> {
    if us == [] then [] else InsertUpdate(SortUpdates(us[..|us| - 1]), us[|us| - 1])
  }

  ghost function AsEntries(date: Date, es: seq<EntryValues>): seq<SnapshotOrEntry> {
    seq(|es|, i requires 0 <= i < |es| => Entry(date, es[i]))
  }

  /** Entries of one date sort by sequence, in front of the later rows. */
  lemma {:induction false} InsertEntry(es: seq<EntryValues>, rows: seq<SnapshotOrEntry>, date: Date, e: EntryValues)
    requires forall i :: 0 <= i < |rows| ==> rows[i].effective > date
    ensures InsertUpdate(AsEntries(date, es) + rows, Entry(date, e)) == AsEntries(date, InsertBySequence(es, e)) + rows
  {
    var us := AsEntries(date, es) + rows;
    if es == [] {
      assert us == rows;
      if rows != [] { assert [Entry(date, e)] + rows == AsEntries(date, [e]) + rows; }
    } else {
      assert us[0] == Entry(date, es[0]);
      assert us[1..] == AsEntries(date, es[1..]) + rows;
      if e.sequence < es[0].sequence {
        assert [Entry(date, e)] + us == AsEntries(date, [e] + es) + rows;
      } else {
        InsertEntry(es[1..], rows, date, e);
        var tail := InsertBySequence(es[1..], e);
        assert [us[0]] + (AsEntries(date, tail) + rows) == AsEntries(date, [es[0]] + tail) + rows;
      }
    }
  }

  lemma {:induction false} SortEntriesFirst(rows: seq<SnapshotOrEntry>, date: Date, es: seq<EntryValues>)
    requires forall i :: 0 <= i < |SortUpdates(rows)| ==> SortUpdates(rows)[i].effective > date
    ensures SortUpdates(rows + AsEntries(date, es)) == AsEntries(date, SortBySequence(es)) + SortUpdates(rows)
  {
    hide Before, InsertUpdate, InsertBySequence;
    var us := rows + AsEntries(date, es);
    if es == [] {
      assert us == rows;
      assert AsEntries(date, []) + SortUpdates(rows) == SortUpdates(rows);
    } else {
      var front, e := es[..|es| - 1], es[|es| - 1];
      assert us[|us| - 1] == Entry(date, e) && us[..|us| - 1] == rows + AsEntries(date, front);
      SortEntriesFirst(rows, date, front);
      InsertEntry(SortBySequence(front), SortUpdates(rows), date, e);
    }
  }

  // ---------------------------------------------------------------- sorting the loaded rows

  /** Rows only, none preceding an earlier one. */
  ghost predicate RowsInOrder(us: seq<SnapshotOrEntry>) {
    && (forall u :: u in us ==> u.Snapshot?)
    && (forall i, j :: 0 <= i < j < |us| ==> !Before(us[j], us[i]))
  }

  ghost predicate RowsStrict(us: seq<SnapshotOrEntry>) {
    && (forall u :: u in us ==> u.Snapshot?)
    && (forall i, j :: 0 <= i < j < |us| ==> Before(us[i], us[j]))
  }

  lemma {:induction false} InsertKeeps(us: seq<SnapshotOrEntry>, u: SnapshotOrEntry)
    ensures multiset(InsertUpdate(us, u)) == multiset(us) + multiset{u}
  {
    hide Before;
    if us != [] {
      assert us == [us[0]] + us[1..];
      if !Before(u, us[0]) { InsertKeeps(us[1..], u); }
    }
  }

  lemma {:induction false} InsertRow(us: seq<SnapshotOrEntry>, u: SnapshotOrEntry)
    requires RowsInOrder(us) && u.Snapshot?
    ensures RowsInOrder(InsertUpdate(us, u))
  {
    if us != [] && !Before(u, us[0]) {
      InsertRow(us[1..], u);
      InsertKeeps(us[1..], u);
      var tail := InsertUpdate(us[1..], u);
      forall x | x in tail ensures !Before(x, us[0]) {
        assert x in multiset(tail);
        assert x in us[1..] || x == u;
      }
    }
  }

  lemma {:induction false} SortRows(us: seq<SnapshotOrEntry>)
    requires forall u :: u in us ==> u.Snapshot?
    ensures RowsInOrder(SortUpdates(us)) && multiset(SortUpdates(us)) == multiset(us)
  {
    if us != [] {
      SortRows(us[..|us| - 1]);
      InsertRow(SortUpdates(us[..|us| - 1]), us[|us| - 1]);
      InsertKeeps(SortUpdates(us[..|us| - 1]), us[|us| - 1]);
      assert us == us[..|us| - 1] + [us[|us| - 1]];
    }
  }

  lemma {:induction false} RowsUnique(a: seq<SnapshotOrEntry>, b: seq<SnapshotOrEntry>)
    requires RowsInOrder(a) && RowsStrict(b) && multiset(a) == multiset(b)
    ensures a == b
  {
    assert |a| == |multiset(a)| == |multiset(b)| == |b|;
    if a != [] {
      SameHead(a, b);
      TailsInOrder(a, b);
      hide RowsInOrder, RowsStrict;
      RowsUnique(a[1..], b[1..]);
      assert a == [a[0]] + a[1..] && b == [b[0]] + b[1..];
    }
  }

  lemma SameHead(a: seq<SnapshotOrEntry>, b: seq<SnapshotOrEntry>)
    requires RowsInOrder(a) && RowsStrict(b) && multiset(a) == multiset(b) && a != [] && b != []
    ensures a[0] == b[0]
  {
    assert a[0] in multiset(a) && b[0] in multiset(b);
    assert a[0] in b && b[0] in a;
    var i :| 0 <= i < |b| && b[i] == a[0];
    var j :| 0 <= j < |a| && a[j] == b[0];
    assert i > 0 ==> Before(b[0], b[i]);
    assert j > 0 ==> !Before(a[j], a[0]);
  }

  lemma TailsInOrder(a: seq<SnapshotOrEntry>, b: seq<SnapshotOrEntry>)
    requires RowsInOrder(a) && RowsStrict(b) && multiset(a) == multiset(b) && a != [] && b != [] && a[0] == b[0]
    ensures RowsInOrder(a[1..]) && RowsStrict(b[1..]) && multiset(a[1..]) == multiset(b[1..])
  {
    TailInOrder(a);
    TailStrict(b);
    hide RowsInOrder, RowsStrict;
    assert a == [a[0]] + a[1..] && b == [b[0]] + b[1..];
    assert multiset(a[1..]) == multiset(a) - multiset{a[0]} == multiset(b[1..]);
  }

  lemma TailInOrder(a: seq<SnapshotOrEntry>)
    requires RowsInOrder(a) && a != []
    ensures RowsInOrder(a[1..])
  {
    hide Before;
  }

  lemma TailStrict(a: seq<SnapshotOrEntry>)
    requires RowsStrict(a) && a != []
    ensures RowsStrict(a[1..])
  {
    hide Before;
  }
}
