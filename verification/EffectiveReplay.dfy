/** The in-place replay of one balance: entries at one date, then every later row shifted and repaired. */
module EffectiveReplay {
  import opened Primitives
  import opened Snapshots
  import opened EntrySort
  import opened Balances
  import opened EffectiveData
  import opened EffectiveShift

  /** The rows of a log from position `j` on, as replay updates. */
  ghost function RowUpdates(id: BalanceId, log: Log, j: nat): seq<SnapshotOrEntry>
    requires j <= |log|
  {
    seq(|log| - j, i requires 0 <= i < |log| - j => Snapshot(log[j + i].date, SnapAt(id, log, j + i)))
  }

  // ---------------------------------------------------------------- one entry

  /** What the replay carries when it reaches position `k` of the log: the balance before it and that balance's date. */
  ghost predicate LastOk(id: BalanceId, log: Log, date: Date, k: nat, last: BalanceSnapshot, lastEffective: Date)
    requires k <= |log|
  {
    if k == 0 then last == Zero(id) && lastEffective == date
    else last == SnapAt(id, log, k - 1) && lastEffective == log[k - 1].date
  }

  lemma OnDateSnoc(log: Log, k: nat)
    requires ByDate(log) && k < |log|
    ensures OnDate(log[..k + 1], log[k].date) == 1 + OnDate(log[..k], log[k].date)
    ensures k > 0 && log[k - 1].date != log[k].date ==> OnDate(log[..k], log[k].date) == 0
  {
    assert log[..k + 1][..k] == log[..k];
    if k > 0 && log[k - 1].date != log[k].date {
      forall i | 0 <= i < k ensures log[i].date != log[k].date {
        assert log[i].date <= log[k - 1].date <= log[k].date;
      }
      OnDateNone(log[..k], log[k].date);
    }
  }

  /** One entry on top of what the replay carries is the next row: the version restarts with the date. */
  lemma EntryStep(id: BalanceId, log: Log, date: Date, k: nat, last: BalanceSnapshot, lastEffective: Date)
    requires ByDate(log) && k < |log| && log[k].date == date && LastOk(id, log, date, k, last, lastEffective)
    ensures UpdateSnapshot(if lastEffective != date then last.(version := 0) else last, log[k].entry) == SnapAt(id, log, k)
    ensures LastOk(id, log, date, k + 1, SnapAt(id, log, k), date)
  {
    OnDateSnoc(log, k);
    FoldedSnoc(Zero(id), Entries(log), k);
    hide OnDate, ByDate, Entries, Folded, UpdateSnapshot;
    var before := Folded(Zero(id), Entries(log)[..k]);
    assert last == before.(version := last.version);
    VersionStep(before, if lastEffective != date then 0 else last.version, log[k].entry);
  }

  lemma FoldedSnoc(base: BalanceSnapshot, es: seq<EntryValues>, k: nat)
    requires k < |es|
    ensures Folded(base, es[..k + 1]) == UpdateSnapshot(Folded(base, es[..k]), es[k])
    ensures Folded(base, es[..0]) == base
  {
    assert es[..k + 1][..k] == es[..k];
  }

  lemma VersionStep(s: BalanceSnapshot, version: nat, e: EntryValues)
    ensures UpdateSnapshot(s.(version := version), e) == UpdateSnapshot(s, e).(version := version + 1)
  {
  }

  // ---------------------------------------------------------------- the sorted updates

  lemma RowUpdatesStrict(id: BalanceId, log: Log, j: nat)
    requires ByDate(log) && j <= |log|
    ensures RowsStrict(RowUpdates(id, log, j))
  {
    var us := RowUpdates(id, log, j);
    forall a: nat, b: nat | a < b < |us| ensures Before(us[a], us[b]) {
      VersionsGrow(log, j + a, j + b);
      RowMeaning(id, log, j + a, Settled);
      RowMeaning(id, log, j + b, Settled);
    }
  }

  lemma VersionsGrow(log: Log, a: nat, b: nat)
    requires ByDate(log) && a < b < |log|
    ensures log[a].date <= log[b].date
    ensures log[a].date == log[b].date ==> OnDate(log[..a + 1], log[a].date) < OnDate(log[..b + 1], log[b].date)
  {
    var head, tail := log[..a + 1], log[a + 1..b + 1];
    assert log[..b + 1] == head + tail;
    OnDateConcat(head, tail, log[b].date);
    assert tail[|tail| - 1] == log[b];
  }

  /** The loaded rows, in any order. */
  ghost predicate LaterRows(id: BalanceId, log: Log, j: nat, rows: seq<SnapshotOrEntry>)
    requires j <= |log|
  {
    multiset(rows) == multiset(RowUpdates(id, log, j))
  }

  lemma LaterRowsAreLater(id: BalanceId, log: Log, date: Date, rows: seq<SnapshotOrEntry>)
    requires ByDate(log) && LaterRows(id, log, UpTo(log, date), rows)
    ensures forall u :: u in rows ==> u.Snapshot? && u.effective > date
  {
    UpToSplits(log, date);
    forall u | u in rows ensures u.Snapshot? && u.effective > date {
      assert u in multiset(rows);
      assert u in RowUpdates(id, log, UpTo(log, date));
    }
  }

  /** The comparison of a row with an entry of the same date never happens. */
  lemma NeverMixed(id: BalanceId, log: Log, date: Date, rows: seq<SnapshotOrEntry>, es: seq<EntryValues>)
    requires ByDate(log) && LaterRows(id, log, UpTo(log, date), rows)
    ensures Separated(rows + AsEntries(date, es))
  {
    LaterRowsAreLater(id, log, date, rows);
    var us := rows + AsEntries(date, es);
    forall i | 0 <= i < |us| ensures if i < |rows| then us[i].Snapshot? && us[i].effective > date else us[i].Entry? && us[i].effective == date {
      if i < |rows| { assert us[i] in rows; }
    }
  }

  ghost function Sorted(id: BalanceId, log: Log, date: Date, es: seq<EntryValues>): seq<SnapshotOrEntry> {
    AsEntries(date, SortBySequence(es)) + RowUpdates(id, log, UpTo(log, date))
  }

  ghost function Replayed(id: BalanceId, log: Log, date: Date, es: seq<EntryValues>): seq<SnapshotOrEntry>
    requires |Inserted(log, date, es)| == |log| + |es|
  {
    RowUpdates(id, Inserted(log, date, es), UpTo(log, date))
  }

  lemma SortedAt(id: BalanceId, log: Log, date: Date, es: seq<EntryValues>, i: nat)
    requires |Inserted(log, date, es)| == |log| + |es| && i < |es|
    ensures |SortBySequence(es)| == |es| && i < |Sorted(id, log, date, es)| && UpTo(log, date) + i < |log| + |es|
    ensures Sorted(id, log, date, es)[i] == Entry(date, SortBySequence(es)[i])
    ensures Inserted(log, date, es)[UpTo(log, date) + i] == Dated(date, SortBySequence(es)[i])
  {
    SortSorts(es);
  }

  lemma ReplayedAt(id: BalanceId, log: Log, date: Date, es: seq<EntryValues>, i: nat)
    requires |Inserted(log, date, es)| == |log| + |es| && UpTo(log, date) + i < |log| + |es|
    ensures i < |Replayed(id, log, date, es)|
    ensures var k := UpTo(log, date) + i;
            Replayed(id, log, date, es)[i] == Snapshot(Inserted(log, date, es)[k].date, SnapAt(id, Inserted(log, date, es), k))
  {
    hide SnapAt, UpTo, Inserted;
  }

  /** Whatever order the rows were loaded in, the replay sees the entries by sequence and then the rows in log order. */
  lemma SortedUpdates(id: BalanceId, log: Log, date: Date, rows: seq<SnapshotOrEntry>, es: seq<EntryValues>)
    requires ByDate(log) && LaterRows(id, log, UpTo(log, date), rows)
    ensures SortUpdates(rows + AsEntries(date, es)) == Sorted(id, log, date, es)
  {
    var later := RowUpdates(id, log, UpTo(log, date));
    LaterRowsAreLater(id, log, date, rows);
    SortRows(rows);
    RowUpdatesStrict(id, log, UpTo(log, date));
    RowsUnique(SortUpdates(rows), later);
    forall i | 0 <= i < |later| ensures later[i].effective > date {
      assert later[i] in multiset(rows);
    }
    SortEntriesFirst(rows, date, es);
  }

  // ---------------------------------------------------------------- the replay

  /** The balance before the posting date carries over to the next log. */
  lemma InitialLast(id: BalanceId, log: Log, date: Date, es: seq<EntryValues>)
    requires UpTo(log, date) > 0
    requires UpTo(log, date) <= |Inserted(log, date, es)|
    ensures SnapAt(id, Inserted(log, date, es), UpTo(log, date) - 1) == SnapAt(id, log, UpTo(log, date) - 1)
    ensures Inserted(log, date, es)[UpTo(log, date) - 1] == log[UpTo(log, date) - 1]
  {
    var j, next := UpTo(log, date), Inserted(log, date, es);
    assert next[..j] == log[..j];
    assert Entries(next)[..j] == Entries(log)[..j];
  }

  /** The diff once `i` updates are replayed. */
  ghost predicate DiffAt(log: Log, date: Date, es: seq<EntryValues>, i: nat, diff: Option<BalanceSnapshot>) {
    var j, sorted, next := UpTo(log, date), SortBySequence(es), Inserted(log, date, es);
    && j + i <= |next|
    && if i == 0 then diff.None?
       else diff.Some? && DiffOk(diff.value, if i < |sorted| then sorted[..i] else sorted, Entries(next)[..j + i])
  }

  /** What the replay knows at position `i` of the updates. */
  ghost predicate Progress(id: BalanceId, log: Log, date: Date, es: seq<EntryValues>, i: nat,
                           last: BalanceSnapshot, lastEffective: Date, diff: Option<BalanceSnapshot>)
  {
    && DiffAt(log, date, es, i, diff)
    && (i <= |es| ==> LastOk(id, Inserted(log, date, es), date, UpTo(log, date) + i, last, lastEffective))
  }

  lemma ReplayDiff(id: BalanceId, log: Log, date: Date, es: seq<EntryValues>, i: nat, balance: BalanceSnapshot,
                   diff: Option<BalanceSnapshot>)
    requires |SortBySequence(es)| == |es| && |Inserted(log, date, es)| == |log| + |es| && i < |es|
    requires Inserted(log, date, es)[UpTo(log, date) + i].entry == SortBySequence(es)[i]
    requires balance == SnapAt(id, Inserted(log, date, es), UpTo(log, date) + i)
    requires DiffAt(log, date, es, i, diff)
    ensures var e := SortBySequence(es)[i];
            DiffAt(log, date, es, i + 1, Some(if diff.Some? then UpdateSnapshot(diff.value, e) else FirstDiff(id.account, balance, e)))
  {
    hide DiffOk, UpdateSnapshot, FirstDiff, SnapAt, Inserted, LastId, OnDate, UpTo, Folded, Units, SortBySequence,
         BalanceSnapshot.Amount;
    var j, next, sorted := UpTo(log, date), Inserted(log, date, es), SortBySequence(es);
    var prefix, e := Entries(next)[..j + i], sorted[i];
    assert Entries(next)[..j + i + 1] == prefix + [e];
    assert sorted[..i] + [e] == if i + 1 < |es| then sorted[..i + 1] else sorted;
    if i == 0 {
      forall layer: Layer ensures balance.Amount(layer).entryId == LastId(prefix + [e], layer, UNASSIGNED_ENTRY_ID) {
        RowMeaning(id, next, j, layer);
      }
      FirstDiffOk(id.account, balance, prefix, e);
      assert [e] == sorted[..i] + [e];
    } else {
      NextDiffOk(diff.value, sorted[..i], prefix, e);
    }
  }

  lemma ReplayEntry(id: BalanceId, log: Log, date: Date, es: seq<EntryValues>, i: nat,
                    last: BalanceSnapshot, lastEffective: Date, diff: Option<BalanceSnapshot>)
    requires ByDate(log) && |Inserted(log, date, es)| == |log| + |es| && i < |es|
    requires Progress(id, log, date, es, i, last, lastEffective, diff)
    ensures |SortBySequence(es)| == |es| && i < |Sorted(id, log, date, es)| && i < |Replayed(id, log, date, es)|
    ensures var e := SortBySequence(es)[i];
            var balance := UpdateSnapshot(if lastEffective != date then last.(version := 0) else last, e);
            && Sorted(id, log, date, es)[i] == Entry(date, e)
            && Replayed(id, log, date, es)[i] == Snapshot(date, balance)
            && Progress(id, log, date, es, i + 1, balance, date,
                        Some(if diff.Some? then UpdateSnapshot(diff.value, e) else FirstDiff(id.account, balance, e)))
  {
    hide ByDate, DiffAt, UpdateSnapshot, FirstDiff, SnapAt, Inserted, LastOk, UpTo, SortBySequence, Sorted, Replayed,
         OnDate, Folded, Entries, AllAt;
    InsertedByDate(log, date, es);
    SortedAt(id, log, date, es, i);
    ReplayedAt(id, log, date, es, i);
    var e, base := SortBySequence(es)[i], if lastEffective != date then last.(version := 0) else last;
    EntryStep(id, Inserted(log, date, es), date, UpTo(log, date) + i, last, lastEffective);
    ReplayDiff(id, log, date, es, i, UpdateSnapshot(base, e), diff);
  }

  lemma ReplayRow(id: BalanceId, log: Log, date: Date, es: seq<EntryValues>, i: nat,
                  last: BalanceSnapshot, lastEffective: Date, diff: Option<BalanceSnapshot>, last': BalanceSnapshot, effective: Date)
    requires ValidLog(id, log) && Proper(id, Entries(Inserted(log, date, es))) && es != []
    requires |Inserted(log, date, es)| == |log| + |es|
    requires |es| <= i && UpTo(log, date) + i - |es| < |log|
    requires Progress(id, log, date, es, i, last, lastEffective, diff)
    ensures var k := UpTo(log, date) + i - |es|;
            && i < |Sorted(id, log, date, es)| && Sorted(id, log, date, es)[i] == Snapshot(log[k].date, SnapAt(id, log, k))
            && diff.Some? && i < |Replayed(id, log, date, es)|
            && var shift := ShiftRow(diff.value, SnapAt(id, log, k));
               && Replayed(id, log, date, es)[i] == Snapshot(log[k].date, shift.values)
               && Progress(id, log, date, es, i + 1, last', effective, Some(shift.diff))
  {
    SortSorts(es);
    hide ByDate, DiffOk, ShiftRow, SnapAt, Inserted, Proper, LastOk, UpTo, OnDate, SortBySequence;
    RowShift(id, log, date, es, UpTo(log, date) + i - |es|, diff.value);
  }

  /** One turn of the replay loop. */
  lemma ReplayUpdate(id: BalanceId, log: Log, date: Date, es: seq<EntryValues>, i: nat,
                     last: BalanceSnapshot, lastEffective: Date, diff: Option<BalanceSnapshot>)
    requires ValidLog(id, log) && Proper(id, Entries(Inserted(log, date, es))) && es != []
    requires |Inserted(log, date, es)| == |log| + |es| && i < |Sorted(id, log, date, es)|
    requires Progress(id, log, date, es, i, last, lastEffective, diff)
    ensures i < |Replayed(id, log, date, es)|
    ensures var u, done := Sorted(id, log, date, es)[i], Replayed(id, log, date, es)[i];
            var base := if lastEffective != u.effective then last.(version := 0) else last;
            match u {
              case Entry(effective, e) =>
                var balance := UpdateSnapshot(base, e);
                && done == Snapshot(effective, balance)
                && Progress(id, log, date, es, i + 1, balance, effective,
                            Some(if diff.Some? then UpdateSnapshot(diff.value, e) else FirstDiff(id.account, balance, e)))
              case Snapshot(effective, values) =>
                && diff.Some?
                && var shift := ShiftRow(diff.value, values);
                   && done == Snapshot(effective, shift.values)
                   && Progress(id, log, date, es, i + 1, base, effective, Some(shift.diff))
            }
  {
    SortSorts(es);
    assert i < |es| + |log| - UpTo(log, date);
    hide Progress, Replayed, ShiftRow, UpdateSnapshot, FirstDiff, Inserted, SnapAt, ByDate, Proper, UpTo;
    if i < |es| {
      ReplayEntry(id, log, date, es, i, last, lastEffective, diff);
    } else {
      var u := Sorted(id, log, date, es)[i];
      ReplayRow(id, log, date, es, i, last, lastEffective, diff, if lastEffective != u.effective then last.(version := 0) else last, u.effective);
    }
  }

  lemma ReplaceAt<T>(before: seq<T>, after: seq<T>, i: nat)
    requires i < |before| == |after|
    ensures (after[..i] + before[i..])[i] == before[i]
    ensures (after[..i] + before[i..])[i := after[i]] == after[..i + 1] + before[i + 1..]
  {
  }

  lemma UpdateCounts(id: BalanceId, log: Log, date: Date, es: seq<EntryValues>, rows: seq<SnapshotOrEntry>)
    requires ByDate(log) && LaterRows(id, log, UpTo(log, date), rows)
    ensures |Inserted(log, date, es)| == |log| + |es|
    ensures |rows + AsEntries(date, es)| == |Sorted(id, log, date, es)| == |Replayed(id, log, date, es)| ==
              |es| + |log| - UpTo(log, date)
  {
    SortSorts(es);
    InsertedByDate(log, date, es);
    assert |rows| == |multiset(rows)| == |multiset(RowUpdates(id, log, UpTo(log, date)))|;
  }

  /** With nothing on or before the date the replay starts at zero, on the first entry. */
  lemma FirstUpdate(id: BalanceId, log: Log, date: Date, es: seq<EntryValues>)
    requires es != [] && Proper(id, Entries(Inserted(log, date, es)))
    ensures Sorted(id, log, date, es) != [] && Sorted(id, log, date, es)[0].Entry? && Sorted(id, log, date, es)[0].effective == date
    ensures ZeroSnapshot(id.account, Sorted(id, log, date, es)[0].entry) == Zero(id)
  {
    var next, j := Inserted(log, date, es), UpTo(log, date);
    SortSorts(es);
    assert next[j] == Dated(date, SortBySequence(es)[0]);
    assert Entries(next)[j] in Entries(next);
  }

  /** The state the replay starts in. */
  lemma InitialProgress(id: BalanceId, log: Log, date: Date, es: seq<EntryValues>, last: BalanceSnapshot,
                        lastEffective: Date)
    requires |Inserted(log, date, es)| == |log| + |es|
    requires var j := UpTo(log, date);
             if j == 0 then last == Zero(id) && lastEffective == date
             else last == SnapAt(id, log, j - 1) && lastEffective == log[j - 1].date
    ensures Progress(id, log, date, es, 0, last, lastEffective, None)
  {
    if UpTo(log, date) > 0 { InitialLast(id, log, date, es); }
  }

  class EffectiveBalanceData {
    const accountId: AccountId
    const currency: Currency
    var lastSnapshot: Option<(Date, BalanceSnapshot)>
    var latestAllTimeVersion: nat
    var updates: seq<SnapshotOrEntry>
    /** What the loaded rows stand for, the date being posted at, and the entries pushed so far. */
    ghost const id: BalanceId
    ghost const log: Log
    ghost const date: Date
    ghost var es: seq<EntryValues>
    ghost var rows: seq<SnapshotOrEntry>

    ghost predicate Valid()
      reads this
    {
      var j := UpTo(log, date);
      && id.account == accountId && id.currency == currency && ByDate(log)
      && LaterRows(id, log, j, rows) && updates == rows + AsEntries(date, es)
      && lastSnapshot == (if j == 0 then None else Some((log[j - 1].date, SnapAt(id, log, j - 1))))
      && latestAllTimeVersion == j
    }

    /** After the replay the updates are the rows, from the posting date on, of the log with the entries inserted. */
    ghost predicate Done()
      reads this
    {
      && id.account == accountId && id.currency == currency && latestAllTimeVersion == UpTo(log, date)
      && |Inserted(log, date, es)| == |log| + |es| && updates == Replayed(id, log, date, es)
    }

    /** Load a balance: the row at or before the date, and all later rows in any order. */
    constructor (accountId: AccountId, currency: Currency, lastSnapshot: Option<(Date, BalanceSnapshot)>,
                 latestAllTimeVersion: nat,
                 updates: seq<SnapshotOrEntry>, ghost id: BalanceId, ghost log: Log, ghost date: Date)
      requires id.account == accountId && id.currency == currency && ByDate(log)
      requires LaterRows(id, log, UpTo(log, date), updates) && latestAllTimeVersion == UpTo(log, date)
      requires lastSnapshot == if UpTo(log, date) == 0 then None
                               else Some((log[UpTo(log, date) - 1].date, SnapAt(id, log, UpTo(log, date) - 1)))
      ensures Valid() && this.id == id && this.log == log && this.date == date && es == []
    {
      this.accountId, this.currency, this.lastSnapshot := accountId, currency, lastSnapshot;
      this.latestAllTimeVersion, this.updates := latestAllTimeVersion, updates;
      this.id, this.log, this.date, this.es, this.rows := id, log, date, [], updates;
      new;
      assert updates == updates + AsEntries(date, []);
    }

    method Push(effective: Date, entry: EntryValues)
      requires Valid() && effective == date
      modifies this`updates, this`es
      ensures Valid() && es == old(es) + [entry]
    {
      hide LaterRows, SnapAt, ByDate;
      assert AsEntries(date, es + [entry]) == AsEntries(date, es) + [Entry(effective, entry)];
      updates := updates + [Entry(effective, entry)];
      es := es + [entry];
    }

    /** Replay the pushed entries and shift every later row. */
    method ReCalculateSnapshots()
      requires Valid() && ValidLog(id, log) && Proper(id, Entries(Inserted(log, date, es)))
      requires es != [] || UpTo(log, date) == |log|
      modifies this`updates, this`lastSnapshot
      ensures Done()
    {
      hide LaterRows, SnapAt, ByDate, Proper, Progress, Inserted, SortUpdates, RowUpdates, AsEntries, Sorted,
           Replayed, ValidLog,
           Zero, ZeroSnapshot, Entries, UpTo, Separated;
      InsertedByDate(log, date, es);
      UpdateCounts(id, log, date, es, rows);
      if updates == [] { return; }
      NeverMixed(id, log, date, rows, es);
      SortedUpdates(id, log, date, rows, es);
      updates := SortUpdates(updates);
      if lastSnapshot.None? { FirstUpdate(id, log, date, es); }
      var (lastBalance, lastEffective) :=
        match lastSnapshot
        case Some(last) => (last.1, last.0)
        case None => (ZeroSnapshot(accountId, updates[0].entry), updates[0].effective);
      lastSnapshot := None;
      InitialProgress(id, log, date, es, lastBalance, lastEffective);
      ReplayFrom(lastBalance, lastEffective);
    }

    /** The replay loop: chain the entries, then shift the rows by what they add up to. */
    method ReplayFrom(balance: BalanceSnapshot, effective: Date)
      requires ValidLog(id, log) && Proper(id, Entries(Inserted(log, date, es))) && es != [] && id.account == accountId
      requires |Inserted(log, date, es)| == |log| + |es| && updates == Sorted(id, log, date, es)
      requires |Sorted(id, log, date, es)| == |Replayed(id, log, date, es)|
      requires Progress(id, log, date, es, 0, balance, effective, None)
      modifies this`updates
      ensures updates == Replayed(id, log, date, es)
    {
      hide Progress, Inserted, ShiftRow, UpdateSnapshot, FirstDiff, Sorted, Replayed, ValidLog, Proper, Entries;
      ghost var before, after := Sorted(id, log, date, es), Replayed(id, log, date, es);
      var lastBalance, lastEffective := balance, effective;
      var diff: Option<BalanceSnapshot> := None;
      for i := 0 to |updates|
        invariant |updates| == |before| == |after|
        invariant updates == after[..i] + before[i..]
        invariant Progress(id, log, date, es, i, lastBalance, lastEffective, diff)
      {
        ReplaceAt(before, after, i);
        ReplayUpdate(id, log, date, es, i, lastBalance, lastEffective, diff);
        lastBalance := if lastEffective != updates[i].effective then lastBalance.(version := 0) else lastBalance;
        match updates[i] {
          case Entry(effective, entry) =>
            lastEffective := effective;
            lastBalance := UpdateSnapshot(lastBalance, entry);
            diff := Some(if diff.Some? then UpdateSnapshot(diff.value, entry) else FirstDiff(accountId, lastBalance, entry));
            updates := updates[i := Snapshot(effective, lastBalance)];
          case Snapshot(effective, values) =>
            lastEffective := effective;
            var shift := ShiftRow(diff.value, values);
            diff := Some(shift.diff);
            updates := updates[i := Snapshot(effective, shift.values)];
        }
      }
    }

    /** The rows to write: numbered densely behind the rows that were left in place. */
    method IntoSnapshots(journal: JournalId) returns (snapshots: seq<EffectiveRow>)
      requires Done() && journal == id.journal
      ensures |snapshots| == |log| + |es| - UpTo(log, date)
      ensures forall i :: 0 <= i < |snapshots| ==> snapshots[i] == RowAt(id, Inserted(log, date, es), UpTo(log, date) + i)
    {
      hide SnapAt, Inserted, UpTo;
      snapshots := [];
      for i := 0 to |updates|
        invariant |snapshots| == i
        invariant forall k :: 0 <= k < i ==> snapshots[k] == RowAt(id, Inserted(log, date, es), UpTo(log, date) + k)
      {
        ReplayedAt(id, log, date, es, i);
        RowMeaning(id, Inserted(log, date, es), UpTo(log, date) + i, Settled);
        var values := updates[i].values.(journalId := journal, accountId := accountId, currency := currency);
        snapshots := snapshots + [EffectiveRow(updates[i].effective, i + 1 + latestAllTimeVersion, values)];
      }
    }
  }
}
