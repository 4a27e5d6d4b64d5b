/** One later row of a replay: the entries posted before it shift its amounts and repair its layers' entries. */
module EffectiveShift {
  import opened Primitives
  import opened Snapshots
  import opened EntrySort
  import opened Balances
  import opened EffectiveData

  // ---------------------------------------------------------------- shifting one row

  /** Add a layer of the diff, unless it is zero on both sides. */
  function AddLayer(amount: BalanceAmount, diff: BalanceAmount): BalanceAmount {
    if diff.crBalance != 0 || diff.drBalance != 0
    then amount.(crBalance := amount.crBalance + diff.crBalance, drBalance := amount.drBalance + diff.drBalance)
    else amount
  }

  datatype Shift = Shift(diff: BalanceSnapshot, values: BalanceSnapshot)

  function TakeIds(values: BalanceSnapshot, diff: BalanceSnapshot, kept: Layer): BalanceSnapshot {
    values.(
      settled := if kept.Settled? then values.settled else values.settled.(entryId := diff.settled.entryId),
      pending := if kept.Pending? then values.pending else values.pending.(entryId := diff.pending.entryId),
      encumbrance := if kept.Encumbrance? then values.encumbrance else values.encumbrance.(entryId := diff.encumbrance.entryId))
  }

  function RepairEncumbrance(s: Shift): Shift {
    if s.values.entryId == s.values.encumbrance.entryId then
      Shift(s.diff.(encumbrance := s.diff.encumbrance.(entryId := s.values.entryId)), TakeIds(s.values, s.diff, Encumbrance))
    else s
  }

  function RepairPending(s: Shift): Shift {
    if s.values.entryId == s.values.pending.entryId then
      Shift(s.diff.(pending := s.diff.pending.(entryId := s.values.entryId)), TakeIds(s.values, s.diff, Pending))
    else s
  }

  function RepairSettled(s: Shift): Shift {
    if s.values.entryId == s.values.settled.entryId then
      Shift(s.diff.(settled := s.diff.settled.(entryId := s.values.entryId)), TakeIds(s.values, s.diff, Settled))
    else s
  }

  /** One later row: add the diff, then keep the entry of the layer the row wrote and take the others from the diff. */
  function ShiftRow(diff: BalanceSnapshot, values: BalanceSnapshot): Shift {
    var added := values.(
      encumbrance := AddLayer(values.encumbrance, diff.encumbrance),
      pending := AddLayer(values.pending, diff.pending),
      settled := AddLayer(values.settled, diff.settled));
    RepairSettled(RepairPending(RepairEncumbrance(Shift(diff, added))))
  }

  /** Two snapshots of one balance that agree layer by layer are equal. */
  lemma SnapshotEquality(a: BalanceSnapshot, b: BalanceSnapshot)
    requires IdOf(a) == IdOf(b) && a.version == b.version && a.entryId == b.entryId
    requires forall layer: Layer :: a.Amount(layer) == b.Amount(layer)
    ensures a == b
  {
    assert a.Amount(Settled) == b.Amount(Settled) && a.Amount(Pending) == b.Amount(Pending) && a.Amount(Encumbrance) == b.Amount(Encumbrance);
  }

  /** The row's entry stands on the layer it wrote and nowhere else. */
  ghost predicate Written(diff: BalanceSnapshot, values: BalanceSnapshot, written: Layer) {
    && values.Amount(written).entryId == values.entryId
    && forall other: Layer :: other != written ==> values.Amount(other).entryId != values.entryId && diff.Amount(other).entryId != values.entryId
  }

  /** When only the written layer carries the row's entry, the repair is exact. */
  lemma ShiftRowMeaning(diff: BalanceSnapshot, values: BalanceSnapshot, written: Layer, layer: Layer)
    requires Written(diff, values, written)
    ensures var s := ShiftRow(diff, values);
            && IdOf(s.values) == IdOf(values) && s.values.version == values.version && s.values.entryId == values.entryId
            && s.values.Amount(layer) ==
                 BalanceAmount(values.Amount(layer).drBalance + diff.Amount(layer).drBalance,
                               values.Amount(layer).crBalance + diff.Amount(layer).crBalance,
                               if layer == written then values.entryId else diff.Amount(layer).entryId)
            && s.diff.Amount(layer) == diff.Amount(layer).(entryId := s.values.Amount(layer).entryId)
  {
    assert values.Amount(Settled) == values.settled && values.Amount(Pending) == values.pending && values.Amount(Encumbrance) == values.encumbrance;
    assert diff.Amount(Settled) == diff.settled && diff.Amount(Pending) == diff.pending && diff.Amount(Encumbrance) == diff.encumbrance;
  }

  // ---------------------------------------------------------------- the diff

  /** What the replayed entries add to every later row, and the last entry of each layer so far. */
  ghost predicate DiffOk(diff: BalanceSnapshot, added: seq<EntryValues>, prefix: seq<EntryValues>) {
    forall layer: Layer :: DiffOkFor(diff, added, prefix, layer)
  }

  ghost predicate DiffOkFor(diff: BalanceSnapshot, added: seq<EntryValues>, prefix: seq<EntryValues>, layer: Layer) {
    diff.Amount(layer) == AmountOf(added, layer).(entryId := LastId(prefix, layer, UNASSIGNED_ENTRY_ID))
  }

  function FirstDiff(account: AccountId, last: BalanceSnapshot, e: EntryValues): BalanceSnapshot {
    var zero := ZeroSnapshot(account, e);
    var initial := zero.(
      entryId := last.entryId,
      encumbrance := zero.encumbrance.(entryId := last.encumbrance.entryId),
      pending := zero.pending.(entryId := last.pending.entryId),
      settled := zero.settled.(entryId := last.settled.entryId));
    UpdateSnapshot(initial, e)
  }

  lemma SnocTotals(es: seq<EntryValues>, e: EntryValues, layer: Layer, direction: DebitOrCredit, before: EntryId)
    ensures Units(es + [e], layer, direction) == Units(es, layer, direction) + if e.layer == layer && e.direction == direction then e.units else 0
    ensures LastId(es + [e], layer, before) == if e.layer == layer then e.id else LastId(es, layer, before)
  {
    assert (es + [e])[..|es|] == es;
  }

  lemma FirstDiffOk(account: AccountId, last: BalanceSnapshot, prefix: seq<EntryValues>, e: EntryValues)
    requires forall layer: Layer :: last.Amount(layer).entryId == LastId(prefix + [e], layer, UNASSIGNED_ENTRY_ID)
    ensures DiffOk(FirstDiff(account, last, e), [e], prefix + [e])
  {
    assert last.Amount(Settled) == last.settled && last.Amount(Pending) == last.pending && last.Amount(Encumbrance) == last.encumbrance;
    forall layer: Layer
      ensures DiffOkFor(FirstDiff(account, last, e), [e], prefix + [e], layer)
    {
      assert [] + [e] == [e];
      SnocTotals([], e, layer, Debit, UNASSIGNED_ENTRY_ID);
      SnocTotals([], e, layer, Credit, UNASSIGNED_ENTRY_ID);
      SnocTotals(prefix, e, layer, Debit, UNASSIGNED_ENTRY_ID);
    }
  }

  lemma NextDiffOk(diff: BalanceSnapshot, added: seq<EntryValues>, prefix: seq<EntryValues>, e: EntryValues)
    requires DiffOk(diff, added, prefix)
    ensures DiffOk(UpdateSnapshot(diff, e), added + [e], prefix + [e])
  {
    forall layer: Layer
      ensures DiffOkFor(UpdateSnapshot(diff, e), added + [e], prefix + [e], layer)
    {
      SnocTotals(added, e, layer, Debit, UNASSIGNED_ENTRY_ID);
      SnocTotals(added, e, layer, Credit, UNASSIGNED_ENTRY_ID);
      SnocTotals(prefix, e, layer, Debit, UNASSIGNED_ENTRY_ID);
      assert DiffOkFor(diff, added, prefix, layer);
    }
  }

  lemma {:induction false} LastIdFresh(es: seq<EntryValues>, layer: Layer, id: EntryId)
    requires id != UNASSIGNED_ENTRY_ID && forall e :: e in es ==> e.id != id
    ensures LastId(es, layer, UNASSIGNED_ENTRY_ID) != id
  {
    if es != [] { LastIdFresh(es[..|es| - 1], layer, id); }
  }

  // ---------------------------------------------------------------- one later row

  ghost predicate Totals(s: BalanceSnapshot, es: seq<EntryValues>) {
    forall layer: Layer :: s.Amount(layer) == AmountOf(es, layer)
  }

  lemma UnitsMiddle(head: seq<EntryValues>, mid: seq<EntryValues>, tail: seq<EntryValues>, layer: Layer,
                    direction: DebitOrCredit)
    ensures Units(head + mid + tail, layer, direction) == Units(head + tail, layer, direction) + Units(mid, layer, direction)
  {
    UnitsConcat(head + mid, tail, layer, direction);
    UnitsConcat(head, mid, layer, direction);
    UnitsConcat(head, tail, layer, direction);
  }

  /** The row written by `e` on top of `head + tail`, shifted by entries inserted in the middle, stands for all of them. */
  lemma ShiftTotals(diff: BalanceSnapshot, values: BalanceSnapshot, head: seq<EntryValues>, mid: seq<EntryValues>,
                    tail: seq<EntryValues>, e: EntryValues)
    requires Totals(values, head + tail + [e]) && values.entryId == e.id && e.id != UNASSIGNED_ENTRY_ID
    requires DiffOk(diff, mid, head + mid + tail)
    requires forall x :: x in head + mid + tail ==> x.id != e.id
    ensures var s := ShiftRow(diff, values);
            && Totals(s.values, head + mid + tail + [e]) && DiffOk(s.diff, mid, head + mid + tail + [e])
            && IdOf(s.values) == IdOf(values) && s.values.version == values.version && s.values.entryId == e.id
  {
    var before, prefix := head + tail, head + mid + tail;
    var s := ShiftRow(diff, values);
    OnlyWritten(diff, values, before, mid, prefix, e);
    forall layer: Layer
      ensures s.values.Amount(layer) == AmountOf(prefix + [e], layer)
      ensures DiffOkFor(s.diff, mid, prefix + [e], layer)
    {
      ShiftLayer(diff, values, head, mid, tail, e, layer);
    }
    hide ShiftRow, AmountOf, BalanceSnapshot.Amount;
    ShiftRowMeaning(diff, values, e.layer, e.layer);
  }

  /** Only the layer the row wrote carries the row's entry. */
  lemma OnlyWritten(diff: BalanceSnapshot, values: BalanceSnapshot, before: seq<EntryValues>, added: seq<EntryValues>,
                    prefix: seq<EntryValues>, e: EntryValues)
    requires Totals(values, before + [e]) && values.entryId == e.id && e.id != UNASSIGNED_ENTRY_ID
    requires DiffOk(diff, added, prefix)
    requires forall x :: x in before || x in prefix ==> x.id != e.id
    ensures Written(diff, values, e.layer)
  {
    hide BalanceSnapshot.Amount, Units;
    assert values.Amount(e.layer) == AmountOf(before + [e], e.layer);
    SnocTotals(before, e, e.layer, Debit, UNASSIGNED_ENTRY_ID);
    forall other: Layer | other != e.layer ensures values.Amount(other).entryId != e.id && diff.Amount(other).entryId != e.id {
      assert values.Amount(other) == AmountOf(before + [e], other) && DiffOkFor(diff, added, prefix, other);
      SnocTotals(before, e, other, Debit, UNASSIGNED_ENTRY_ID);
      LastIdFresh(before, other, e.id);
      LastIdFresh(prefix, other, e.id);
    }
  }

  lemma ShiftLayer(diff: BalanceSnapshot, values: BalanceSnapshot, head: seq<EntryValues>, mid: seq<EntryValues>,
                   tail: seq<EntryValues>, e: EntryValues, layer: Layer)
    requires values.Amount(layer) == AmountOf(head + tail + [e], layer) && values.entryId == e.id
    requires DiffOkFor(diff, mid, head + mid + tail, layer) && Written(diff, values, e.layer)
    ensures ShiftRow(diff, values).values.Amount(layer) == AmountOf(head + mid + tail + [e], layer)
    ensures DiffOkFor(ShiftRow(diff, values).diff, mid, head + mid + tail + [e], layer)
  {
    hide ShiftRow, BalanceSnapshot.Amount, Units, LastId;
    ShiftRowMeaning(diff, values, e.layer, layer);
    assert head + tail + [e] == head + (tail + [e]) && head + mid + tail + [e] == head + mid + (tail + [e]);
    UnitsMiddle(head, mid, tail + [e], layer, Debit);
    UnitsMiddle(head, mid, tail + [e], layer, Credit);
    SnocTotals(head + mid + tail, e, layer, Debit, UNASSIGNED_ENTRY_ID);
    SnocTotals(head + tail, e, layer, Debit, UNASSIGNED_ENTRY_ID);
  }

  lemma SnapTotals(id: BalanceId, log: Log, i: nat)
    requires i < |log|
    ensures var s := SnapAt(id, log, i);
            Totals(s, Entries(log)[..i + 1]) && IdOf(s) == id && s.entryId == log[i].entry.id && s.version == OnDate(log[..i + 1], log[i].date)
  {
    hide SnapAt, OnDate, AmountOf, BalanceSnapshot.Amount;
    forall layer: Layer ensures SnapAt(id, log, i).Amount(layer) == AmountOf(Entries(log)[..i + 1], layer) {
      RowMeaning(id, log, i, layer);
    }
    RowMeaning(id, log, i, Settled);
  }

  /** Row `k` of the old log is row `k + n` of the next one, once shifted. */
  lemma RowShift(id: BalanceId, log: Log, date: Date, es: seq<EntryValues>, k: nat, diff: BalanceSnapshot)
    requires ValidLog(id, log) && Proper(id, Entries(Inserted(log, date, es)))
    requires UpTo(log, date) <= k < |log| && |Inserted(log, date, es)| == |log| + |es|
    requires DiffOk(diff, SortBySequence(es), Entries(Inserted(log, date, es))[..k + |es|])
    ensures var s := ShiftRow(diff, SnapAt(id, log, k));
            && s.values == SnapAt(id, Inserted(log, date, es), k + |es|)
            && DiffOk(s.diff, SortBySequence(es), Entries(Inserted(log, date, es))[..k + |es| + 1])
            && Inserted(log, date, es)[k + |es|] == log[k]
  {
    hide ShiftRow, SnapAt, Inserted, Proper, ByDate, DiffOk, Totals, UpTo, OnDate, SortBySequence, Entries, AllAt,
         IdOf, Folded;
    var next, n, e := Inserted(log, date, es), |es|, log[k].entry;
    InsertedPrefix(log, date, es, k);
    InsertedEntries(log, date, es, k);
    EntriesAround(log, UpTo(log, date), k);
    EntriesSnoc(log, k);
    EntriesSnoc(next, k + n);
    var head, mid, tail := Entries(log[..UpTo(log, date)]), SortBySequence(es), Entries(log[UpTo(log, date)..k]);
    FreshEntry(id, next, k + n);
    SnapTotals(id, log, k);
    SnapTotals(id, next, k + n);
    RowVersion(id, log, date, es, k);
    var values, target := SnapAt(id, log, k), SnapAt(id, next, k + n);
    hide *;
    ShiftedRow(diff, values, target, head, mid, tail, e);
  }

  lemma ShiftedRow(diff: BalanceSnapshot, values: BalanceSnapshot, target: BalanceSnapshot, head: seq<EntryValues>,
                   mid: seq<EntryValues>,
                   tail: seq<EntryValues>, e: EntryValues)
    requires Totals(values, head + tail + [e]) && values.entryId == e.id && e.id != UNASSIGNED_ENTRY_ID
    requires DiffOk(diff, mid, head + mid + tail)
    requires forall x :: x in head + mid + tail ==> x.id != e.id
    requires Totals(target, head + mid + tail + [e]) && IdOf(target) == IdOf(values)
    requires target.version == values.version && target.entryId == e.id
    ensures ShiftRow(diff, values).values == target && DiffOk(ShiftRow(diff, values).diff, mid, head + mid + tail + [e])
  {
    hide *;
    ShiftTotals(diff, values, head, mid, tail, e);
    SameTotals(ShiftRow(diff, values).values, target, head + mid + tail + [e]);
  }

  lemma SameTotals(a: BalanceSnapshot, b: BalanceSnapshot, es: seq<EntryValues>)
    requires Totals(a, es) && Totals(b, es) && IdOf(a) == IdOf(b) && a.version == b.version && a.entryId == b.entryId
    ensures a == b
  {
    forall layer: Layer ensures a.Amount(layer) == b.Amount(layer) {
      assert a.Amount(layer) == AmountOf(es, layer);
    }
    SnapshotEquality(a, b);
  }

  /** The entry of a proper log differs from all before it. */
  lemma FreshEntry(id: BalanceId, log: Log, k: nat)
    requires k < |log| && Proper(id, Entries(log))
    ensures log[k].entry.id != UNASSIGNED_ENTRY_ID
    ensures forall x :: x in Entries(log)[..k] ==> x.id != log[k].entry.id
  {
    assert Entries(log)[k] in Entries(log);
  }

  /** Entries around position `k` of a log. */
  lemma EntriesAround(log: Log, j: nat, k: nat)
    requires j <= k <= |log|
    ensures Entries(log)[..k] == Entries(log[..j]) + Entries(log[j..k])
  {
  }

  lemma EntriesSnoc(log: Log, k: nat)
    requires k < |log|
    ensures Entries(log)[..k + 1] == Entries(log)[..k] + [log[k].entry]
  {
  }

  /** Entries behind the posting date: the inserted ones sit in the middle. */
  lemma InsertedEntries(log: Log, date: Date, es: seq<EntryValues>, k: nat)
    requires ByDate(log) && UpTo(log, date) <= k < |log| && |Inserted(log, date, es)| == |log| + |es|
    ensures Entries(Inserted(log, date, es))[..k + |es|] ==
            Entries(log[..UpTo(log, date)]) + SortBySequence(es) + Entries(log[UpTo(log, date)..k])
  {
    var j := UpTo(log, date);
    InsertedByDate(log, date, es);
    SortSorts(es);
    hide UpTo, Inserted, ByDate, SortBySequence;
    assert Entries(log[j..])[..k - j] == Entries(log[j..k]);
    hide Entries;
    PrefixOfThree(Entries(log[..j]), SortBySequence(es), Entries(log[j..]), k - j);
  }

  lemma PrefixOfThree<T>(a: seq<T>, b: seq<T>, c: seq<T>, n: nat)
    requires n <= |c|
    ensures (a + b + c)[..|a| + |b| + n] == a + b + c[..n]
  {
  }

  /** Entries of another date leave the per-date version alone. */
  lemma RowVersion(id: BalanceId, log: Log, date: Date, es: seq<EntryValues>, k: nat)
    requires ByDate(log) && UpTo(log, date) <= k < |log|
    requires |Inserted(log, date, es)| == |log| + |es| && Inserted(log, date, es)[k + |es|] == log[k]
    ensures OnDate(Inserted(log, date, es)[..k + |es| + 1], log[k].date) == OnDate(log[..k + 1], log[k].date)
  {
    UpToSplits(log, date);
    InsertedPrefix(log, date, es, k);
    var head, mid, tail := log[..UpTo(log, date)], AllAt(date, SortBySequence(es)), log[UpTo(log, date)..k + 1];
    assert forall i :: 0 <= i < |mid| ==> mid[i].date != log[k].date;
    hide UpTo, Inserted, ByDate, AllAt, SortBySequence, OnDate;
    OnDateConcat(head + mid, tail, log[k].date);
    OnDateConcat(head, mid, log[k].date);
    OnDateConcat(head, tail, log[k].date);
    OnDateNone(mid, log[k].date);
  }
}
