/** Reporting a balance over a window of dates: what it opened with, what the window added, and what it closed with. */
module EffectiveRange {
  import opened Primitives
  import opened Snapshots
  import opened Balances
  import opened EffectiveData
  import opened EffectiveHistory
  import opened EffectiveTable

  datatype AccountBalance = AccountBalance(balanceType: DebitOrCredit, details: BalanceSnapshot)

  function Minus(a: BalanceAmount, since: BalanceAmount): BalanceAmount {
    a.(drBalance := a.drBalance - since.drBalance, crBalance := a.crBalance - since.crBalance)
  }

  function DeriveDiff(balance: AccountBalance, since: AccountBalance): AccountBalance {
    var now, before := balance.details, since.details;
    balance.(details := now.(settled := Minus(now.settled, before.settled),
                             pending := Minus(now.pending, before.pending),
                             encumbrance := Minus(now.encumbrance, before.encumbrance)))
  }

  datatype BalanceRange = BalanceRange(open: AccountBalance, period: AccountBalance, close: AccountBalance)

  function NewRange(start: Option<AccountBalance>, end: AccountBalance, versionDiff: nat): BalanceRange {
    match start
    case Some(start) =>
      var period := DeriveDiff(end, start);
      BalanceRange(start, period.(details := period.details.(version := versionDiff)), end)
    case None =>
      var zero := end.details.(version := 0, entryId := UNASSIGNED_ENTRY_ID, settled := NOTHING, pending := NOTHING, encumbrance := NOTHING);
      BalanceRange(AccountBalance(end.balanceType, zero), end.(details := end.details.(version := versionDiff)), end)
  }

  /** `Underflow` is the subtraction of the two unsigned row numbers going below zero. */
  datatype RangeResult = Range(range: BalanceRange) | NotFound | Underflow

  /** Look up both bounds and build the range. `until` defaults to the current day. */
  method FindRangeCumulative(rows: set<EffectiveRow>, id: BalanceId, balanceType: DebitOrCredit, from: Date,
                             until: Option<Date>,
                             today: Date, ghost log: Log)
    returns (result: RangeResult)
    requires ByDate(log) && Holds(rows, id, log)
    ensures IsRangeOf(id, log, balanceType, from, if until.Some? then until.value else today, result)
  {
    hide RowAt, UpTo, ByDate, HoldsPrefix;
    var last := if until.Some? then until.value else today;
    var first := Find(rows, id, from - 1, log);
    var end := Find(rows, id, last, log);
    FoundVersion(id, log, from - 1, first);
    FoundVersion(id, log, last, end);
    var firstVersion := if first.Some? then first.value.allTimeVersion else 0;
    var lastVersion := if end.Some? then end.value.allTimeVersion else 0;
    if lastVersion < firstVersion { return Underflow; }
    var start := if first.Some? then Some(AccountBalance(balanceType, first.value.values)) else None;
    match end {
      case Some(row) => result := Range(NewRange(start, AccountBalance(balanceType, row.values), lastVersion - firstVersion));
      case None => result := NotFound;
    }
  }

  lemma FoundVersion(id: BalanceId, log: Log, d: Date, found: Option<EffectiveRow>)
    requires found == if UpTo(log, d) == 0 then None else Some(RowAt(id, log, UpTo(log, d) - 1))
    ensures (if found.Some? then found.value.allTimeVersion else 0) == UpTo(log, d)
  {
  }

  ghost function BalanceAt(id: BalanceId, log: Log, balanceType: DebitOrCredit, d: Date): Option<AccountBalance> {
    if UpTo(log, d) == 0 then None else Some(AccountBalance(balanceType, RowAt(id, log, UpTo(log, d) - 1).values))
  }

  /** The answer in terms of the log: the bounds are the balances before `from` and at `until`. */
  ghost predicate IsRangeOf(id: BalanceId, log: Log, balanceType: DebitOrCredit, from: Date, until: Date,
                            result: RangeResult) {
    var before, upTo := UpTo(log, from - 1), UpTo(log, until);
    result ==
    if upTo < before then Underflow
    else if upTo == 0 then NotFound
    else Range(NewRange(BalanceAt(id, log, balanceType, from - 1), BalanceAt(id, log, balanceType, until).value, upTo - before))
  }

  // ---------------------------------------------------------------- what the range means

  ghost predicate InWindow(d: Date, from: Date, until: Date) {
    from <= d <= until
  }

  /** Units of one layer and side dated inside the window. */
  ghost function WindowSum(log: Log, from: Date, until: Date, layer: Layer, direction: DebitOrCredit): int {
    if log == [] then 0
    else
      var last := log[|log| - 1];
      WindowSum(log[..|log| - 1], from, until, layer, direction) +
      if InWindow(last.date, from, until) && last.entry.layer == layer && last.entry.direction == direction then last.entry.units else 0
  }

  ghost function WindowCount(log: Log, from: Date, until: Date): nat {
    if log == [] then 0
    else WindowCount(log[..|log| - 1], from, until) + if InWindow(log[|log| - 1].date, from, until) then 1 else 0
  }

  /** Some entry is dated after the window's end and before its start; possible only for a reversed window. */
  ghost predicate GapOccupied(log: Log, from: Date, until: Date) {
    exists i :: 0 <= i < |log| && until < log[i].date < from
  }

  lemma {:induction false} WindowIsDifference(log: Log, from: Date, until: Date, layer: Layer, direction: DebitOrCredit)
    requires !GapOccupied(log, from, until)
    ensures SumUpTo(log, until, layer, direction) == SumUpTo(log, from - 1, layer, direction) + WindowSum(log, from, until, layer, direction)
    ensures UpTo(log, until) == UpTo(log, from - 1) + WindowCount(log, from, until)
  {
    if log != [] {
      var n := |log| - 1;
      assert forall i :: 0 <= i < n ==> log[..n][i] == log[i];
      WindowIsDifference(log[..n], from, until, layer, direction);
      assert !(until < log[n].date < from);
    }
  }

  lemma UnderflowIff(log: Log, from: Date, until: Date)
    requires ByDate(log)
    ensures UpTo(log, until) < UpTo(log, from - 1) <==> GapOccupied(log, from, until)
  {
    UpToSplits(log, until);
    UpToSplits(log, from - 1);
    var k := UpTo(log, until);
    if k < UpTo(log, from - 1) { assert until < log[k].date < from; }
  }

  /** What a snapshot up to a date adds up to. */
  lemma BalanceTotals(id: BalanceId, log: Log, balanceType: DebitOrCredit, d: Date, layer: Layer,
                      direction: DebitOrCredit)
    requires ByDate(log)
    ensures BalanceAt(id, log, balanceType, d).Some? ==>
              BalanceAt(id, log, balanceType, d).value.details.Amount(layer).Side(direction) == SumUpTo(log, d, layer, direction)
    ensures BalanceAt(id, log, balanceType, d).None? ==> SumUpTo(log, d, layer, direction) == 0
  {
    SumIsPrefix(log, d, layer, direction);
    hide SumUpTo;
    if UpTo(log, d) > 0 {
      RowMeaning(id, log, UpTo(log, d) - 1, layer);
    } else {
      assert Entries(log)[..0] == [];
    }
  }

  /** The range of a window: close is everything up to `until`, open everything before `from`, the period exactly what the
      window holds, and open plus period is close. The period's version counts the entries of the window. */
  lemma RangeMeaning(id: BalanceId, log: Log, balanceType: DebitOrCredit, from: Date, until: Date, result: RangeResult,
                     layer: Layer, direction: DebitOrCredit)
    requires ByDate(log) && IsRangeOf(id, log, balanceType, from, until, result)
    ensures result.Underflow? <==> GapOccupied(log, from, until)
    ensures from <= until ==> !result.Underflow?
    ensures result.NotFound? <==> !result.Underflow? && forall i :: 0 <= i < |log| ==> log[i].date > until
    ensures result.Range? ==>
              var open, period, close := result.range.open.details, result.range.period.details, result.range.close.details;
              && close.Amount(layer).Side(direction) == SumUpTo(log, until, layer, direction)
              && open.Amount(layer).Side(direction) == SumUpTo(log, from - 1, layer, direction)
              && period.Amount(layer).Side(direction) == WindowSum(log, from, until, layer, direction)
              && open.Amount(layer).Side(direction) + period.Amount(layer).Side(direction) == close.Amount(layer).Side(direction)
              && period.version == WindowCount(log, from, until)
  {
    hide SumUpTo, WindowSum, WindowCount, UpTo, RowAt, ByDate;
    UnderflowIff(log, from, until);
    UpToSplits(log, until);
    assert UpTo(log, until) > 0 ==> log[0].date <= until;
    if result.Range? {
      WindowIsDifference(log, from, until, layer, direction);
      BalanceTotals(id, log, balanceType, from - 1, layer, direction);
      BalanceTotals(id, log, balanceType, until, layer, direction);
      RangeSides(BalanceAt(id, log, balanceType, from - 1), BalanceAt(id, log, balanceType, until).value,
                 UpTo(log, until) - UpTo(log, from - 1), layer, direction);
    }
  }

  /** Open plus period is close, on every layer and side. */
  lemma RangeSides(start: Option<AccountBalance>, end: AccountBalance, versionDiff: nat, layer: Layer,
                   direction: DebitOrCredit)
    ensures var range := NewRange(start, end, versionDiff);
            && range.close == end && range.period.details.version == versionDiff
            && (start.Some? ==> range.open == start.value)
            && (start.None? ==> range.open.details.Amount(layer).Side(direction) == 0)
            && range.open.details.Amount(layer).Side(direction) + range.period.details.Amount(layer).Side(direction)
               == range.close.details.Amount(layer).Side(direction)
  {
  }

  /** `None` without a closing balance; otherwise the same range as the single lookup. */
  function FromBounds(start: Option<AccountBalance>, startVersion: nat, end: Option<AccountBalance>,
                      endVersion: nat): RangeResult {
    match end
    case None => NotFound
    case Some(end) => if endVersion < startVersion then Underflow else Range(NewRange(start, end, endVersion - startVersion))
  }

  /** The two ways of building a range differ in one case only: nothing up to `until`, but something before `from`. */
  lemma FromBoundsAgrees(id: BalanceId, log: Log, balanceType: DebitOrCredit, from: Date, until: Date,
                         result: RangeResult)
    requires IsRangeOf(id, log, balanceType, from, until, result)
    ensures var start, end := BalanceAt(id, log, balanceType, from - 1), BalanceAt(id, log, balanceType, until);
            (FromBounds(start, UpTo(log, from - 1), end, UpTo(log, until)) == result) <==> !(UpTo(log, until) == 0 < UpTo(log, from - 1))
  {
  }
}
