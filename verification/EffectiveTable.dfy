/** The table of cumulative effective balances: reading it back, and posting entries at a date. */
module EffectiveTable {
  import opened Primitives
  import opened Snapshots
  import opened Balances
  import opened EffectiveData
  import opened EffectiveReplay

  // ---------------------------------------------------------------- what the table holds

  /** `row` is one of the first `n` running totals of the log. */
  ghost predicate IsRow(id: BalanceId, log: Log, n: nat, row: EffectiveRow) {
    0 < row.allTimeVersion <= n && n <= |log| && row == RowAt(id, log, row.allTimeVersion - 1)
  }

  /** The rows of balance `id` are the first `n` running totals of its log. */
  ghost predicate HoldsPrefix(rows: set<EffectiveRow>, id: BalanceId, log: Log, n: nat) {
    forall row: EffectiveRow :: IdOf(row.values) == id ==> (row in rows <==> IsRow(id, log, n, row))
  }

  ghost predicate Holds(rows: set<EffectiveRow>, id: BalanceId, log: Log) {
    HoldsPrefix(rows, id, log, |log|)
  }

  lemma RowIsIn(rows: set<EffectiveRow>, id: BalanceId, log: Log, n: nat, i: nat)
    requires HoldsPrefix(rows, id, log, n) && i < n <= |log|
    ensures RowAt(id, log, i) in rows && IdOf(RowAt(id, log, i).values) == id && RowAt(id, log, i).allTimeVersion == i + 1
  {
    RowMeaning(id, log, i, Settled);
    assert IsRow(id, log, n, RowAt(id, log, i));
  }

  /** Versions are dense per date: the rows of one date are numbered 1, 2, ... in log order. */
  lemma VersionStep(log: Log, i: nat)
    requires ByDate(log) && i < |log|
    ensures OnDate(log[..i + 1], log[i].date) == if i > 0 && log[i - 1].date == log[i].date then OnDate(log[..i], log[i].date) + 1 else 1
  {
    OnDateSnoc(log, i);
    if i == 0 { assert log[..0] == []; }
  }

  /** The order by date and version is the order by all-time version; no two rows share date and version. */
  lemma OrdersAgree(id: BalanceId, log: Log, a: nat, b: nat)
    requires ByDate(log) && a < b < |log|
    ensures var r, s := RowAt(id, log, a), RowAt(id, log, b);
            r.effective < s.effective || (r.effective == s.effective && r.values.version < s.values.version)
  {
    VersionsGrow(log, a, b);
    RowMeaning(id, log, a, Settled);
    RowMeaning(id, log, b, Settled);
  }

  /** The table's uniqueness constraint is never violated: one row per balance, date and version. */
  lemma UniqueByDateAndVersion(rows: set<EffectiveRow>, id: BalanceId, log: Log, r: EffectiveRow, s: EffectiveRow)
    requires ByDate(log) && Holds(rows, id, log)
    requires r in rows && s in rows && IdOf(r.values) == id == IdOf(s.values)
    requires r.effective == s.effective && r.values.version == s.values.version
    ensures r == s
  {
    assert IsRow(id, log, |log|, r) && IsRow(id, log, |log|, s);
    var a, b := r.allTimeVersion - 1, s.allTimeVersion - 1;
    if a < b { OrdersAgree(id, log, a, b); }
    if b < a { OrdersAgree(id, log, b, a); }
  }

  // ---------------------------------------------------------------- reading

  function OfBalance(rows: set<EffectiveRow>, id: BalanceId): set<EffectiveRow> {
    set row | row in rows && IdOf(row.values) == id
  }

  predicate LaterThan(r: EffectiveRow, s: EffectiveRow) {
    r.effective > s.effective || (r.effective == s.effective && r.values.version > s.values.version)
  }

  /** The first row of the candidates in descending order of date and version. */
  method FirstDescending(candidates: set<EffectiveRow>) returns (found: Option<EffectiveRow>)
    ensures found.None? <==> candidates == {}
    ensures found.Some? ==> found.value in candidates && forall row :: row in candidates ==>
              !LaterThan(row, found.value)
  {
    found := None;
    var left := candidates;
    while left != {}
      invariant left <= candidates
      invariant found.None? ==> left == candidates
      invariant found.Some? ==> found.value in candidates && forall row :: row in candidates - left ==>
                  !LaterThan(row, found.value)
      decreases left
    {
      var row :| row in left;
      ghost var seen := candidates - left;
      left := left - {row};
      assert candidates - left == seen + {row};
      if found.None? || LaterThan(row, found.value) { found := Some(row); }
    }
  }

  /** The balance as of a date. */
  method Find(rows: set<EffectiveRow>, id: BalanceId, date: Date, ghost log: Log) returns (found: Option<EffectiveRow>)
    requires ByDate(log) && Holds(rows, id, log)
    ensures found == if UpTo(log, date) == 0 then None else Some(RowAt(id, log, UpTo(log, date) - 1))
  {
    hide RowAt, UpTo, ByDate, HoldsPrefix;
    var candidates := set row | row in OfBalance(rows, id) && row.effective <= date;
    found := FirstDescending(candidates);
    assert forall row :: row in OfBalance(rows, id) && row.effective <= date ==> row in candidates;
    LatestRow(rows, id, log, date);
    if found.Some? { LatestUnique(rows, id, log, date, found.value); }
  }

  /** On or before a date there are rows exactly when there are entries, and the last of them is the latest row. */
  lemma LatestRow(rows: set<EffectiveRow>, id: BalanceId, log: Log, date: Date)
    requires ByDate(log) && Holds(rows, id, log)
    ensures UpTo(log, date) == 0 ==> forall row :: row in OfBalance(rows, id) ==> row.effective > date
    ensures UpTo(log, date) > 0 ==>
              RowAt(id, log, UpTo(log, date) - 1) in OfBalance(rows, id) && RowAt(id, log, UpTo(log, date) - 1).effective <= date
  {
    UpToSplits(log, date);
    var k := UpTo(log, date);
    forall row | row in OfBalance(rows, id) ensures k == 0 ==> row.effective > date {
      assert IsRow(id, log, |log|, row);
    }
    if k > 0 { RowIsIn(rows, id, log, |log|, k - 1); }
  }

  lemma LatestUnique(rows: set<EffectiveRow>, id: BalanceId, log: Log, date: Date, row: EffectiveRow)
    requires ByDate(log) && Holds(rows, id, log)
    requires row in OfBalance(rows, id) && row.effective <= date
    requires forall other :: other in OfBalance(rows, id) && other.effective <= date ==> !LaterThan(other, row)
    ensures UpTo(log, date) > 0 && row == RowAt(id, log, UpTo(log, date) - 1)
  {
    UpToSplits(log, date);
    assert IsRow(id, log, |log|, row);
    var i, k := row.allTimeVersion - 1, UpTo(log, date);
    assert log[i].date <= date;
    if i < k - 1 {
      LatestRow(rows, id, log, date);
      OrdersAgree(id, log, i, k - 1);
    }
  }
}
