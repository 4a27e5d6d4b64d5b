/** Posting entries at a date into the table of cumulative effective balances. */
module EffectivePosting {
  import opened Primitives
  import opened Distinctness
  import opened Snapshots
  import opened EntrySort
  import opened Balances
  import opened EffectiveData
  import opened EffectiveReplay
  import opened EffectiveHistory
  import opened EffectiveTable

  // ---------------------------------------------------------------- the specification of one posting

  /** The pairs the statement keeps: accounts of the kind this path maintains. */
  ghost function Eligible(pairs: set<Key>, accounts: AccountMeta, rollup: bool): set<Key> {
    set k | k in pairs && k.account in accounts && accounts[k.account] == rollup
  }

  /** The rows a posting deletes. */
  predicate IsLater(row: EffectiveRow, journal: JournalId, keys: set<Key>, effective: Date) {
    row.effective > effective && row.values.journalId == journal && KeyOf(row.values) in keys
  }

  // ---------------------------------------------------------------- deleting and restoring

  function Kept(rows: set<EffectiveRow>, journal: JournalId, keys: set<Key>, effective: Date): set<EffectiveRow> {
    set row | row in rows && !IsLater(row, journal, keys, effective)
  }

  lemma KeptRows(rows: set<EffectiveRow>, id: BalanceId, log: Log, journal: JournalId, keys: set<Key>, effective: Date)
    requires ByDate(log) && Holds(rows, id, log)
    ensures HoldsPrefix(Kept(rows, journal, keys, effective), id, log,
                        if id.journal == journal && id.AsKey() in keys then UpTo(log, effective) else |log|)
  {
    hide RowAt;
    UpToSplits(log, effective);
    var n := if id.journal == journal && id.AsKey() in keys then UpTo(log, effective) else |log|;
    forall row: EffectiveRow | IdOf(row.values) == id ensures row in Kept(rows, journal, keys, effective) <==> IsRow(id, log, n, row) {
      assert row in rows <==> IsRow(id, log, |log|, row);
      if IsRow(id, log, |log|, row) { RowMeaning(id, log, row.allTimeVersion - 1, Settled); }
    }
  }

  /** Rows on or before the posting date do not change. */
  lemma PrefixRow(id: BalanceId, log: Log, date: Date, es: seq<EntryValues>, i: nat)
    requires i < UpTo(log, date) && i < |Inserted(log, date, es)|
    ensures RowAt(id, Inserted(log, date, es), i) == RowAt(id, log, i)
  {
    var next := Inserted(log, date, es);
    assert next[..i + 1] == log[..i + 1];
    assert Entries(next)[..i + 1] == Entries(log)[..i + 1];
  }

  /** Kept rows and rewritten rows together are the running totals of the next log. */
  lemma RestoredRows(kept: set<EffectiveRow>, added: set<EffectiveRow>, id: BalanceId, log: Log, date: Date,
                     es: seq<EntryValues>)
    requires ByDate(log) && HoldsPrefix(kept, id, log, UpTo(log, date))
    requires forall row: EffectiveRow :: IdOf(row.values) == id ==>
               (row in added <==> row.allTimeVersion > UpTo(log, date) && IsRow(id, Inserted(log, date, es), |Inserted(log, date, es)|, row))
    ensures Holds(kept + added, id, Inserted(log, date, es))
  {
    var next, j := Inserted(log, date, es), UpTo(log, date);
    InsertedByDate(log, date, es);
    forall row: EffectiveRow | IdOf(row.values) == id ensures row in kept + added <==> IsRow(id, next, |next|, row) {
      assert row in kept <==> IsRow(id, log, j, row);
      if 0 < row.allTimeVersion <= j { PrefixRow(id, log, date, es, row.allTimeVersion - 1); }
    }
  }

  // ---------------------------------------------------------------- loading

  lemma DistinctMultisets<T>(a: seq<T>, b: seq<T>)
    requires Distinct(a) && Distinct(b) && Elements(a) == Elements(b)
    ensures multiset(a) == multiset(b)
  {
    forall x ensures multiset(a)[x] == multiset(b)[x] {
      DistinctOnce(a, x);
      DistinctOnce(b, x);
      assert x in a <==> x in Elements(a);
      assert x in b <==> x in Elements(b);
    }
  }

  lemma {:induction false} DistinctOnce<T>(a: seq<T>, x: T)
    requires Distinct(a)
    ensures multiset(a)[x] == if x in a then 1 else 0
  {
    if a != [] {
      var n := |a| - 1;
      DistinctOnce(a[..n], x);
      assert a == a[..n] + [a[n]];
    }
  }

  /** The later rows of one balance, in an arbitrary order. */
  method LoadLater(rows: set<EffectiveRow>, id: BalanceId, effective: Date, ghost log: Log)
    returns (updates: seq<SnapshotOrEntry>)
    requires ByDate(log) && Holds(rows, id, log)
    ensures LaterRows(id, log, UpTo(log, effective), updates)
  {
    hide HoldsPrefix, RowAt, ByDate, UpTo, LaterRows;
    var later := set row | row in OfBalance(rows, id) && row.effective > effective;
    updates := [];
    var left := later;
    while left != {}
      invariant left <= later && Distinct(updates)
      invariant forall u :: u in updates <==> exists row :: row in later - left && u == Snapshot(row.effective, row.values)
      decreases left
    {
      var row :| row in left;
      ghost var seen := later - left;
      assert Snapshot(row.effective, row.values) !in updates by {
        if other :| other in seen && Snapshot(row.effective, row.values) == Snapshot(other.effective, other.values) {
          UniqueByDateAndVersion(rows, id, log, row, other);
        }
      }
      left := left - {row};
      assert later - left == seen + {row};
      updates := updates + [Snapshot(row.effective, row.values)];
    }
    assert later - left == later;
    LoadedRows(rows, id, log, effective, updates);
  }

  lemma LoadedRows(rows: set<EffectiveRow>, id: BalanceId, log: Log, effective: Date, updates: seq<SnapshotOrEntry>)
    requires ByDate(log) && Holds(rows, id, log) && Distinct(updates)
    requires forall u :: u in updates <==> exists row :: row in OfBalance(rows, id) && row.effective > effective && u == Snapshot(row.effective, row.values)
    ensures LaterRows(id, log, UpTo(log, effective), updates)
  {
    var all := RowUpdates(id, log, UpTo(log, effective));
    RowUpdatesStrict(id, log, UpTo(log, effective));
    hide HoldsPrefix, RowUpdates, UpTo, ByDate, Before, OfBalance;
    assert forall u: SnapshotOrEntry :: !Before(u, u) by { NothingBeforeItself(); }
    assert Distinct(all);
    forall u ensures u in updates <==> u in all {
      if u in updates {
        var row :| row in OfBalance(rows, id) && row.effective > effective && u == Snapshot(row.effective, row.values);
        LaterRowListed(rows, id, log, effective, row);
      }
      if u in all {
        var i :| 0 <= i < |all| && all[i] == u;
        var row := ListedRowLater(rows, id, log, effective, i);
      }
    }
    assert Elements(updates) == Elements(all);
    DistinctMultisets(updates, all);
  }

  lemma NothingBeforeItself()
    ensures forall u: SnapshotOrEntry :: !Before(u, u)
  {
  }

  lemma LaterRowListed(rows: set<EffectiveRow>, id: BalanceId, log: Log, effective: Date, row: EffectiveRow)
    requires ByDate(log) && Holds(rows, id, log) && row in OfBalance(rows, id) && row.effective > effective
    ensures Snapshot(row.effective, row.values) in RowUpdates(id, log, UpTo(log, effective))
  {
    var j := UpTo(log, effective);
    UpToSplits(log, effective);
    assert IsRow(id, log, |log|, row);
    assert RowUpdates(id, log, j)[row.allTimeVersion - 1 - j] == Snapshot(row.effective, row.values);
  }

  lemma ListedRowLater(rows: set<EffectiveRow>, id: BalanceId, log: Log, effective: Date, i: nat)
    returns (row: EffectiveRow)
    requires ByDate(log) && Holds(rows, id, log) && i < |RowUpdates(id, log, UpTo(log, effective))|
    ensures row in OfBalance(rows, id) && row.effective > effective
    ensures RowUpdates(id, log, UpTo(log, effective))[i] == Snapshot(row.effective, row.values)
  {
    var k := UpTo(log, effective) + i;
    UpToSplits(log, effective);
    RowIsIn(rows, id, log, |log|, k);
    row := RowAt(id, log, k);
  }

  /** The row with the greatest all-time version on or before the date. */
  method LoadLast(rows: set<EffectiveRow>, id: BalanceId, effective: Date, ghost log: Log)
    returns (found: Option<EffectiveRow>)
    requires ByDate(log) && Holds(rows, id, log)
    ensures found == if UpTo(log, effective) == 0 then None else Some(RowAt(id, log, UpTo(log, effective) - 1))
  {
    hide HoldsPrefix, RowAt, ByDate, UpTo;
    var candidates := set row | row in OfBalance(rows, id) && row.effective <= effective;
    found := None;
    var left := candidates;
    while left != {}
      invariant left <= candidates
      invariant found.None? ==> left == candidates
      invariant found.Some? ==> found.value in candidates && forall row :: row in candidates - left ==>
                  row.allTimeVersion <= found.value.allTimeVersion
      decreases left
    {
      var row :| row in left;
      ghost var seen := candidates - left;
      left := left - {row};
      assert candidates - left == seen + {row};
      if found.None? || row.allTimeVersion > found.value.allTimeVersion { found := Some(row); }
    }
    assert candidates - left == candidates;
    assert forall row :: row in OfBalance(rows, id) && row.effective <= effective ==> row in candidates;
    LatestRow(rows, id, log, effective);
    if found.Some? { GreatestUnique(rows, id, log, effective, found.value); }
  }

  lemma GreatestUnique(rows: set<EffectiveRow>, id: BalanceId, log: Log, date: Date, row: EffectiveRow)
    requires ByDate(log) && Holds(rows, id, log)
    requires row in OfBalance(rows, id) && row.effective <= date
    requires forall other :: other in OfBalance(rows, id) && other.effective <= date ==>
               other.allTimeVersion <= row.allTimeVersion
    ensures UpTo(log, date) > 0 && row == RowAt(id, log, UpTo(log, date) - 1)
  {
    UpToSplits(log, date);
    assert IsRow(id, log, |log|, row);
    assert log[row.allTimeVersion - 1].date <= date;
    LatestRow(rows, id, log, date);
  }

  // ---------------------------------------------------------------- entries stay proper

  /** The entries of a posting: of its journal, each with an identity of its own. */
  ghost predicate OwnEntries(journal: JournalId, entries: seq<EntryValues>) {
    && (forall e :: e in entries ==> e.journalId == journal && e.id != UNASSIGNED_ENTRY_ID)
    && (forall i, j :: 0 <= i < j < |entries| ==> entries[i].id != entries[j].id)
  }

  /** No entry reaches an account twice. */
  ghost predicate FansOutOnce(mappings: Mappings, leaves: iset<AccountId>, entries: seq<EntryValues>) {
    forall e :: e in entries ==> Distinct(FanOut(mappings, leaves, e))
  }

  ghost predicate NotIn(entries: seq<EntryValues>, posted: seq<EntryValues>) {
    forall e, x :: e in entries && x in posted ==> e.id != x.id
  }

  /** The entries that reach a key are some of the posting's entries, each at most once. */
  lemma {:induction false} ReachedEntries(journal: JournalId, mappings: Mappings, leaves: iset<AccountId>,
                                          entries: seq<EntryValues>, k: Key)
    requires OwnEntries(journal, entries) && FansOutOnce(mappings, leaves, entries)
    ensures forall e :: e in EntriesFor(TouchesOf(mappings, leaves, entries), k) ==>
              e in entries && e.currency == k.currency
    ensures OwnEntries(journal, EntriesFor(TouchesOf(mappings, leaves, entries), k))
  {
    hide *;
    NothingReached(journal, mappings, leaves, k);
    if entries != [] {
      var n := |entries| - 1;
      var front, e := entries[..n], entries[n];
      assert entries == front + [e];
      FrontIsFine(journal, mappings, leaves, front, e);
      ReachedStep(mappings, leaves, front, e, k);
      ReachedEntries(journal, mappings, leaves, front, k);
      WellFormedSnoc(journal, EntriesFor(TouchesOf(mappings, leaves, front), k), front, e);
    }
  }

  lemma NothingReached(journal: JournalId, mappings: Mappings, leaves: iset<AccountId>, k: Key)
    ensures EntriesFor(TouchesOf(mappings, leaves, []), k) == [] && OwnEntries(journal, [])
  {
  }

  lemma FrontIsFine(journal: JournalId, mappings: Mappings, leaves: iset<AccountId>, front: seq<EntryValues>,
                    e: EntryValues)
    requires OwnEntries(journal, front + [e]) && FansOutOnce(mappings, leaves, front + [e])
    ensures OwnEntries(journal, front) && FansOutOnce(mappings, leaves, front) && Distinct(FanOut(mappings, leaves, e))
  {
    hide FanOut;
    var all := front + [e];
    assert forall i :: 0 <= i < |front| ==> all[i] == front[i];
    assert e in all;
  }

  lemma WellFormedSnoc(journal: JournalId, before: seq<EntryValues>, front: seq<EntryValues>, e: EntryValues)
    requires OwnEntries(journal, before) && OwnEntries(journal, front + [e]) && forall x :: x in before ==> x in front
    ensures OwnEntries(journal, before + [e])
  {
    var n := |front|;
    assert (front + [e])[n] == e && e in front + [e];
    forall x | x in before ensures x.id != e.id {
      var i :| 0 <= i < n && front[i] == x;
      assert (front + [e])[i] == x;
    }
  }

  lemma TwoOccurrences<T>(s: seq<T>, i: nat, j: nat)
    requires i < j < |s| && s[i] == s[j]
    ensures multiset(s)[s[i]] >= 2
  {
    assert s == s[..j] + [s[j]] + s[j + 1..];
    assert s[i] in multiset(s[..j]);
  }

  lemma SortedOwnEntries(journal: JournalId, es: seq<EntryValues>)
    requires OwnEntries(journal, es)
    ensures OwnEntries(journal, SortBySequence(es))
  {
    var s := SortBySequence(es);
    SortSorts(es);
    forall e ensures e in s <==> e in es { SortMembers(es, e); }
    forall i, j | 0 <= i < j < |s| ensures s[i].id != s[j].id {
      if s[i].id == s[j].id {
        assert s[i] in es && s[j] in es;
        TwoOccurrences(s, i, j);
        DistinctOnce(es, s[i]);
      }
    }
  }

  lemma ProperMiddle(id: BalanceId, head: seq<EntryValues>, mid: seq<EntryValues>, tail: seq<EntryValues>)
    requires Proper(id, head + tail) && OwnEntries(id.journal, mid) && NotIn(mid, head + tail)
    requires forall e :: e in mid ==> e.currency == id.currency
    ensures Proper(id, head + mid + tail)
  {
    var all, rest := head + mid + tail, head + tail;
    forall i ensures 0 <= i < |head| ==> all[i] == rest[i] {}
    forall i ensures |head| <= i < |rest| ==> all[i + |mid|] == rest[i] && rest[i] in rest {}
    forall i, j | 0 <= i < j < |all| ensures all[i].id != all[j].id {
      var inMid := i >= |head| && i < |head| + |mid|;
      assert inMid ==> all[i] in mid;
      assert j >= |head| && j < |head| + |mid| ==> all[j] in mid;
      assert i < |head| ==> all[i] in rest;
      assert j >= |head| + |mid| ==> all[j] == rest[j - |mid|] && all[j] in rest;
      assert i >= |head| + |mid| ==> all[i] == rest[i - |mid|];
    }
  }

  /** Posting keeps the entries of a balance proper. */
  lemma NextProper(id: BalanceId, log: Log, date: Date, entries: seq<EntryValues>, mappings: Mappings,
                   leaves: iset<AccountId>)
    requires ValidLog(id, log) && OwnEntries(id.journal, entries) && FansOutOnce(mappings, leaves, entries)
    requires NotIn(entries, Entries(log))
    ensures Proper(id, Entries(Inserted(log, date, EntriesFor(TouchesOf(mappings, leaves, entries), id.AsKey()))))
  {
    hide EntriesFor, TouchesOf, UpTo, Inserted, SortBySequence, Proper, Entries, OwnEntries, FansOutOnce, ByDate;
    var es := EntriesFor(TouchesOf(mappings, leaves, entries), id.AsKey());
    ReachedEntries(id.journal, mappings, leaves, entries, id.AsKey());
    SortedOwnEntries(id.journal, es);
    forall e ensures e in SortBySequence(es) <==> e in es { SortMembers(es, e); }
    InsertedByDate(log, date, es);
    var j := UpTo(log, date);
    assert log == log[..j] + log[j..];
    EntriesConcat(log[..j], log[j..]);
    ProperMiddle(id, Entries(log[..j]), SortBySequence(es), Entries(log[j..]));
  }

  // ---------------------------------------------------------------- the posting

  /** What reaches balance `id` in one posting. */
  ghost function Reaching(mappings: Mappings, leaves: iset<AccountId>, entries: seq<EntryValues>,
                          k: Key): seq<EntryValues> {
    EntriesFor(TouchesOf(mappings, leaves, entries), k)
  }

  type DataMap = map<Key, EffectiveBalanceData>

  ghost predicate Apart(data: DataMap) {
    forall k, l :: k in data && l in data && k != l ==> data[k] != data[l]
  }

  ghost predicate IsDataFor(d: EffectiveBalanceData, id: BalanceId, log: Log, effective: Date) {
    d.id == id && d.log == log && d.date == effective
  }

  ghost function LeavesOf(ecLeaves: Option<set<AccountId>>): iset<AccountId> {
    if ecLeaves.Some? then AsLeaves(ecLeaves.value) else ALL_LEAVES
  }

  /** One balance as the posting starts: its latest row on or before the date, and its later rows. */
  method LoadData(rows: set<EffectiveRow>, id: BalanceId, effective: Date, ghost log: Log)
    returns (d: EffectiveBalanceData)
    requires ByDate(log) && Holds(rows, id, log)
    ensures fresh(d) && d.Valid() && d.es == [] && IsDataFor(d, id, log, effective)
  {
    hide HoldsPrefix, LaterRows, RowAt, UpTo, ByDate;
    var last := LoadLast(rows, id, effective, log);
    var later := LoadLater(rows, id, effective, log);
    LoadedLast(id, log, effective, last);
    d := new EffectiveBalanceData(
      id.account, id.currency,
      if last.Some? then Some((last.value.effective, last.value.values)) else None,
      if last.Some? then last.value.allTimeVersion else 0,
      later, id, log, effective);
  }

  lemma LoadedLast(id: BalanceId, log: Log, effective: Date, last: Option<EffectiveRow>)
    requires last == if UpTo(log, effective) == 0 then None else Some(RowAt(id, log, UpTo(log, effective) - 1))
    ensures last.Some? ==> last.value.effective == log[UpTo(log, effective) - 1].date && last.value.values == SnapAt(id, log, UpTo(log, effective) - 1)
    ensures (if last.Some? then last.value.allTimeVersion else 0) == UpTo(log, effective)
  {
  }

  /** Every loaded balance has been pushed the entries of `touches` that are for it. */
  ghost predicate Pushed(data: DataMap, effective: Date, touches: seq<Touch>)
    reads set k | k in data :: data[k]
  {
    forall k :: k in data ==> data[k].Valid() && data[k].date == effective && data[k].es == EntriesFor(touches, k)
  }

  /** Push one entry to the balance of one account, if it is loaded. */
  method PushOne(data: DataMap, effective: Date, account: AccountId, e: EntryValues, ghost touches: seq<Touch>)
    requires Apart(data) && Pushed(data, effective, touches)
    modifies set k | k in data :: data[k]
    ensures Pushed(data, effective, touches + [Touch(account, e)])
  {
    hide EntriesFor;
    ApplyOther(touches, Touch(account, e), Key(account, e.currency));
    if Key(account, e.currency) in data {
      data[Key(account, e.currency)].Push(effective, e);
    }
  }

  /** Push every entry to every mapped set, then to its leaf if this path maintains it. */
  method PushEntries(data: DataMap, effective: Date, entries: seq<EntryValues>, mappings: Mappings,
                     ecLeaves: Option<set<AccountId>>)
    requires Apart(data) && Pushed(data, effective, [])
    modifies set k | k in data :: data[k]
    ensures Pushed(data, effective, TouchesOf(mappings, LeavesOf(ecLeaves), entries))
  {
    hide Pushed, Apart, EntriesFor, TouchesOf, TouchesOfEntry;
    ghost var leaves := LeavesOf(ecLeaves);
    TouchesNothing(mappings, leaves);
    for i := 0 to |entries|
      invariant Pushed(data, effective, TouchesOf(mappings, leaves, entries[..i]))
    {
      var e := entries[i];
      var sets := SetsOf(mappings, e.accountId);
      ghost var before, own := TouchesOf(mappings, leaves, entries[..i]), TouchesOfEntry(mappings, leaves, e);
      TouchesNext(mappings, leaves, entries, i);
      assert before + own[..0] == before;
      for j := 0 to |sets|
        invariant Pushed(data, effective, before + own[..j])
      {
        PushOne(data, effective, sets[j], e, before + own[..j]);
        AppendTouch(before, own, j);
      }
      if ecLeaves.None? || e.accountId in ecLeaves.value {
        PushOne(data, effective, e.accountId, e, before + own[..|sets|]);
        AppendTouch(before, own, |sets|);
      }
      assert own[..|own|] == own;
    }
    assert entries[..|entries|] == entries;
  }

  /** Replay every loaded balance. */
  method ReCalculateAll(data: DataMap)
    requires Apart(data)
    requires forall k :: k in data ==> data[k].Valid() && Replayable(data[k].id, data[k].log, data[k].date, data[k].es)
    modifies set k | k in data :: data[k]
    ensures forall k :: k in data ==> data[k].Done() && data[k].es == old(data[k].es)
  {
    hide Replayable, EffectiveBalanceData.Valid, EffectiveBalanceData.Done, Proper, ValidLog, UpTo;
    var left := data.Keys;
    while left != {}
      invariant left <= data.Keys
      invariant forall k :: k in data ==> data[k].es == old(data[k].es)
      invariant forall k :: k in left ==> data[k].Valid() && Replayable(data[k].id, data[k].log, data[k].date, data[k].es)
      invariant forall k :: k in data.Keys - left ==> data[k].Done()
      decreases left
    {
      var k :| k in left;
      left := left - {k};
      ReplayableMeans(data[k].id, data[k].log, data[k].date, data[k].es);
      data[k].ReCalculateSnapshots();
    }
  }

  ghost predicate Replayable(id: BalanceId, log: Log, date: Date, es: seq<EntryValues>) {
    ValidLog(id, log) && Proper(id, Entries(Inserted(log, date, es))) && es != []
  }

  lemma ReplayableMeans(id: BalanceId, log: Log, date: Date, es: seq<EntryValues>)
    requires Replayable(id, log, date, es)
    ensures ValidLog(id, log) && Proper(id, Entries(Inserted(log, date, es))) && es != []
  {
  }

  /** A row the posting writes for a balance. */
  ghost predicate IsWritten(row: EffectiveRow, id: BalanceId, log: Log, date: Date, es: seq<EntryValues>) {
    row.allTimeVersion > UpTo(log, date) && IsRow(id, Inserted(log, date, es), |Inserted(log, date, es)|, row)
  }

  /** The rows to insert: for every loaded balance, the running totals from the posting date on. */
  method CollectSnapshots(data: DataMap, journal: JournalId) returns (added: set<EffectiveRow>)
    requires forall k :: k in data ==> data[k].Done() && data[k].id == BalanceId(journal, k.account, k.currency)
    ensures forall row: EffectiveRow :: row in added <==>
              row.values.journalId == journal && KeyOf(row.values) in data &&
              var d := data[KeyOf(row.values)]; IsWritten(row, d.id, d.log, d.date, d.es)
  {
    hide IsWritten;
    added := {};
    var left := data.Keys;
    while left != {}
      invariant left <= data.Keys
      invariant forall row: EffectiveRow :: row in added <==>
                  row.values.journalId == journal && KeyOf(row.values) in data.Keys - left &&
                  var d := data[KeyOf(row.values)]; IsWritten(row, d.id, d.log, d.date, d.es)
      decreases left
    {
      var k :| k in left;
      left := left - {k};
      var snapshots := data[k].IntoSnapshots(journal);
      forall row: EffectiveRow ensures row in snapshots <==> IdOf(row.values) == data[k].id && IsWritten(row, data[k].id, data[k].log, data[k].date, data[k].es) {
        SnapshotsAreWritten(snapshots, row, data[k].id, data[k].log, data[k].date, data[k].es);
      }
      added := added + (set row | row in snapshots);
    }
  }

  lemma SnapshotsAreWritten(snapshots: seq<EffectiveRow>, row: EffectiveRow, id: BalanceId, log: Log, date: Date,
                            es: seq<EntryValues>)
    requires |Inserted(log, date, es)| == |log| + |es| && |snapshots| == |log| + |es| - UpTo(log, date)
    requires forall i :: 0 <= i < |snapshots| ==> snapshots[i] == RowAt(id, Inserted(log, date, es), UpTo(log, date) + i)
    ensures row in snapshots <==> IdOf(row.values) == id && IsWritten(row, id, log, date, es)
  {
    hide SnapAt, Inserted, UpTo;
    var next, j := Inserted(log, date, es), UpTo(log, date);
    if row in snapshots {
      var i :| 0 <= i < |snapshots| && snapshots[i] == row;
      RowMeaning(id, next, j + i, Settled);
    }
    if IsWritten(row, id, log, date, es) {
      assert snapshots[row.allTimeVersion - 1 - j] == row;
    }
  }

  /** One posting at a date: whom it reaches, and through which sets and leaves. */
  datatype Posting = Posting(journal: JournalId, entries: seq<EntryValues>, effective: Date, mappings: Mappings,
                             pairs: set<Key>, accounts: AccountMeta, ecLeaves: Option<set<AccountId>>)
  {
    ghost function Keys(): set<Key> {
      Eligible(pairs, accounts, ecLeaves.Some?)
    }

    ghost function EntriesTo(id: BalanceId): seq<EntryValues> {
      EntriesFor(TouchesOf(mappings, LeavesOf(ecLeaves), entries), id.AsKey())
    }

    ghost predicate Maintains(id: BalanceId) {
      id.journal == journal && id.AsKey() in Keys()
    }

    /** What the callers provide: entries with identities of their own, reaching no account twice, and no pair without an entry. */
    ghost predicate WellFormed() {
      && OwnEntries(journal, entries) && FansOutOnce(mappings, LeavesOf(ecLeaves), entries)
      && forall id :: Maintains(id) ==> EntriesTo(id) != []
    }

    ghost function After(id: BalanceId, posts: seq<Posted>): seq<Posted> {
      if Maintains(id) then posts + [Posted(effective, EntriesTo(id))] else posts
    }
  }

  /** The rows of one balance are the running totals of what was posted to it. */
  ghost predicate InStep(rows: set<EffectiveRow>, id: BalanceId, posts: seq<Posted>) {
    Holds(rows, id, LogAfter([], posts)) && ValidLog(id, LogAfter([], posts))
  }

  /** No balance the posting maintains has seen any of its entries. */
  ghost predicate Unseen(p: Posting, id: BalanceId, posts: seq<Posted>) {
    p.Maintains(id) ==> NotIn(p.entries, Entries(LogAfter([], posts)))
  }

  lemma ReadyToReplay(p: Posting, rows: set<EffectiveRow>, id: BalanceId, posts: seq<Posted>)
    requires p.WellFormed() && p.Maintains(id) && InStep(rows, id, posts) && Unseen(p, id, posts)
    ensures Replayable(id, LogAfter([], posts), p.effective, p.EntriesTo(id))
  {
    hide LogAfter, UpTo, Inserted, EntriesFor, TouchesOf, Proper, ByDate, HoldsPrefix, OwnEntries, FansOutOnce, NotIn;
    NextProper(id, LogAfter([], posts), p.effective, p.entries, p.mappings, LeavesOf(p.ecLeaves));
  }

  /** The posting writes `row`. */
  ghost predicate Writes(p: Posting, row: EffectiveRow, posts: BalanceId -> seq<Posted>) {
    var id := IdOf(row.values);
    p.Maintains(id) && IsWritten(row, id, LogAfter([], posts(id)), p.effective, p.EntriesTo(id))
  }

  /** One balance across a posting. */
  lemma PostKeeps(p: Posting, rows: set<EffectiveRow>, added: set<EffectiveRow>, id: BalanceId,
                  posts: BalanceId -> seq<Posted>)
    requires p.WellFormed() && InStep(rows, id, posts(id)) && Unseen(p, id, posts(id))
    requires forall row: EffectiveRow :: row in added <==> Writes(p, row, posts)
    ensures InStep(Kept(rows, p.journal, p.Keys(), p.effective) + added, id, p.After(id, posts(id)))
  {
    hide LogAfter, UpTo, Inserted, EntriesFor, TouchesOf, Proper, ByDate, OwnEntries, FansOutOnce, NotIn, IsRow,
         RowAt, Posting.WellFormed;
    var log, es := LogAfter([], posts(id)), p.EntriesTo(id);
    var kept := Kept(rows, p.journal, p.Keys(), p.effective);
    KeptRows(rows, id, log, p.journal, p.Keys(), p.effective);
    if p.Maintains(id) {
      ReadyToReplay(p, rows, id, posts(id));
      LogAfterSnoc([], posts(id), Posted(p.effective, es));
      InsertedByDate(log, p.effective, es);
      RestoredRows(kept, added, id, log, p.effective, es);
    }
  }

  class EffectiveBalanceRepo {
    var rows: set<EffectiveRow>
    /** Everything posted to each balance so far. */
    ghost var posts: BalanceId -> seq<Posted>

    ghost function LogOf(id: BalanceId): Log
      reads this
    {
      LogAfter([], posts(id))
    }

    /** The table is, balance by balance, the running totals of what was posted. */
    ghost predicate Valid()
      reads this
    {
      forall id :: InStep(rows, id, posts(id))
    }

    constructor ()
      ensures Valid() && forall id :: posts(id) == []
    {
      rows := {};
      posts := id => [];
    }

    /** Load every eligible pair: its latest row on or before the date, and its later rows, which are deleted. */
    method FindForUpdate(journal: JournalId, pairs: set<Key>, accounts: AccountMeta, rollup: bool, effective: Date)
      returns (data: DataMap)
      requires Valid()
      modifies this`rows
      ensures data.Keys == Eligible(pairs, accounts, rollup) && Apart(data)
      ensures rows == Kept(old(rows), journal, data.Keys, effective)
      ensures forall k :: k in data ==>
                fresh(data[k]) && data[k].Valid() && data[k].es == []
                && IsDataFor(data[k], BalanceId(journal, k.account, k.currency), LogOf(BalanceId(journal, k.account, k.currency)), effective)
    {
      hide LogAfter, HoldsPrefix, LaterRows, RowAt, UpTo, Kept;
      data := map[];
      var left := pairs;
      while left != {}
        invariant left <= pairs && data.Keys == Eligible(pairs - left, accounts, rollup) && Apart(data)
        invariant Valid() && rows == old(rows)
        invariant forall k :: k in data ==>
                    fresh(data[k]) && data[k].Valid() && data[k].es == []
                    && IsDataFor(data[k], BalanceId(journal, k.account, k.currency), LogOf(BalanceId(journal, k.account, k.currency)), effective)
        decreases left
      {
        var k :| k in left;
        ghost var seen := pairs - left;
        left := left - {k};
        assert pairs - left == seen + {k};
        if k.account in accounts && accounts[k.account] == rollup {
          var id := BalanceId(journal, k.account, k.currency);
          assert InStep(rows, id, posts(id));
          var d := LoadData(rows, id, effective, LogOf(id));
          data := data[k := d];
        }
      }
      assert pairs - left == pairs;
      rows := Kept(rows, journal, data.Keys, effective);
    }

    /** Post entries at a date. Every balance the posting maintains holds the running totals with the entries inserted;
        every other balance is untouched. */
    method Post(p: Posting)
      requires Valid() && p.WellFormed() && forall id :: Unseen(p, id, posts(id))
      modifies this
      ensures Valid()
      ensures forall id :: posts(id) == p.After(id, old(posts)(id))
    {
      hide InStep, Unseen, IsWritten, Kept, LogAfter, Replayable, Posting.WellFormed, EffectiveBalanceData.Valid,
           EffectiveBalanceData.Done;
      ghost var before, past := rows, posts;
      var data := FindForUpdate(p.journal, p.pairs, p.accounts, p.ecLeaves.Some?, p.effective);
      PushEntries(data, p.effective, p.entries, p.mappings, p.ecLeaves);
      forall k | k in data ensures Replayable(data[k].id, data[k].log, data[k].date, data[k].es) {
        ReadyToReplay(p, before, data[k].id, past(data[k].id));
      }
      ReCalculateAll(data);
      var added := CollectSnapshots(data, p.journal);
      assert forall row: EffectiveRow :: row in added <==> Writes(p, row, past);
      rows := rows + added;
      posts := id => p.After(id, past(id));
      forall id ensures InStep(rows, id, posts(id)) {
        PostKeeps(p, before, added, id, past);
      }
    }
  }
}
