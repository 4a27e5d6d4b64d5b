/** Balance snapshots and the fold that chains a batch of entries into them. */
module Snapshots {
  import opened Primitives
  import opened Distinctness

  datatype Layer = Settled | Pending | Encumbrance
  datatype DebitOrCredit = Debit | Credit

  /** The entry id of a layer nothing was posted to. */
  const UNASSIGNED_ENTRY_ID: EntryId := 0

  datatype EntryValues = EntryValues(
    id: EntryId, transactionId: TransactionId, journalId: JournalId, accountId: AccountId,
    sequence: nat, layer: Layer, units: int, currency: Currency, direction: DebitOrCredit)

  datatype BalanceAmount = BalanceAmount(drBalance: int, crBalance: int, entryId: EntryId) {
    function Side(direction: DebitOrCredit): int {
      if direction == Debit then drBalance else crBalance
    }

    function Add(direction: DebitOrCredit, units: int, id: EntryId): BalanceAmount {
      match direction
      case Debit => BalanceAmount(drBalance + units, crBalance, id)
      case Credit => BalanceAmount(drBalance, crBalance + units, id)
    }
  }

  const NOTHING: BalanceAmount := BalanceAmount(0, 0, UNASSIGNED_ENTRY_ID)

  datatype BalanceSnapshot = BalanceSnapshot(
    journalId: JournalId, accountId: AccountId, currency: Currency, version: nat, entryId: EntryId,
    settled: BalanceAmount, pending: BalanceAmount, encumbrance: BalanceAmount)
  {
    function Amount(layer: Layer): BalanceAmount {
      match layer
      case Settled => settled
      case Pending => pending
      case Encumbrance => encumbrance
    }
  }

  function ZeroSnapshot(account: AccountId, entry: EntryValues): BalanceSnapshot {
    BalanceSnapshot(entry.journalId, account, entry.currency, 0, UNASSIGNED_ENTRY_ID, NOTHING, NOTHING, NOTHING)
  }

  function UpdateSnapshot(snapshot: BalanceSnapshot, entry: EntryValues): BalanceSnapshot {
    var s := snapshot.(version := snapshot.version + 1, entryId := entry.id);
    match entry.layer
    case Settled => s.(settled := s.settled.Add(entry.direction, entry.units, entry.id))
    case Pending => s.(pending := s.pending.Add(entry.direction, entry.units, entry.id))
    case Encumbrance => s.(encumbrance := s.encumbrance.Add(entry.direction, entry.units, entry.id))
  }

  function NewSnapshot(account: AccountId, entry: EntryValues): BalanceSnapshot {
    UpdateSnapshot(ZeroSnapshot(account, entry), entry)
  }

  // ---------------------------------------------------------------- what a list of entries adds up to

  /** Total units of the entries of one layer and side. */
  ghost function Units(es: seq<EntryValues>, layer: Layer, direction: DebitOrCredit): int {
    if es == [] then 0
    else
      var e := es[|es| - 1];
      Units(es[..|es| - 1], layer, direction) + if e.layer == layer && e.direction == direction then e.units else 0
  }

  /** The last entry of a layer, or what was there before. */
  ghost function LastId(es: seq<EntryValues>, layer: Layer, before: EntryId): EntryId {
    if es == [] then before
    else if es[|es| - 1].layer == layer then es[|es| - 1].id
    else LastId(es[..|es| - 1], layer, before)
  }

  lemma {:induction false} UnitsConcat(a: seq<EntryValues>, b: seq<EntryValues>, layer: Layer, direction: DebitOrCredit)
    ensures Units(a + b, layer, direction) == Units(a, layer, direction) + Units(b, layer, direction)
  {
    if b == [] {
      assert a + b == a;
    } else {
      UnitsConcat(a, b[..|b| - 1], layer, direction);
      assert (a + b)[..|a + b| - 1] == a + b[..|b| - 1];
    }
  }

  lemma {:induction false} LastIdConcat(a: seq<EntryValues>, b: seq<EntryValues>, layer: Layer, before: EntryId)
    ensures LastId(a + b, layer, before) == LastId(b, layer, LastId(a, layer, before))
  {
    if b == [] {
      assert a + b == a;
    } else {
      assert (a + b)[..|a + b| - 1] == a + b[..|b| - 1];
      if b[|b| - 1].layer != layer { LastIdConcat(a, b[..|b| - 1], layer, before); }
    }
  }

  /** Entries applied one after the other. */
  ghost function Folded(base: BalanceSnapshot, es: seq<EntryValues>): BalanceSnapshot {
    if es == [] then base else UpdateSnapshot(Folded(base, es[..|es| - 1]), es[|es| - 1])
  }

  lemma {:induction false} FoldedConcat(base: BalanceSnapshot, a: seq<EntryValues>, b: seq<EntryValues>)
    ensures Folded(base, a + b) == Folded(Folded(base, a), b)
  {
    if b == [] {
      assert a + b == a;
    } else {
      FoldedConcat(base, a, b[..|b| - 1]);
      assert (a + b)[..|a + b| - 1] == a + b[..|b| - 1];
    }
  }

  /** A fold adds, per layer and side, exactly the units of its entries; counts them in the version;
      and points each layer at its last entry. */
  lemma {:induction false} FoldedTotals(base: BalanceSnapshot, es: seq<EntryValues>, layer: Layer,
                                        direction: DebitOrCredit)
    ensures var s := Folded(base, es);
            && s.version == base.version + |es|
            && s.Amount(layer).Side(direction) == base.Amount(layer).Side(direction) + Units(es, layer, direction)
            && s.Amount(layer).entryId == LastId(es, layer, base.Amount(layer).entryId)
            && s.entryId == (if es == [] then base.entryId else es[|es| - 1].id)
            && s.accountId == base.accountId && s.currency == base.currency && s.journalId == base.journalId
  {
    if es != [] {
      FoldedTotals(base, es[..|es| - 1], layer, direction);
    }
  }

  // ---------------------------------------------------------------- the fold

  datatype Key = Key(account: AccountId, currency: Currency)

  /** One application of an entry to one account. */
  datatype Touch = Touch(account: AccountId, entry: EntryValues)

  type Loaded = map<Key, Option<BalanceSnapshot>>

  function KeyOf(s: BalanceSnapshot): Key {
    Key(s.accountId, s.currency)
  }

  /** Loaded balances are filed under their own key. */
  ghost predicate WellFiled(current: Loaded) {
    forall k :: k in current && current[k].Some? ==> KeyOf(current[k].value) == k
  }

  /** The entries that touch `k`, in order. */
  ghost function EntriesFor(touches: seq<Touch>, k: Key): seq<EntryValues> {
    if touches == [] then []
    else
      var t := touches[|touches| - 1];
      EntriesFor(touches[..|touches| - 1], k) + if Key(t.account, t.entry.currency) == k then [t.entry] else []
  }

  /** The snapshot after entries on top of a loaded balance, or on top of nothing. */
  ghost function Chained(k: Key, base: Option<BalanceSnapshot>, es: seq<EntryValues>): BalanceSnapshot
    requires es != []
  {
    Folded(if base.Some? then base.value else ZeroSnapshot(k.account, es[0]), es)
  }

  /** The snapshots written for `k`: one per entry, each on top of the one before. */
  ghost function Emitted(k: Key, base: Option<BalanceSnapshot>, es: seq<EntryValues>): seq<BalanceSnapshot> {
    seq(|es|, i requires 0 <= i < |es| => Chained(k, base, es[..i + 1]))
  }

  ghost function EmittedFor(current: Loaded, touches: seq<Touch>, k: Key): seq<BalanceSnapshot> {
    if k in current then Emitted(k, current[k], EntriesFor(touches, k)) else []
  }

  /** The rows of one key, in order. */
  ghost function RowsFor(rows: seq<BalanceSnapshot>, k: Key): seq<BalanceSnapshot> {
    if rows == [] then []
    else RowsFor(rows[..|rows| - 1], k) + if KeyOf(rows[|rows| - 1]) == k then [rows[|rows| - 1]] else []
  }

  lemma {:induction false} RowsForConcat(a: seq<BalanceSnapshot>, b: seq<BalanceSnapshot>, k: Key)
    ensures RowsFor(a + b, k) == RowsFor(a, k) + RowsFor(b, k)
  {
    if b == [] {
      assert a + b == a;
    } else {
      RowsForConcat(a, b[..|b| - 1], k);
      assert (a + b)[..|a + b| - 1] == a + b[..|b| - 1];
    }
  }

  lemma {:induction false} EntriesForConcat(a: seq<Touch>, b: seq<Touch>, k: Key)
    ensures EntriesFor(a + b, k) == EntriesFor(a, k) + EntriesFor(b, k)
  {
    if b == [] {
      assert a + b == a;
    } else {
      EntriesForConcat(a, b[..|b| - 1], k);
      assert (a + b)[..|a + b| - 1] == a + b[..|b| - 1];
    }
  }

  lemma {:induction false} EntriesForCurrency(touches: seq<Touch>, k: Key)
    ensures forall i :: 0 <= i < |EntriesFor(touches, k)| ==> EntriesFor(touches, k)[i].currency == k.currency
  {
    if touches != [] { EntriesForCurrency(touches[..|touches| - 1], k); }
  }

  lemma ChainedKey(k: Key, base: Option<BalanceSnapshot>, es: seq<EntryValues>)
    requires es != [] && es[0].currency == k.currency
    requires base.Some? ==> KeyOf(base.value) == k
    ensures KeyOf(Chained(k, base, es)) == k
  {
    FoldedTotals(if base.Some? then base.value else ZeroSnapshot(k.account, es[0]), es, Settled, Debit);
  }

  /** What the accumulator holds for `k` after `es`: nothing yet, or the latest snapshot with all earlier ones completed. */
  ghost predicate KeyState(loaded: Loaded, current: Loaded, latest: map<Key, BalanceSnapshot>,
                           completed: seq<BalanceSnapshot>, es: seq<EntryValues>, k: Key)
  {
    if k !in loaded then k !in current && k !in latest && completed == []
    else if es == [] then k in current && current[k] == loaded[k] && k !in latest && completed == []
    else
      && k !in current && k in latest && latest[k] == Chained(k, loaded[k], es)
      && completed + [latest[k]] == Emitted(k, loaded[k], es)
  }

  lemma KeyStep(loaded: Loaded, current: Loaded, latest: map<Key, BalanceSnapshot>, completed: seq<BalanceSnapshot>,
                es: seq<EntryValues>, k: Key, e: EntryValues)
    requires WellFiled(loaded) && e.currency == k.currency
    requires k in loaded && KeyState(loaded, current, latest, completed, es, k)
    ensures k in latest ==>
              KeyState(loaded, current, latest[k := UpdateSnapshot(latest[k], e)], completed + [latest[k]], es + [e], k)
    ensures k !in latest ==>
              && k in current
              && KeyState(loaded, current - {k},
                          latest[k := if current[k].Some? then UpdateSnapshot(current[k].value, e) else NewSnapshot(k.account, e)],
                          completed, es + [e], k)
  {
    ChainedSnoc(k, loaded[k], es, e);
    EmittedSnoc(k, loaded[k], es, e);
    hide Chained, UpdateSnapshot, ZeroSnapshot;
  }

  lemma ChainedSnoc(k: Key, base: Option<BalanceSnapshot>, es: seq<EntryValues>, e: EntryValues)
    ensures Chained(k, base, es + [e]) ==
            UpdateSnapshot(if es == [] then (if base.Some? then base.value else ZeroSnapshot(k.account, e)) else Chained(k, base, es), e)
  {
    hide UpdateSnapshot, ZeroSnapshot;
    var first := if base.Some? then base.value else ZeroSnapshot(k.account, (es + [e])[0]);
    assert (es + [e])[..|es + [e]| - 1] == es;
    assert Folded(first, es + [e]) == UpdateSnapshot(Folded(first, es), e);
  }

  lemma EmittedSnoc(k: Key, base: Option<BalanceSnapshot>, es: seq<EntryValues>, e: EntryValues)
    ensures Emitted(k, base, es + [e]) == Emitted(k, base, es) + [Chained(k, base, es + [e])]
  {
    hide Chained;
    assert (es + [e])[..|es| + 1] == es + [e];
    forall i | 0 <= i < |es| ensures Emitted(k, base, es + [e])[i] == Emitted(k, base, es)[i] {
      assert (es + [e])[..i + 1] == es[..i + 1];
    }
  }

  class SnapshotFold {
    var current: Loaded
    var latest: map<Key, BalanceSnapshot>
    var completed: seq<BalanceSnapshot>
    /** What was loaded, and every application so far. */
    ghost const loaded: Loaded
    ghost var touches: seq<Touch>

    ghost predicate Valid()
      reads this
    {
      && WellFiled(loaded)
      && (forall k :: k in latest ==> KeyOf(latest[k]) == k)
      && forall k :: KeyState(loaded, current, latest, RowsFor(completed, k), EntriesFor(touches, k), k)
    }

    constructor (loaded: Loaded)
      requires WellFiled(loaded)
      ensures Valid() && this.loaded == loaded && touches == []
    {
      this.loaded := loaded;
      current, latest, completed := loaded, map[], [];
      touches := [];
    }

    /** Fold one entry into `account`, chaining onto the snapshot already written this batch. */
    method Apply(account: AccountId, entry: EntryValues)
      requires Valid()
      modifies this
      ensures Valid() && touches == old(touches) + [Touch(account, entry)]
    {
      hide KeyState, WellFiled;
      var k := Key(account, entry.currency);
      ghost var es := EntriesFor(touches, k);
      ApplyOther(touches, Touch(account, entry), k);
      touches := touches + [Touch(account, entry)];
      if k in latest {
        ApplyKnown(loaded, current, latest, completed, es, k, entry);
        var prev := latest[k];
        completed := completed + [prev];
        latest := latest[k := UpdateSnapshot(prev, entry)];
      } else if k in current {
        ApplyFirst(loaded, current, latest, completed, es, k, entry);
        var base := current[k];
        current := current - {k};
        latest := latest[k := if base.Some? then UpdateSnapshot(base.value, entry) else NewSnapshot(account, entry)];
      } else {
        ApplySkipped(loaded, current, latest, RowsFor(completed, k), es, k, entry);
      }
    }

    /** All snapshots: the completed ones, then the latest of every key in an arbitrary order. */
    method IntoSnapshots() returns (rows: seq<BalanceSnapshot>)
      requires Valid()
      ensures forall k :: RowsFor(rows, k) == EmittedFor(loaded, touches, k)
    {
      hide KeyState, WellFiled;
      rows := completed;
      ghost var done: set<Key> := {};
      var left := latest.Keys;
      while left != {}
        invariant left == latest.Keys - done && done <= latest.Keys
        invariant forall k :: RowsFor(rows, k) == RowsFor(completed, k) + if k in done then [latest[k]] else []
        decreases left
      {
        var k :| k in left;
        ghost var before := rows;
        rows := rows + [latest[k]];
        assert rows[..|rows| - 1] == before;
        left := left - {k};
        done := done + {k};
      }
      forall k ensures RowsFor(rows, k) == EmittedFor(loaded, touches, k) {
        KeyFinish(loaded, current, latest, RowsFor(completed, k), EntriesFor(touches, k), k);
      }
    }
  }

  lemma ApplyOther(touches: seq<Touch>, t: Touch, k: Key)
    requires k == Key(t.account, t.entry.currency)
    ensures forall o :: EntriesFor(touches + [t], o) == if o == k then EntriesFor(touches, o) + [t.entry] else EntriesFor(touches, o)
  {
    assert (touches + [t])[..|touches|] == touches;
  }

  lemma ApplyKnown(loaded: Loaded, current: Loaded, latest: map<Key, BalanceSnapshot>, completed: seq<BalanceSnapshot>,
                   es: seq<EntryValues>, k: Key, e: EntryValues)
    requires WellFiled(loaded) && k in latest && KeyOf(latest[k]) == k && e.currency == k.currency
    requires KeyState(loaded, current, latest, RowsFor(completed, k), es, k)
    ensures KeyOf(UpdateSnapshot(latest[k], e)) == k
    ensures KeyState(loaded, current, latest[k := UpdateSnapshot(latest[k], e)], RowsFor(completed + [latest[k]], k), es + [e], k)
    ensures forall o, os :: o != k && KeyState(loaded, current, latest, RowsFor(completed, o), os, o) ==>
              KeyState(loaded, current, latest[k := UpdateSnapshot(latest[k], e)], RowsFor(completed + [latest[k]], o), os, o)
  {
    var completed' := completed + [latest[k]];
    assert completed'[..|completed|] == completed;
    forall o ensures RowsFor(completed', o) == RowsFor(completed, o) + if o == k then [latest[k]] else [] {
    }
    KeyStep(loaded, current, latest, RowsFor(completed, k), es, k, e);
    hide Emitted, Chained, RowsFor;
  }

  lemma ApplyFirst(loaded: Loaded, current: Loaded, latest: map<Key, BalanceSnapshot>, completed: seq<BalanceSnapshot>,
                   es: seq<EntryValues>, k: Key, e: EntryValues)
    requires WellFiled(loaded) && k !in latest && k in current && e.currency == k.currency
    requires KeyState(loaded, current, latest, RowsFor(completed, k), es, k)
    ensures var next := if current[k].Some? then UpdateSnapshot(current[k].value, e) else NewSnapshot(k.account, e);
            && KeyOf(next) == k
            && KeyState(loaded, current - {k}, latest[k := next], RowsFor(completed, k), es + [e], k)
            && forall o, os :: o != k && KeyState(loaded, current, latest, RowsFor(completed, o), os, o) ==>
                 KeyState(loaded, current - {k}, latest[k := next], RowsFor(completed, o), os, o)
  {
    KeyStep(loaded, current, latest, RowsFor(completed, k), es, k, e);
    hide Emitted, Chained, RowsFor;
  }

  lemma ApplySkipped(loaded: Loaded, current: Loaded, latest: map<Key, BalanceSnapshot>,
                     completed: seq<BalanceSnapshot>,
                     es: seq<EntryValues>, k: Key, e: EntryValues)
    requires k !in latest && k !in current
    requires KeyState(loaded, current, latest, completed, es, k)
    ensures KeyState(loaded, current, latest, completed, es + [e], k)
  {
  }

  lemma KeyFinish(loaded: Loaded, current: Loaded, latest: map<Key, BalanceSnapshot>, completed: seq<BalanceSnapshot>,
                  es: seq<EntryValues>, k: Key)
    requires KeyState(loaded, current, latest, completed, es, k)
    ensures completed + (if k in latest then [latest[k]] else []) == if k in loaded then Emitted(k, loaded[k], es) else []
  {
  }

  // ---------------------------------------------------------------- fan-out of entries

  type Mappings = map<AccountId, seq<AccountSetId>>

  function SetsOf(mappings: Mappings, account: AccountId): seq<AccountSetId> {
    if account in mappings then mappings[account] else []
  }

  /** The accounts one entry is folded into: every mapped set, then the leaf if it is maintained here. */
  ghost function FanOut(mappings: Mappings, leaves: iset<AccountId>, e: EntryValues): seq<AccountId> {
    SetsOf(mappings, e.accountId) + if e.accountId in leaves then [e.accountId] else []
  }

  ghost function TouchesOfEntry(mappings: Mappings, leaves: iset<AccountId>, e: EntryValues): seq<Touch> {
    var accounts := FanOut(mappings, leaves, e);
    seq(|accounts|, i requires 0 <= i < |accounts| => Touch(accounts[i], e))
  }

  ghost function TouchesOf(mappings: Mappings, leaves: iset<AccountId>, es: seq<EntryValues>): seq<Touch> {
    if es == [] then []
    else TouchesOf(mappings, leaves, es[..|es| - 1]) + TouchesOfEntry(mappings, leaves, es[|es| - 1])
  }

  lemma {:induction false} TouchesConcat(mappings: Mappings, leaves: iset<AccountId>, a: seq<EntryValues>,
                                         b: seq<EntryValues>)
    ensures TouchesOf(mappings, leaves, a + b) == TouchesOf(mappings, leaves, a) + TouchesOf(mappings, leaves, b)
  {
    hide TouchesOfEntry;
    if b == [] {
      assert a + b == a;
    } else {
      var n := |b| - 1;
      TouchesConcat(mappings, leaves, a, b[..n]);
      assert (a + b)[..|a + b| - 1] == a + b[..n] && (a + b)[|a + b| - 1] == b[n];
    }
  }

  /** One entry reaches a key at most once. */
  lemma {:induction false} TouchedOnce(fan: seq<AccountId>, e: EntryValues, k: Key)
    requires Distinct(fan)
    ensures EntriesFor(seq(|fan|, i requires 0 <= i < |fan| => Touch(fan[i], e)), k) ==
              if k.account in fan && e.currency == k.currency then [e] else []
  {
    var touches := seq(|fan|, i requires 0 <= i < |fan| => Touch(fan[i], e));
    if fan != [] {
      var n := |fan| - 1;
      assert touches[..n] == seq(n, i requires 0 <= i < n => Touch(fan[..n][i], e));
      TouchedOnce(fan[..n], e, k);
      DistinctAt(fan, n);
      assert fan == fan[..n] + [fan[n]];
    }
  }

  /** What one more entry adds to a key it reaches. */
  lemma ReachedStep(mappings: Mappings, leaves: iset<AccountId>, entries: seq<EntryValues>, e: EntryValues, k: Key)
    requires Distinct(FanOut(mappings, leaves, e))
    ensures EntriesFor(TouchesOf(mappings, leaves, entries + [e]), k) ==
            var before := EntriesFor(TouchesOf(mappings, leaves, entries), k);
            if k.account in FanOut(mappings, leaves, e) && e.currency == k.currency then before + [e] else before
  {
    assert (entries + [e])[..|entries|] == entries;
    TouchedOnce(FanOut(mappings, leaves, e), e, k);
    EntriesForConcat(TouchesOf(mappings, leaves, entries), TouchesOfEntry(mappings, leaves, e), k);
  }

  lemma TouchesNothing(mappings: Mappings, leaves: iset<AccountId>)
    ensures TouchesOf(mappings, leaves, []) == []
  {
  }

  /** The applications of entry `i`: its mapped sets in order, then its leaf if it is maintained here. */
  lemma TouchesNext(mappings: Mappings, leaves: iset<AccountId>, es: seq<EntryValues>, i: nat)
    requires i < |es|
    ensures TouchesOf(mappings, leaves, es[..i + 1]) == TouchesOf(mappings, leaves, es[..i]) + TouchesOfEntry(mappings, leaves, es[i])
    ensures var sets, own := SetsOf(mappings, es[i].accountId), TouchesOfEntry(mappings, leaves, es[i]);
            && |own| == |sets| + (if es[i].accountId in leaves then 1 else 0)
            && (forall j :: 0 <= j < |sets| ==> own[j] == Touch(sets[j], es[i]))
            && (es[i].accountId in leaves ==> own[|sets|] == Touch(es[i].accountId, es[i]))
  {
    assert es[..i + 1][..i] == es[..i];
  }

  lemma AppendTouch(before: seq<Touch>, own: seq<Touch>, j: nat)
    requires j < |own|
    ensures before + own[..j] + [own[j]] == before + own[..j + 1]
    ensures own[..|own|] == own
  {
  }

  /** Every leaf: the inline path maintains the leaf of each entry. */
  ghost const ALL_LEAVES: iset<AccountId> := iset a: AccountId | true

  /** Chain a batch of entries into snapshots for the leaf and every mapped set. Keys that were not loaded are skipped. */
  method FromEntries(current: Loaded, entries: seq<EntryValues>, mappings: Mappings)
    returns (rows: seq<BalanceSnapshot>)
    requires WellFiled(current)
    ensures forall k :: RowsFor(rows, k) == EmittedFor(current, TouchesOf(mappings, ALL_LEAVES, entries), k)
  {
    hide SnapshotFold.Valid, TouchesOf, TouchesOfEntry;
    var fold := new SnapshotFold(current);
    TouchesNothing(mappings, ALL_LEAVES);
    for i := 0 to |entries|
      invariant fold.Valid() && fold.loaded == current && fresh(fold)
      invariant fold.touches == TouchesOf(mappings, ALL_LEAVES, entries[..i])
    {
      var e := entries[i];
      var sets := SetsOf(mappings, e.accountId);
      ghost var before, own := fold.touches, TouchesOfEntry(mappings, ALL_LEAVES, e);
      TouchesNext(mappings, ALL_LEAVES, entries, i);
      for j := 0 to |sets|
        invariant fold.Valid() && fold.loaded == current && fresh(fold)
        invariant fold.touches == before + own[..j]
      {
        fold.Apply(sets[j], e);
        AppendTouch(before, own, j);
      }
      fold.Apply(e.accountId, e);
      AppendTouch(before, own, |sets|);
    }
    assert entries[..|entries|] == entries;
    rows := fold.IntoSnapshots();
  }

  /** The rollup counterpart: eventually consistent sets, and only the leaves that are eventually consistent themselves. */
  method FromEcEntries(current: Loaded, entries: seq<EntryValues>, ecMappings: Mappings, ecLeaves: set<AccountId>)
    returns (rows: seq<BalanceSnapshot>)
    requires WellFiled(current)
    ensures forall k :: RowsFor(rows, k) == EmittedFor(current, TouchesOf(ecMappings, AsLeaves(ecLeaves), entries), k)
  {
    hide SnapshotFold.Valid, TouchesOf, TouchesOfEntry;
    ghost var leaves := AsLeaves(ecLeaves);
    var fold := new SnapshotFold(current);
    TouchesNothing(ecMappings, leaves);
    for i := 0 to |entries|
      invariant fold.Valid() && fold.loaded == current && fresh(fold)
      invariant fold.touches == TouchesOf(ecMappings, leaves, entries[..i])
    {
      var e := entries[i];
      var sets := SetsOf(ecMappings, e.accountId);
      ghost var before, own := fold.touches, TouchesOfEntry(ecMappings, leaves, e);
      TouchesNext(ecMappings, leaves, entries, i);
      for j := 0 to |sets|
        invariant fold.Valid() && fold.loaded == current && fresh(fold)
        invariant fold.touches == before + own[..j]
      {
        fold.Apply(sets[j], e);
        AppendTouch(before, own, j);
      }
      if e.accountId in ecLeaves {
        fold.Apply(e.accountId, e);
        AppendTouch(before, own, |sets|);
      }
      assert own[..|own|] == own;
    }
    assert entries[..|entries|] == entries;
    rows := fold.IntoSnapshots();
  }

  ghost function AsLeaves(leaves: set<AccountId>): iset<AccountId> {
    iset a | a in leaves
  }

  // ---------------------------------------------------------------- what the emitted rows say

  /** The balance after the entries: the base when there are none. */
  ghost function Latest(k: Key, base: Option<BalanceSnapshot>, es: seq<EntryValues>): Option<BalanceSnapshot> {
    if es == [] then base else Some(Chained(k, base, es))
  }

  /** Version and amounts of a balance that may not exist yet. */
  ghost function VersionOf(base: Option<BalanceSnapshot>): nat {
    if base.Some? then base.value.version else 0
  }

  ghost function SideOf(base: Option<BalanceSnapshot>, layer: Layer, direction: DebitOrCredit): int {
    if base.Some? then base.value.Amount(layer).Side(direction) else 0
  }

  ghost function LayerIdOf(base: Option<BalanceSnapshot>, layer: Layer): EntryId {
    if base.Some? then base.value.Amount(layer).entryId else UNASSIGNED_ENTRY_ID
  }

  /** For a key touched `n` times from version `v`: exactly the versions `v+1 .. v+n` in order, the `i`-th one being the
      base plus the first `i+1` deltas, each layer pointing at its last entry so far. */
  lemma EmittedShape(k: Key, base: Option<BalanceSnapshot>, es: seq<EntryValues>, i: nat, layer: Layer,
                     direction: DebitOrCredit)
    requires i < |es|
    ensures |Emitted(k, base, es)| == |es|
    ensures var row := Emitted(k, base, es)[i];
            && row.version == VersionOf(base) + i + 1
            && row.entryId == es[i].id
            && row.Amount(layer).Side(direction) == SideOf(base, layer, direction) + Units(es[..i + 1], layer, direction)
            && row.Amount(layer).entryId == LastId(es[..i + 1], layer, LayerIdOf(base, layer))
            && row.journalId == (if base.Some? then base.value.journalId else es[0].journalId)
  {
    var first := if base.Some? then base.value else ZeroSnapshot(k.account, es[..i + 1][0]);
    FoldedTotals(first, es[..i + 1], layer, direction);
  }

  /** Folding a concatenation is folding the first part, writing it back, and folding the second part on top. */
  lemma EmittedConcat(k: Key, base: Option<BalanceSnapshot>, a: seq<EntryValues>, b: seq<EntryValues>)
    ensures Emitted(k, base, a + b) == Emitted(k, base, a) + Emitted(k, Latest(k, base, a), b)
    ensures Latest(k, base, a + b) == Latest(k, Latest(k, base, a), b)
  {
    forall i | 0 <= i < |a| ensures Emitted(k, base, a + b)[i] == Emitted(k, base, a)[i] {
      assert (a + b)[..i + 1] == a[..i + 1];
    }
    forall i | 0 <= i < |b| ensures Emitted(k, base, a + b)[|a| + i] == Emitted(k, Latest(k, base, a), b)[i] {
      assert (a + b)[..|a| + i + 1] == a + b[..i + 1];
      ChainedConcat(k, base, a, b[..i + 1]);
    }
    if b == [] {
      assert a + b == a;
    } else {
      ChainedConcat(k, base, a, b);
    }
  }

  lemma ChainedConcat(k: Key, base: Option<BalanceSnapshot>, a: seq<EntryValues>, b: seq<EntryValues>)
    requires b != []
    ensures Chained(k, base, a + b) == Chained(k, Latest(k, base, a), b)
  {
    if a == [] {
      assert a + b == b;
    } else {
      FoldedConcat(if base.Some? then base.value else ZeroSnapshot(k.account, a[0]), a, b);
      assert (a + b)[0] == a[0];
    }
  }
}
