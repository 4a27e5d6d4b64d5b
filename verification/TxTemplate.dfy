/** Building the entries of a transaction: numbered, and accepted only when every currency and layer nets to zero. */
module TxTemplate {
  import opened Primitives
  import opened Snapshots

  /** A template entry once its expressions are evaluated. */
  datatype EvaluatedEntry = EvaluatedEntry(account: AccountId, layer: Layer, units: int, currency: Currency, direction: DebitOrCredit)

  datatype PrepResult =
    | Prepared(entries: seq<EntryValues>)
    | UnbalancedTransaction(currency: Currency, layer: Layer, total: int)

  datatype TotalKey = TotalKey(currency: Currency, layer: Layer)

  /** Credits minus debits of one currency and layer. */
  ghost function Net(es: seq<EntryValues>, currency: Currency, layer: Layer): int {
    if es == [] then 0
    else
      var e := es[|es| - 1];
      Net(es[..|es| - 1], currency, layer) +
      if e.currency != currency || e.layer != layer then 0 else if e.direction == Credit then e.units else -e.units
  }

  ghost predicate Balanced(es: seq<EntryValues>) {
    forall currency, layer :: Net(es, currency, layer) == 0
  }

  function Build(e: EvaluatedEntry, id: EntryId, transaction: TransactionId, journal: JournalId,
                 sequence: nat): EntryValues {
    EntryValues(id, transaction, journal, e.account, sequence, e.layer, e.units, e.currency, e.direction)
  }

  /** The entries built from the template, numbered from one. */
  ghost function Built(es: seq<EvaluatedEntry>, ids: seq<EntryId>, transaction: TransactionId,
                       journal: JournalId): seq<EntryValues>
    requires |ids| == |es|
  {
    seq(|es|, i requires 0 <= i < |es| => Build(es[i], ids[i], transaction, journal, i + 1))
  }

  ghost predicate TotalsOf(totals: map<TotalKey, int>, built: seq<EntryValues>) {
    forall k :: if k in totals then totals[k] == Net(built, k.currency, k.layer) else Net(built, k.currency, k.layer) == 0
  }

  /** `ids` are the fresh identities drawn for the entries. */
  method PrepEntries(es: seq<EvaluatedEntry>, ids: seq<EntryId>, transaction: TransactionId, journal: JournalId)
    returns (r: PrepResult)
    requires |ids| == |es|
    ensures r.Prepared? <==> Balanced(Built(es, ids, transaction, journal))
    ensures r.Prepared? ==> r.entries == Built(es, ids, transaction, journal)
    ensures r.UnbalancedTransaction? ==> r.total != 0 && r.total == Net(Built(es, ids, transaction, journal), r.currency, r.layer)
  {
    ghost var all := Built(es, ids, transaction, journal);
    var built: seq<EntryValues> := [];
    var totals: map<TotalKey, int> := map[];
    for i := 0 to |es|
      invariant built == all[..i] && TotalsOf(totals, built)
    {
      var e := es[i];
      var k := TotalKey(e.currency, e.layer);
      var total := if k in totals then totals[k] else 0;
      match e.direction {
        case Debit => total := total - e.units;
        case Credit => total := total + e.units;
      }
      assert all[..i + 1][..i] == all[..i];
      totals := totals[k := total];
      built := built + [Build(e, ids[i], transaction, journal, i + 1)];
    }
    assert all[..|es|] == all;
    var left := totals.Keys;
    while left != {}
      invariant left <= totals.Keys && forall k :: k in totals.Keys - left ==> totals[k] == 0
      decreases left
    {
      var k :| k in left;
      assert totals[k] == Net(all, k.currency, k.layer);
      if totals[k] != 0 { return UnbalancedTransaction(k.currency, k.layer, totals[k]); }
      left := left - {k};
    }
    forall currency, layer ensures Net(all, currency, layer) == 0 {
      assert TotalKey(currency, layer) in totals ==> totals[TotalKey(currency, layer)] == 0;
    }
    r := Prepared(built);
  }

  /** Balanced entries carry as much debit as credit, in every currency and layer. */
  lemma {:induction false} NetIsDifference(es: seq<EntryValues>, currency: Currency, layer: Layer)
    ensures Net(es, currency, layer) == UnitsIn(es, currency, layer, Credit) - UnitsIn(es, currency, layer, Debit)
  {
    if es != [] { NetIsDifference(es[..|es| - 1], currency, layer); }
  }

  /** Units of one currency, layer and side. */
  ghost function UnitsIn(es: seq<EntryValues>, currency: Currency, layer: Layer, direction: DebitOrCredit): int {
    if es == [] then 0
    else
      var e := es[|es| - 1];
      UnitsIn(es[..|es| - 1], currency, layer, direction) +
      if e.currency == currency && e.layer == layer && e.direction == direction then e.units else 0
  }
}
