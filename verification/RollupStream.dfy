/** The event stream behind the rollup: batches cut anywhere, crashes anywhere, one checkpoint. */
module RollupStream {
  import opened Primitives
  import opened Distinctness
  import opened Snapshots
  import opened EntrySort
  import opened Balances
  import opened Rollup

  /** A transaction as its event carries it: `entryIds` is the complete set of its entries. */
  datatype PendingTx = PendingTx(id: TransactionId, journal: JournalId, entryIds: seq<EntryId>)

  datatype Event = TransactionCreated(tx: PendingTx) | EntryCreated(entry: EntryValues) | Other

  /** The entries table. */
  type Ledger = map<EntryId, EntryValues>

  // ---------------------------------------------------------------- what a stream guarantees

  /** The entries of a transaction are committed with it. */
  ghost predicate ValidTx(ledger: Ledger, tx: PendingTx) {
    && Distinct(tx.entryIds)
    && (forall id :: id in tx.entryIds ==>
          id in ledger && ledger[id].id == id && ledger[id].transactionId == tx.id && ledger[id].journalId == tx.journal)
    && (forall i, j :: 0 <= i < j < |tx.entryIds| && tx.entryIds[i] in ledger && tx.entryIds[j] in ledger
          ==> ledger[tx.entryIds[i]].sequence != ledger[tx.entryIds[j]].sequence)
  }

  /** Transactions appear once, entries at most once, and every entry belongs to a transaction of the stream.
      Nothing is said about how close an entry is to its transaction. */
  ghost predicate ValidStream(stream: seq<Event>, ledger: Ledger) {
    && (forall i :: 0 <= i < |stream| && stream[i].TransactionCreated? ==> ValidTx(ledger, stream[i].tx))
    && (forall i, j :: 0 <= i < j < |stream| && stream[i].TransactionCreated? && stream[j].TransactionCreated?
          ==> stream[i].tx.id != stream[j].tx.id)
    && (forall i, j :: 0 <= i < j < |stream| && stream[i].EntryCreated? && stream[j].EntryCreated?
          ==> stream[i].entry.id != stream[j].entry.id)
    && (forall j :: 0 <= j < |stream| && stream[j].EntryCreated? ==>
          stream[j].entry.id in ledger && ledger[stream[j].entry.id] == stream[j].entry)
    && (forall i, j | 0 <= i < |stream| && 0 <= j < |stream| && stream[i].TransactionCreated? && stream[j].EntryCreated?
          :: stream[j].entry.transactionId == stream[i].tx.id ==> stream[j].entry.id in stream[i].tx.entryIds)
  }

  ghost function Rows(ledger: Ledger, ids: seq<EntryId>): seq<EntryValues>
    requires forall id :: id in ids ==> id in ledger
  {
    seq(|ids|, i requires 0 <= i < |ids| => ledger[ids[i]])
  }

  /** A transaction with its complete entry set in sequence order. */
  ghost function Complete(ledger: Ledger, tx: PendingTx): Transaction
    requires ValidTx(ledger, tx)
  {
    Transaction(tx.journal, SortBySequence(Rows(ledger, tx.entryIds)))
  }

  /** The transactions of a stretch of the stream, in order, each complete. */
  ghost function TransactionsOf(events: seq<Event>, ledger: Ledger): seq<Transaction>
    requires forall i :: 0 <= i < |events| && events[i].TransactionCreated? ==> ValidTx(ledger, events[i].tx)
  {
    if events == [] then []
    else
      var last := events[|events| - 1];
      TransactionsOf(events[..|events| - 1], ledger) + if last.TransactionCreated? then [Complete(ledger, last.tx)] else []
  }

  lemma {:induction false} TransactionsOfConcat(a: seq<Event>, b: seq<Event>, ledger: Ledger)
    requires forall i :: 0 <= i < |a + b| && (a + b)[i].TransactionCreated? ==> ValidTx(ledger, (a + b)[i].tx)
    ensures forall i :: 0 <= i < |a| && a[i].TransactionCreated? ==> ValidTx(ledger, a[i].tx)
    ensures forall i :: 0 <= i < |b| && b[i].TransactionCreated? ==> ValidTx(ledger, b[i].tx)
    ensures TransactionsOf(a + b, ledger) == TransactionsOf(a, ledger) + TransactionsOf(b, ledger)
  {
    hide ValidTx, Complete;
    forall i | 0 <= i < |a| && a[i].TransactionCreated? ensures ValidTx(ledger, a[i].tx) {
      assert (a + b)[i] == a[i];
    }
    forall i | 0 <= i < |b| && b[i].TransactionCreated? ensures ValidTx(ledger, b[i].tx) {
      assert (a + b)[|a| + i] == b[i];
    }
    if b == [] {
      assert a + b == a;
    } else {
      var front := b[..|b| - 1];
      assert (a + b)[..|a + b| - 1] == a + front;
      forall i | 0 <= i < |a + front| && (a + front)[i].TransactionCreated? ensures ValidTx(ledger, (a + front)[i].tx) {
        assert (a + b)[i] == (a + front)[i];
      }
      TransactionsOfConcat(a, front, ledger);
    }
  }

  lemma CompleteIsValid(ledger: Ledger, tx: PendingTx)
    requires ValidTx(ledger, tx)
    ensures Complete(ledger, tx).Valid()
    ensures DistinctSequences(Rows(ledger, tx.entryIds))
  {
    var rows := Rows(ledger, tx.entryIds);
    forall e | e in SortBySequence(rows) ensures e.journalId == tx.journal {
      SortMembers(rows, e);
    }
  }

  lemma {:induction false} TransactionsOfValid(events: seq<Event>, ledger: Ledger)
    requires forall i :: 0 <= i < |events| && events[i].TransactionCreated? ==> ValidTx(ledger, events[i].tx)
    ensures forall tx :: tx in TransactionsOf(events, ledger) ==> tx.Valid()
  {
    if events != [] {
      TransactionsOfValid(events[..|events| - 1], ledger);
      if events[|events| - 1].TransactionCreated? { CompleteIsValid(ledger, events[|events| - 1].tx); }
    }
  }

  // ---------------------------------------------------------------- the batch

  /** The transactions of some events, in order. */
  ghost function TxsIn(events: seq<Event>): seq<PendingTx> {
    if events == [] then []
    else TxsIn(events[..|events| - 1]) + if events[|events| - 1].TransactionCreated? then [events[|events| - 1].tx] else []
  }

  /** The entries collected for a transaction, in order. */
  ghost function EntriesIn(events: seq<Event>, tx: TransactionId): seq<EntryValues> {
    if events == [] then []
    else
      var last := events[|events| - 1];
      EntriesIn(events[..|events| - 1], tx) + if last.EntryCreated? && last.entry.transactionId == tx then [last.entry] else []
  }

  function Collected(entries: map<TransactionId, seq<EntryValues>>, tx: TransactionId): seq<EntryValues> {
    if tx in entries then entries[tx] else []
  }

  class EcRollupBatch {
    var txns: seq<PendingTx>
    var entries: map<TransactionId, seq<EntryValues>>
    /** The events collected so far. */
    ghost var events: seq<Event>

    ghost predicate Valid()
      reads this
    {
      && txns == TxsIn(events)
      && forall t :: Collected(entries, t) == EntriesIn(events, t)
    }

    constructor ()
      ensures Valid() && events == []
    {
      txns, entries, events := [], map[], [];
    }

    method PushTx(tx: PendingTx)
      requires Valid()
      modifies this
      ensures Valid() && events == old(events) + [TransactionCreated(tx)]
    {
      txns := txns + [tx];
      assert (events + [TransactionCreated(tx)])[..|events|] == events;
      events := events + [TransactionCreated(tx)];
      assert forall t :: EntriesIn(old(events), t) + [] == EntriesIn(old(events), t);
    }

    method PushEntry(entry: EntryValues)
      requires Valid()
      modifies this
      ensures Valid() && events == old(events) + [EntryCreated(entry)]
    {
      entries := entries[entry.transactionId := Collected(entries, entry.transactionId) + [entry]];
      assert (events + [EntryCreated(entry)])[..|events|] == events;
      events := events + [EntryCreated(entry)];
      assert forall t :: EntriesIn(old(events), t) + [] == EntriesIn(old(events), t);
    }

    /** Ids of entries that were not collected with their transaction. */
    method MissingEntryIds() returns (missing: set<EntryId>)
      requires Valid()
      ensures forall id :: id in missing <==> exists tx :: tx in txns && id in tx.entryIds && !IsCollected(events, tx, id)
    {
      hide IsCollected, EntriesIn;
      missing := {};
      for i := 0 to |txns|
        invariant forall id :: id in missing <==> exists tx :: tx in txns[..i] && id in tx.entryIds && !IsCollected(events, tx, id)
      {
        var tx := txns[i];
        var got := set e | e in Collected(entries, tx.id) :: e.id;
        CollectedIds(events, tx, Collected(entries, tx.id), got);
        ghost var before := missing;
        missing := missing + set id | id in tx.entryIds && id !in got;
        MissingNext(events, txns, i, before, got, missing);
      }
      assert txns[..|txns|] == txns;
    }

    /** Assemble the transactions in order: collected entries, topped up with fetched ones where the group is
        incomplete, sorted by sequence. Whatever was collected, the result is the complete transactions. */
    method IntoRollupTxns(fetched: map<EntryId, EntryValues>, ghost ledger: Ledger) returns (out: seq<Transaction>)
      requires Valid() && ValidStream(events, ledger)
      requires forall id :: id in fetched <==> exists tx :: tx in txns && id in tx.entryIds && !IsCollected(events, tx, id)
      requires forall id :: id in fetched ==> id in ledger && fetched[id] == ledger[id]
      ensures out == TransactionsOf(events, ledger)
    {
      hide ValidTx, IsCollected, TransactionsOf, Complete, PartOf, LeftFor, Taken, SortBySequence, ValidStream,
           EntriesIn, TxsIn, IdsOfEntries;
      ghost var E := events;
      TxFacts(E, ledger);
      out := [];
      var left := fetched;
      LeftStart(E, ledger, fetched);
      for i := 0 to |txns|
        invariant |out| == i
        invariant forall k :: 0 <= k < i ==> out[k] == Complete(ledger, txns[k])
        invariant forall k :: i <= k < |txns| ==> LeftFor(E, ledger, txns[k], left)
      {
        var tx := txns[i];
        var values := Collected(entries, tx.id);
        CollectedFacts(E, ledger, i);
        if |values| != |tx.entryIds| {
          TopUp(E, ledger, tx, left);
          values := values + Taken(tx.entryIds, left);
          forall k | i < k < |txns| ensures LeftFor(E, ledger, txns[k], left - Elements(tx.entryIds)) {
            LeftOthers(E, ledger, tx, txns[k], left);
          }
          left := left - (set id | id in tx.entryIds);
        } else {
          FullGroup(ledger, tx, values);
        }
        SortedGroup(ledger, tx, values);
        out := out + [Transaction(tx.journal, SortBySequence(values))];
      }
      AssembledAll(E, ledger, out);
    }
  }

  ghost predicate IsCollected(events: seq<Event>, tx: PendingTx, id: EntryId) {
    exists e :: e in EntriesIn(events, tx.id) && e.id == id
  }

  lemma CollectedIds(events: seq<Event>, tx: PendingTx, collected: seq<EntryValues>, got: set<EntryId>)
    requires collected == EntriesIn(events, tx.id) && got == set e | e in collected :: e.id
    ensures forall id :: id in got <==> IsCollected(events, tx, id)
  {
  }

  lemma MissingNext(events: seq<Event>, txns: seq<PendingTx>, i: nat, missing: set<EntryId>, got: set<EntryId>,
                    next: set<EntryId>)
    requires i < |txns| && next == missing + (set id | id in txns[i].entryIds && id !in got)
    requires forall id :: id in got <==> IsCollected(events, txns[i], id)
    requires forall id :: id in missing <==> exists tx :: tx in txns[..i] && id in tx.entryIds && !IsCollected(events, tx, id)
    ensures forall id :: id in next <==> exists tx :: tx in txns[..i + 1] && id in tx.entryIds && !IsCollected(events, tx, id)
  {
    hide IsCollected;
    assert txns[..i + 1] == txns[..i] + [txns[i]];
  }

  /** The fetched entries among `ids`, in their order. */
  function Taken(ids: seq<EntryId>, fetched: map<EntryId, EntryValues>): seq<EntryValues> {
    if ids == [] then []
    else Taken(ids[..|ids| - 1], fetched) + if ids[|ids| - 1] in fetched then [fetched[ids[|ids| - 1]]] else []
  }

  ghost function IdsOfEntries(values: seq<EntryValues>): seq<EntryId> {
    seq(|values|, i requires 0 <= i < |values| => values[i].id)
  }

  /** Entries of the transaction, as the ledger has them, none twice. */
  ghost predicate PartOf(ledger: Ledger, tx: PendingTx, values: seq<EntryValues>) {
    && Distinct(IdsOfEntries(values))
    && forall e :: e in values ==> e.id in ledger && e == ledger[e.id] && e.id in tx.entryIds
  }

  /** What is still fetched for a transaction: exactly its entries that were not collected. */
  ghost predicate LeftFor(E: seq<Event>, ledger: Ledger, tx: PendingTx, left: map<EntryId, EntryValues>) {
    forall id :: id in tx.entryIds ==>
      && (id in left <==> !IsCollected(E, tx, id))
      && (id in left ==> id in ledger && left[id] == ledger[id])
  }

  // ---------------------------------------------------------------- facts about a stretch

  lemma {:induction false} TxFacts(E: seq<Event>, ledger: Ledger)
    requires ValidStream(E, ledger)
    ensures forall tx :: tx in TxsIn(E) ==> ValidTx(ledger, tx) && TransactionCreated(tx) in E
    ensures forall i, j :: 0 <= i < j < |TxsIn(E)| ==> TxsIn(E)[i].id != TxsIn(E)[j].id
  {
    hide ValidTx;
    if E != [] {
      var front, last := E[..|E| - 1], E[|E| - 1];
      TxFacts(front, ledger);
      if last.TransactionCreated? {
        assert E[|E| - 1] == last;
        forall tx | tx in TxsIn(front) ensures tx.id != last.tx.id {
          var i :| 0 <= i < |front| && front[i] == TransactionCreated(tx);
          assert E[i] == TransactionCreated(tx);
        }
      }
      forall tx | tx in TxsIn(E) ensures TransactionCreated(tx) in E {
        if tx in TxsIn(front) { assert TransactionCreated(tx) in front; }
      }
    }
  }

  lemma {:induction false} EntriesInFacts(E: seq<Event>, ledger: Ledger, t: TransactionId)
    requires ValidStream(E, ledger)
    ensures forall e :: e in EntriesIn(E, t) ==> EntryCreated(e) in E && e.transactionId == t && e.id in ledger && e == ledger[e.id]
    ensures Distinct(IdsOfEntries(EntriesIn(E, t)))
  {
    hide ValidTx;
    if E != [] {
      var front, last := E[..|E| - 1], E[|E| - 1];
      EntriesInFacts(front, ledger, t);
      forall e | e in EntriesIn(front, t) ensures EntryCreated(e) in E && (last.EntryCreated? ==> e.id != last.entry.id) {
        var i :| 0 <= i < |front| && front[i] == EntryCreated(e);
        assert E[i] == EntryCreated(e);
      }
      assert last in E;
      var ids := IdsOfEntries(EntriesIn(front, t));
      forall i | 0 <= i < |ids| ensures last.EntryCreated? ==> ids[i] != last.entry.id {
        assert EntriesIn(front, t)[i] in EntriesIn(front, t);
      }
      assert IdsOfEntries(EntriesIn(E, t)) == ids + if last.EntryCreated? && last.entry.transactionId == t then [last.entry.id] else [];
    }
  }

  lemma CollectedFacts(E: seq<Event>, ledger: Ledger, i: nat)
    requires ValidStream(E, ledger) && i < |TxsIn(E)|
    ensures PartOf(ledger, TxsIn(E)[i], EntriesIn(E, TxsIn(E)[i].id))
  {
    hide ValidTx;
    var tx := TxsIn(E)[i];
    TxFacts(E, ledger);
    EntriesInFacts(E, ledger, tx.id);
    assert tx in TxsIn(E);
    forall e | e in EntriesIn(E, tx.id) ensures e.id in tx.entryIds {
      var k :| 0 <= k < |E| && E[k] == TransactionCreated(tx);
      var l :| 0 <= l < |E| && E[l] == EntryCreated(e);
    }
  }

  lemma LeftStart(E: seq<Event>, ledger: Ledger, fetched: map<EntryId, EntryValues>)
    requires ValidStream(E, ledger)
    requires forall id :: id in fetched <==> exists tx :: tx in TxsIn(E) && id in tx.entryIds && !IsCollected(E, tx, id)
    requires forall id :: id in fetched ==> id in ledger && fetched[id] == ledger[id]
    ensures forall k :: 0 <= k < |TxsIn(E)| ==> LeftFor(E, ledger, TxsIn(E)[k], fetched)
  {
    hide IsCollected;
    TxFacts(E, ledger);
    forall k, id | 0 <= k < |TxsIn(E)| && id in TxsIn(E)[k].entryIds ensures id in fetched <==> !IsCollected(E, TxsIn(E)[k], id) {
      if id in fetched {
        var tx :| tx in TxsIn(E) && id in tx.entryIds && !IsCollected(E, tx, id);
        assert tx.id == ledger[id].transactionId == TxsIn(E)[k].id;
      }
    }
  }

  /** Entries of different transactions are different. */
  lemma LeftOthers(E: seq<Event>, ledger: Ledger, tx: PendingTx, other: PendingTx, left: map<EntryId, EntryValues>)
    requires ValidTx(ledger, tx) && ValidTx(ledger, other) && tx.id != other.id
    requires LeftFor(E, ledger, other, left)
    ensures LeftFor(E, ledger, other, left - Elements(tx.entryIds))
  {
    hide IsCollected;
    forall id | id in other.entryIds ensures id !in Elements(tx.entryIds) {
      if id in tx.entryIds { assert ledger[id].transactionId == tx.id; }
    }
  }

  lemma {:induction false} TakenFacts(ids: seq<EntryId>, fetched: map<EntryId, EntryValues>, ledger: Ledger)
    requires Distinct(ids)
    requires forall id :: id in ids && id in fetched ==> id in ledger && fetched[id] == ledger[id] && ledger[id].id == id
    ensures forall id :: id in IdsOfEntries(Taken(ids, fetched)) <==> id in ids && id in fetched
    ensures forall e :: e in Taken(ids, fetched) ==> e.id in ids && e.id in fetched && e.id in ledger && e == ledger[e.id]
    ensures Distinct(IdsOfEntries(Taken(ids, fetched)))
  {
    if ids != [] {
      var front, last := ids[..|ids| - 1], ids[|ids| - 1];
      assert ids == front + [last];
      assert last !in front by { DistinctAt(ids, |ids| - 1); }
      TakenFacts(front, fetched, ledger);
      var a := IdsOfEntries(Taken(front, fetched));
      assert IdsOfEntries(Taken(ids, fetched)) == a + if last in fetched then [last] else [];
      assert last !in a;
    }
  }

  /** Collected and fetched entries together are the whole transaction. */
  lemma TopUp(E: seq<Event>, ledger: Ledger, tx: PendingTx, left: map<EntryId, EntryValues>)
    requires ValidTx(ledger, tx) && PartOf(ledger, tx, EntriesIn(E, tx.id)) && LeftFor(E, ledger, tx, left)
    ensures PartOf(ledger, tx, EntriesIn(E, tx.id) + Taken(tx.entryIds, left))
    ensures forall id :: id in tx.entryIds ==> id in IdsOfEntries(EntriesIn(E, tx.id) + Taken(tx.entryIds, left))
  {
    hide EntriesIn, Taken, ValidTx;
    var got, more := EntriesIn(E, tx.id), Taken(tx.entryIds, left);
    assert Distinct(tx.entryIds) && (forall id :: id in tx.entryIds && id in left ==> ledger[id].id == id) by { TxIds(ledger, tx); }
    TakenFacts(tx.entryIds, left, ledger);
    forall x, y | x in got && y in more ensures x.id != y.id { assert !IsCollected(E, tx, y.id); }
    JoinedIds(got, more);
    forall id | id in tx.entryIds ensures id in IdsOfEntries(got + more) {
      if id !in left {
        var e :| e in got && e.id == id;
        IdIsListed(got, e);
      }
    }
  }

  lemma TxIds(ledger: Ledger, tx: PendingTx)
    requires ValidTx(ledger, tx)
    ensures Distinct(tx.entryIds) && forall id :: id in tx.entryIds ==> id in ledger && ledger[id].id == id
  {
  }

  lemma IdIsListed(es: seq<EntryValues>, e: EntryValues)
    requires e in es
    ensures e.id in IdsOfEntries(es)
  {
    var i :| 0 <= i < |es| && es[i] == e;
    assert IdsOfEntries(es)[i] == e.id;
  }

  lemma JoinedIds(a: seq<EntryValues>, b: seq<EntryValues>)
    requires Distinct(IdsOfEntries(a)) && Distinct(IdsOfEntries(b)) && forall x, y :: x in a && y in b ==> x.id != y.id
    ensures IdsOfEntries(a + b) == IdsOfEntries(a) + IdsOfEntries(b) && Distinct(IdsOfEntries(a + b))
  {
    var p, q := IdsOfEntries(a), IdsOfEntries(b);
    assert IdsOfEntries(a + b) == p + q;
    forall i, j | 0 <= i < |p| && 0 <= j < |q| ensures p[i] != q[j] {
      assert a[i] in a && b[j] in b;
    }
  }

  /** As many distinct entries as the transaction has are all of them. */
  lemma FullGroup(ledger: Ledger, tx: PendingTx, values: seq<EntryValues>)
    requires ValidTx(ledger, tx) && PartOf(ledger, tx, values) && |values| == |tx.entryIds|
    ensures forall id :: id in tx.entryIds ==> id in IdsOfEntries(values)
  {
    var ids := IdsOfEntries(values);
    forall id | id in ids ensures id in tx.entryIds {
      var i :| 0 <= i < |values| && ids[i] == id;
      assert values[i] in values;
    }
    DistinctCardinality(tx.entryIds);
    DistinctWithin(ids, Elements(tx.entryIds));
    forall id | id in tx.entryIds ensures id in ids {
      assert id in Elements(ids);
    }
  }

  lemma SortedGroup(ledger: Ledger, tx: PendingTx, values: seq<EntryValues>)
    requires ValidTx(ledger, tx) && PartOf(ledger, tx, values)
    requires forall id :: id in tx.entryIds ==> id in IdsOfEntries(values)
    ensures Transaction(tx.journal, SortBySequence(values)) == Complete(ledger, tx)
  {
    var rows := Rows(ledger, tx.entryIds);
    CompleteIsValid(ledger, tx);
    forall e ensures e in values <==> e in rows {
      if e in values {
        var k :| 0 <= k < |tx.entryIds| && tx.entryIds[k] == e.id;
        assert rows[k] == e;
      }
      if e in rows {
        var k :| 0 <= k < |rows| && rows[k] == e;
        assert tx.entryIds[k] in IdsOfEntries(values);
        var i :| 0 <= i < |values| && IdsOfEntries(values)[i] == tx.entryIds[k];
        assert values[i] in values;
      }
    }
    forall i, j | 0 <= i < j < |values| ensures values[i].sequence != values[j].sequence {
      assert IdsOfEntries(values)[i] != IdsOfEntries(values)[j];
      assert values[i] in values && values[j] in values;
      var k :| 0 <= k < |tx.entryIds| && tx.entryIds[k] == values[i].id;
      var l :| 0 <= l < |tx.entryIds| && tx.entryIds[l] == values[j].id;
    }
    SortIgnoresOrder(values, rows);
  }

  lemma {:induction false} AssembledAll(E: seq<Event>, ledger: Ledger, out: seq<Transaction>)
    requires ValidStream(E, ledger) && |out| == |TxsIn(E)|
    requires forall tx :: tx in TxsIn(E) ==> ValidTx(ledger, tx)
    requires forall k :: 0 <= k < |out| ==> out[k] == Complete(ledger, TxsIn(E)[k])
    ensures out == TransactionsOf(E, ledger)
  {
    hide ValidTx, Complete;
    if E != [] {
      var front, last := E[..|E| - 1], E[|E| - 1];
      var n := |TxsIn(front)|;
      if last.TransactionCreated? {
        assert TxsIn(E) == TxsIn(front) + [last.tx] && out == out[..n] + [out[n]];
        AssembledFront(E, ledger, n);
        AssembledAll(front, ledger, out[..n]);
      } else {
        assert TxsIn(E) == TxsIn(front);
        AssembledAll(front, ledger, out);
      }
    }
  }

  lemma AssembledFront(E: seq<Event>, ledger: Ledger, n: nat)
    requires E != [] && E[|E| - 1].TransactionCreated? && n == |TxsIn(E[..|E| - 1])|
    requires forall tx :: tx in TxsIn(E) ==> ValidTx(ledger, tx)
    ensures TxsIn(E) == TxsIn(E[..|E| - 1]) + [E[|E| - 1].tx]
    ensures forall tx :: tx in TxsIn(E[..|E| - 1]) ==> ValidTx(ledger, tx)
    ensures forall k :: 0 <= k < n ==> TxsIn(E)[k] == TxsIn(E[..|E| - 1])[k]
  {
    hide ValidTx;
  }

  // ---------------------------------------------------------------- one flush

  /** Load what is missing, assemble, apply. The balances move by exactly the transactions of the batch. */
  method Flush(batch: EcRollupBatch, tables: BalanceTables, ledger: Ledger, ecMappings: AncestorMappings,
               ecLeaves: set<AccountId>, chunkSize: nat)
    requires batch.Valid() && ValidStream(batch.events, ledger)
    requires chunkSize > 0 && Filed(tables.current)
    modifies tables
    ensures Filed(tables.current)
    ensures forall id :: Lookup(tables.current, id) ==
              RolledUp(Lookup(old(tables.current), id), TransactionsOf(batch.events, ledger), ecMappings, ecLeaves, id)
  {
    hide Lookup, RolledUp, Filed, TransactionsOf;
    var missing := batch.MissingEntryIds();
    MissingInLedger(batch.events, ledger, missing);
    var fetched := map id | id in missing && id in ledger :: ledger[id];
    var txs := batch.IntoRollupTxns(fetched, ledger);
    TransactionsOfValid(batch.events, ledger);
    ApplyEcRollup(tables, txs, ecMappings, ecLeaves, chunkSize);
  }

  lemma MissingInLedger(E: seq<Event>, ledger: Ledger, missing: set<EntryId>)
    requires ValidStream(E, ledger)
    requires forall id :: id in missing <==> exists tx :: tx in TxsIn(E) && id in tx.entryIds && !IsCollected(E, tx, id)
    ensures missing <= ledger.Keys
  {
    hide IsCollected;
    TxFacts(E, ledger);
  }

  // ---------------------------------------------------------------- ancestors that change between flushes

  /** Every account has, in the journals it has entries in, the same ancestors in both mappings, in any order. */
  ghost predicate SameAncestors(m: AncestorMappings, n: AncestorMappings, txs: seq<Transaction>) {
    forall tx, e :: tx in txs && e in tx.entries ==>
      multiset(SetsOf(MappingsOf(m, tx.journal), e.accountId)) == multiset(SetsOf(MappingsOf(n, tx.journal), e.accountId))
  }

  ghost function Repeated(e: EntryValues, n: nat): seq<EntryValues> {
    seq(n, i => e)
  }

  /** One entry reaches a key as often as the key's account is fanned out to. */
  lemma {:induction false} FanCount(fan: seq<AccountId>, e: EntryValues, k: Key)
    ensures EntriesFor(seq(|fan|, i requires 0 <= i < |fan| => Touch(fan[i], e)), k) ==
            Repeated(e, if e.currency == k.currency then multiset(fan)[k.account] else 0)
  {
    var touches := seq(|fan|, i requires 0 <= i < |fan| => Touch(fan[i], e));
    if fan != [] {
      var n := |fan| - 1;
      assert touches[..n] == seq(n, i requires 0 <= i < n => Touch(fan[..n][i], e));
      FanCount(fan[..n], e, k);
      assert fan == fan[..n] + [fan[n]];
    }
  }

  lemma {:induction false} SameAncestorsSameEntries(m: Mappings, n: Mappings, leaves: iset<AccountId>,
                                                    es: seq<EntryValues>, k: Key)
    requires forall e :: e in es ==> multiset(SetsOf(m, e.accountId)) == multiset(SetsOf(n, e.accountId))
    ensures EntriesFor(TouchesOf(m, leaves, es), k) == EntriesFor(TouchesOf(n, leaves, es), k)
  {
    if es != [] {
      var front, last := es[..|es| - 1], es[|es| - 1];
      SameAncestorsSameEntries(m, n, leaves, front, k);
      assert last in es;
      FanCount(FanOut(m, leaves, last), last, k);
      FanCount(FanOut(n, leaves, last), last, k);
      EntriesForConcat(TouchesOf(m, leaves, front), TouchesOfEntry(m, leaves, last), k);
      EntriesForConcat(TouchesOf(n, leaves, front), TouchesOfEntry(n, leaves, last), k);
    }
  }

  lemma {:induction false} JournalEntryMember(txs: seq<Transaction>, journal: JournalId, e: EntryValues)
    requires e in JournalEntries(txs, journal)
    ensures exists tx :: tx in txs && tx.journal == journal && e in tx.entries
  {
    var n := |txs| - 1;
    if e in JournalEntries(txs[..n], journal) {
      JournalEntryMember(txs[..n], journal, e);
    } else {
      assert txs[n] in txs;
    }
  }

  /** Transactions are folded the same way under either mapping. */
  lemma SameAncestorsSameBalance(base: Option<BalanceSnapshot>, txs: seq<Transaction>, m: AncestorMappings,
                                 n: AncestorMappings, ecLeaves: set<AccountId>, id: BalanceId)
    requires SameAncestors(m, n, txs)
    ensures RolledUp(base, txs, m, ecLeaves, id) == RolledUp(base, txs, n, ecLeaves, id)
  {
    var es := JournalEntries(txs, id.journal);
    forall e | e in es
      ensures multiset(SetsOf(MappingsOf(m, id.journal), e.accountId)) == multiset(SetsOf(MappingsOf(n, id.journal), e.accountId))
    {
      JournalEntryMember(txs, id.journal, e);
    }
    SameAncestorsSameEntries(MappingsOf(m, id.journal), MappingsOf(n, id.journal), AsLeaves(ecLeaves), es, id.AsKey());
  }

  // ---------------------------------------------------------------- runs

  /** The stream up to `checkpoint` is applied; up to `position` it is collected but pending. `mappings` holds the
      ancestors as memberships stand; a flush reads them. */
  datatype State = State(checkpoint: nat, position: nat, mappings: AncestorMappings, balances: Table)

  datatype Step = Collect | Land(after: Table) | Crash | Regroup(mappings: AncestorMappings)

  /** The transactions of a prefix of the stream. */
  ghost function Prefix(stream: seq<Event>, ledger: Ledger, n: nat): seq<Transaction>
    requires ValidStream(stream, ledger) && n <= |stream|
  {
    TransactionsOf(stream[..n], ledger)
  }

  /** A flush and its checkpoint commit together; a crash forgets what was pending. Memberships change at any time,
      but an account with a posted entry keeps its ancestors in that journal: the attach guard refuses it. */
  ghost predicate NextStep(stream: seq<Event>, ledger: Ledger, ecLeaves: set<AccountId>, s: State, t: State, step: Step)
    requires ValidStream(stream, ledger)
  {
    && s.checkpoint <= s.position <= |stream|
    && match step
       case Collect => s.position < |stream| && t == s.(position := s.position + 1)
       case Land(after) =>
         && (forall id :: Lookup(after, id) ==
               RolledUp(Lookup(s.balances, id), TransactionsOf(stream[s.checkpoint..s.position], ledger), s.mappings, ecLeaves, id))
         && t == s.(checkpoint := s.position, balances := after)
       case Crash => t == s.(position := s.checkpoint)
       case Regroup(mappings) =>
         && SameAncestors(s.mappings, mappings, Prefix(stream, ledger, s.position))
         && t == s.(mappings := mappings)
  }

  ghost predicate Next(stream: seq<Event>, ledger: Ledger, ecLeaves: set<AccountId>, s: State, t: State)
    requires ValidStream(stream, ledger)
  {
    exists step :: NextStep(stream, ledger, ecLeaves, s, t, step)
  }

  ghost predicate IsRun(stream: seq<Event>, ledger: Ledger, ecLeaves: set<AccountId>, run: seq<State>)
    requires ValidStream(stream, ledger)
  {
    && run != [] && run[0] == State(0, 0, run[0].mappings, map[])
    && forall i :: 0 <= i < |run| - 1 ==> Next(stream, ledger, ecLeaves, run[i], run[i + 1])
  }

  /** However the stream is cut, wherever crashes happen and whatever memberships change in between, the balances at
      checkpoint `p` are one fold of exactly the transactions among the first `p` events, each applied once with its
      complete entry set in sequence order, along the ancestors its accounts have now. */
  lemma {:induction false} CheckpointBalances(stream: seq<Event>, ledger: Ledger, ecLeaves: set<AccountId>,
                                              run: seq<State>, k: nat, id: BalanceId)
    requires ValidStream(stream, ledger) && IsRun(stream, ledger, ecLeaves, run) && k < |run|
    ensures run[k].checkpoint <= run[k].position <= |stream|
    ensures Lookup(run[k].balances, id) ==
            RolledUp(None, Prefix(stream, ledger, run[k].checkpoint), run[k].mappings, ecLeaves, id)
  {
    hide RolledUp, Lookup, ValidTx, TransactionsOf, SameAncestors;
    if k == 0 {
      NothingApplied(stream, ledger, run[0].mappings, ecLeaves, id);
    } else {
      var s, t := run[k - 1], run[k];
      CheckpointBalances(stream, ledger, ecLeaves, run, k - 1, id);
      assert Next(stream, ledger, ecLeaves, run[k - 1], run[k - 1 + 1]);
      var step :| NextStep(stream, ledger, ecLeaves, s, t, step);
      if step.Land? {
        LandAppends(stream, ledger, s.checkpoint, s.position);
        RolledUpConcat(None, Prefix(stream, ledger, s.checkpoint), TransactionsOf(stream[s.checkpoint..s.position], ledger),
                       s.mappings, ecLeaves, id);
      } else if step.Regroup? {
        RegroupKeeps(stream, ledger, s.checkpoint, s.position, s.mappings, t.mappings);
        SameAncestorsSameBalance(None, Prefix(stream, ledger, s.checkpoint), s.mappings, t.mappings, ecLeaves, id);
      }
    }
  }

  lemma LandAppends(stream: seq<Event>, ledger: Ledger, from: nat, to: nat)
    requires ValidStream(stream, ledger) && from <= to <= |stream|
    ensures Prefix(stream, ledger, to) == Prefix(stream, ledger, from) + TransactionsOf(stream[from..to], ledger)
  {
    hide ValidTx, TransactionsOf;
    var a: seq<Event>, b: seq<Event> := stream[..from], stream[from..to];
    assert stream[..to] == a + b;
    forall i | 0 <= i < |a + b| && (a + b)[i].TransactionCreated? ensures ValidTx(ledger, (a + b)[i].tx) {
      assert (a + b)[i] == stream[i];
    }
    TransactionsOfConcat(a, b, ledger);
  }

  lemma RegroupKeeps(stream: seq<Event>, ledger: Ledger, from: nat, to: nat, m: AncestorMappings, n: AncestorMappings)
    requires ValidStream(stream, ledger) && from <= to <= |stream| && SameAncestors(m, n, Prefix(stream, ledger, to))
    ensures SameAncestors(m, n, Prefix(stream, ledger, from))
  {
    hide ValidTx, TransactionsOf, ValidStream, Prefix;
    LandAppends(stream, ledger, from, to);
  }

  lemma NothingApplied(stream: seq<Event>, ledger: Ledger, mappings: AncestorMappings, ecLeaves: set<AccountId>,
                       id: BalanceId)
    requires ValidStream(stream, ledger)
    ensures Lookup(map[], id) == RolledUp(None, Prefix(stream, ledger, 0), mappings, ecLeaves, id)
  {
    assert stream[..0] == [];
  }

  lemma RolledUpConcat(base: Option<BalanceSnapshot>, a: seq<Transaction>, b: seq<Transaction>,
                       mappings: AncestorMappings, ecLeaves: set<AccountId>, id: BalanceId)
    ensures RolledUp(base, a + b, mappings, ecLeaves, id) ==
              RolledUp(RolledUp(base, a, mappings, ecLeaves, id), b, mappings, ecLeaves, id)
  {
    BatchIsSequential(base, a, b, mappings, AsLeaves(ecLeaves), id);
  }

  /** Two runs over the same stream agree wherever their checkpoints agree, provided the accounts of the applied
      transactions have the same ancestors in both. */
  lemma CutsDoNotMatter(stream: seq<Event>, ledger: Ledger, ecLeaves: set<AccountId>,
                        run: seq<State>, k: nat, other: seq<State>, l: nat, id: BalanceId)
    requires ValidStream(stream, ledger)
    requires IsRun(stream, ledger, ecLeaves, run) && k < |run|
    requires IsRun(stream, ledger, ecLeaves, other) && l < |other|
    requires run[k].checkpoint == other[l].checkpoint <= |stream|
    requires SameAncestors(run[k].mappings, other[l].mappings, Prefix(stream, ledger, run[k].checkpoint))
    ensures Lookup(run[k].balances, id) == Lookup(other[l].balances, id)
  {
    CheckpointBalances(stream, ledger, ecLeaves, run, k, id);
    CheckpointBalances(stream, ledger, ecLeaves, other, l, id);
    SameAncestorsSameBalance(None, Prefix(stream, ledger, run[k].checkpoint), run[k].mappings, other[l].mappings, ecLeaves, id);
  }
}
