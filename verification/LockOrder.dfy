/** The order in which posters take balance locks, and why no set of posters can wait for one another in a circle. */
module LockOrder {
  import opened Primitives
  import opened Distinctness
  import opened Ordering
  import Expansion

  type OpId = nat

  /** The exclusive lock of one balance. A set's balance is locked under the set's account id. */
  datatype LockKey = LockKey(journal: JournalId, account: AccountId, currency: Currency)

  /** Order of the entry phase: account, currency, journal. */
  predicate EntryLess(x: LockKey, y: LockKey) {
    x.account < y.account ||
    (x.account == y.account && (x.currency < y.currency || (x.currency == y.currency && x.journal < y.journal)))
  }

  /** Order of the ancestor phase: journal by journal, within a journal by set and currency. */
  predicate AncestorLess(x: LockKey, y: LockKey) {
    x.journal < y.journal ||
    (x.journal == y.journal && (x.account < y.account || (x.account == y.account && x.currency < y.currency)))
  }

  /** Account sets are accounts with these identifiers. */
  type Sets = iset<AccountSetId>

  /** One order for both phases: balances of plain accounts before balances of sets. */
  ghost predicate Less(sets: Sets, x: LockKey, y: LockKey) {
    if x.account in sets then y.account in sets && AncestorLess(x, y)
    else y.account in sets || EntryLess(x, y)
  }

  // ---------------------------------------------------------------- building the lock lists

  /** The triples a flow locks, kept as three parallel lists. */
  class BalanceKeys {
    var journalIds: seq<JournalId>
    var accountIds: seq<AccountId>
    var currencies: seq<Currency>

    ghost predicate Valid()
      reads this
    {
      |journalIds| == |accountIds| == |currencies|
    }

    ghost function Triples(): seq<LockKey>
      reads this
      requires Valid()
    {
      seq(|accountIds|, i requires 0 <= i < |accountIds| && Valid() reads this => LockKey(journalIds[i], accountIds[i], currencies[i]))
    }

    constructor ()
      ensures Valid() && Triples() == []
    {
      journalIds, accountIds, currencies := [], [], [];
    }

    method Push(journal: JournalId, account: AccountId, currency: Currency)
      requires Valid()
      modifies this
      ensures Valid() && Triples() == old(Triples()) + [LockKey(journal, account, currency)]
    {
      journalIds := journalIds + [journal];
      accountIds := accountIds + [account];
      currencies := currencies + [currency];
    }

    /** Drain into a fresh list: the same triples, each once, in the canonical order. */
    method SortedDeduped() returns (sorted: BalanceKeys)
      requires Valid()
      modifies this
      ensures fresh(sorted) && sorted.Valid() && Valid() && Triples() == []
      ensures Ascending(EntryLess, sorted.Triples())
      ensures forall k :: k in sorted.Triples() <==> k in old(Triples())
    {
      ghost var all := Triples();
      var js, accounts, cs := journalIds, accountIds, currencies;
      var triples: seq<LockKey> := seq(|accounts|, i requires 0 <= i < |accounts| => LockKey(js[i], accounts[i], cs[i]));
      assert triples == all;
      journalIds, accountIds, currencies := [], [], [];
      var ordered := Ordering.SortedDeduped<LockKey>(EntryLess, triples);
      sorted := new BalanceKeys();
      for i := 0 to |ordered|
        invariant fresh(sorted) && sorted.Valid() && sorted.Triples() == ordered[..i]
        invariant Valid() && Triples() == []
      {
        sorted.Push(ordered[i].journal, ordered[i].account, ordered[i].currency);
        assert ordered[..i + 1] == ordered[..i] + [ordered[i]];
      }
      assert ordered[..|ordered|] == ordered;
    }
  }

  /** The exclusive locks of the entry phase, in the order the statement takes them: accounts that exist and are
      maintained inline. (The shared locks taken alongside never make a poster wait for a poster.) */
  method EntryLocks(keys: BalanceKeys, eventuallyConsistent: map<AccountId, bool>) returns (locks: seq<LockKey>)
    requires keys.Valid() && Ascending(EntryLess, keys.Triples())
    ensures Ascending(EntryLess, locks)
    ensures forall k :: k in locks <==> k in keys.Triples() && k.account in eventuallyConsistent && !eventuallyConsistent[k.account]
  {
    locks := [];
    for i := 0 to |keys.accountIds|
      invariant Ascending(EntryLess, locks)
      invariant forall k :: k in locks <==> k in keys.Triples()[..i] && k.account in eventuallyConsistent && !eventuallyConsistent[k.account]
    {
      var k := LockKey(keys.journalIds[i], keys.accountIds[i], keys.currencies[i]);
      assert k == keys.Triples()[i];
      assert keys.Triples()[..i + 1] == keys.Triples()[..i] + [k];
      if k.account in eventuallyConsistent && !eventuallyConsistent[k.account] {
        locks := locks + [k];
      }
    }
    assert keys.Triples()[..|keys.accountIds|] == keys.Triples();
  }

  predicate IdLess(x: nat, y: nat) {
    x < y
  }

  /** The locks of the ancestor phase: per journal, in ascending order, the resolved pairs. */
  method AncestorLocks(journals: seq<JournalId>, resolved: map<JournalId, seq<Expansion.LockPair>>)
    returns (locks: seq<LockKey>)
    requires forall j :: j in resolved ==> Ascending(Expansion.LockPairLess, resolved[j])
    ensures Ascending(AncestorLess, locks)
    ensures forall k :: k in locks <==>
              k.journal in journals && k.journal in resolved && Expansion.LockPair(k.account, k.currency) in resolved[k.journal]
  {
    var sorted := Ordering.SortedDeduped<JournalId>(IdLess, journals);
    locks := [];
    for i := 0 to |sorted|
      invariant Ascending(AncestorLess, locks)
      invariant forall k :: k in locks <==>
                  k.journal in sorted[..i] && k.journal in resolved && Expansion.LockPair(k.account, k.currency) in resolved[k.journal]
    {
      assert sorted[..i + 1] == sorted[..i] + [sorted[i]];
      if sorted[i] in resolved {
        var batch := JournalLocks(sorted[i], resolved[sorted[i]]);
        forall a, b | a in locks && b in batch ensures AncestorLess(a, b) {
          assert a.journal in sorted[..i];
        }
        JoinAscending(locks, batch);
        locks := locks + batch;
      }
    }
    assert sorted[..|sorted|] == sorted;
  }

  lemma JoinAscending(a: seq<LockKey>, b: seq<LockKey>)
    requires Ascending(AncestorLess, a) && Ascending(AncestorLess, b) && forall x, y :: x in a && y in b ==>
               AncestorLess(x, y)
    ensures Ascending(AncestorLess, a + b)
  {
    hide AncestorLess;
  }

  method JournalLocks(journal: JournalId, pairs: seq<Expansion.LockPair>) returns (locks: seq<LockKey>)
    requires Ascending(Expansion.LockPairLess, pairs)
    ensures Ascending(AncestorLess, locks)
    ensures forall k :: k in locks <==> k.journal == journal && Expansion.LockPair(k.account, k.currency) in pairs
  {
    locks := seq(|pairs|, i requires 0 <= i < |pairs| => LockKey(journal, pairs[i].setId, pairs[i].currency));
    forall k ensures k in locks <==> k.journal == journal && Expansion.LockPair(k.account, k.currency) in pairs {
      if k.journal == journal && Expansion.LockPair(k.account, k.currency) in pairs {
        var i :| 0 <= i < |pairs| && pairs[i] == Expansion.LockPair(k.account, k.currency);
        assert locks[i] == k;
      }
    }
  }

  /** Entry locks on plain accounts followed by ancestor locks on sets are ascending in the common order. */
  lemma ProgramAscends(sets: Sets, entry: seq<LockKey>, ancestors: seq<LockKey>)
    requires Ascending(EntryLess, entry) && Ascending(AncestorLess, ancestors)
    requires forall k :: k in entry ==> k.account !in sets
    requires forall k :: k in ancestors ==> k.account in sets
    ensures AscendingProgram(sets, entry + ancestors)
  {
    var all := entry + ancestors;
    forall i, j | 0 <= i < j < |all| ensures Less(sets, all[i], all[j]) {
      assert i < |entry| ==> all[i] in entry;
      assert i >= |entry| ==> all[i] in ancestors;
      assert j < |entry| ==> all[j] in entry;
      assert j >= |entry| ==> all[j] in ancestors;
    }
  }

  ghost predicate AscendingProgram(sets: Sets, locks: seq<LockKey>) {
    forall i, j :: 0 <= i < j < |locks| ==> Less(sets, locks[i], locks[j])
  }

  // ---------------------------------------------------------------- posters as a step system

  /** A batch: the locks of its entry phase, then, once it has read the memberships, those of its ancestor phase. */
  datatype Batch = Batch(entry: seq<LockKey>, ancestors: Option<seq<LockKey>>, taken: nat) {
    function Program(): seq<LockKey> {
      if ancestors.Some? then entry + ancestors.value else entry
    }

    ghost predicate Holds(k: LockKey) {
      taken <= |Program()| && k in Program()[..taken]
    }

    predicate Wants() {
      taken < |Program()|
    }

    function Next(): LockKey
      requires Wants()
    {
      Program()[taken]
    }
  }

  type State = map<OpId, Batch>

  datatype Step =
    | Begin(id: OpId, entry: seq<LockKey>)
    | Take(id: OpId)
    | Resolve(id: OpId, ancestors: seq<LockKey>)
    | Finish(id: OpId)

  ghost predicate WaitsFor(s: State, a: OpId, b: OpId) {
    a in s && b in s && a != b && s[a].Wants() && s[b].Holds(s[a].Next())
  }

  /** A batch that can move: it has all locks it asked for, or the next one is free. */
  ghost predicate CanMove(s: State, a: OpId) {
    a in s && forall b :: !WaitsFor(s, a, b)
  }

  /** No entry targets a set. */
  ghost predicate TargetsPlain(sets: Sets, entry: seq<LockKey>) {
    forall k :: k in entry ==> k.account !in sets
  }

  /** A batch with an entry on a set is rejected after its entry locks were taken, before ancestors are resolved. */
  ghost predicate NextStep(sets: Sets, s: State, t: State, step: Step) {
    match step
    case Begin(id, entry) =>
      id !in s && Ascending(EntryLess, entry) && t == s[id := Batch(entry, None, 0)]
    case Take(id) =>
      CanMove(s, id) && s[id].Wants() && t == s[id := s[id].(taken := s[id].taken + 1)]
    case Resolve(id, ancestors) =>
      && id in s && !s[id].Wants() && s[id].ancestors.None? && TargetsPlain(sets, s[id].entry)
      && Ascending(AncestorLess, ancestors) && (forall k :: k in ancestors ==> k.account in sets)
      && t == s[id := s[id].(ancestors := Some(ancestors))]
    case Finish(id) =>
      id in s && t == s - {id}
  }

  ghost predicate Next(sets: Sets, s: State, t: State, step: Step) {
    NextStep(sets, s, t, step)
  }

  /** The entry lists batches come with. */
  type Workload = iset<seq<LockKey>>

  ghost predicate AdmittedStep(w: Workload, step: Step) {
    step.Begin? ==> step.entry in w
  }

  ghost predicate IsRun(sets: Sets, run: seq<State>, steps: seq<Step>) {
    && |run| == |steps| + 1 && run[0] == map[]
    && forall i :: 0 <= i < |steps| ==> Next(sets, run[i], run[i + 1], steps[i])
  }

  ghost predicate Admitted(w: Workload, steps: seq<Step>) {
    forall i :: 0 <= i < |steps| ==> AdmittedStep(w, steps[i])
  }

  ghost predicate AllAscend(sets: Sets, w: Workload) {
    forall entry :: entry in w ==> AscendingProgram(sets, entry)
  }

  // ---------------------------------------------------------------- the invariant

  ghost predicate BatchOk(sets: Sets, b: Batch) {
    && b.taken <= |b.Program()| && AscendingProgram(sets, b.Program())
    && Ascending(EntryLess, b.entry)
  }

  ghost predicate Exclusive(s: State) {
    forall a, b, k :: a in s && b in s && a != b && s[a].Holds(k) ==> !s[b].Holds(k)
  }

  ghost predicate Inv(sets: Sets, s: State) {
    Exclusive(s) && forall a :: a in s ==> BatchOk(sets, s[a])
  }

  lemma ExclusiveStep(sets: Sets, s: State, t: State, step: Step)
    requires Inv(sets, s) && Next(sets, s, t, step)
    ensures Exclusive(t)
  {
    hide Inv, Batch.Holds;
    forall a, b, k | a in t && b in t && a != b && t[a].Holds(k) ensures !t[b].Holds(k) {
      NotBoth(sets, s, t, step, a, b, k);
    }
  }

  /** No step gives two batches the same lock. */
  lemma NotBoth(sets: Sets, s: State, t: State, step: Step, a: OpId, b: OpId, k: LockKey)
    requires Inv(sets, s) && Next(sets, s, t, step)
    requires a in t && b in t && a != b
    ensures t[a].Holds(k) ==> !t[b].Holds(k)
  {
    hide BatchOk, Batch.Holds, Batch.Program;
    HeldBefore(sets, s, t, step, a, k);
    HeldBefore(sets, s, t, step, b, k);
    assert step == Take(a) ==> !WaitsFor(s, a, b);
    assert step == Take(b) ==> !WaitsFor(s, b, a);
  }

  /** A lock held after a step was held before, or is the one just taken. */
  lemma HeldBefore(sets: Sets, s: State, t: State, step: Step, a: OpId, k: LockKey)
    requires Inv(sets, s) && Next(sets, s, t, step) && a in t
    ensures t[a].Holds(k) ==> a in s && (s[a].Holds(k) || (step == Take(a) && s[a].Wants() && k == s[a].Next()))
  {
    hide AscendingProgram, Exclusive, Ascending, TargetsPlain, WaitsFor, Batch.Holds, Batch.Program;
    if step.Begin? && a == step.id { HoldsNothing(step.entry, k); }
    if step == Take(a) { HoldsOneMore(s[a], k); }
    if step.Resolve? && a == step.id { HoldsTheSame(s[a], step.ancestors, k); }
  }

  lemma HoldsNothing(entry: seq<LockKey>, k: LockKey)
    ensures !Batch(entry, None, 0).Holds(k)
  {
  }

  lemma HoldsOneMore(b: Batch, k: LockKey)
    requires b.Wants()
    ensures b.(taken := b.taken + 1).Holds(k) ==> b.Holds(k) || k == b.Next()
  {
    assert b.Program()[..b.taken + 1] == b.Program()[..b.taken] + [b.Next()];
  }

  lemma HoldsTheSame(b: Batch, ancestors: seq<LockKey>, k: LockKey)
    requires b.ancestors.None? && b.taken <= |b.Program()|
    ensures b.(ancestors := Some(ancestors)).Holds(k) ==> b.Holds(k)
  {
    assert (b.entry + ancestors)[..b.taken] == b.entry[..b.taken];
  }

  lemma BatchStep(sets: Sets, w: Workload, s: State, t: State, step: Step, a: OpId)
    requires Inv(sets, s) && Next(sets, s, t, step) && AllAscend(sets, w) && AdmittedStep(w, step) && a in t
    ensures BatchOk(sets, t[a])
  {
    hide Exclusive, Less;
    if step.Resolve? && a == step.id {
      ProgramAscends(sets, s[a].entry, step.ancestors);
    }
  }

  lemma {:induction false} InvRun(sets: Sets, w: Workload, run: seq<State>, steps: seq<Step>, k: nat)
    requires IsRun(sets, run, steps) && Admitted(w, steps) && AllAscend(sets, w) && k < |run|
    ensures Inv(sets, run[k])
  {
    hide Next, BatchOk, AllAscend;
    if k > 0 {
      InvRun(sets, w, run, steps, k - 1);
      assert Next(sets, run[k - 1], run[k - 1 + 1], steps[k - 1]) && AdmittedStep(w, steps[k - 1]);
      ExclusiveStep(sets, run[k - 1], run[k], steps[k - 1]);
      forall a | a in run[k] ensures BatchOk(sets, run[k][a]) {
        BatchStep(sets, w, run[k - 1], run[k], steps[k - 1], a);
      }
    }
  }

  // ---------------------------------------------------------------- no circle of waiting posters

  /** Whoever holds the lock a batch waits for, itself waits only for a greater one. */
  lemma WaitAscends(sets: Sets, s: State, a: OpId, b: OpId)
    requires Inv(sets, s) && WaitsFor(s, a, b) && s[b].Wants()
    ensures Less(sets, s[a].Next(), s[b].Next())
  {
    hide Less;
    assert BatchOk(sets, s[b]);
    var i :| 0 <= i < s[b].taken && s[b].Program()[i] == s[a].Next();
  }

  lemma LessTransitive(sets: Sets, x: LockKey, y: LockKey, z: LockKey)
    requires Less(sets, x, y) && Less(sets, y, z)
    ensures Less(sets, x, z) && !Less(sets, y, x)
  {
  }

  /** Each waits for the one after it. */
  ghost predicate Chain(s: State, c: seq<OpId>) {
    forall i :: 0 <= i < |c| - 1 ==> WaitsFor(s, c[i], c[i + 1])
  }

  lemma {:induction false} ChainAscends(sets: Sets, s: State, c: seq<OpId>)
    requires Inv(sets, s) && Chain(s, c) && |c| >= 2 && c[|c| - 1] in s && s[c[|c| - 1]].Wants()
    ensures c[0] in s && s[c[0]].Wants() && Less(sets, s[c[0]].Next(), s[c[|c| - 1]].Next())
  {
    hide Inv, Less;
    var n := |c| - 1;
    assert WaitsFor(s, c[n - 1], c[n - 1 + 1]);
    WaitAscends(sets, s, c[n - 1], c[n]);
    if n > 1 {
      assert Chain(s, c[..n]) by {
        forall i | 0 <= i < n - 1 ensures WaitsFor(s, c[..n][i], c[..n][i + 1]) { assert WaitsFor(s, c[i], c[i + 1]); }
      }
      ChainAscends(sets, s, c[..n]);
      LessTransitive(sets, s[c[0]].Next(), s[c[n - 1]].Next(), s[c[n]].Next());
    }
  }

  /** The waits-for relation has no circle. */
  lemma NoCircle(sets: Sets, s: State, c: seq<OpId>)
    requires Inv(sets, s) && Chain(s, c) && |c| >= 2
    ensures c[0] != c[|c| - 1]
  {
    assert WaitsFor(s, c[0], c[0 + 1]);
    if c[0] == c[|c| - 1] {
      ChainAscends(sets, s, c);
      LessIrreflexive(sets, s[c[0]].Next());
    }
  }

  lemma LessIrreflexive(sets: Sets, x: LockKey)
    ensures !Less(sets, x, x)
  {
  }

  /** Following waits-for from a batch leads, in finitely many steps, to a batch that can move. */
  lemma {:induction false} SomeoneMoves(sets: Sets, s: State, c: seq<OpId>, left: set<OpId>)
    returns (a: OpId)
    requires Inv(sets, s) && Chain(s, c) && c != [] && c[|c| - 1] in s
    requires left == s.Keys - Elements(c)
    ensures CanMove(s, a)
    decreases |left|
  {
    hide Inv, Chain, WaitsFor;
    var last := c[|c| - 1];
    if CanMove(s, last) {
      a := last;
    } else {
      var b :| WaitsFor(s, last, b);
      var longer := c + [b];
      ChainSnoc(s, c, b);
      NotYetVisited(sets, s, longer);
      assert Elements(longer) == Elements(c) + {b};
      assert b in s by { WaiterIsThere(s, last, b); }
      assert longer[..|longer| - 1] == c && b in left;
      SubsetCardinality(left - {b}, left);
      a := SomeoneMoves(sets, s, longer, left - {b});
    }
  }

  lemma WaiterIsThere(s: State, a: OpId, b: OpId)
    requires WaitsFor(s, a, b)
    ensures b in s
  {
  }

  lemma ChainSnoc(s: State, c: seq<OpId>, b: OpId)
    requires Chain(s, c) && c != [] && WaitsFor(s, c[|c| - 1], b)
    ensures Chain(s, c + [b])
  {
    hide WaitsFor;
    var longer := c + [b];
    forall i | 0 <= i < |longer| - 1 ensures WaitsFor(s, longer[i], longer[i + 1]) {
      if i < |c| - 1 { assert WaitsFor(s, c[i], c[i + 1]); }
    }
  }

  lemma NotYetVisited(sets: Sets, s: State, c: seq<OpId>)
    requires Inv(sets, s) && Chain(s, c) && |c| >= 2
    ensures c[|c| - 1] !in c[..|c| - 1]
  {
    hide Inv;
    forall i | 0 <= i < |c| - 1 ensures c[i] != c[|c| - 1] {
      var tail := c[i..];
      assert Chain(s, tail) by {
        forall l | 0 <= l < |tail| - 1 ensures WaitsFor(s, tail[l], tail[l + 1]) { assert WaitsFor(s, c[i + l], c[i + l + 1]); }
      }
      NoCircle(sets, s, tail);
    }
  }

  /** Each batch of `c` waits for the next, and the last is the first. */
  ghost predicate Circle(s: State, c: seq<OpId>) {
    Chain(s, c) && |c| >= 2 && c[0] == c[|c| - 1]
  }

  /** In every reachable state of batches whose entry locks ascend, nobody waits in a circle, and while a batch is
      unfinished some batch can move. */
  lemma NeverDeadlocked(sets: Sets, w: Workload, run: seq<State>, steps: seq<Step>, k: nat, c: seq<OpId>)
    returns (mover: OpId)
    requires IsRun(sets, run, steps) && Admitted(w, steps) && AllAscend(sets, w) && k < |run|
    ensures !Circle(run[k], c)
    ensures run[k] != map[] ==> CanMove(run[k], mover)
  {
    hide Inv, IsRun, Admitted, AllAscend, Chain, CanMove;
    InvRun(sets, w, run, steps, k);
    if Chain(run[k], c) && |c| >= 2 { NoCircle(sets, run[k], c); }
    mover := 0;
    if run[k] != map[] {
      var a :| a in run[k];
      mover := Start(sets, run[k], a);
    }
  }

  lemma Start(sets: Sets, s: State, a: OpId) returns (mover: OpId)
    requires Inv(sets, s) && a in s
    ensures CanMove(s, mover)
  {
    hide Inv, CanMove;
    mover := SomeoneMoves(sets, s, [a], s.Keys - Elements([a]));
  }

  /** Entries on plain accounts ascend. */
  lemma PlainAscends(sets: Sets, entry: seq<LockKey>)
    requires Ascending(EntryLess, entry) && TargetsPlain(sets, entry)
    ensures AscendingProgram(sets, entry)
  {
    ProgramAscends(sets, entry, []);
    assert entry + [] == entry;
  }

  // ---------------------------------------------------------------- the condition is needed

  lemma Extend(sets: Sets, w: Workload, run: seq<State>, steps: seq<Step>, t: State, step: Step)
    requires IsRun(sets, run, steps) && Admitted(w, steps)
    requires Next(sets, run[|steps|], t, step) && AdmittedStep(w, step)
    ensures IsRun(sets, run + [t], steps + [step]) && Admitted(w, steps + [step])
  {
    hide Next, AdmittedStep;
    forall i | 0 <= i < |steps + [step]| ensures Next(sets, (run + [t])[i], (run + [t])[i + 1], (steps + [step])[i]) {
      if i < |steps| { assert Next(sets, run[i], run[i + 1], steps[i]); }
    }
  }

  /** Batch 1 takes the first `n` of its entry locks while the only other batch holds `y`, which is not among them. */
  lemma {:induction false} TakeUpTo(sets: Sets, w: Workload, run: seq<State>, steps: seq<Step>, entry: seq<LockKey>,
                                    other: Batch, y: LockKey, n: nat)
    returns (run': seq<State>, steps': seq<Step>)
    requires IsRun(sets, run, steps) && Admitted(w, steps)
    requires run[|steps|] == map[1 := Batch(entry, None, 0), 2 := other]
    requires n <= |entry| && y !in entry[..n] && forall k :: other.Holds(k) ==> k == y
    ensures IsRun(sets, run', steps') && Admitted(w, steps')
    ensures run'[|steps'|] == map[1 := Batch(entry, None, n), 2 := other]
  {
    hide Next, Admitted, Batch.Holds;
    if n == 0 {
      run', steps' := run, steps;
    } else {
      assert entry[..n - 1] <= entry[..n] && entry[n - 1] in entry[..n];
      run', steps' := TakeUpTo(sets, w, run, steps, entry, other, y, n - 1);
      var s, t := run'[|steps'|], map[1 := Batch(entry, None, n), 2 := other];
      assert Next(sets, s, t, Take(1)) by { TakeNext(sets, entry, other, y, n - 1); }
      Extend(sets, w, run', steps', t, Take(1));
      run', steps' := run' + [t], steps' + [Take(1)];
    }
  }

  lemma TakeNext(sets: Sets, entry: seq<LockKey>, other: Batch, y: LockKey, n: nat)
    requires n < |entry| && entry[n] != y && forall k :: other.Holds(k) ==> k == y
    ensures Next(sets, map[1 := Batch(entry, None, n), 2 := other], map[1 := Batch(entry, None, n + 1), 2 := other], Take(1))
  {
    hide Batch.Holds;
    var s: State, t: State := map[1 := Batch(entry, None, n), 2 := other], map[1 := Batch(entry, None, n + 1), 2 := other];
    assert s[1].Next() == entry[n];
    assert t == s[1 := Batch(entry, None, n + 1)];
  }

  /** Batches that only touch plain accounts are always admitted. */
  ghost predicate AdmitsPlain(sets: Sets, w: Workload) {
    forall entry :: Ascending(EntryLess, entry) && TargetsPlain(sets, entry) ==> entry in w
  }

  /** A batch on plain accounts takes `y`, on a plain account or as its first ancestor, and next wants the set's `x`. */
  lemma PlainHolder(sets: Sets, w: Workload, x: LockKey, y: LockKey)
    returns (run: seq<State>, steps: seq<Step>, b: Batch)
    requires AdmitsPlain(sets, w) && x.account in sets && (y.account in sets ==> AncestorLess(y, x))
    ensures IsRun(sets, run, steps) && Admitted(w, steps)
    ensures run[|steps|] == map[2 := b] && b.Program() == [y, x] && b.taken == 1
  {
    var s0: State := map[];
    if y.account in sets {
      b := Batch([], Some([y, x]), 1);
      var s1: State, s2: State, s3: State := map[2 := Batch([], None, 0)], map[2 := b.(taken := 0)], map[2 := b];
      run, steps := [s0, s1, s2, s3], [Begin(2, []), Resolve(2, [y, x]), Take(2)];
      assert Next(sets, s0, s1, steps[0]) && Next(sets, s1, s2, steps[1]) && Next(sets, s2, s3, steps[2]);
    } else {
      b := Batch([y], Some([x]), 1);
      var s1: State, s2: State, s3: State := map[2 := Batch([y], None, 0)], map[2 := Batch([y], None, 1)], map[2 := b];
      run, steps := [s0, s1, s2, s3], [Begin(2, [y]), Take(2), Resolve(2, [x])];
      assert Next(sets, s0, s1, steps[0]) && Next(sets, s1, s2, steps[1]) && Next(sets, s2, s3, steps[2]);
    }
  }

  /** Any two entry locks of one list that do not ascend let it deadlock with a batch on plain accounts: each comes to
      hold what the other wants next. */
  lemma InvertedPairDeadlocks(sets: Sets, w: Workload, entry: seq<LockKey>, i: nat, j: nat)
    returns (run: seq<State>, steps: seq<Step>)
    requires AdmitsPlain(sets, w) && entry in w && Ascending(EntryLess, entry)
    requires i < j < |entry| && !Less(sets, entry[i], entry[j])
    ensures IsRun(sets, run, steps) && Admitted(w, steps)
    ensures Circle(run[|steps|], [1, 2, 1])
  {
    var x, y := entry[i], entry[j];
    assert EntryLess(x, y);
    var b: Batch;
    run, steps, b := PlainHolder(sets, w, x, y);
    assert forall k :: b.Holds(k) ==> k == y;
    var s: State, t: State := map[2 := b], map[1 := Batch(entry, None, 0), 2 := b];
    assert t == s[1 := Batch(entry, None, 0)];
    assert Next(sets, s, t, Begin(1, entry));
    Extend(sets, w, run, steps, t, Begin(1, entry));
    run, steps := run + [t], steps + [Begin(1, entry)];
    run, steps := TakeUpTo(sets, w, run, steps, entry, b, y, j);
    EachWants(run[|steps|], entry, b, x, y, i, j);
  }

  lemma EachWants(s: State, entry: seq<LockKey>, b: Batch, x: LockKey, y: LockKey, i: nat, j: nat)
    requires i < j < |entry| && x == entry[i] && y == entry[j] && b.Program() == [y, x] && b.taken == 1
    requires s == map[1 := Batch(entry, None, j), 2 := b]
    ensures Circle(s, [1, 2, 1])
  {
    assert s[1].Program()[..j][i] == x && s[1].Next() == y;
    assert s[2].Program()[..1] == [y] && s[2].Next() == x;
    assert WaitsFor(s, 1, 2) && WaitsFor(s, 2, 1);
  }

  /** Some run of admitted batches reaches a circle of waits. */
  ghost predicate CanDeadlock(sets: Sets, w: Workload) {
    exists run, steps, k: nat, c :: IsRun(sets, run, steps) && Admitted(w, steps) && k < |run| && Circle(run[k], c)
  }

  /** Posters are free of deadlock if and only if every entry list they come with ascends in the common order: no
      balance of a set before one of a plain account, and balances of sets journal by journal. */
  lemma DeadlockFreeIff(sets: Sets, w: Workload)
    requires AdmitsPlain(sets, w) && forall entry :: entry in w ==> Ascending(EntryLess, entry)
    ensures !CanDeadlock(sets, w) <==> AllAscend(sets, w)
  {
    hide IsRun, Admitted, Circle, Less, AdmitsPlain;
    if AllAscend(sets, w) && CanDeadlock(sets, w) {
      var run, steps, k: nat, c :| IsRun(sets, run, steps) && Admitted(w, steps) && k < |run| && Circle(run[k], c);
      var _ := NeverDeadlocked(sets, w, run, steps, k, c);
    }
    if !AllAscend(sets, w) {
      var entry :| entry in w && !AscendingProgram(sets, entry);
      var i, j :| 0 <= i < j < |entry| && !Less(sets, entry[i], entry[j]);
      var run, steps := InvertedPairDeadlocks(sets, w, entry, i, j);
      assert CanDeadlock(sets, w);
    }
  }
}
