/** The attach fence: posters hold a shared lock on their entry accounts from before they read memberships
    until they commit, and a change to an account's memberships holds the exclusive lock while it checks that
    the account has no activity and until it commits. Set-to-set edges are fixed. */
module AttachFence {
  import opened Primitives
  import opened Graph

  type OpId = nat

  /** One entry target: the account and the journal of the transaction. */
  datatype Target = Target(account: AccountId, journal: JournalId)

  /** A committed entry and the ancestor sets its delta was folded into. */
  datatype Posted = Posted(target: Target, folded: iset<AccountSetId>)

  /** The set hierarchy: its edges and the journal of every set. */
  datatype Hierarchy = Hierarchy(edges: Edges, journalOf: map<AccountSetId, JournalId>) {
    /** Edges never cross journals: an attach with different journals is rejected. */
    ghost predicate Valid() {
      forall i :: 0 <= i < |edges| ==>
        && edges[i].container in journalOf && edges[i].member in journalOf
        && journalOf[edges[i].container] == journalOf[edges[i].member]
    }
  }

  /** The sets of the journal that contain the account. */
  ghost function Ancestors(h: Hierarchy, members: set<AccountMembership>, target: Target): iset<AccountSetId> {
    iset x | x in h.journalOf && h.journalOf[x] == target.journal && Contains(h, members, target.account, x)
  }

  ghost predicate Contains(h: Hierarchy, members: set<AccountMembership>, account: AccountId, x: AccountSetId) {
    exists m :: m in members && m.account == account && Reach(h.edges, x, m.container)
  }

  /** A poster locks, one by one, those accounts of its targets that existed when its lock statement started
      (`known`); it passes over the others. `mappings` is what it read afterwards. A guard locks the accounts it
      changes. */
  datatype Op =
    | Poster(targets: set<Target>, known: set<AccountId>, held: set<AccountId>, read: bool, mappings: map<Target, iset<AccountSetId>>)
    | Guard(adds: set<AccountMembership>, drops: set<AccountMembership>, held: set<AccountId>, checked: bool)

  datatype State = State(accounts: set<AccountId>, members: set<AccountMembership>, posted: iset<Posted>, ops: map<OpId, Op>)

  datatype Step =
    | BeginPoster(id: OpId, targets: set<Target>)
    | LockShared(id: OpId, account: AccountId)
    | ReadMemberships(id: OpId)
    | CommitPoster(id: OpId)
    | BeginGuard(id: OpId, adds: set<AccountMembership>, drops: set<AccountMembership>)
    | LockExclusive(id: OpId, account: AccountId)
    | CheckHistory(id: OpId)
    | CommitGuard(id: OpId)
    | CreateAccount(account: AccountId, initial: set<AccountMembership>)
    | Abort(id: OpId)

  ghost predicate HeldExclusive(s: State, account: AccountId) {
    exists o :: o in s.ops && s.ops[o].Guard? && account in s.ops[o].held
  }

  /** The account has committed activity in the journal. */
  ghost predicate HasHistory(s: State, account: AccountId, journal: JournalId) {
    exists r :: r in s.posted && r.target == Target(account, journal)
  }

  function AccountsOf(targets: set<Target>): set<AccountId> {
    set t | t in targets :: t.account
  }

  /** What one read of the memberships resolves for all targets of a posting. */
  ghost function Resolve(h: Hierarchy, members: set<AccountMembership>,
                         targets: set<Target>): map<Target, iset<AccountSetId>> {
    map target | target in targets :: Ancestors(h, members, target)
  }

  ghost predicate NextStep(h: Hierarchy, s: State, t: State, step: Step) {
    match step
    case BeginPoster(id, targets) =>
      && id !in s.ops
      && t == s.(ops := s.ops[id := Poster(targets, AccountsOf(targets) * s.accounts, {}, false, map[])])
    case LockShared(id, account) =>
      && id in s.ops && s.ops[id].Poster? && !s.ops[id].read
      && account in s.ops[id].known && !HeldExclusive(s, account)
      && var op := s.ops[id];
         t == s.(ops := s.ops[id := Poster(op.targets, op.known, op.held + {account}, false, op.mappings)])
    case ReadMemberships(id) =>
      && id in s.ops && s.ops[id].Poster? && !s.ops[id].read
      && s.ops[id].known <= s.ops[id].held
      && AccountsOf(s.ops[id].targets) <= s.accounts
      && var op := s.ops[id];
         t == s.(ops := s.ops[id := Poster(op.targets, op.known, op.held, true, Resolve(h, s.members, op.targets))])
    case CommitPoster(id) =>
      && id in s.ops && s.ops[id].Poster? && s.ops[id].read
      && s.ops[id].mappings.Keys == s.ops[id].targets
      && t == s.(posted := s.posted + (iset target | target in s.ops[id].targets :: Posted(target, s.ops[id].mappings[target])),
                 ops := s.ops - {id})
    case BeginGuard(id, adds, drops) =>
      && id !in s.ops
      && (forall m :: m in adds + drops ==> m.container in h.journalOf)
      && t == s.(ops := s.ops[id := Guard(adds, drops, {}, false)])
    case LockExclusive(id, account) =>
      && id in s.ops && s.ops[id].Guard? && !s.ops[id].checked
      && (forall o :: o in s.ops && o != id ==> account !in s.ops[o].held)
      && var op := s.ops[id];
         t == s.(ops := s.ops[id := Guard(op.adds, op.drops, op.held + {account}, false)])
    case CheckHistory(id) =>
      && id in s.ops && s.ops[id].Guard?
      && var op := s.ops[id];
         && (forall m :: m in op.adds + op.drops ==> m.account in op.held)
         && (forall m :: m in op.adds + op.drops ==>
               m.container in h.journalOf && !HasHistory(s, m.account, h.journalOf[m.container]))
         && t == s.(ops := s.ops[id := Guard(op.adds, op.drops, op.held, true)])
    case CommitGuard(id) =>
      && id in s.ops && s.ops[id].Guard? && s.ops[id].checked
      && (forall m :: m in s.ops[id].adds ==> m.account in s.accounts)
      && t == s.(members := s.members + s.ops[id].adds - s.ops[id].drops, ops := s.ops - {id})
    case CreateAccount(account, initial) =>
      && account !in s.accounts
      && (forall m :: m in initial ==> m.account == account)
      && t == s.(accounts := s.accounts + {account}, members := s.members + initial)
    case Abort(id) =>
      && id in s.ops
      && t == s.(ops := s.ops - {id})
  }

  /** The journal has no account sets. */
  ghost predicate NoSets(h: Hierarchy, journal: JournalId) {
    forall x :: x in h.journalOf ==> h.journalOf[x] != journal
  }

  /** Every account of the posting exists, unless its journal has no sets anyway. */
  ghost predicate Covered(h: Hierarchy, s: State, targets: set<Target>) {
    forall target :: target in targets ==> target.account in s.accounts || NoSets(h, target.journal)
  }

  /** Posters start when their accounts exist. */
  ghost predicate CoveredStep(h: Hierarchy, s: State, step: Step) {
    step.BeginPoster? ==> Covered(h, s, step.targets)
  }

  ghost predicate Init(s: State) {
    s == State({}, {}, iset{}, map[])
  }

  ghost predicate Next(h: Hierarchy, s: State, t: State, step: Step) {
    NextStep(h, s, t, step)
  }

  /** The steps lead from state to state. */
  ghost predicate Leads(h: Hierarchy, run: seq<State>, steps: seq<Step>) {
    |run| == |steps| + 1 && forall i :: 0 <= i < |steps| ==> Next(h, run[i], run[i + 1], steps[i])
  }

  ghost predicate Fenced(h: Hierarchy, run: seq<State>, steps: seq<Step>) {
    |run| == |steps| + 1 && forall i :: 0 <= i < |steps| ==> CoveredStep(h, run[i], steps[i])
  }

  ghost predicate IsRun(h: Hierarchy, run: seq<State>, steps: seq<Step>) {
    |run| == |steps| + 1 && Init(run[0]) && Leads(h, run, steps)
  }

  /** Every committed entry was folded into exactly the ancestors its account has now. */
  ghost predicate PostedRight(h: Hierarchy, s: State) {
    forall r :: r in s.posted ==> r.folded == Ancestors(h, s.members, r.target)
  }

  // ---------------------------------------------------------------- the invariant

  ghost predicate LocksOk(h: Hierarchy, s: State) {
    && (forall o, o', a :: o in s.ops && o' in s.ops && o != o' && s.ops[o].Guard? && a in s.ops[o].held ==> a !in s.ops[o'].held)
    && (forall o :: o in s.ops && s.ops[o].Poster? ==> PosterOk(h, s, s.ops[o]))
  }

  ghost predicate PosterOk(h: Hierarchy, s: State, op: Op)
    requires op.Poster?
  {
    && op.held <= op.known <= s.accounts && (op.read ==> op.known <= op.held)
    && forall target :: target in op.targets ==> target.account in op.known || NoSets(h, target.journal)
  }

  ghost predicate ReadsOk(h: Hierarchy, s: State) {
    forall o :: o in s.ops && s.ops[o].Poster? && s.ops[o].read ==>
      && s.ops[o].mappings.Keys == s.ops[o].targets && AccountsOf(s.ops[o].targets) <= s.accounts
      && forall target :: target in s.ops[o].targets ==> s.ops[o].mappings[target] == Ancestors(h, s.members, target)
  }

  ghost predicate ChecksOk(h: Hierarchy, s: State) {
    forall o, m :: o in s.ops && s.ops[o].Guard? && s.ops[o].checked && m in s.ops[o].adds + s.ops[o].drops ==>
      m.account in s.ops[o].held && m.container in h.journalOf && !HasHistory(s, m.account, h.journalOf[m.container])
  }

  ghost predicate Inv(h: Hierarchy, s: State) {
    && LocksOk(h, s) && ReadsOk(h, s) && ChecksOk(h, s) && PostedRight(h, s) && AccountsExist(s)
  }

  /** Rows and entries belong to existing accounts (foreign keys). */
  ghost predicate AccountsExist(s: State) {
    && (forall r :: r in s.posted ==> r.target.account in s.accounts)
    && (forall m :: m in s.members ==> m.account in s.accounts)
  }

  // ---------------------------------------------------------------- ancestors stay in one journal

  lemma {:induction false} PathKeepsJournal(h: Hierarchy, p: Path, a: AccountSetId, b: AccountSetId)
    requires h.Valid() && IsPath(h.edges, p, a, b) && b in h.journalOf
    ensures a in h.journalOf && h.journalOf[a] == h.journalOf[b]
  {
    if p != [] {
      PathKeepsJournal(h, p[1..], h.edges[p[0]].member, b);
    }
  }

  /** A row matters only to targets with its account, in the journal of its set. */
  lemma OtherRowsKeepAncestors(h: Hierarchy, M: set<AccountMembership>, N: set<AccountMembership>, target: Target)
    requires h.Valid()
    requires forall m :: m in (M - N) + (N - M) ==>
               m.account != target.account || (m.container in h.journalOf && h.journalOf[m.container] != target.journal)
    ensures Ancestors(h, M, target) == Ancestors(h, N, target)
  {
    forall x | x in h.journalOf && h.journalOf[x] == target.journal
      ensures Contains(h, M, target.account, x) <==> Contains(h, N, target.account, x)
    {
      forall m | m in M + N && m.account == target.account && Reach(h.edges, x, m.container) ensures m in M && m in N {
        var p: Path :| IsPath(h.edges, p, x, m.container);
        if m.container in h.journalOf { PathKeepsJournal(h, p, x, m.container); }
      }
    }
  }

  // ---------------------------------------------------------------- preservation

  lemma LocksStep(h: Hierarchy, s: State, t: State, step: Step)
    requires LocksOk(h, s) && Next(h, s, t, step) && CoveredStep(h, s, step)
    ensures LocksOk(h, t)
  {
    hide Ancestors, HasHistory, NoSets, Resolve;
    forall o | o in t.ops && t.ops[o].Poster? ensures PosterOk(h, t, t.ops[o]) {
      assert o in s.ops ==> s.ops[o].Poster? && PosterOk(h, s, s.ops[o]);
    }
    hide PosterOk;
  }

  /** What a membership change leaves alone: the ancestors of every target a poster has read or posted. */
  lemma GuardSparesTargets(h: Hierarchy, s: State, t: State, step: Step, target: Target)
    requires h.Valid() && Inv(h, s) && Next(h, s, t, step)
    requires step.CommitGuard? || step.CreateAccount?
    requires (exists o :: o in s.ops && s.ops[o].Poster? && s.ops[o].read && target in s.ops[o].targets)
             || HasHistory(s, target.account, target.journal)
    ensures Ancestors(h, t.members, target) == Ancestors(h, s.members, target)
  {
    if !NoSets(h, target.journal) {
      hide Ancestors;
      forall m | m in (s.members - t.members) + (t.members - s.members)
        ensures m.account != target.account || (m.container in h.journalOf && h.journalOf[m.container] != target.journal)
      {
        if step.CommitGuard? && m.account == target.account {
          assert m in s.ops[step.id].adds + s.ops[step.id].drops;
        }
      }
      OtherRowsKeepAncestors(h, s.members, t.members, target);
    }
  }

  lemma ReadsStep(h: Hierarchy, s: State, t: State, step: Step)
    requires h.Valid() && Inv(h, s) && Next(h, s, t, step)
    ensures ReadsOk(h, t)
  {
    hide Ancestors, HasHistory, HeldExclusive, LocksOk, ChecksOk;
    forall o | o in t.ops && t.ops[o].Poster? && t.ops[o].read
      ensures t.ops[o].mappings.Keys == t.ops[o].targets && AccountsOf(t.ops[o].targets) <= t.accounts
      ensures forall target :: target in t.ops[o].targets ==> t.ops[o].mappings[target] == Ancestors(h, t.members, target)
    {
      if !(step.ReadMemberships? && o == step.id) {
        forall target | target in s.ops[o].targets ensures Ancestors(h, t.members, target) == Ancestors(h, s.members, target) {
          if step.CommitGuard? || step.CreateAccount? { GuardSparesTargets(h, s, t, step, target); }
        }
      }
    }
  }

  /** A poster that commits holds its accounts, so no checked guard is working on them. */
  lemma ChecksStep(h: Hierarchy, s: State, t: State, step: Step)
    requires Inv(h, s) && Next(h, s, t, step)
    ensures ChecksOk(h, t)
  {
    hide Ancestors;
    forall o, m | o in t.ops && t.ops[o].Guard? && t.ops[o].checked && m in t.ops[o].adds + t.ops[o].drops
      ensures m.account in t.ops[o].held && m.container in h.journalOf && !HasHistory(t, m.account, h.journalOf[m.container])
    {
      if step.CommitPoster? {
        forall r | r in t.posted ensures r.target != Target(m.account, h.journalOf[m.container]) {
          if r in s.posted { assert !HasHistory(s, m.account, h.journalOf[m.container]); }
        }
      }
    }
  }

  lemma PostedStep(h: Hierarchy, s: State, t: State, step: Step)
    requires h.Valid() && Inv(h, s) && Next(h, s, t, step)
    ensures PostedRight(h, t) && AccountsExist(t)
  {
    hide Ancestors, HeldExclusive, LocksOk;
    forall r | r in t.posted ensures r.folded == Ancestors(h, t.members, r.target) && r.target.account in t.accounts {
      if r in s.posted {
        if step.CommitGuard? || step.CreateAccount? {
          assert HasHistory(s, r.target.account, r.target.journal);
          GuardSparesTargets(h, s, t, step, r.target);
        }
      } else {
        assert r.target.account in AccountsOf(s.ops[step.id].targets);
      }
    }
  }

  lemma {:induction false} InvRun(h: Hierarchy, run: seq<State>, steps: seq<Step>, k: nat)
    requires h.Valid() && IsRun(h, run, steps) && Fenced(h, run, steps) && k < |run|
    ensures Inv(h, run[k])
  {
    hide LocksOk, ReadsOk, ChecksOk, PostedRight, AccountsExist, Next, CoveredStep;
    if k == 0 {
      InvInit(h, run[0]);
    } else {
      InvRun(h, run, steps, k - 1);
      assert Next(h, run[k - 1], run[k - 1 + 1], steps[k - 1]) && CoveredStep(h, run[k - 1], steps[k - 1]);
      LocksStep(h, run[k - 1], run[k], steps[k - 1]);
      ReadsStep(h, run[k - 1], run[k], steps[k - 1]);
      ChecksStep(h, run[k - 1], run[k], steps[k - 1]);
      PostedStep(h, run[k - 1], run[k], steps[k - 1]);
    }
  }

  lemma InvInit(h: Hierarchy, s: State)
    requires Init(s)
    ensures Inv(h, s)
  {
  }

  /** Over every interleaving in which posters start when their accounts exist, every committed entry was folded into exactly
      the ancestors its account has in that journal, at its commit and at any later time. */
  lemma FenceHolds(h: Hierarchy, run: seq<State>, steps: seq<Step>, k: nat)
    requires h.Valid() && IsRun(h, run, steps) && Fenced(h, run, steps) && k < |run|
    ensures PostedRight(h, run[k])
  {
    InvRun(h, run, steps, k);
  }

  // ---------------------------------------------------------------- the condition is exact

  /** What can happen from `s` on while posters start when their accounts exist. */
  ghost predicate Continues(h: Hierarchy, s: State, run: seq<State>, steps: seq<Step>) {
    |run| == |steps| + 1 && run[0] == s && Leads(h, run, steps) && Fenced(h, run, steps)
  }

  lemma Extend(h: Hierarchy, s: State, run: seq<State>, steps: seq<Step>, t: State, step: Step)
    requires Continues(h, s, run, steps) && Next(h, run[|steps|], t, step) && CoveredStep(h, run[|steps|], step)
    ensures Continues(h, s, run + [t], steps + [step])
  {
    hide Next, CoveredStep;
    var run', steps' := run + [t], steps + [step];
    forall i | 0 <= i < |steps'| ensures Next(h, run'[i], run'[i + 1], steps'[i]) && CoveredStep(h, run'[i], steps'[i]) {
      if i < |steps| { assert Next(h, run[i], run[i + 1], steps[i]) && CoveredStep(h, run[i], steps[i]); }
    }
  }

  /** Everybody but one operation gives up. */
  lemma {:induction false} AbortOthers(h: Hierarchy, s: State, run: seq<State>, steps: seq<Step>, id: OpId)
    returns (run': seq<State>, steps': seq<Step>)
    requires Continues(h, s, run, steps) && id in run[|steps|].ops
    ensures Continues(h, s, run', steps')
    ensures run'[|steps'|] == run[|steps|].(ops := map[id := run[|steps|].ops[id]])
    decreases |run[|steps|].ops|
  {
    hide Leads, Fenced;
    var cur := run[|steps|];
    if o :| o in cur.ops && o != id {
      var t := cur.(ops := cur.ops - {o});
      Extend(h, s, run, steps, t, Abort(o));
      FewerOps(cur.ops, o);
      run', steps' := AbortOthers(h, s, run + [t], steps + [Abort(o)], id);
    } else {
      assert cur.ops == map[id := cur.ops[id]];
      run', steps' := run, steps;
    }
  }

  lemma FewerOps(ops: map<OpId, Op>, o: OpId)
    requires o in ops
    ensures |ops - {o}| < |ops|
  {
    var fewer := ops - {o};
    assert fewer.Keys == ops.Keys - {o} && |fewer.Keys| == |fewer|;
  }

  /** Alone, a poster gets every lock it asks for. */
  lemma {:induction false} LockAll(h: Hierarchy, s: State, run: seq<State>, steps: seq<Step>, id: OpId, op: Op)
    returns (run': seq<State>, steps': seq<Step>)
    requires Continues(h, s, run, steps) && run[|steps|].ops == map[id := op]
    requires op.Poster? && !op.read && op.held <= op.known
    ensures Continues(h, s, run', steps')
    ensures run'[|steps'|] == run[|steps|].(ops := map[id := Poster(op.targets, op.known, op.known, false, op.mappings)])
    decreases |op.known - op.held|
  {
    hide Leads, Fenced;
    var cur := run[|steps|];
    if a :| a in op.known - op.held {
      var more := Poster(op.targets, op.known, op.held + {a}, false, op.mappings);
      var t := cur.(ops := map[id := more]);
      assert t.ops == cur.ops[id := more];
      assert Next(h, cur, t, LockShared(id, a));
      Extend(h, s, run, steps, t, LockShared(id, a));
      assert op.known - more.held < op.known - op.held;
      run', steps' := LockAll(h, s, run + [t], steps + [LockShared(id, a)], id, more);
    } else {
      assert op.held == op.known by {
        forall a | a in op.known ensures a in op.held { assert a !in op.known - op.held; }
      }
      run', steps' := run, steps;
    }
  }

  /** Accounts can be created at any time. */
  lemma {:induction false} CreateAll(h: Hierarchy, s: State, run: seq<State>, steps: seq<Step>, missing: set<AccountId>)
    returns (run': seq<State>, steps': seq<Step>)
    requires Continues(h, s, run, steps) && missing !! run[|steps|].accounts
    ensures Continues(h, s, run', steps')
    ensures run'[|steps'|] == run[|steps|].(accounts := run[|steps|].accounts + missing)
    decreases |missing|
  {
    hide Leads, Fenced, Next, CoveredStep;
    var cur := run[|steps|];
    if a :| a in missing {
      var t := cur.(accounts := cur.accounts + {a});
      OneFewer(missing, cur.accounts, a);
      CreateNext(h, cur, a, t);
      Extend(h, s, run, steps, t, CreateAccount(a, {}));
      run', steps' := CreateAll(h, s, run + [t], steps + [CreateAccount(a, {})], missing - {a});
    } else {
      assert cur.accounts + missing == cur.accounts;
      run', steps' := run, steps;
    }
  }

  lemma OneFewer(missing: set<AccountId>, accounts: set<AccountId>, a: AccountId)
    requires a in missing && missing !! accounts
    ensures a !in accounts && (missing - {a}) !! (accounts + {a})
    ensures accounts + {a} + (missing - {a}) == accounts + missing
    ensures |missing - {a}| < |missing|
  {
  }

  lemma CreateNext(h: Hierarchy, s: State, a: AccountId, t: State)
    requires a !in s.accounts && t == s.(accounts := s.accounts + {a})
    ensures Next(h, s, t, CreateAccount(a, {})) && CoveredStep(h, s, CreateAccount(a, {}))
  {
    assert s.members + {} == s.members;
  }

  /** A poster alone has read memberships and holds no lock on one of its accounts. A guard slips in: it attaches the
      account to a set of the journal before the poster commits, and the entry is folded into fewer sets than its
      account has. */
  lemma GuardSlipsIn(h: Hierarchy, s: State, run: seq<State>, steps: seq<Step>, id: OpId, op: Op, target: Target,
                     x: AccountSetId)
    returns (run': seq<State>, steps': seq<Step>)
    requires h.Valid() && Continues(h, s, run, steps) && run[|steps|].ops == map[id := op]
    requires op.Poster? && op.read && op.mappings.Keys == op.targets && target in op.targets
    requires target.account !in op.held && target.account in run[|steps|].accounts
    requires !HasHistory(run[|steps|], target.account, target.journal)
    requires op.mappings[target] == Ancestors(h, run[|steps|].members, target)
    requires x in h.journalOf && h.journalOf[x] == target.journal && !Contains(h, run[|steps|].members, target.account, x)
    ensures Continues(h, s, run', steps') && !PostedRight(h, run'[|steps'|])
  {
    hide Leads, Fenced, Ancestors, Contains, Next, CoveredStep, Beside, PostedRight;
    var cur, guard, m, held := run[|steps|], id + 1, AccountMembership(x, target.account), {target.account};
    var s1 := Beside(cur, id, op, Guard({m}, {}, {}, false));
    var s2 := Beside(cur, id, op, Guard({m}, {}, held, false));
    var s3 := Beside(cur, id, op, Guard({m}, {}, held, true));
    var s4 := cur.(members := cur.members + {m});
    var s5 := s4.(posted := s4.posted + (iset t | t in op.targets :: Posted(t, op.mappings[t])), ops := map[]);
    GuardBegins(h, cur, id, op, m);
    Extend(h, s, run, steps, s1, BeginGuard(guard, {m}, {}));
    run', steps' := run + [s1], steps + [BeginGuard(guard, {m}, {})];
    GuardLocks(h, cur, id, op, m);
    Extend(h, s, run', steps', s2, LockExclusive(guard, target.account));
    run', steps' := run' + [s2], steps' + [LockExclusive(guard, target.account)];
    GuardChecks(h, cur, id, op, m);
    Extend(h, s, run', steps', s3, CheckHistory(guard));
    run', steps' := run' + [s3], steps' + [CheckHistory(guard)];
    GuardCommits(h, cur, id, op, m);
    Extend(h, s, run', steps', s4, CommitGuard(guard));
    run', steps' := run' + [s4], steps' + [CommitGuard(guard)];
    PosterCommits(h, s4, s5, id, op);
    Extend(h, s, run', steps', s5, CommitPoster(id));
    run', steps' := run' + [s5], steps' + [CommitPoster(id)];
    AttachAddsAncestor(h, cur.members, target, x);
    FoldedWrong(h, s5, Posted(target, op.mappings[target]));
  }

  lemma FoldedWrong(h: Hierarchy, s: State, r: Posted)
    requires r in s.posted && r.folded != Ancestors(h, s.members, r.target)
    ensures !PostedRight(h, s)
  {
  }

  /** The state in which only a poster and one guard are open. */
  ghost function Beside(s: State, id: OpId, op: Op, guard: Op): State {
    s.(ops := map[id := op, id + 1 := guard])
  }

  lemma GuardBegins(h: Hierarchy, s: State, id: OpId, op: Op, m: AccountMembership)
    requires s.ops == map[id := op] && m.container in h.journalOf
    ensures Next(h, s, Beside(s, id, op, Guard({m}, {}, {}, false)), BeginGuard(id + 1, {m}, {}))
    ensures CoveredStep(h, s, BeginGuard(id + 1, {m}, {}))
  {
    assert {m} + {} == {m};
    assert map[id := op, id + 1 := Guard({m}, {}, {}, false)] == s.ops[id + 1 := Guard({m}, {}, {}, false)];
  }

  lemma GuardLocks(h: Hierarchy, s: State, id: OpId, op: Op, m: AccountMembership)
    requires m.account !in op.held
    ensures var t := Beside(s, id, op, Guard({m}, {}, {}, false));
            && Next(h, t, Beside(s, id, op, Guard({m}, {}, {m.account}, false)), LockExclusive(id + 1, m.account))
            && CoveredStep(h, t, LockExclusive(id + 1, m.account))
  {
    assert {} + {m.account} == {m.account};
    var t, u := Beside(s, id, op, Guard({m}, {}, {}, false)), Beside(s, id, op, Guard({m}, {}, {m.account}, false));
    assert u.ops == t.ops[id + 1 := Guard({m}, {}, {m.account}, false)];
  }

  lemma GuardChecks(h: Hierarchy, s: State, id: OpId, op: Op, m: AccountMembership)
    requires m.container in h.journalOf && !HasHistory(s, m.account, h.journalOf[m.container])
    ensures var t := Beside(s, id, op, Guard({m}, {}, {m.account}, false));
            && Next(h, t, Beside(s, id, op, Guard({m}, {}, {m.account}, true)), CheckHistory(id + 1))
            && CoveredStep(h, t, CheckHistory(id + 1))
  {
    assert {m} + {} == {m};
    var t, u := Beside(s, id, op, Guard({m}, {}, {m.account}, false)), Beside(s, id, op, Guard({m}, {}, {m.account}, true));
    assert u.ops == t.ops[id + 1 := Guard({m}, {}, {m.account}, true)];
  }

  lemma GuardCommits(h: Hierarchy, s: State, id: OpId, op: Op, m: AccountMembership)
    requires s.ops == map[id := op] && m.account in s.accounts
    ensures var t := Beside(s, id, op, Guard({m}, {}, {m.account}, true));
            && Next(h, t, s.(members := s.members + {m}), CommitGuard(id + 1))
            && CoveredStep(h, t, CommitGuard(id + 1))
  {
    var t := Beside(s, id, op, Guard({m}, {}, {m.account}, true));
    assert s.ops == t.ops - {id + 1} && s.members + {m} - {} == s.members + {m};
  }

  lemma PosterCommits(h: Hierarchy, s: State, t: State, id: OpId, op: Op)
    requires s.ops == map[id := op] && op.Poster? && op.read && op.mappings.Keys == op.targets
    requires t == s.(posted := s.posted + (iset target | target in op.targets :: Posted(target, op.mappings[target])), ops := map[])
    ensures Next(h, s, t, CommitPoster(id)) && CoveredStep(h, s, CommitPoster(id))
  {
    assert t.ops == s.ops - {id};
  }

  lemma AttachAddsAncestor(h: Hierarchy, members: set<AccountMembership>, target: Target, x: AccountSetId)
    requires x in h.journalOf && h.journalOf[x] == target.journal && !Contains(h, members, target.account, x)
    ensures Ancestors(h, members + {AccountMembership(x, target.account)}, target) != Ancestors(h, members, target)
  {
    ReachSelf(h.edges, x);
    assert AccountMembership(x, target.account) in members + {AccountMembership(x, target.account)};
    assert x in Ancestors(h, members + {AccountMembership(x, target.account)}, target);
  }

  /** A posting that starts before one of its accounts exists, in a journal with sets, can be overtaken: the account
      appears, the poster reads, a guard attaches the account, the poster commits. */
  lemma UncoveredBreaks(h: Hierarchy, s: State, t: State, id: OpId, targets: set<Target>, target: Target, x: AccountSetId)
    returns (run: seq<State>, steps: seq<Step>)
    requires h.Valid() && AccountsExist(s) && Next(h, s, t, BeginPoster(id, targets))
    requires target in targets && target.account !in s.accounts
    requires x in h.journalOf && h.journalOf[x] == target.journal
    ensures Continues(h, t, run, steps) && !PostedRight(h, run[|steps|])
  {
    hide Leads, Fenced, Ancestors, AccountsExist;
    var known, missing := AccountsOf(targets) * s.accounts, AccountsOf(targets) - s.accounts;
    run, steps := [t], [];
    assert Continues(h, t, run, steps) by { Unmoved(h, t); }
    run, steps := AbortOthers(h, t, run, steps, id);
    run, steps := LockAll(h, t, run, steps, id, Poster(targets, known, {}, false, map[]));
    run, steps := CreateAll(h, t, run, steps, missing);
    var cur := run[|steps|];
    var op := Poster(targets, known, known, true, Resolve(h, s.members, targets));
    var next := cur.(ops := map[id := op]);
    assert AccountsOf(targets) <= cur.accounts && next.ops == cur.ops[id := op];
    assert Next(h, cur, next, ReadMemberships(id));
    Extend(h, t, run, steps, next, ReadMemberships(id));
    run, steps := run + [next], steps + [ReadMemberships(id)];
    assert target.account in AccountsOf(targets);
    NothingYet(h, s, target);
    run, steps := GuardSlipsIn(h, t, run, steps, id, op, target, x);
  }

  lemma Unmoved(h: Hierarchy, t: State)
    ensures Continues(h, t, [t], [])
  {
  }

  /** An account that does not exist has neither rows nor entries. */
  lemma NothingYet(h: Hierarchy, s: State, target: Target)
    requires AccountsExist(s) && target.account !in s.accounts
    ensures !HasHistory(s, target.account, target.journal)
    ensures forall x :: !Contains(h, s.members, target.account, x)
  {
  }

  /** In every state of every fenced run: a new posting keeps the fence, whatever happens afterwards, if and only if
      its accounts exist when its lock statement starts, or their journal has no sets. */
  lemma FenceExact(h: Hierarchy, run: seq<State>, steps: seq<Step>, id: OpId, targets: set<Target>, t: State)
    requires h.Valid() && IsRun(h, run, steps) && Fenced(h, run, steps)
    requires Next(h, run[|steps|], t, BeginPoster(id, targets))
    ensures Covered(h, run[|steps|], targets) <==>
            forall more, moreSteps :: Continues(h, t, more, moreSteps) ==> PostedRight(h, more[|moreSteps|])
  {
    hide Leads, Fenced, Next, PostedRight;
    var s := run[|steps|];
    if Covered(h, s, targets) {
      forall more, moreSteps | Continues(h, t, more, moreSteps) ensures PostedRight(h, more[|moreSteps|]) {
        Joined(h, run, steps, BeginPoster(id, targets), more, moreSteps);
        FenceHolds(h, run + more, steps + [BeginPoster(id, targets)] + moreSteps, |run| + |moreSteps|);
      }
    } else {
      InvRun(h, run, steps, |steps|);
      var target :| target in targets && target.account !in s.accounts && !NoSets(h, target.journal);
      var x :| x in h.journalOf && h.journalOf[x] == target.journal;
      var more, moreSteps := UncoveredBreaks(h, s, t, id, targets, target, x);
    }
  }

  /** The smallest case: one posting to an account that is created only afterwards, in a journal with one set. */
  lemma LateAccountBreaksFence() returns (h: Hierarchy, run: seq<State>, steps: seq<Step>)
    ensures h.Valid() && IsRun(h, run, steps) && !PostedRight(h, run[|steps|])
  {
    hide Leads;
    h := Hierarchy([], map[0 := 0]);
    var s, target := State({}, {}, iset{}, map[]), Target(1, 0);
    var t := s.(ops := map[1 := Poster({target}, {}, {}, false, map[])]);
    assert AccountsOf({target}) * s.accounts == {};
    var more, moreSteps := UncoveredBreaks(h, s, t, 1, {target}, target, 0);
    run, steps := [s] + more, [BeginPoster(1, {target})] + moreSteps;
    assert Leads(h, run, steps) by { Prepended(h, s, BeginPoster(1, {target}), more, moreSteps); }
  }

  lemma Prepended(h: Hierarchy, s: State, step: Step, more: seq<State>, moreSteps: seq<Step>)
    requires Leads(h, more, moreSteps) && Next(h, s, more[0], step)
    ensures Leads(h, [s] + more, [step] + moreSteps)
  {
    hide Next;
    forall i | 0 <= i < |[step] + moreSteps| ensures Next(h, ([s] + more)[i], ([s] + more)[i + 1], ([step] + moreSteps)[i]) {
      if i > 0 { assert Next(h, more[i - 1], more[i - 1 + 1], moreSteps[i - 1]); }
    }
  }

  lemma Joined(h: Hierarchy, run: seq<State>, steps: seq<Step>, step: Step, more: seq<State>, moreSteps: seq<Step>)
    requires IsRun(h, run, steps) && Fenced(h, run, steps) && Leads(h, more, moreSteps) && Fenced(h, more, moreSteps)
    requires Next(h, run[|steps|], more[0], step) && CoveredStep(h, run[|steps|], step)
    ensures IsRun(h, run + more, steps + [step] + moreSteps) && Fenced(h, run + more, steps + [step] + moreSteps)
  {
    hide Next, CoveredStep;
    var all, allSteps := run + more, steps + [step] + moreSteps;
    forall i | 0 <= i < |allSteps| ensures Next(h, all[i], all[i + 1], allSteps[i]) && CoveredStep(h, all[i], allSteps[i]) {
      var k := i - |run|;
      if i < |steps| {
        assert Next(h, run[i], run[i + 1], steps[i]) && CoveredStep(h, run[i], steps[i]);
      } else if i > |steps| {
        assert Next(h, more[k], more[k + 1], moreSteps[k]) && CoveredStep(h, more[k], moreSteps[k]);
      }
    }
  }
}
