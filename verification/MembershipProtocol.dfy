/** Every interleaving of the operations that change the membership graph: structure batches under the
    exclusive coarse lock, classic attaches and detaches under the shared coarse lock and per-member locks,
    and lock-free creates inside one set. */
module MembershipProtocol {
  import opened Primitives
  import opened Distinctness
  import opened Graph
  import opened Validation
  import opened Localization

  type OpId = nat

  // ---------------------------------------------------------------- validity over a table of memberships

  /** Every account of the table reaches every set by at most one containment path. */
  ghost predicate TableUnique(E: Edges, M: set<AccountMembership>) {
    forall m, n, p: Path, q: Path, s ::
      m in M && n in M && m.account == n.account && IsPath(E, p, s, m.container) && IsPath(E, q, s, n.container)
      ==> m == n && p == q
  }

  /** The invariant of the committed membership graph. */
  ghost predicate ValidTables(E: Edges, M: set<AccountMembership>) {
    UniquePaths(E) && TableUnique(E, M) && DepthAtMost(E, MAX_MEMBERSHIP_DEPTH)
  }

  /** Row lists and tables agree: a list is unique when it repeats no row and its table is. */
  lemma ListIsTable(E: Edges, rows: seq<AccountMembership>)
    ensures AccountUnique(E, rows) <==> Distinct(rows) && TableUnique(E, Elements(rows))
  {
    if AccountUnique(E, rows) {
      forall i, j | 0 <= i < j < |rows| ensures rows[i] != rows[j] {
        var nothing: Path := [];
        assert IsPath(E, nothing, rows[i].container, rows[i].container);
      }
      forall m, n, p: Path, q: Path, s | m in Elements(rows) && n in Elements(rows) && m.account == n.account
          && IsPath(E, p, s, m.container) && IsPath(E, q, s, n.container)
        ensures m == n && p == q
      {
        var i, j := IndexOf(rows, m), IndexOf(rows, n);
        assert i == j;
      }
    }
    if Distinct(rows) && TableUnique(E, Elements(rows)) {
      forall i, j, p: Path, q: Path, s | 0 <= i < |rows| && 0 <= j < |rows| && rows[i].account == rows[j].account
          && IsPath(E, p, s, rows[i].container) && IsPath(E, q, s, rows[j].container)
        ensures i == j && p == q
      {
        assert rows[i] in Elements(rows) && rows[j] in Elements(rows);
        PositionUnique(rows, i, j);
      }
    }
  }

  ghost function RowsOf(M: set<AccountMembership>, accounts: set<AccountId>): set<AccountMembership> {
    set m | m in M && m.account in accounts
  }

  ghost function AccountsOf(M: set<AccountMembership>): set<AccountId> {
    set m | m in M :: m.account
  }

  /** The check of a classic attach: its pairs repeat nothing, and together with the rows of their own
      accounts they leave every set reached once. */
  ghost predicate AttachAccepted(E: Edges, M: set<AccountMembership>, pairs: set<AccountMembership>) {
    pairs !! M && TableUnique(E, pairs + RowsOf(M, AccountsOf(pairs)))
  }

  /** The in-memory path count accepts exactly these attaches, for any order of the rows it read. */
  lemma CountDecidesAttach(E: Edges, M: set<AccountMembership>, pairs: seq<AccountMembership>,
                           rows: seq<AccountMembership>)
    requires Distinct(rows) && Elements(rows) == RowsOf(M, AccountsOf(Elements(pairs)))
    ensures AccountUnique(E, pairs + rows) <==> Distinct(pairs) && AttachAccepted(E, M, Elements(pairs))
  {
    hide TableUnique;
    ListIsTable(E, pairs + rows);
    assert Elements(pairs + rows) == Elements(pairs) + Elements(rows);
    if Distinct(pairs + rows) {
      forall i, j | 0 <= i < j < |pairs| ensures pairs[i] != pairs[j] {
        assert (pairs + rows)[i] != (pairs + rows)[j];
      }
    }
    if m :| m in Elements(pairs) && m in M {
      assert m.account in AccountsOf(Elements(pairs));
      assert m in Elements(rows);
      var i, j := IndexOf(pairs, m), IndexOf(rows, m);
      assert (pairs + rows)[i] == (pairs + rows)[|pairs| + j];
    }
    if Distinct(pairs) && Elements(pairs) !! M {
      forall i, j | 0 <= i < j < |pairs + rows| ensures (pairs + rows)[i] != (pairs + rows)[j] {
        if i < |pairs| <= j {
          assert pairs[i] in Elements(pairs) && rows[j - |pairs|] in Elements(rows);
        }
      }
    }
  }

  // ---------------------------------------------------------------- the step system

  /** What a transaction holds of the coarse lock. */
  datatype Coarse = Nothing | Shared | Exclusive

  /** A transaction: the locks it holds until it ends, and what it has changed so far. `edges` is the graph with its
      own changes, once it holds the exclusive lock; `adds` and `drops` are its membership rows; `created` the accounts
      it created. */
  datatype Op = Op(coarse: Coarse, locked: set<AccountId>, edges: Option<Edges>,
                   adds: set<AccountMembership>, drops: set<AccountMembership>, created: set<AccountId>)

  /** Committed tables and the transactions in flight. */
  datatype State = State(edges: Edges, members: set<AccountMembership>, accounts: set<AccountId>, ops: map<OpId, Op>)

  /** The tables as a transaction sees them: committed rows and its own changes. */
  ghost function EdgesSeen(s: State, op: Op): Edges {
    if op.edges.Some? then op.edges.value else s.edges
  }

  ghost function MembersSeen(s: State, op: Op): set<AccountMembership> {
    s.members - op.drops + op.adds
  }

  /** A transaction takes any number of these steps, in any order its locks allow. */
  datatype Step =
    | Begin(id: OpId)
    | LockShared(id: OpId)
    | LockExclusive(id: OpId)
    | LockMember(id: OpId, account: AccountId)
    | AddSets(id: OpId, batch: Edges)
    | RemoveSet(id: OpId, edge: SetMembership)
    | AddMembers(id: OpId, pairs: set<AccountMembership>)
    | RemoveMember(id: OpId, row: AccountMembership)
    | CreateAccount(id: OpId, account: AccountId, initial: Option<AccountSetId>)
    | Commit(id: OpId)
    | Abort(id: OpId)

  ghost predicate OthersHold(s: State, id: OpId, coarse: Coarse) {
    exists o :: o in s.ops && o != id && s.ops[o].coarse == coarse
  }

  /** No other transaction holds the member lock of the account. */
  ghost predicate MemberFree(s: State, id: OpId, account: AccountId) {
    forall o :: o in s.ops && o != id ==> account !in s.ops[o].locked
  }

  /** No other transaction has inserted an account with this identifier. */
  ghost predicate Unclaimed(s: State, id: OpId, account: AccountId) {
    forall o :: o in s.ops && o != id ==> account !in s.ops[o].created
  }

  function Without(E: Edges, e: SetMembership): (r: Edges)
    ensures forall f :: f in r <==> f in E && f != e
  {
    if E == [] then [] else (if E[0] == e then [] else [E[0]]) + Without(E[1..], e)
  }

  function InitialRow(account: AccountId, initial: Option<AccountSetId>): set<AccountMembership> {
    if initial.Some? then {AccountMembership(initial.value, account)} else {}
  }

  /** A transaction's own step: what it turns into. The exclusive lock is granted when nobody else holds the coarse
      lock, the shared one when nobody else holds the exclusive one, a member lock when nobody else holds it. Changes
      to sets need the exclusive lock, changes to an account's rows the coarse lock and the account's member lock,
      and both are checked against the tables as the transaction sees them. A create inside a set takes only the
      member lock of the new account and checks nothing. */
  ghost predicate OwnStep(s: State, op: Op, op': Op, step: Step) {
    match step
    case LockShared(id) =>
      !OthersHold(s, id, Exclusive) && op' == if op.coarse == Exclusive then op else op.(coarse := Shared)
    case LockExclusive(id) =>
      && !OthersHold(s, id, Exclusive) && !OthersHold(s, id, Shared)
      && op' == if op.coarse == Exclusive then op else op.(coarse := Exclusive, edges := Some(s.edges))
    case LockMember(id, account) =>
      MemberFree(s, id, account) && op' == op.(locked := op.locked + {account})
    case AddSets(_, batch) =>
      && op.coarse == Exclusive && ValidTables(EdgesSeen(s, op) + batch, MembersSeen(s, op))
      && op' == op.(edges := Some(EdgesSeen(s, op) + batch))
    case RemoveSet(_, edge) =>
      op.coarse == Exclusive && op' == op.(edges := Some(Without(EdgesSeen(s, op), edge)))
    case AddMembers(_, pairs) =>
      && op.coarse != Nothing && AccountsOf(pairs) <= op.locked && AccountsOf(pairs) <= s.accounts + op.created
      && AttachAccepted(EdgesSeen(s, op), MembersSeen(s, op), pairs)
      && op' == op.(adds := op.adds + pairs, drops := op.drops - pairs)
    case RemoveMember(_, row) =>
      && op.coarse != Nothing && row.account in op.locked
      && op' == op.(adds := op.adds - {row}, drops := op.drops + {row})
    case CreateAccount(id, account, initial) =>
      && account !in s.accounts + op.created && Unclaimed(s, id, account) && (initial.Some? ==> MemberFree(s, id, account))
      && op' == op.(created := op.created + {account},
                    locked := op.locked + AccountsOf(InitialRow(account, initial)),
                    adds := op.adds + InitialRow(account, initial))
    case _ => false
  }

  /** A commit publishes everything the transaction changed at once. */
  ghost predicate NextStep(s: State, t: State, step: Step) {
    match step
    case Begin(id) =>
      id !in s.ops && t == s.(ops := s.ops[id := Op(Nothing, {}, None, {}, {}, {})])
    case Commit(id) =>
      && id in s.ops
      && t == State(EdgesSeen(s, s.ops[id]), MembersSeen(s, s.ops[id]), s.accounts + s.ops[id].created, s.ops - {id})
    case Abort(id) =>
      id in s.ops && t == s.(ops := s.ops - {id})
    case _ =>
      && step.id in s.ops && step.id in t.ops && OwnStep(s, s.ops[step.id], t.ops[step.id], step)
      && t == s.(ops := s.ops[step.id := t.ops[step.id]])
  }

  ghost predicate Next(s: State, t: State) {
    exists step :: NextStep(s, t, step)
  }

  ghost predicate Init(s: State) {
    s == State([], {}, {}, map[])
  }

  ghost predicate IsRun(run: seq<State>) {
    run != [] && Init(run[0]) && forall i :: 0 <= i < |run| - 1 ==> Next(run[i], run[i + 1])
  }

  // ---------------------------------------------------------------- the invariant

  /** An exclusive holder of the coarse lock is alone on it; no account is locked or created twice. */
  ghost predicate Compatible(a: Op, b: Op) {
    && (a.coarse == Exclusive ==> b.coarse == Nothing)
    && (b.coarse == Exclusive ==> a.coarse == Nothing)
    && a.locked !! b.locked && a.created !! b.created
  }

  ghost predicate LocksConsistent(s: State) {
    forall o, o' :: o in s.ops && o' in s.ops && o != o' ==> Compatible(s.ops[o], s.ops[o'])
  }

  /** Rows of accounts that have no others, one each. */
  ghost predicate Newborn(rows: set<AccountMembership>, M: set<AccountMembership>) {
    && (forall m :: m in rows ==> m.account !in AccountsOf(M))
    && (forall m, n :: m in rows && n in rows && m.account == n.account ==> m == n)
  }

  /** Changes lie within the locks; without a coarse lock there are only creates. */
  ghost predicate OpOk(accounts: set<AccountId>, op: Op) {
    && (op.edges.Some? <==> op.coarse == Exclusive)
    && AccountsOf(op.adds) + AccountsOf(op.drops) <= op.locked
    && AccountsOf(op.adds) <= accounts + op.created && op.created !! accounts
    && (op.coarse == Nothing ==> op.drops == {} && AccountsOf(op.adds) <= op.created && Newborn(op.adds, {}))
  }

  /** What a transaction with a coarse lock sees is valid, and stays so until it commits. */
  ghost predicate ViewOk(s: State, op: Op) {
    op.coarse != Nothing ==> ValidTables(EdgesSeen(s, op), MembersSeen(s, op))
  }

  ghost predicate Inv(s: State) {
    && ValidTables(s.edges, s.members) && AccountsOf(s.members) <= s.accounts
    && LocksConsistent(s)
    && (forall o :: o in s.ops ==> OpOk(s.accounts, s.ops[o]))
    && (forall o :: o in s.ops ==> ViewOk(s, s.ops[o]))
  }

  // ---------------------------------------------------------------- how each commit keeps validity

  /** One membership each of accounts without any needs no check: set-level uniqueness already covers it. */
  lemma FreshMembersKeepUnique(E: Edges, M: set<AccountMembership>, rows: set<AccountMembership>)
    requires UniquePaths(E) && TableUnique(E, M) && Newborn(rows, M)
    ensures TableUnique(E, M + rows)
  {
    forall a, b, p: Path, q: Path, s | a in M + rows && b in M + rows && a.account == b.account
        && IsPath(E, p, s, a.container) && IsPath(E, q, s, b.container)
      ensures a == b && p == q
    {
      if a in M { assert a.account in AccountsOf(M); }
      if b in M { assert b.account in AccountsOf(M); }
    }
  }

  lemma FewerRowsKeepUnique(E: Edges, M: set<AccountMembership>, N: set<AccountMembership>)
    requires TableUnique(E, M) && N <= M
    ensures TableUnique(E, N)
  {
  }

  /** Rows of different accounts never conflict. */
  lemma AcceptedAttachKeepsUnique(E: Edges, M: set<AccountMembership>, pairs: set<AccountMembership>)
    requires TableUnique(E, M) && AttachAccepted(E, M, pairs)
    ensures TableUnique(E, M + pairs)
  {
    var own := pairs + RowsOf(M, AccountsOf(pairs));
    forall a, b, p: Path, q: Path, s | a in M + pairs && b in M + pairs && a.account == b.account
        && IsPath(E, p, s, a.container) && IsPath(E, q, s, b.container)
      ensures a == b && p == q
    {
      if a in pairs || b in pairs {
        assert a.account in AccountsOf(pairs);
        assert a in own && b in own;
      }
    }
  }

  /** Uniqueness is a matter of each account's own rows. */
  lemma MixedRowsKeepUnique(E: Edges, A: set<AccountMembership>, B: set<AccountMembership>, accounts: set<AccountId>,
                            M: set<AccountMembership>)
    requires TableUnique(E, A) && TableUnique(E, B)
    requires forall m :: m in M ==> if m.account in accounts then m in A else m in B
    ensures TableUnique(E, M)
  {
  }

  lemma WithoutEmbeds(E: Edges, e: SetMembership) returns (f: seq<nat>)
    ensures Embeds(Without(E, e), E, f)
  {
    if E == [] {
      f := [];
    } else {
      var g := WithoutEmbeds(E[1..], e);
      hide Embeds;
      if E[0] == e {
        assert Without(E, e) == Without(E[1..], e);
        f := ShiftEmbeds(Without(E[1..], e), E[1..], g, E[0]);
      } else {
        f := ConsEmbeds(Without(E[1..], e), E[1..], g, E[0]);
      }
      assert E == [E[0]] + E[1..];
    }
  }

  /** An edge in front of the graph moves every position by one. */
  lemma ShiftEmbeds(F: Edges, E: Edges, g: seq<nat>, e: SetMembership) returns (f: seq<nat>)
    requires Embeds(F, E, g)
    ensures Embeds(F, [e] + E, f) && f == seq(|g|, i requires 0 <= i < |g| => g[i] + 1)
  {
    f := seq(|g|, i requires 0 <= i < |g| => g[i] + 1);
  }

  lemma ConsEmbeds(F: Edges, E: Edges, g: seq<nat>, e: SetMembership) returns (f: seq<nat>)
    requires Embeds(F, E, g)
    ensures Embeds([e] + F, [e] + E, f)
  {
    var shifted := ShiftEmbeds(F, E, g, e);
    f := [0] + shifted;
  }

  lemma RemovedEdgeKeepsValid(E: Edges, M: set<AccountMembership>, e: SetMembership)
    requires ValidTables(E, M)
    ensures ValidTables(Without(E, e), M)
  {
    var F := Without(E, e);
    var f := WithoutEmbeds(E, e);
    SubgraphKeeps(F, E, f);
    forall m, n, p: Path, q: Path, s | m in M && n in M && m.account == n.account
        && IsPath(F, p, s, m.container) && IsPath(F, q, s, n.container)
      ensures m == n && p == q
    {
      LiftPath(F, E, f, p, s, m.container);
      LiftPath(F, E, f, q, s, n.container);
      PathWithin(F, p, s, m.container);
      PathWithin(F, q, s, n.container);
      LiftInjective(F, E, f, p, q);
    }
  }

  // ---------------------------------------------------------------- preservation

  lemma LocksStep(s: State, t: State, step: Step)
    requires LocksConsistent(s) && NextStep(s, t, step)
    ensures LocksConsistent(t)
  {
    hide Compatible, OwnStep;
    forall o, o' | o in t.ops && o' in t.ops && o != o' ensures Compatible(t.ops[o], t.ops[o']) {
      if o in s.ops && o' in s.ops { assert Compatible(s.ops[o], s.ops[o']); }
      if step.Begin? {
        NothingHeld(t.ops[o], t.ops[o']);
      } else if !step.Commit? && !step.Abort? {
        if o == step.id { OwnCompatible(s, t.ops[o], step, o'); }
        if o' == step.id { OwnCompatible(s, t.ops[o'], step, o); }
      }
    }
  }

  lemma NothingHeld(a: Op, b: Op)
    ensures a == Op(Nothing, {}, None, {}, {}, {}) || b == Op(Nothing, {}, None, {}, {}, {}) ==> Compatible(a, b)
  {
  }

  /** What a step acquires is free. */
  lemma OwnCompatible(s: State, op': Op, step: Step, o: OpId)
    requires !step.Begin? && !step.Commit? && !step.Abort? && step.id in s.ops && OwnStep(s, s.ops[step.id], op', step)
    requires o in s.ops && o != step.id && Compatible(s.ops[step.id], s.ops[o])
    ensures Compatible(op', s.ops[o]) && Compatible(s.ops[o], op')
  {
    hide ValidTables, AttachAccepted, Without, AccountsOf;
    if step.CreateAccount? { InitialAccounts(step.account, step.initial); }
  }

  lemma InitialAccounts(account: AccountId, initial: Option<AccountSetId>)
    ensures AccountsOf(InitialRow(account, initial)) == if initial.Some? then {account} else {}
  {
    if initial.Some? { assert AccountMembership(initial.value, account) in InitialRow(account, initial); }
  }

  /** A transaction's own step keeps its changes within its locks. */
  lemma OwnOpOk(s: State, op: Op, op': Op, step: Step)
    requires OpOk(s.accounts, op) && OwnStep(s, op, op', step)
    ensures OpOk(s.accounts, op')
  {
    hide ValidTables, AttachAccepted, Without, OthersHold, MemberFree, Unclaimed;
  }

  lemma OpsStep(s: State, t: State, step: Step, o: OpId)
    requires Inv(s) && NextStep(s, t, step) && o in t.ops
    ensures OpOk(t.accounts, t.ops[o])
  {
    hide ValidTables, ViewOk, OwnStep, OpOk, Compatible, MembersSeen, EdgesSeen, AccountsOf;
    BegunOk(t.accounts);
    if step.Commit? {
      assert Compatible(s.ops[o], s.ops[step.id]) && OpOk(s.accounts, s.ops[o]) && OpOk(s.accounts, s.ops[step.id]);
      OtherOpOk(s.accounts, s.ops[o], s.ops[step.id]);
    } else if !step.Begin? && !step.Abort? && o == step.id {
      OwnOpOk(s, s.ops[o], t.ops[o], step);
    }
  }

  lemma OtherOpOk(accounts: set<AccountId>, mine: Op, theirs: Op)
    requires Compatible(mine, theirs) && OpOk(accounts, mine)
    ensures OpOk(accounts + theirs.created, mine)
  {
  }

  lemma BegunOk(accounts: set<AccountId>)
    ensures OpOk(accounts, Op(Nothing, {}, None, {}, {}, {}))
  {
  }

  /** Rows of new accounts are new to what any other transaction, or the transaction itself, sees. */
  lemma NewToView(s: State, op: Op, rows: set<AccountMembership>)
    requires AccountsOf(s.members) <= s.accounts && OpOk(s.accounts, op) && Newborn(rows, {})
    requires forall m :: m in rows ==> m.account !in s.accounts + op.created
    ensures Newborn(rows, MembersSeen(s, op))
  {
    forall m, n | m in rows && n in MembersSeen(s, op) ensures n.account != m.account {
      assert n in s.members ==> n.account in AccountsOf(s.members);
      assert n in op.adds ==> n.account in AccountsOf(op.adds);
    }
  }

  /** A transaction's own step keeps what it sees valid. */
  lemma OwnViewOk(s: State, op: Op, op': Op, step: Step)
    requires ValidTables(s.edges, s.members) && AccountsOf(s.members) <= s.accounts
    requires OpOk(s.accounts, op) && ViewOk(s, op) && OwnStep(s, op, op', step)
    ensures ViewOk(s, op')
  {
    hide UniquePaths, TableUnique, DepthAtMost, Without, OthersHold, MemberFree, AttachAccepted;
    var E, M := EdgesSeen(s, op), MembersSeen(s, op);
    match step
    case LockShared(_) => SeenWithoutLock(s, op);
    case LockExclusive(_) => SeenWithoutLock(s, op);
    case RemoveSet(_, edge) => RemovedEdgeKeepsValid(E, M, edge);
    case AddMembers(_, pairs) =>
      AcceptedAttachKeepsUnique(E, M, pairs);
      assert MembersSeen(s, op') == M + pairs;
    case RemoveMember(_, row) =>
      FewerRowsKeepUnique(E, M, MembersSeen(s, op'));
    case CreateAccount(_, account, initial) =>
      if op.coarse != Nothing {
        NewToView(s, op, InitialRow(account, initial));
        FreshMembersKeepUnique(E, M, InitialRow(account, initial));
        assert MembersSeen(s, op') == M + InitialRow(account, initial);
      }
    case _ =>
  }

  /** A transaction that holds no coarse lock has only created accounts, so it sees valid tables all the same. */
  lemma SeenWithoutLock(s: State, op: Op)
    requires ValidTables(s.edges, s.members) && AccountsOf(s.members) <= s.accounts && OpOk(s.accounts, op)
    ensures op.coarse == Nothing ==> ValidTables(s.edges, MembersSeen(s, op))
  {
    if op.coarse == Nothing {
      forall m, n | m in op.adds && n in s.members ensures n.account != m.account {
        assert m.account in AccountsOf(op.adds) && n.account in AccountsOf(s.members);
      }
      FreshMembersKeepUnique(s.edges, s.members, op.adds);
    }
  }

  /** A commit leaves valid tables, and what the others see stays valid. */
  lemma CommitValid(s: State, t: State, id: OpId)
    requires Inv(s) && NextStep(s, t, Commit(id))
    ensures ValidTables(t.edges, t.members) && AccountsOf(t.members) <= t.accounts
  {
    hide UniquePaths, TableUnique, DepthAtMost;
    var op := s.ops[id];
    assert OpOk(s.accounts, op) && ViewOk(s, op);
    SeenWithoutLock(s, op);
    forall m | m in t.members ensures m.account in t.accounts {
      assert m in s.members ==> m.account in AccountsOf(s.members);
      assert m in op.adds ==> m.account in AccountsOf(op.adds);
    }
  }

  lemma CommitKeepsView(s: State, t: State, id: OpId, o: OpId)
    requires Inv(s) && NextStep(s, t, Commit(id)) && o in t.ops
    ensures ViewOk(t, t.ops[o])
  {
    hide UniquePaths, TableUnique, DepthAtMost, LocksConsistent, Inv;
    var mine, theirs := s.ops[o], s.ops[id];
    Unfold(s, o, id);
    CommitValid(s, t, id);
    if mine.coarse == Exclusive {
      var rows := theirs.adds;
      OthersRows(s, mine, theirs);
      FreshMembersKeepUnique(EdgesSeen(s, mine), MembersSeen(s, mine), rows);
      assert MembersSeen(t, mine) == MembersSeen(s, mine) + rows;
    } else if mine.coarse == Shared {
      forall m | m in MembersSeen(t, mine) ensures if m.account in mine.locked then m in MembersSeen(s, mine) else m in t.members {
        assert m in theirs.adds ==> m.account in AccountsOf(theirs.adds);
        assert m in mine.adds ==> m.account in AccountsOf(mine.adds);
      }
      MixedRowsKeepUnique(s.edges, MembersSeen(s, mine), t.members, mine.locked, MembersSeen(t, mine));
    }
  }

  lemma Unfold(s: State, o: OpId, id: OpId)
    requires Inv(s) && o in s.ops && id in s.ops && o != id
    ensures Compatible(s.ops[o], s.ops[id]) && OpOk(s.accounts, s.ops[o]) && OpOk(s.accounts, s.ops[id]) && ViewOk(s, s.ops[o])
    ensures AccountsOf(s.members) <= s.accounts
  {
    hide ValidTables;
  }

  /** What a transaction without coarse lock adds is new to the holder of the exclusive lock. */
  lemma OthersRows(s: State, mine: Op, theirs: Op)
    requires AccountsOf(s.members) <= s.accounts && Compatible(mine, theirs) && OpOk(s.accounts, mine) && OpOk(s.accounts, theirs)
    requires theirs.coarse == Nothing
    ensures Newborn(theirs.adds, MembersSeen(s, mine))
    ensures theirs.adds !! mine.drops
  {
    forall m | m in theirs.adds ensures m.account in theirs.created && m.account !in s.accounts && m.account !in mine.locked {
      assert m.account in AccountsOf(theirs.adds);
    }
    forall m, n | m in theirs.adds && n in MembersSeen(s, mine) ensures n.account != m.account {
      assert n in s.members ==> n.account in AccountsOf(s.members);
      assert n in mine.adds ==> n.account in AccountsOf(mine.adds);
    }
    forall m | m in mine.drops ensures m !in theirs.adds {
      assert m.account in AccountsOf(mine.drops);
    }
  }

  lemma InvStep(s: State, t: State, step: Step)
    requires Inv(s) && NextStep(s, t, step)
    ensures Inv(t)
  {
    hide ValidTables, OpOk, OwnStep, LocksConsistent;
    LocksStep(s, t, step);
    forall o | o in t.ops ensures OpOk(t.accounts, t.ops[o]) { OpsStep(s, t, step, o); }
    if step.Commit? { CommitValid(s, t, step.id); }
    forall o | o in t.ops ensures ViewOk(t, t.ops[o]) {
      if step.Commit? {
        CommitKeepsView(s, t, step.id, o);
      } else if !step.Begin? && !step.Abort? && o == step.id {
        OwnViewOk(s, s.ops[o], t.ops[o], step);
      }
    }
  }

  lemma EmptyIsValid()
    ensures ValidTables([], {})
  {
    forall p: Path, a, b | IsPath([], p, a, b) ensures p == [] {
    }
  }

  lemma {:induction false} InvRun(run: seq<State>, k: nat)
    requires IsRun(run) && k < |run|
    ensures Inv(run[k])
  {
    hide ValidTables, NextStep;
    if k == 0 {
      EmptyIsValid();
    } else {
      InvRun(run, k - 1);
      assert Next(run[k - 1], run[k - 1 + 1]);
      var step :| NextStep(run[k - 1], run[k], step);
      InvStep(run[k - 1], run[k], step);
    }
  }

  /** In every state of every interleaving the committed graph is acyclic, joins two sets by at most one path,
      lets every account reach every set at most once, and keeps the depth bound. */
  lemma CommittedGraphAlwaysValid(run: seq<State>, k: nat)
    requires IsRun(run) && k < |run|
    ensures Acyclic(run[k].edges) && ValidTables(run[k].edges, run[k].members)
  {
    InvRun(run, k);
    UniquePathsAcyclic(run[k].edges);
  }

  // ---------------------------------------------------------------- the checks are the validators

  /** The structure check of the protocol is an accepting verdict on any enumeration of the member table. */
  lemma VerdictDecidesStructure(E: Edges, batch: Edges, M: set<AccountMembership>, rows: seq<AccountMembership>,
                                r: Outcome)
    requires Distinct(rows) && Elements(rows) == M && Verdict(E, batch, rows, r)
    ensures r.Accepted? <==> ValidTables(E + batch, M)
  {
    ListIsTable(E + batch, rows);
    if ValidTables(E + batch, M) {
      UniquePathsAcyclic(E + batch);
      if r.Rejected? && r.error.MembershipDepthExceeded? {
        var k :| OverflowAt(E, batch, k, r.error.depth);
        OverflowTooDeep(E, batch, k, r.error.depth);
      }
    }
  }

  /** Why a create may name at most one initial set: two sets of a valid graph can share an ancestor. */
  lemma TwoInitialSetsNeedACheck()
    ensures exists E: Edges, m: AccountMembership, n: AccountMembership ::
              ValidTables(E, {}) && m.account == n.account && m.container != n.container && !TableUnique(E, {m, n})
  {
    var root, left, right := 0, 1, 2;
    var E := [SetMembership(root, left), SetMembership(root, right)];
    var m, n := AccountMembership(left, 7), AccountMembership(right, 7);
    assert ValidTables(E, {}) by {
      var rank := (n: AccountSetId) => if n == root then 0 else 1;
      forall p: Path, a, b | IsPath(E, p, a, b)
        ensures |p| <= 1 && (p == [] ==> a == b) && (p != [] ==> a == root && p == [p[0]] && p[0] + 1 == b)
      {
        RankedPath(E, rank, p, a, b);
        if p != [] {
          assert p == [p[0]] && p[1..] == [];
          assert IsPath(E, p[1..], E[p[0]].member, b);
          assert E[p[0]] == E[0] || E[p[0]] == E[1];
        }
      }
    }
    PathEdge(E, 0);
    PathEdge(E, 1);
    assert !TableUnique(E, {m, n});
  }
}
