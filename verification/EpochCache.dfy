/** The epoch check of the set-graph cache, as a step system over structure operations,
    refreshes of any number of processes, and probes inside operations. */
module EpochCache {
  import opened Primitives

  type OpId = nat
  type ProcessId = nat

  /** Epoch of the snapshot a process starts with. Database epochs start at 0 and only grow. */
  const COLD_EPOCH: int := -1

  /** The set-to-set edges and the known sets at one instant, with the epoch read in the same statement. */
  datatype View = View(epoch: int, edges: set<SetMembership>, sets: set<AccountSetId>)

  /** A process serves `cache` and may hold one refresh between its read and its install. */
  datatype Process = Process(cache: View, refresh: Option<View>)

  /** The operation holding the exclusive graph lock, with its uncommitted edges and epoch. */
  datatype Writer = Writer(op: OpId, edges: set<SetMembership>, epoch: int)

  /** `created` holds the sets an open operation created, `sharing` the operations on the shared graph lock.
      `history` records the committed edges of every past epoch; no step reads it. */
  datatype State = State(
    committed: View,
    writer: Option<Writer>,
    sharing: set<OpId>,
    created: map<OpId, set<AccountSetId>>,
    processes: map<ProcessId, Process>,
    probes: map<OpId, View>,
    history: map<int, set<SetMembership>>)

  ghost predicate Writing(s: State, op: OpId) {
    s.writer.Some? && s.writer.value.op == op
  }

  function CreatedBy(s: State, op: OpId): set<AccountSetId> {
    if op in s.created then s.created[op] else {}
  }

  /** What a statement of `op` sees: its own uncommitted writes on top of the committed data. */
  ghost function Visible(s: State, op: OpId): View {
    var sets := s.committed.sets + CreatedBy(s, op);
    if Writing(s, op) then View(s.writer.value.epoch, s.writer.value.edges, sets)
    else View(s.committed.epoch, s.committed.edges, sets)
  }

  /** Every edge runs between existing sets (the foreign keys of the edge table). */
  ghost predicate EndpointsIn(edges: set<SetMembership>, sets: set<AccountSetId>) {
    forall e :: e in edges ==> e.container in sets && e.member in sets
  }

  datatype Step =
    | LockShared(op: OpId)
    | LockExclusive(op: OpId)
    | CreateSet(op: OpId, id: AccountSetId)
    | Mutate(op: OpId, edges: set<SetMembership>)
    | Probe(op: OpId)
    | Commit(op: OpId)
    | Abort(op: OpId)
    | RefreshRead(process: ProcessId)
    | RefreshInstall(process: ProcessId)
    | RefreshFail(process: ProcessId)

  ghost predicate Init(s: State) {
    && s.committed == View(0, {}, {})
    && s.writer == None && s.sharing == {} && s.created == map[] && s.probes == map[]
    && s.history == map[0 := {}]
    && forall p :: p in s.processes ==> s.processes[p] == Process(View(COLD_EPOCH, {}, {}), None)
  }

  /** The state without anything `op` holds. */
  ghost function Ended(s: State, op: OpId): State {
    s.(writer := if Writing(s, op) then None else s.writer,
       sharing := s.sharing - {op},
       created := s.created - {op},
       probes := s.probes - {op})
  }

  /** Taking the shared lock starts a check anew: an earlier probe is not consulted again. Every mutation bumps the
      epoch; a commit publishes the operation's edges, its epoch, and the sets it created at once. */
  ghost predicate NextStep(s: State, t: State, step: Step) {
    match step
    case LockShared(op) =>
      && (s.writer == None || Writing(s, op))
      && t == s.(sharing := s.sharing + {op}, probes := s.probes - {op})
    case LockExclusive(op) =>
      && s.writer == None && s.sharing <= {op}
      && t == s.(writer := Some(Writer(op, s.committed.edges, s.committed.epoch)))
    case CreateSet(op, id) =>
      t == s.(created := s.created[op := CreatedBy(s, op) + {id}])
    case Mutate(op, edges) =>
      && Writing(s, op) && EndpointsIn(edges, Visible(s, op).sets)
      && t == s.(writer := Some(Writer(op, edges, s.writer.value.epoch + 1)))
    case Probe(op) =>
      t == s.(probes := s.probes[op := Visible(s, op)])
    case Commit(op) =>
      && var v := Visible(s, op);
         t == Ended(s, op).(committed := v, history := s.history[v.epoch := v.edges])
    case Abort(op) =>
      t == Ended(s, op)
    case RefreshRead(p) =>
      && p in s.processes && s.processes[p].refresh == None
      && t == s.(processes := s.processes[p := s.processes[p].(refresh := Some(s.committed))])
    case RefreshInstall(p) =>
      && p in s.processes && s.processes[p].refresh.Some?
      && var read := s.processes[p].refresh.value;
         var cache := if read.epoch >= s.processes[p].cache.epoch then read else s.processes[p].cache;
         t == s.(processes := s.processes[p := Process(cache, None)])
    case RefreshFail(p) =>
      && p in s.processes
      && t == s.(processes := s.processes[p := s.processes[p].(refresh := None)])
  }

  ghost predicate Next(s: State, t: State, step: Step) {
    NextStep(s, t, step)
  }

  ghost predicate IsRun(run: seq<State>, steps: seq<Step>) {
    && |run| == |steps| + 1 && Init(run[0])
    && forall i :: 0 <= i < |steps| ==> Next(run[i], run[i + 1], steps[i])
  }

  // ---------------------------------------------------------------- the invariant

  /** A view with the committed edges of its epoch, and all sets they touch. */
  ghost predicate Recorded(s: State, v: View) {
    && 0 <= v.epoch <= s.committed.epoch && v.epoch in s.history && v.edges == s.history[v.epoch]
    && EndpointsIn(v.edges, v.sets)
  }

  /** A view held by a process: cold, or recorded. */
  ghost predicate Served(s: State, v: View) {
    v.epoch == COLD_EPOCH || Recorded(s, v)
  }

  /** A probe saw committed data, or the uncommitted epoch of the writer that took it. Under the shared lock what it
      saw is still committed. */
  ghost predicate Probed(s: State, op: OpId, v: View) {
    && (Recorded(s, v) || (Writing(s, op) && v.epoch > s.committed.epoch))
    && (op in s.sharing && !Writing(s, op) ==> v.epoch == s.committed.epoch)
  }

  ghost predicate WriterOk(s: State) {
    s.writer.Some? ==>
      && var w := s.writer.value;
      && s.sharing <= {w.op}
      && w.epoch >= s.committed.epoch
      && EndpointsIn(w.edges, Visible(s, w.op).sets)
      && (w.epoch == s.committed.epoch ==> w.edges == s.committed.edges)
  }

  ghost predicate Inv(s: State) {
    && Recorded(s, s.committed)
    && (forall e :: e in s.history ==> e <= s.committed.epoch)
    && WriterOk(s)
    && (forall p :: p in s.processes ==> Served(s, s.processes[p].cache))
    && (forall p :: p in s.processes && s.processes[p].refresh.Some? ==> Recorded(s, s.processes[p].refresh.value))
    && (forall op :: op in s.probes ==> Probed(s, op, s.probes[op]))
  }

  /** Later commits record new epochs and leave recorded ones. */
  lemma RecordedStays(s: State, t: State, step: Step, v: View)
    requires Inv(s) && Next(s, t, step) && Recorded(s, v)
    ensures Recorded(t, v)
  {
    hide Served, Probed;
  }

  lemma CommittedStep(s: State, t: State, step: Step)
    requires Inv(s) && Next(s, t, step)
    ensures Recorded(t, t.committed)
    ensures forall e :: e in t.history ==> e <= t.committed.epoch
    ensures WriterOk(t)
  {
    hide Served, Probed;
  }

  lemma ProbesStep(s: State, t: State, step: Step, op: OpId)
    requires Inv(s) && Next(s, t, step) && op in t.probes
    ensures Probed(t, op, t.probes[op])
  {
    hide Served;
    if op in s.probes && Recorded(s, s.probes[op]) { RecordedStays(s, t, step, s.probes[op]); }
  }

  lemma InvStep(s: State, t: State, step: Step)
    requires Inv(s) && Next(s, t, step)
    ensures Inv(t)
  {
    hide Probed, WriterOk, EndpointsIn;
    CommittedStep(s, t, step);
    forall op | op in t.probes ensures Probed(t, op, t.probes[op]) {
      ProbesStep(s, t, step, op);
    }
    forall v | Recorded(s, v) ensures Recorded(t, v) {
      RecordedStays(s, t, step, v);
    }
  }

  lemma {:induction false} InvRun(run: seq<State>, steps: seq<Step>, k: nat)
    requires IsRun(run, steps) && k < |run|
    ensures Inv(run[k])
  {
    hide Next;
    if k > 0 {
      InvRun(run, steps, k - 1);
      assert Next(run[k - 1], run[k - 1 + 1], steps[k - 1]);
      InvStep(run[k - 1], run[k], steps[k - 1]);
    }
  }

  // ---------------------------------------------------------------- what the epoch check proves

  /** In every reachable state, for every process and every probe: an epoch match means the cached edges
      are the ones the probe saw, and every set an edge touches is known to the snapshot. */
  lemma EpochMatchMeansSameEdges(run: seq<State>, steps: seq<Step>, k: nat, p: ProcessId, op: OpId)
    requires IsRun(run, steps) && k < |run|
    requires p in run[k].processes && op in run[k].probes
    requires run[k].processes[p].cache.epoch == run[k].probes[op].epoch
    ensures run[k].processes[p].cache.edges == run[k].probes[op].edges
    ensures EndpointsIn(run[k].probes[op].edges, run[k].processes[p].cache.sets)
  {
    InvRun(run, steps, k);
  }

  /** `op` holds the exclusive lock and its epoch is beyond anything committed. */
  ghost predicate Bumped(s: State, op: OpId) {
    Writing(s, op) && s.writer.value.epoch > s.committed.epoch
  }

  predicate Ends(step: Step, op: OpId) {
    step == Commit(op) || step == Abort(op)
  }

  /** Nobody else can commit an epoch meanwhile, so the operation stays ahead; so does whatever it probed. */
  lemma BumpedStep(s: State, t: State, step: Step, op: OpId)
    requires Inv(s) && Next(s, t, step) && Bumped(s, op) && !Ends(step, op)
    ensures Bumped(t, op) && t.committed.epoch == s.committed.epoch
    ensures op in t.probes && (op in s.probes && step != Probe(op) ==> s.probes[op].epoch > s.committed.epoch) ==>
              t.probes[op].epoch > t.committed.epoch
  {
    hide Served, Probed, Recorded, EndpointsIn;
  }

  lemma AfterBump(run: seq<State>, steps: seq<Step>, i: nat)
    requires IsRun(run, steps) && i < |steps| && steps[i].Mutate?
    ensures Bumped(run[i + 1], steps[i].op)
  {
    hide Served, Probed, Recorded, EndpointsIn;
    InvRun(run, steps, i);
    assert Next(run[i], run[i + 1], steps[i]);
  }

  lemma CachesAreCommitted(s: State, p: ProcessId)
    requires Inv(s) && p in s.processes
    ensures s.processes[p].cache.epoch <= s.committed.epoch
  {
  }

  /** An operation that bumped the epoch matches no snapshot of any process until it ends, whatever the others do
      in between: refreshes, set creations, probes, operations that begin and end. */
  lemma BumpedOpNeverMatches(run: seq<State>, steps: seq<Step>, i: nat, j: nat, k: nat, p: ProcessId, op: OpId)
    requires IsRun(run, steps) && i < j < k < |run|
    requires steps[i].Mutate? && steps[i].op == op && steps[j] == Probe(op)
    requires forall l :: i <= l < k ==> !Ends(steps[l], op)
    requires p in run[k].processes && op in run[k].probes
    ensures run[k].processes[p].cache.epoch != run[k].probes[op].epoch
  {
    hide Next, Inv, Bumped;
    AfterBump(run, steps, i);
    var l := i + 1;
    while l < k
      invariant i < l <= k && Bumped(run[l], op)
      invariant l > j && op in run[l].probes ==> run[l].probes[op].epoch > run[l].committed.epoch
    {
      InvRun(run, steps, l);
      assert Next(run[l], run[l + 1], steps[l]);
      BumpedStep(run[l], run[l + 1], steps[l], op);
      l := l + 1;
    }
    InvRun(run, steps, k);
    CachesAreCommitted(run[k], p);
  }

  /** Caches never go back: a slow refresh cannot replace a newer snapshot. */
  lemma CacheEpochMonotone(s: State, t: State, step: Step, p: ProcessId)
    requires Inv(s) && Next(s, t, step) && p in s.processes
    ensures p in t.processes && s.processes[p].cache.epoch <= t.processes[p].cache.epoch
  {
  }

  /** The lock holder sees its own edges: at an equal epoch the snapshot serves it the committed graph it will extend. */
  lemma LockHolderMatch(run: seq<State>, steps: seq<Step>, k: nat, p: ProcessId)
    requires IsRun(run, steps) && k < |run|
    requires run[k].writer.Some? && p in run[k].processes
    requires run[k].processes[p].cache.epoch == run[k].writer.value.epoch
    ensures run[k].processes[p].cache.edges == run[k].writer.value.edges == run[k].committed.edges
  {
    InvRun(run, steps, k);
  }

  /** Under the shared lock a match is good for the rest of the operation, not just for the instant of the probe:
      the cached edges are the committed ones as long as the lock is held. */
  lemma SharedHolderMatch(run: seq<State>, steps: seq<Step>, k: nat, p: ProcessId, op: OpId)
    requires IsRun(run, steps) && k < |run|
    requires op in run[k].sharing && !Writing(run[k], op)
    requires p in run[k].processes && op in run[k].probes
    requires run[k].processes[p].cache.epoch == run[k].probes[op].epoch
    ensures run[k].processes[p].cache.edges == run[k].committed.edges
  {
    InvRun(run, steps, k);
  }
}
