/** The epoch protocol and the checks it serves, put together: in every reachable state what a process answers from
    memory is what the operation would read. */
module CachedChecks {
  import opened Primitives
  import opened Graph
  import opened SetDags
  import opened GraphCache
  import opened AccountPaths
  import opened Expansion
  import EpochCache

  /** `snapshot` indexes the rows read with the view; `E` lists the edges in the order they were read. */
  ghost predicate SnapshotOf(snapshot: GraphSnapshot, v: EpochCache.View, E: Edges) {
    && snapshot.epoch == v.epoch && snapshot.meta.Keys == v.sets
    && Indexed(snapshot.parents, snapshot.children, E)
    && forall e :: e in E <==> e in v.edges
  }

  /** `overlay` holds the rows of sets the snapshot does not know, as the operation sees them. */
  ghost predicate OverlayOf(overlay: Overlay, snapshot: GraphSnapshot, v: EpochCache.View) {
    forall n :: n in overlay.parents ==>
      n !in snapshot.meta && forall x :: x in overlay.parents[n] <==> SetMembership(x, n) in v.edges
  }

  /** A batch is checked under the exclusive lock against the edges the operation sees, its own included. An equal
      epoch means the snapshot indexes exactly these. */
  lemma BatchCheckServed(run: seq<EpochCache.State>, steps: seq<EpochCache.Step>, k: nat, p: EpochCache.ProcessId,
                         op: EpochCache.OpId, snapshot: GraphSnapshot, E: Edges, visible: Edges)
    requires EpochCache.IsRun(run, steps) && k < |run| && EpochCache.Writing(run[k], op) && p in run[k].processes
    requires SnapshotOf(snapshot, run[k].processes[p].cache, E)
    requires forall e :: e in visible <==> e in EpochCache.Visible(run[k], op).edges
    ensures snapshot.epoch == EpochCache.Visible(run[k], op).epoch ==>
              Caches(snapshot.parents, snapshot.children, visible)
  {
    hide Caches, Indexed, EpochCache.IsRun;
    if snapshot.epoch == EpochCache.Visible(run[k], op).epoch {
      EpochCache.LockHolderMatch(run, steps, k, p);
      IndexedCaches(snapshot.parents, snapshot.children, E, visible);
    }
  }

  /** A classic attach is checked under the shared lock. An equal epoch means snapshot and overlay together mirror
      the committed edges, also where a set was created after the snapshot was taken or by the operation itself. */
  lemma AttachCheckServed(run: seq<EpochCache.State>, steps: seq<EpochCache.Step>, k: nat, p: EpochCache.ProcessId,
                          op: EpochCache.OpId, snapshot: GraphSnapshot, overlay: Option<Overlay>, E: Edges)
    requires EpochCache.IsRun(run, steps) && k < |run| && p in run[k].processes
    requires op in run[k].sharing && !EpochCache.Writing(run[k], op) && op in run[k].probes
    requires SnapshotOf(snapshot, run[k].processes[p].cache, E)
    requires overlay.Some? ==> OverlayOf(overlay.value, snapshot, run[k].probes[op])
    ensures snapshot.epoch == run[k].probes[op].epoch ==>
              Mirrors(KnownParents(snapshot, overlay), E) && forall e :: e in E <==> e in run[k].committed.edges
  {
    hide Indexed, Mirrors, KnownParents, EpochCache.IsRun;
    if snapshot.epoch == run[k].probes[op].epoch {
      EpochCache.EpochMatchMeansSameEdges(run, steps, k, p, op);
      EpochCache.SharedHolderMatch(run, steps, k, p, op);
      if overlay.Some? {
        forall n | n in overlay.value.parents ensures overlay.value.parents[n] == Parents(E, n) {
          UnknownHasNoParents(snapshot, run[k].probes[op], E, n);
          EmptyOrInhabited(overlay.value.parents[n]);
        }
      }
      LookupMirrors(snapshot, overlay, E);
    }
  }

  /** A set the snapshot does not know has no edge upward. */
  lemma UnknownHasNoParents(snapshot: GraphSnapshot, v: EpochCache.View, E: Edges, n: AccountSetId)
    requires n !in snapshot.meta && EpochCache.EndpointsIn(v.edges, snapshot.meta.Keys)
    requires forall e :: e in E <==> e in v.edges
    ensures Parents(E, n) == [] && forall x :: SetMembership(x, n) !in v.edges
  {
    forall x ensures x !in Parents(E, n) {
      ChildrenMember(Reversed(E), n, x);
      forall i | 0 <= i < |E| ensures Reversed(E)[i] != SetMembership(n, x) {
        assert E[i] in E;
      }
    }
    EmptyOrInhabited(Parents(E, n));
  }

  lemma EmptyOrInhabited<T>(s: seq<T>)
    ensures s == [] || exists x :: x in s
  {
    if s != [] { assert s[0] in s; }
  }
}
