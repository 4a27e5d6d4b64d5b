# Verified model of the ledger's core

Cala is a double-entry ledger. Accounts are grouped into account sets, sets into larger sets; a posting writes the
balance of each entry's account and of every set that contains it. This project models the three parts of it where
the promises are global while the code works incrementally, and proves the promises.

**The membership graph.** One Kahn pass over a combined graph decides cycles, path uniqueness (between sets and from
accounts) and the depth bound, and attributes the failure to an edge, the depth overflow by binary search. The cache
validates only the component connected to a proposed batch and the memberships of affected accounts, expands postings
from an epoch-checked snapshot, and checks classic attaches by a path-counting walk that also ends on cyclic graphs.

**Balances.** `SnapshotFold` chains entries into versioned snapshots; the replay inserts back-dated entries into a table
of running totals, shifting later rows in place; the rollup does the same from an event stream that may be cut
anywhere. Each is proved against a plain specification: all entries, in order.

**The protocols.** Epoch cache, membership commits, attach fence, posters' locks, rollup with crashes, and the ledger of
postings and guarded membership changes are step systems; what is said of them holds in every reachable state.

## How the model is laid out

| files | content |
|---|---|
| `Primitives`, `Ordering`, `Sums` | identifiers, facts about lists, the canonical sort, sums over accounts |
| `Graph`, `SetDag`, `Validation` | directed multigraphs by edge position, the Kahn traversal, validation of a batch |
| `Localization`, `GraphCache` | a batch sees only its component; the cache's indexes, worklists and check |
| `AccountPaths`, `Expansion` | the path-counting walk and the upward expansion of a posting |
| `EpochCache`, `CachedChecks` | the epoch protocol, and that it provides what the checks of `GraphCache` and `Expansion` ask for |
| `MembershipProtocol`, `AttachFence`, `LockOrder` | the other concurrent protocols |
| `Snapshots`, `Balances` | the fold, the balance tables, the inline posting of a batch |
| `EntrySort`, `Rollup`, `RollupStream` | sorting by sequence, the rollup of one journal's group, the event stream |
| `EffectiveData` ... `EffectiveBatch` | back-dated entries: the log, one row's shift, the replay, runs, table, ranges, posting, batches |
| `TxTemplate`, `LedgerSums` | the balance check of a transaction; set sums and double entry over whole runs |

Identifiers are natural numbers: opaque values with a total order. A set is backed by an account with the same
identifier. `Decimal` is an unbounded integer, a version a natural number, a date an integer. A hash map is a map whose
iteration order is arbitrary (an arbitrary element is taken from the set of keys). One SQL statement is one atomic read
or update of a table; a transaction's commit publishes at once. In the Kahn traversal and the balance code the source's
objects are classes with the same fields; a ghost field records what was loaded or collected.

## Where code and documentation differ

* **The attach fence has a window.** The lock statement joins the accounts table
  (`cala-ledger/src/posting/repo.rs:358-370`), so an account that commits after that statement began is passed over and
  gets no shared lock, although the next statement reads it. Documentation
  (`cala-ledger/src/account/entity.rs:243-247`) argues that no posting to such an account can be in flight.
  `AttachFence.FenceHolds` proves the fence for every run in which posters start when their accounts exist;
  `AttachFence.FenceExact` proves that this is the condition: a new posting keeps the fence, whatever happens afterwards,
  if and only if its accounts exist when its lock statement starts, or their journal has no sets.
  `AttachFence.LateAccountBreaksFence` is the smallest run that breaks it.
* **A batch does not always write the rows its parts would.** The comment at `cala-ledger/src/posting/mod.rs:623-630`
  says one pass per date is what the postings write one at a time. The replay sorts the entries of a date by their
  sequence number within their transaction. `EffectiveBatch.BatchShowsSameRows` proves that the rows agree exactly when,
  within each date, later postings carry no smaller sequence numbers; `EffectiveHistory.BatchRowsCanDiffer` gives two
  postings whose rows differ, and `EffectiveBatch.BatchShowsSameEndOfDate` proves that the last row of every date
  agrees always.
* **A reversed window underflows.** `find_range` subtracts two unsigned row numbers
  (`cala-ledger/src/balance/effective/repo.rs:165`) without comparing `from` and `until`.
  `EffectiveRange.RangeMeaning` proves that this underflows exactly when an entry is dated after `until` and before
  `from`, hence never for `from <= until`.
* **Posters can deadlock when one of them targets a set.** An entry on a set's account is rejected
  (`cala-ledger/src/posting/mod.rs:402`), but only after the entry locks were taken, by account, currency and journal;
  ancestor locks are taken journal by journal (`cala-ledger/src/posting/mod.rs:425-443`).
  `LockOrder.DeadlockFreeIff` gives the exact condition on the entry lists posters come with: no lock on a set comes
  before one on a plain account, and locks on sets ascend by journal, set and currency. From any two entry locks that
  violate it, `LockOrder.InvertedPairDeadlocks` builds the run in which that batch and one on plain accounts wait for
  each other. Postings to plain accounts always satisfy it (`LockOrder.PlainAscends`).

## Model

Sources are paths below the repository root.

| member | source | states |
|---|---|---|
| SetDags.SetDag.constructor | cala-ledger/src/account_set/graph_validation.rs:126-143 | the adjacency and indegree tables index exactly the given edge list, parallel edges included; the nodes are the endpoints |
| SetDags.SetDag.AddEdge | cala-ledger/src/account_set/graph_validation.rs:126-143 | one more edge: appended to its container's list, the member's indegree raised by one |
| SetDags.SetDag.AddIsolated | cala-ledger/src/account_set/graph_validation.rs:145-147 | the set counts as a node; edges and all indegrees are as before |
| SetDags.SetDag.ChildrenOf | cala-ledger/src/account_set/graph_validation.rs:153-160 | exactly the members of the edges leaving the set, in insertion order |
| SetDags.SetDag.Traverse | cala-ledger/src/account_set/graph_validation.rs:162-191 | every node at most once, containers before members; all nodes are emitted if and only if the graph is acyclic, and then each depth is the longest path to the node |
| SetDags.MaxDepth | cala-ledger/src/account_set/graph_validation.rs:120-122 | on an acyclic graph the greatest depth is attained by a path and exceeded by none; 0 for the empty graph |
| SetDags.SetDag.HasPath | cala-ledger/src/account_set/graph_validation.rs:193-206 | true if and only if a (possibly empty) path leads down from one set to the other, on cyclic graphs too |
| Graph.UniquePathsIffNoDiamond | cala-ledger/src/account_set/graph_validation.rs:239-255 | for acyclic graphs: at most one path between any two sets if and only if no set has an ancestor through two of its incoming edges, which is what the single pass looks for |
| Validation.CollectAncestors | cala-ledger/src/account_set/graph_validation.rs:243-255 | the pass over the topological order succeeds if and only if paths are unique, and then holds each set's ancestors exactly |
| Validation.CheckAccountPaths | cala-ledger/src/account_set/graph_validation.rs:257-275 | accepts if and only if no account has a common ancestor through two of its memberships |
| Validation.BlameCycle | cala-ledger/src/account_set/graph_validation.rs:219-237 | the first proposed edge that lies on a cycle of the combined graph; the first existing edge if none does |
| Validation.DepthMonotone | cala-ledger/src/account_set/graph_validation.rs:300-303 | a prefix of the proposed edges is no deeper than a longer one; what makes the binary search valid |
| Validation.FirstDepthOverflow | cala-ledger/src/account_set/graph_validation.rs:304-324 | the least proposed edge whose prefix exceeds the depth bound, with the depth of exactly that prefix |
| Validation.ValidateSetMemberships | cala-ledger/src/account_set/graph_validation.rs:208-289 | gives the verdict: accepted if and only if acyclic, path-unique between sets and from accounts, and within 16 edges; errors in the order cycle, duplicate path, depth, each with its edge |
| Validation.VerdictUnique | cala-ledger/src/account_set/graph_validation.rs:208-289 | no input has two verdicts, error payload included |
| GraphCache.IndexNodes | cala-ledger/src/account_set/graph_cache.rs:591-613 | the rows of a graph read become an index of exactly their edges and sets |
| GraphCache.IndexedCaches | cala-ledger/src/account_set/graph_cache.rs:591-613 | an index of an edge list in any order serves the table it lists |
| GraphCache.EdgesConnectedTo | cala-ledger/src/account_set/graph_cache.rs:145-172 | exactly the committed edges in the undirected component of the batch |
| GraphCache.AffectedSets | cala-ledger/src/account_set/repo.rs:284-317 | exactly the sets at or below a proposed member in the graph with the batch applied |
| GraphCache.FetchAffectedAccountMemberships | cala-ledger/src/account_set/repo.rs:284-354 | all direct memberships of exactly the accounts that have one in an affected set |
| Localization.LocalVerdict | cala-ledger/src/account_set/graph_cache.rs:552-581 | on a valid graph a verdict on the component and the affected memberships is the verdict on the whole graph and all memberships, payload included |
| GraphCache.AssertValidSetMemberships | cala-ledger/src/account_set/graph_cache.rs:552-581 | from memory or from the full read: the verdict on the whole committed graph and every membership |
| AccountPaths.CountPaths | cala-ledger/src/account_set/graph_validation.rs:68-95 | one account: ends on cyclic graphs; duplicate only if two walks reach one set; unique only if no two do and every traversed set is known |
| AccountPaths.HasDuplicateAccountMembershipPaths | cala-ledger/src/account_set/graph_validation.rs:68-95 | all accounts in any order: `Some(true)` only for a real duplicate, `Some(false)` only for a complete view without one, `None` only if a reachable set is unknown |
| AccountPaths.DuplicateIffNotUnique | cala-ledger/src/account_set/repo.rs:187-224 | on a complete view of the edge table the walk's answer is account-level path uniqueness, as the recursive statement counts it |
| AccountPaths.DuplicateIsConflict | cala-ledger/src/account_set/graph_cache.rs:510-535 | a duplicate found before an unknown set was met is a conflict all the same |
| Expansion.ExpandAccount | cala-ledger/src/account_set/graph_cache.rs:626-703 | one account: the reachable sets of the journal, each once, walking through other journals; `None` if and only if a reachable set is unknown |
| Expansion.Expand | cala-ledger/src/account_set/graph_cache.rs:626-703 | per account exactly its sets; the lock list is sorted without repetition and holds exactly the non-EC ancestors with the currencies of their own leaves |
| Expansion.LookupMirrors | cala-ledger/src/account_set/graph_cache.rs:489-508 | snapshot and overlay together answer as the edge table does |
| Expansion.ExpansionIsWalk | cala-ledger/src/account_set/repo.rs:670-724 | the sets the expansion reaches are those the recursive walk reaches |
| Expansion.AssertNoDoubleMembership | cala-ledger/src/account_set/graph_cache.rs:424-535 | attached if and only if old and new memberships of the accounts leave every set reached once, whichever path answers |
| EpochCache.EpochMatchMeansSameEdges | cala-ledger/src/account_set/graph_cache.rs:292-376 | in every reachable state: a probe whose epoch equals a process's snapshot saw exactly the cached edges, and their sets are known |
| EpochCache.BumpedOpNeverMatches | cala-ledger/src/account_set/repo.rs:401-403 | an operation that bumped the epoch and probed afterwards matches no snapshot of any process until it ends, whatever steps of whomever come between the bump, the probe and the match |
| EpochCache.CacheEpochMonotone | cala-ledger/src/account_set/graph_cache.rs:725-757 | a slow refresh never replaces a newer snapshot |
| EpochCache.LockHolderMatch | cala-ledger/src/account_set/graph_cache.rs:552-566 | under the exclusive lock an equal epoch serves the graph about to be extended |
| EpochCache.SharedHolderMatch | cala-ledger/src/account_set/graph_cache.rs:394-402 | under the shared lock a match stays good for the rest of the operation: the cached edges are the committed ones as long as the lock is held |
| CachedChecks.BatchCheckServed | cala-ledger/src/account_set/graph_cache.rs:552-581 | in every reachable state, under the exclusive lock: an equal epoch means the snapshot indexes exactly the edges the operation sees, as the batch check asks |
| CachedChecks.AttachCheckServed | cala-ledger/src/account_set/graph_cache.rs:424-508 | in every reachable state, under the shared lock: an equal epoch means snapshot and overlay mirror the committed edges, as the attach check asks, also for sets created since or by the operation itself |
| MembershipProtocol.CommittedGraphAlwaysValid | cala-ledger/src/account_set/repo.rs:36-76 | in every state of every interleaving of transactions that take any sequence of structure changes, classic attaches and detaches, and lock-free creates: acyclic, unique paths between sets and from accounts, depth bound |
| MembershipProtocol.CountDecidesAttach | cala-ledger/src/account_set/mod.rs:245-263 | the attach check reads only rows of the attached accounts, and accepts if and only if they and the new rows conflict nowhere |
| MembershipProtocol.VerdictDecidesStructure | cala-ledger/src/account_set/mod.rs:264-272 | a structure batch passes its check if and only if the tables stay valid with it |
| MembershipProtocol.FreshMembersKeepUnique | cala-ledger/src/account/entity.rs:248-260 | one membership each of fresh accounts needs no check: set-level uniqueness covers it |
| MembershipProtocol.TwoInitialSetsNeedACheck | cala-ledger/src/account/entity.rs:283-301 | two initial sets would not be covered: a valid graph in which they share an ancestor |
| AttachFence.FenceHolds | cala-ledger/src/balance/mod.rs:12-29 | over every interleaving in which posters start when their accounts exist: every committed entry was folded into exactly the sets its account has in that journal, at its commit and ever after |
| AttachFence.FenceExact | cala-ledger/src/posting/repo.rs:358-370 | in every state of every such run: a new posting keeps the fence over all continuations if and only if its accounts exist when its lock statement starts, or their journal has no sets |
| AttachFence.UncoveredBreaks | cala-ledger/src/posting/repo.rs:358-370 | from any state, a posting that starts before one of its accounts exists can be overtaken by a guard: its entry misses a set |
| AttachFence.LateAccountBreaksFence | cala-ledger/src/posting/repo.rs:358-370 | the smallest run from the empty ledger: the account is created between the start of the lock statement and the read |
| LockOrder.BalanceKeys.Push | cala-ledger/src/posting/repo.rs:111-120 | one more triple at the end of the three lists |
| LockOrder.BalanceKeys.SortedDeduped | cala-ledger/src/posting/repo.rs:125-142 | drains into the same triples, each once, in the order account, currency, journal |
| LockOrder.EntryLocks | cala-ledger/src/posting/repo.rs:358-370 | the exclusive locks of the entry phase: exactly the inline accounts that exist, in that order |
| LockOrder.AncestorLocks | cala-ledger/src/posting/mod.rs:455-482 | journal by journal in ascending order, within a journal by set and currency, exactly the resolved pairs |
| LockOrder.ProgramAscends | cala-ledger/src/posting/mod.rs:455-482 | entry locks on plain accounts followed by ancestor locks on sets ascend in one order |
| LockOrder.NoCircle | cala-ledger/src/posting/mod.rs:425-443 | in a state satisfying the invariant no chain of waiting batches returns to its start |
| LockOrder.NeverDeadlocked | cala-ledger/src/posting/mod.rs:425-443 | in every reachable state of posters whose entry lists ascend in the common order: no circle of waits, and while a batch is unfinished some batch can move |
| LockOrder.PlainAscends | cala-ledger/src/posting/repo.rs:358-370 | entry lists on plain accounts ascend in the common order |
| LockOrder.InvertedPairDeadlocks | cala-ledger/src/posting/mod.rs:402-408 | from any two entry locks of a list that do not ascend, for any hierarchy: a run in which that batch and one on plain accounts wait for each other |
| LockOrder.DeadlockFreeIff | cala-ledger/src/posting/mod.rs:402-443 | no run of admitted batches reaches a circle of waits if and only if every admitted entry list ascends in the common order |
| Snapshots.FoldedTotals | cala-ledger/src/balance/snapshot.rs:59-108 | a fold adds per layer and side exactly the units of its entries, counts them in the version, and points each layer at its last entry |
| Snapshots.SnapshotFold.Apply | cala-ledger/src/balance/snapshot.rs:200-219 | one application: chains onto the latest snapshot of the key, else onto the loaded balance, else onto nothing; keys that were not loaded are skipped |
| Snapshots.SnapshotFold.IntoSnapshots | cala-ledger/src/balance/snapshot.rs:221-224 | per key, the rows of every application in order, whatever the order of the keys |
| Snapshots.FromEntries | cala-ledger/src/balance/snapshot.rs:118-138 | per loaded key, one row per entry that reaches it through its leaf or a mapped set, chained in order |
| Snapshots.FromEcEntries | cala-ledger/src/balance/snapshot.rs:150-173 | the same through the eventually consistent sets, and leaves only if they are eventually consistent |
| Snapshots.EmittedShape | cala-ledger/src/balance/snapshot.rs:118-225 | from version `v`, `n` touches write exactly the versions `v+1 .. v+n` in order, the k-th being the base plus the first k deltas |
| Snapshots.EmittedConcat | cala-ledger/src/balance/snapshot.rs:118-225 | folding a concatenation is folding the parts with the map updated between them |
| Balances.BalanceTables.InsertNewSnapshots | cala-ledger/src/balance/repo.rs:468-550 | appends every row to the history; each current balance ends at its last row, whatever the chunking |
| Balances.FoldBalances | cala-ledger/src/posting/mod.rs:541-603 | a batch emits for every synchronous balance one row per entry that reaches it in its own journal, and nothing else |
| Balances.PostSettled | cala-ledger/src/posting/mod.rs:541-603 | every synchronous balance ends where its own entries in input order take it; balances the rollup owns stay |
| Balances.BatchIsSequential | cala-ledger/src/posting/mod.rs:541-603 | posting a batch leaves every balance where posting its parts one after the other leaves it |
| EntrySort.SortSorts | cala-ledger/src/ec_rollup.rs:168-192 | the sort by sequence orders, keeps every entry, and keeps the order of equal sequence numbers |
| Rollup.FoldGroup | cala-ledger/src/balance/mod.rs:337-360 | chaining a group's transactions in memory emits what one fold of all their entries emits |
| Rollup.ApplyGroup | cala-ledger/src/balance/mod.rs:295-365 | one journal's group moves exactly that journal's balances by exactly its entries |
| Rollup.GroupByJournal | cala-ledger/src/balance/mod.rs:281-287 | every journal of the batch has one group, which holds its transactions in their order |
| Rollup.ApplyEcRollup | cala-ledger/src/balance/mod.rs:276-293 | applying the groups journal by journal leaves what applying all transactions in order leaves |
| RollupStream.EcRollupBatch.PushTx | cala-ledger/src/ec_rollup.rs:134-136 | one more transaction collected, in order |
| RollupStream.EcRollupBatch.PushEntry | cala-ledger/src/ec_rollup.rs:138-143 | one more entry filed under its transaction, in order |
| RollupStream.EcRollupBatch.MissingEntryIds | cala-ledger/src/ec_rollup.rs:148-163 | exactly the entries of collected transactions that were not collected |
| RollupStream.EcRollupBatch.IntoRollupTxns | cala-ledger/src/ec_rollup.rs:168-192 | the collected transactions in order, each with its complete entry set sorted by sequence, whatever part of it was collected |
| RollupStream.Flush | cala-ledger/src/ec_rollup.rs:234-249 | balances move by exactly the transactions of the batch |
| RollupStream.SameAncestorsSameBalance | cala-ledger/src/balance/mod.rs:308-317 | mappings that give the entry accounts the same ancestors, in any order, fold the transactions alike |
| RollupStream.CheckpointBalances | cala-ledger/src/ec_rollup.rs:204-249 | however the stream is cut, wherever crashes happen and whatever memberships change between flushes: at checkpoint p, one fold of exactly the complete transactions of the first p events along the ancestors their accounts have now |
| RollupStream.CutsDoNotMatter | cala-ledger/src/ec_rollup.rs:204-249 | two runs agree wherever their checkpoints and the ancestors of the applied accounts agree |
| EffectiveData.RowMeaning | cala-ledger/src/balance/effective/data.rs:110-200 | a row of the table: per layer the prefix sums and the last entry of the layer in the prefix, version within the date, all-time version overall |
| EffectiveTable.VersionStep | cala-ledger/src/balance/effective/data.rs:131-138 | versions are dense per date: 1 at its first entry, then one more each |
| EffectiveShift.ShiftRowMeaning | cala-ledger/src/balance/effective/data.rs:154-196 | one later row: every layer moves by the diff; the layer the row wrote keeps its entry, the others take the diff's, and the diff takes the row's |
| EffectiveShift.RowShift | cala-ledger/src/balance/effective/data.rs:154-196 | shifting row k of the old log gives row k+n of the log with the entries inserted, and prepares the diff for the next row |
| EffectiveReplay.EntryStep | cala-ledger/src/balance/effective/data.rs:131-153 | one replayed entry gives the next row; the version restarts when the date changes |
| EffectiveReplay.SortedUpdates | cala-ledger/src/balance/effective/data.rs:257-275 | whatever order the rows were loaded in, the replay sees the entries by sequence and then the rows in table order |
| EffectiveReplay.NeverMixed | cala-ledger/src/balance/effective/data.rs:264-266 | a row and an entry of one date are never compared |
| EffectiveReplay.EffectiveBalanceData.Push | cala-ledger/src/balance/effective/data.rs:105-108 | one more entry at the posting date |
| EffectiveReplay.EffectiveBalanceData.ReCalculateSnapshots | cala-ledger/src/balance/effective/data.rs:110-200 | in place: the updates become the rows, from the posting date on, of the log with the entries inserted |
| EffectiveReplay.EffectiveBalanceData.IntoSnapshots | cala-ledger/src/balance/effective/data.rs:79-103 | the rows to write, numbered densely behind those left in place |
| EffectiveTable.Find | cala-ledger/src/balance/effective/repo.rs:50-87 | the latest row on or before a date is the running total of all entries dated on or before it; none if there are none |
| EffectiveTable.OrdersAgree | cala-ledger/src/balance/effective/repo.rs:958-976 | ordering rows by date and version is ordering them by all-time version |
| EffectiveTable.UniqueByDateAndVersion | cala-ledger/src/balance/effective/repo.rs:1159-1223 | no balance has two rows of one date and version: the insert never violates the table's uniqueness |
| EffectiveRange.FindRangeCumulative | cala-ledger/src/balance/effective/repo.rs:95-166 | the bounds are the balances before `from` and at `until`; not found and underflow exactly as the row numbers say |
| EffectiveRange.RangeMeaning | cala-ledger/src/balance/account_balance.rs:171-213 | open is everything before `from`, close everything up to `until`, the period what the window holds, open plus period is close on every layer and side, the period's version counts the window's entries; underflow exactly for an occupied gap of a reversed window |
| EffectiveRange.FromBoundsAgrees | cala-ledger/src/balance/account_balance.rs:219-226 | the batch lookup gives the same range as the single one except when nothing is dated up to `until` but something before `from` |
| EffectivePosting.LoadLater | cala-ledger/src/balance/effective/repo.rs:925-957 | the later rows of a balance, each once, in some order |
| EffectivePosting.LoadLast | cala-ledger/src/balance/effective/repo.rs:958-976 | the row with the greatest all-time version on or before the date is the last running total there |
| EffectivePosting.EffectiveBalanceRepo.FindForUpdate | cala-ledger/src/balance/effective/repo.rs:905-1023 | loads and deletes the later rows of exactly the eligible pairs; every other row stays |
| EffectivePosting.PushEntries | cala-ledger/src/balance/effective/mod.rs:255-268 | every loaded balance is pushed exactly the entries that reach it, in order; the rollup variant pushes leaves only if they are its own |
| EffectivePosting.CollectSnapshots | cala-ledger/src/balance/effective/mod.rs:273-276 | exactly the rewritten rows of every loaded balance |
| EffectivePosting.EffectiveBalanceRepo.Post | cala-ledger/src/balance/effective/mod.rs:241-282 | after any run of postings with any dates the table is, balance by balance, the running totals in (date, call order, sequence) order |
| EffectivePosting.NextProper | cala-ledger/src/posting/mod.rs:541-603 | entries that reach no account twice keep a balance's entries pairwise different |
| EffectiveHistory.OrderDoesNotMatter | cala-ledger/src/balance/effective/repo.rs:50-87 | totals and counts up to a date do not depend on the order of the postings |
| EffectiveHistory.GroupingDoesNotMatter | cala-ledger/src/balance/effective/repo.rs:50-87 | nor on how postings are split or grouped: they depend only on which entries were posted at which date |
| EffectiveBatch.FoundTotals | cala-ledger/src/balance/effective/repo.rs:50-87 | what is found at a date is, per layer and side, everything posted on or before it, and its all-time version counts those entries |
| EffectiveBatch.Involved | cala-ledger/src/posting/mod.rs:664-689 | exactly the pairs some entry reaches, kept to the accounts of this path |
| EffectiveBatch.ApplyEach | cala-ledger/src/balance/mod.rs:367-398 | the rollup: every balance sees the transactions one by one, in order |
| EffectiveBatch.UpdateEffectiveBalances | cala-ledger/src/posting/mod.rs:636-704 | the inline batch: every balance sees one posting per date, in ascending order, holding everything of that date in input order |
| EffectiveHistory.BatchEqualsSequential | cala-ledger/src/posting/mod.rs:623-635 | a batch leaves the log its parts would leave if and only if, within each date, later parts carry no smaller sequence numbers |
| EffectiveBatch.BatchShowsSameRows | cala-ledger/src/posting/mod.rs:623-635 | row for row, an inline batch of new entries equals its transactions one by one under exactly that condition |
| EffectiveBatch.BatchShowsSameEndOfDate | cala-ledger/src/posting/mod.rs:623-635 | at the end of every date both agree always: date, versions, and every total |
| EffectiveHistory.BatchRowsCanDiffer | cala-ledger/src/posting/mod.rs:623-630 | two postings of one date whose batch writes other rows than they do one by one |
| TxTemplate.PrepEntries | cala-ledger/src/tx_template/mod.rs:211-269 | entries numbered from one; accepted if and only if every currency and layer nets to zero, else an unbalanced pair with its nonzero total |
| LedgerSums.SetBalanceIsLeafSum | cala-ledger/src/account_set/mod.rs:195-275 | in every reachable state a set's balance is the sum over the leaf accounts below it, per currency, layer and side |
| LedgerSums.SetBalanceIsMemberSum | cala-ledger/src/account_set/mod.rs:195-275 | and the sum of the balances of its direct members, accounts and sets; rests on path uniqueness |
| LedgerSums.InlinePostingIsAStep | cala-ledger/src/posting/mod.rs:541-603 | the result of the inline posting is a step of the ledger when every balance is maintained inline |
| LedgerSums.ExpansionResolves | cala-ledger/src/posting/mod.rs:455-505 | the resolved mappings of an account are the sets of the journal that contain it, each once |
| LedgerSums.QuietBelow | cala-ledger/src/balance/repo.rs:358-393 | the guard looks at the member only: nothing below a set without activity has activity |
| LedgerSums.PartsAreApart | cala-ledger/src/account_set/graph_validation.rs:208-289 | path uniqueness keeps the parts of a set disjoint |
| LedgerSums.PostMoves | cala-ledger/src/balance/snapshot.rs:59-138 | a posting moves a balance by the units that reach it |
| LedgerSums.DoubleEntryConserved | cala-ledger/src/tx_template/mod.rs:240-266 | if every posted transaction passed the balance check, the plain accounts of each journal always carry equal debits and credits in every currency and layer |

## Left out

- Timestamps (`created_at`, `modified_at`), entry metadata, descriptions and entry types: carried along, never decided on.
- Decimal scale and overflow, the 32-bit widths of versions and row numbers (except the subtraction in `find_range`), hash collisions of lock keys: numbers are unbounded, keys are themselves.
- Template evaluation: entries arrive evaluated, and an evaluation error is not part of this model; fresh entry ids are a parameter.
- Velocity limits: their conditions are expressions of the template language, and their fold repeats the snapshot fold. The locks they take are not in `LockOrder`.
- Template version refresh and its supplemental locks: a documented exception to the lock order.
- Locked accounts and journals, duplicate external ids, batch size limits: checks that reject a batch before anything is written.
- SQL text, encodings, pagination and cursors, listing queries, event hydration, publishing, error conversions.
- The recursive statements the cache falls back to: their answers are parameters with the meaning the statement has.
- Job runtime and outbox: delivery is in order, a flush commits with its checkpoint.
- RollupStream.CheckpointBalances: memberships change freely between flushes except for accounts with a posted entry in the journal, whose ancestors the attach guard keeps (`AttachFence`).
- AttachFence.FenceHolds: account memberships only, with set-to-set edges fixed; it holds for runs in which posters start when their accounts exist, see above.
- LedgerSums.SetBalanceIsLeafSum: every balance is maintained inline and every step is atomic; sets the rollup owns are behind until it catches up. The guard's second condition, no posted entry, then follows from the first: an entry comes with a balance row.
- LedgerSums.SetBalanceIsMemberSum: as LedgerSums.SetBalanceIsLeafSum.
- LockOrder.NeverDeadlocked: posters among themselves; the shared account locks and guards are in `AttachFence`.
- LockOrder.DeadlockFreeIff: an ancestor phase may lock a set's balance in any journal, where the source locks it in the set's own; batches on plain accounts, eventually consistent ones included, are always admitted.
- AccountPaths.HasDuplicateAccountMembershipPaths: three one-way answers, as the walk may meet a duplicate or an unknown set first; on a complete view `DuplicateIffNotUnique` makes the answer exact.
- EffectivePosting.EffectiveBalanceRepo.FindForUpdate: one balance is loaded after the other where the source reads all pairs in one statement; the rows are the same because pairs do not share rows.
- EffectiveBatch.UpdateEffectiveBalances: the groups are a map with a list of keys in order of appearance where the source keeps one list of pairs.
