# wdrip, modelled in Dafny

wdrip is an operator that keeps a Kubernetes control plane alive on cloud machines. This
project models the parts of it whose correctness depends on how steps interleave, fail and
crash, and states and proves what they promise.

**The control plane.** Four lists describe it: machines of the scaling group, Master objects,
master nodes, and etcd members. `Triple`, `TripleScan`, `TripleJoin` and `TripleDiff` model how
three of the lists are joined into rows and how rows are classified. `EtcdMembers` and `Scaling`
model which members may be removed and how the group shrinks. `ControlPlane` is a state machine
of two processes, the healer (repair passes) and the scaler (batches), in which every remote
call is one step that may fail, may take effect without saying so, or may be the last before a
crash; the two processes interleave freely and may read their lists at different moments.
`ScaleInSafety` proves what every scale-in run keeps, `ScaleLimits` what asking for no machine and
growing again cost and when the majority holds nevertheless, `HealerSafety` what runs of repair
passes keep when machines are reset, `Passes` what finished passes achieve and where repeated
passes lead. `Healing` and `Reconcile` are the methods as the code has them, on mutable lists,
each proved to amount to a run of that machine (`PassRun`, `HealView` and `NodeRepair` supply the
steps in between), so that whole-run safety holds of the code itself. `Operator` puts them together
turn by turn, and `Completion` shows where the code leads when nothing fails.

**The etcd join protocol.** `EtcdJoin` is a state machine of any number of joiners that share one
membership: list, wait, add oneself with retries, list again, back off.

**The backup index.** `TimeFormat`, `BackupOrder`, `Backups` and `SnapshotIndex` model backup,
collection and recovery over an object store whose calls fail, with a ghost history of the store
so that what holds after every single call can be stated.

**Smaller cores.** `Monitor` (thresholds and pauses of the recovery monitor), `PathWalk`,
`PathLaws` and `Unstructured` (reading and writing JSON along a path), `Pruning` (empty values
before hashing) and `Publish` (published addresses).

Where a promise turns out false of the code, the code is kept as it is, a lemma gives a concrete
input, and another says exactly when the promise holds: a handover that stops half-way
(`HalfHandover`, `HealthyMeansMembersMatch`), a target of zero that loses the majority
(`ZeroLosesMajority`, `MajorityIffMachines`), growth that makes a later batch lose it
(`GrowthLosesMajority`, `GrowthAloneLosesMajority`, `BatchSafeIff`, `GuardedRunsKeepMajority`),
Master creations whose failure is only logged (`SilentCreateFailure`, `MasterSureIff`), a pass
that takes the member of a live machine away (`ResetDropsMember`, `LiveMemberKept`), a second pass
that deletes members (`SecondPassDeletes`, `SecondPassResets`, `SecondPassDeletesNothing`), ids
that hide in others (`HiddenId`, `ScanExact`), an orphan Master hidden by another (`HiddenOrphan`,
`OrphanPicked`), a joiner that was a member already (`MemberBacksOff`, `LosableIff`), a join
inside another's window (`RemovalLetsAnotherIn`, `SerialisedJoin`), two backups in one minute
(`SharedMinute`, `CollectionIsSafeIff`), reads that create maps (`ReadCreates`, `ReadIsPure`),
failed writes that do (`FailedWriteCreates`, `FailedSliceWrite`), and reads that miss a write
(`ReadMissesWrite`, `ComplexSetThenGet`).

Assumptions of the control-plane model:

- Machines leave only through batches and handovers and come only through scale-out, node
  objects are deleted only by repair passes, and a machine joins only when a pass repairs it.
- Machine addresses are not reused, Masters and nodes carry the address and id of their machine,
  and object names, ids and member ids are unique.
- `etcdctl endpoint status` answers for a Master's address only if a member is there, and a
  member listing is current.
- A call that takes effect does so before its reply, or its loss, is seen.
- etcd carries out every removal it is asked for, also that of its only member. A server with its
  default reconfiguration check refuses that one; the membership is then never empty, and
  `PassesKeepMajority` and `GuardedRunsKeepMajority` give the majority in all runs they speak of.

## Model

| member | source | states |
|---|---|---|
| `ScaleInSafety.ScaleInIsSafe` | pkg/operator/controllers/master/masterset.go:132-261 | after any scale-in run of healer and scaler steps from a healthy start (targets of at least one, any victims, any interleaving, any call failing or taking effect unnoticed, any crash): a strict majority of the etcd members has a machine; the guard of `EtcdMemDiff` refuses no cleanup; when the scaler has found the cluster healthy the members are the machines, if and only if no handover stopped between its two removals |
| `ScaleInSafety.HealthyMeansMembersMatch` | pkg/operator/controllers/master/masterset.go:196-202 | in every reachable state that looks healthy and is not inside a handover, the members are the machines if and only if there are equally many of both, the comparison that the code announces and does not make; with any number of machines but two they always are |
| `ScaleInSafety.HealthyIsEnoughAboveOne` | pkg/operator/controllers/master/masterset.go:203-203 | in a scale-in that never asks for fewer than two, a healthy look always means that the members are the machines |
| `ScaleInSafety.TwoOrMoreNeverHalf` | pkg/operator/controllers/master/masterset.go:203-217 | such a scale-in makes no handover, so none stops half-way |
| `ScaleInSafety.HalfHandover` | pkg/operator/controllers/master/masterset.go:203-217 | a concrete run to the exception: the follower leaves etcd, removing its machine fails, and the control plane looks healthy with a machine that is no member |
| `ScaleInSafety.RunKeeps` | pkg/operator/heal/healet.go:348-396 | every run of the two processes keeps the invariant: live majority, every machine and every member still has its node, every old snapshot knows at least the present machines |
| `ScaleInSafety.GuardAccepts` | pkg/operator/heal/triple.go:437-441 | with a live majority the guard cannot refuse, however old the snapshot of the machines |
| `ScaleInSafety.RepairKeeps` | pkg/operator/heal/healet.go:497-522 | within scale-in runs a hard repair changes no etcd membership |
| `ScaleLimits.GrowthLosesMajority` | pkg/operator/controllers/master/masterset.go:245-249 | a concrete run that grows again after a half handover and loses the majority, so the limit to scale-in is needed |
| `ScaleLimits.GrowthAloneLosesMajority` | pkg/operator/controllers/master/masterset.go:245-253 | a concrete run without any half handover: a newcomer gets its node and its Master but does not become a member, the control plane looks healthy, and the next batch loses the majority |
| `ScaleLimits.BatchSafeIff` | pkg/operator/controllers/master/masterset.go:250-253 | if every member has a machine, a batch of up to k machines keeps the majority, whichever they are, if and only if 2k is less than the number of members |
| `ScaleLimits.GuardedRunsKeepMajority` | pkg/operator/controllers/master/masterset.go:194-261 | all runs, growth and any targets included, from any start with a live majority: if the scaler acts only between passes and counts the members before machines go, the majority holds exactly as long as there is a member |
| `ScaleLimits.ZeroLosesMajority` | pkg/operator/controllers/master/masterset.go:250-253 | asking for no machine loses the majority |
| `ScaleLimits.MajorityIffMachines` | pkg/operator/controllers/master/masterset.go:236-261 | in every run without growth, whatever numbers are asked for, zero and less included, the majority holds if and only if there is a machine left |
| `HealerSafety.MajorityIsSafeIff` | pkg/operator/heal/healet.go:348-396 | repair passes on a fixed set of machines, from any start with a live majority and a live Master: no run, whatever fails, can lose the majority if and only if some member's machine has a node |
| `HealerSafety.PassesKeepMajority` | pkg/operator/heal/healet.go:348-396 | in all such runs, resets included, the majority holds exactly as long as there is a member |
| `HealerSafety.PassIsRun` | pkg/operator/heal/healet.go:348-396 | every finished pass, seen as what it does to the cluster, is a run of the state machine |
| `Operating.Operate` | pkg/operator/controllers/master/masterset.go:132-261 | the operator's own code, any number of reconciliations towards any numbers of machines with repair passes in between and any call failing, is a run of the state machine; if the numbers are those of a scale-in (at least one, never growing), a live majority holds after every single step of it and the machines never get fewer than asked; it makes one turn for each number, and if no call fails every turn is a finished pass over an unhealthy cluster, nothing where the number is right, and else exactly one order |
| `Operating.Turn` | pkg/operator/controllers/master/masterset.go:132-140 | a reconciliation, and perhaps a pass: what was asked of machines is what these two asked, and without a failed call both did their work |
| `Completion.RepairAll` | pkg/operator/heal/healet.go:348-463 | repeated passes of the code from a live Master on: if no call fails every pass finishes; if also the missing Masters get created and each machine tended to gets a ready node, every pass takes one off the measure, and one pass after it is used up the system is consistent |
| `Completion.ScaleInAll` | pkg/operator/controllers/master/masterset.go:132-261 | scale-in by the code from four equal lists of n machines with n - 1 <= 2^k: if no call fails and the group does what it is told, k + 1 rounds end with exactly the machines asked for, and Masters, nodes and etcd members are those machines |
| `Completion.ScaleRound` | pkg/operator/controllers/master/masterset.go:132-261 | a reconciliation and the pass after it, from four equal lists, are one batch after which the four lists are equal again |
| `Reconciling.Reconcile` | pkg/operator/controllers/master/masterset.go:132-234 | one reconciliation towards any number, success or failure, is a run of the state machine; it never passes the wanted number and never loses half of three machines or more; if no call fails, an unhealthy cluster with a Master gets a finished repair pass and keeps its machines, and a healthy one gets exactly one order towards the number, or nothing where there are that many nodes or machines |
| `Reconciling.QuorumScale` | pkg/operator/controllers/master/masterset.go:236-261 | nothing happens when the number is right; a scale-in is never reported as done; the result lies between the old and the wanted number, is a strict majority of three machines or more, and reaches one only from two; on a healthy cluster and without a failed call exactly one order is given, the group being told the number of the batch, and a call that failed nevertheless changed nothing |
| `Reconciling.Ready` | pkg/operator/controllers/master/masterset.go:142-192 | a batch is gone for if and only if every call in front of it is answered and there are neither as many nodes nor as many machines as wanted |
| `Reconciling.Scale` | pkg/operator/controllers/master/masterset.go:194-231 | the scale function, growing or shrinking: on an unhealthy cluster it does nothing and reports success; otherwise it is a run of the state machine that never passes what was asked and consists of reading the lists and exactly one order; it does nothing on a healthy cluster only if a listing failed |
| `Reconciling.HandOver` | pkg/operator/controllers/master/masterset.go:203-217 | the step to one machine, in this order: the follower's member, then its machine; on success exactly these two are gone, and if both endpoints named one leader among them the survivor is that leader, with its member and on its own machine; on failure the run says what is left half done, and if every Master has its machine, stopping without a failed call means that nothing was changed |
| `Reconciling.RemoveFollower` | pkg/operator/heal/healet.go:206-248 | the member removed is that of the Master whose endpoint did not hold itself to be the leader; its endpoint is returned; both Masters were members |
| `Reconciling.LeaderIsOther` | pkg/operator/heal/healet.go:233-246 | if both endpoints name one leader among them, the Master that is not removed is the leader's |
| `Reconciling.FollowersMachine` | pkg/operator/controllers/master/masterset.go:263-276 | the machine that `findId` finds by the follower's endpoint is the follower's own |
| `Reconciling.MachineFound` | pkg/operator/controllers/master/masterset.go:263-276 | `findId` finds every machine that is in the group |
| `Reconciling.Endpoints` | pkg/actions/etcd/etcd.go:312-335 | one status per Master, each from the member at that Master's address |
| `Reconciling.Healthy` | pkg/operator/heal/healet.go:131-138 | true exactly when the lists could be read and the three id sets are equal with every node ready |
| `Reconciling.ScaleMasterGroup` | pkg/iaas/provider/alibaba/scaling.go:160-210 | the group is told the number; the number of machines ends between the old one and that: any may leave, or new ones come, and nothing else changes |
| `Reconciling.RemoveMachine` | pkg/iaas/provider/alibaba/scaling.go:281-328 | exactly the named machine leaves, or none |
| `Operating.RunQuorate` | pkg/operator/controllers/master/masterset.go:194-261 | every prefix of a run from a healthy start ends with a live majority |
| `Healing.Plane.FixMasterNode` | pkg/operator/heal/healet.go:348-396 | a pass, success or failure, is a run of the state machine; a reported success is a finished pass in the sense of `PassDone`, in which each missing Master was asked for once and the machine that is due was tended to; if the Masters were created and that machine has a ready node it is a `GoodRound`, by which passes converge; it fails only if a remote call failed or there was no Master |
| `Healing.Plane.FixUpMeta` | pkg/operator/heal/healet.go:548-564 | deletes exactly the Masters without a machine, then recreates those that live nodes miss; stops at the first failed deletion; amounts to the run it returns |
| `Healing.Plane.FixMasterCRD` | pkg/operator/heal/healet.go:405-427 | each missing Master is asked for once, is created under its own id as name or its creation failed, and nothing else changes |
| `Healing.Plane.FixUpEtcd` | pkg/operator/heal/healet.go:524-546 | without a Master nothing is done; otherwise exactly the members without a machine go, unless the guard refused or a removal failed |
| `Healing.Plane.FixUpNode` | pkg/operator/heal/healet.go:429-463 | deletes exactly the nodes without a machine, then tends to one machine: that of the first row without a node, else some unready one, and none only if there is none |
| `Healing.Plane.RepairOne` | pkg/operator/heal/healet.go:443-463 | the machine of the first row without a node is tended to, or else some unready one, and none only if there is none; no other machine is touched |
| `Healing.Plane.FixUpHard` | pkg/operator/heal/healet.go:497-522 | the kubelet is restarted; a machine heard of again gets its labels, one not heard of is handed to a reset; an unready node with an object is at most made ready, a machine without a node may be reset, and nothing else is touched |
| `Healing.Plane.Reset` | pkg/operator/heal/operation.go:170-232 | nothing is asked of the machine if it is throttled or not admitted; else, unless a call fails, its disk is replaced, and never while it is a member of etcd; only its own member, Master and node change, and nothing for an unready node that has an object |
| `Healing.TreatedIsGood` | pkg/operator/heal/healet.go:429-463 | a pass that created the missing Masters and left the machine it tended to with a ready node is a good round |
| `Healing.Plane.RemoveEtcd` | pkg/operator/heal/operation.go:235-246 | no member but that of the given address is removed, and after success that one is gone |
| `Healing.Randn` | pkg/operator/heal/healet.go:619-624 | zero, or an index below n - 1: the last one is never drawn, and every one before it can be |
| `Healing.MemDiffKeys` | pkg/operator/heal/triple.go:423-443 | the removal list on members and addresses is the guarded set difference on machines |
| `NodeRepair.AdmitNode` | pkg/operator/heal/operation.go:129-168 | answers whether the node is ready: an unready node with an object is never admitted; without one, the first listed node with the machine's id decides, none such admits, and a failed listing admits if and only if it says not found |
| `NodeRepair.ReadinessAgrees` | pkg/operator/controllers/help/node.go:53-118 | with at most one `Ready` condition and a recent heartbeat the two readiness tests say the same; without a recent one only a node that has no such condition passes |
| `NodeRepair.UnreadyAdmitted` | pkg/operator/controllers/help/node.go:53-118 | a node that counts as unready passes the heartbeat test if and only if its first `Ready` condition is true and recent; with a single `Ready` condition never |
| `PassRun.PhaseRun` | pkg/operator/heal/healet.go:432-441 | a loop of calls that stops at the first error is a run of the state machine, with exactly the effects of the calls that applied |
| `Passes.PassSparesLive` | pkg/operator/heal/healet.go:348-396 | a successful pass keeps the Master and node of every machine, and the member of every machine that has a node |
| `Passes.LiveMemberKept` | pkg/operator/heal/operation.go:198-217 | every successful pass keeps the member of a given live machine if and only if that machine has a node |
| `Passes.ResetDropsMember` | pkg/operator/heal/operation.go:198-217 | a concrete successful pass after which a live machine's member is gone |
| `Passes.PassLeavesNoOrphan` | pkg/operator/heal/healet.go:429-463 | no Master and no node without a machine is left |
| `Passes.PassRebuildsMasters` | pkg/operator/heal/healet.go:405-427 | a machine with a node ends with a Master if and only if it had one or the creation went through |
| `Passes.MasterSureIff` | pkg/operator/heal/healet.go:405-427 | every successful pass leaves a machine that has a node with a Master, whatever the create calls answer, if and only if it had one before |
| `Passes.SilentCreateFailure` | pkg/operator/heal/healet.go:421-424 | a concrete pass that reports success and leaves a Master missing |
| `Passes.SecondPassDeletesNothing` | pkg/operator/heal/healet.go:348-396 | a second pass deletes no Master and no node; it deletes nothing at all, whatever its repair does, if and only if no member is listed for removal and no member's live machine lacks a node |
| `Passes.AcceptedGuardSettles` | pkg/operator/heal/triple.go:437-442 | if the first guard accepted, that is so if and only if no member's live machine lacks a node |
| `Passes.SecondPassResets` | pkg/operator/heal/operation.go:182-203 | a concrete pair of passes, both guards accepting, of which the second takes a live machine's member away |
| `Passes.RefusedGuardTips` | pkg/operator/heal/triple.go:437-441 | after a refusal the second pass removes stale members if and only if the repair in between brought the count to twice the stale ones, and deletes nothing if and only if it did not and every member's live machine has a node |
| `Passes.SecondPassDeletes` | pkg/operator/heal/triple.go:437-441 | a concrete pair of passes of which the second deletes two members |
| `Passes.RoundProgress` | pkg/operator/heal/healet.go:429-463 | each good round lowers (machines without node + unready nodes) by exactly one until it is zero |
| `Passes.Converges` | pkg/operator/heal/healet.go:429-463 | with a fixed set of machines and one live Master, k good rounds lower the measure by k down to zero, a Master stays, and one round after that the system is consistent |
| `Passes.ScaleInCompletes` | pkg/operator/controllers/master/masterset.go:236-261 | without faults, k + 1 rounds of batch and pass take n machines with n - 1 <= 2^k to exactly the target, with Masters, nodes and members equal to the machines |
| `Passes.ShrinkAligns` | pkg/operator/heal/healet.go:348-396 | one batch and one pass lead from an aligned cluster to an aligned cluster of the batch's size, whoever left |
| `TripleScan.NewTripleMaster` | pkg/operator/heal/triple.go:187-304 | fails exactly when a listing fails; otherwise all rows of the scans, and the outer join whenever no id hides in another |
| `TripleScan.ScanExact` | pkg/operator/heal/triple.go:213-301 | the substring scans give the join for every selection of the listed objects if and only if no id is contained in another that names a different machine |
| `TripleScan.NamedUnambiguous` | pkg/operator/heal/triple.go:213-301 | one region and dot-free ids of one width longer than the region are enough for that |
| `TripleScan.HiddenId` | pkg/operator/heal/triple.go:217-223 | with `i-1` and a Master of `i-12` the scan is not the join |
| `TripleScan.MasterFound` | pkg/operator/heal/triple.go:240-254 | found exactly when some row covers the Master by its instance or its node |
| `TripleScan.NodeFound` | pkg/operator/heal/triple.go:273-288 | found exactly when some row covers the node by its instance or its Master |
| `ProviderIds.BareIdContained` | pkg/operator/heal/triple.go:219-219 | a bare id is contained in a provider id if and only if it is the id behind the dot |
| `ProviderIds.ProviderIdContained` | pkg/operator/heal/triple.go:249-249 | one provider id contains another if and only if they are equal |
| `JoinTheorem.OuterJoin` | pkg/operator/heal/triple.go:213-301 | a row has each part exactly when its id is in that list, and only parts of that id |
| `JoinTheorem.JoinCovers` | pkg/operator/heal/triple.go:213-301 | an id is in one of the lists if and only if it has a row |
| `JoinTheorem.RowMultiplicity` | pkg/operator/heal/triple.go:213-301 | how many rows an id gets, for any three lists |
| `JoinTheorem.OneRowPerId` | pkg/operator/heal/triple.go:213-301 | exactly one row per id, if and only if no Master without instance and node, and no node without instance and Master, is listed twice |
| `JoinTheorem.DistinctListsJoin` | pkg/operator/heal/triple.go:213-301 | lists without repetition give exactly one row per id |
| `TripleDiffs.SystemInConsistency` | pkg/operator/heal/triple.go:401-408 | true exactly when every row has all three parts and a ready node |
| `TripleDiffs.ConsistentMeans` | pkg/operator/heal/triple.go:401-521 | the system is consistent if and only if the three id sets are equal and every node is ready |
| `TripleDiffs.ReplicaChecksAgree` | pkg/operator/controllers/master/masterset.go:151-176 | on a consistent snapshot the node count and the instance count meet any replica number together |
| `TripleDiffs.OrphanPicked` | pkg/operator/heal/triple.go:236-267 | a Master without an instance is picked for deletion if and only if no node has its id or no earlier Master has |
| `TripleDiffs.HiddenOrphan` | pkg/operator/heal/triple.go:248-253 | two Masters of one orphan node, of which the second is not picked |
| `TripleDiffs.UnReadyNodeList` | pkg/operator/heal/triple.go:410-421 | exactly the rows with a machine and a node that has a `Ready` condition of a status other than `True`, in order |
| `Triples.NodesReady` | pkg/operator/controllers/help/node.go:99-118 | true if and only if every `Ready` condition of every node has status `True` |
| `TripleDiffs.InstanceCRDiff` | pkg/operator/heal/triple.go:446-463 | exactly the machines without a Master and the Masters without a machine, in order |
| `TripleDiffs.InstanceNodeDiff` | pkg/operator/heal/triple.go:465-484 | exactly the machines without a node and the nodes without a machine, in order |
| `TripleDiffs.MasterCRDDiff` | pkg/operator/heal/triple.go:495-521 | exactly the Masters without a machine and the live nodes without a Master, in order |
| `EtcdMembers.EtcdMemDiff` | pkg/operator/heal/triple.go:423-443 | all members without a machine, in order, or nothing if they are more than half; never more than half |
| `EtcdMembers.RemovalPrefix` | pkg/operator/heal/healet.go:538-544 | after any prefix of the removal loop the members with a machine are unchanged, and they are a strict majority of the rest if and only if 2 * stale < members + removed |
| `EtcdMembers.GuardedRemovalKeepsMajority` | pkg/operator/heal/healet.go:538-544 | what the guard lets through keeps a live strict majority after every removal; with an odd count also before the first |
| `EtcdMembers.AdvertiseRoundTrip` | pkg/actions/etcd/etcd.go:222-236 | an address comes back from the URL it advertised if and only if it holds neither ':' nor "//" |
| `EtcdMembers.FindMemberByIP` | pkg/actions/etcd/etcd.go:399-413 | a member advertising the address, or the zero member when there is none |
| `EtcdMembers.FillAddresses` | pkg/actions/etcd/etcd.go:222-236 | fails exactly when some member has no URL or one that does not parse; otherwise every member gets its parsed address |
| `EtcdMembers.AdvertiseInjective` | pkg/actions/etcd/etcd.go:722-724 | different addresses advertise different URLs |
| `Scaling.BatchSide` | pkg/operator/controllers/master/masterset.go:236-253 | what is asked lies between the present number and the wanted one, and is the wanted one when growing |
| `Scaling.BatchBound` | pkg/operator/controllers/master/masterset.go:250-253 | a batch strictly shrinks, does not undershoot, leaves at least n/2 + 1 of n >= 3, and goes to one only from two |
| `Scaling.OneOnlyFromTwo` | pkg/operator/controllers/master/masterset.go:203-203 | the handler is called with one if and only if two machines remain and at most one is wanted |
| `Scaling.BatchesDescend` | pkg/operator/controllers/master/masterset.go:236-261 | repeated batches strictly decrease until the target and never pass it |
| `Scaling.LogarithmicScaleIn` | pkg/operator/controllers/master/masterset.go:236-261 | from n with n - 1 <= 2^k at most k + 1 batches reach the target |
| `Scaling.RemoveFollower` | pkg/operator/heal/healet.go:225-247 | only with exactly two endpoints; the first that does not hold itself to be the leader is removed |
| `Scaling.FindIdUnique` | pkg/operator/controllers/master/masterset.go:263-276 | with distinct addresses, the machine found by an endpoint is the one with that address |
| `Scaling.FindInstanceId` | pkg/operator/controllers/master/masterset.go:263-276 | the id of the first machine with that endpoint, or the empty string |
| `EtcdJoin.SerialisedJoin` | pkg/actions/etcd/etcd.go:340-368 | in any run of any number of joiners: a joiner absent from its first listing that succeeds was added once, others were added at most as often as someone was removed, and the second listing is the first plus the joiner if and only if nobody of the first is gone from it, so in particular without a removal |
| `EtcdJoin.RemovalLetsAnotherIn` | pkg/actions/etcd/etcd.go:357-364 | the condition is needed: while a running member is about to back off, another can join completely inside the window and both succeed |
| `EtcdJoin.BackOffArises` | pkg/actions/etcd/etcd.go:340-364 | the run that leads there: a running member calls `Join` again, two others join and start meanwhile |
| `EtcdJoin.JoinRunsAreSafe` | pkg/actions/etcd/etcd.go:340-481 | in every run no two members share a peer URL, and initial members that do not join themselves are never removed |
| `EtcdJoin.RunKeeps` | pkg/actions/etcd/etcd.go:415-459 | however many add replies are lost, at most one member per peer URL |
| `EtcdJoin.MembersStay` | pkg/actions/etcd/etcd.go:340-368 | whoever is not joining, or has finished joining, keeps its membership in every run |
| `EtcdJoin.BackOffRemovesOnlySelf` | pkg/actions/etcd/etcd.go:357-364 | a back-off that takes effect removes the joiner and nobody else |
| `EtcdJoin.LostOnlyByOwnBackOff` | pkg/actions/etcd/etcd.go:357-397 | a step ends a membership if and only if it is that member's own back-off taking effect |
| `EtcdJoin.LosableIff` | pkg/actions/etcd/etcd.go:340-459 | whole runs, known before they start: a member of a fully running cluster can lose its membership in some run if and only if it is itself joining and at least two joiners are not members yet |
| `EtcdJoin.MemberBacksOff` | pkg/actions/etcd/etcd.go:415-438 | a running member that calls `Join` again can lose its membership when two others join meanwhile |
| `EtcdJoin.Conservation` | pkg/actions/etcd/etcd.go:340-397 | in every run the membership is what it was plus what was added minus what was removed |
| `EtcdJoin.TryEachPeer` | pkg/actions/etcd/etcd.go:461-481 | succeeds exactly when some attempt succeeds or there is no peer; two attempts at each peer in order, and none after the first success |
| `EtcdJoin.JoinsAfterFailures` | pkg/actions/etcd/etcd.go:415-481 | after any failed attempts fewer than twice the number of peers, a joiner that meets no further fault is added once and succeeds; after as many the call ends as if it had not been made |
| `EtcdJoin.LostAddIsFound` | pkg/actions/etcd/etcd.go:430-439 | an add whose reply was lost is found by the next attempt and not repeated |
| `EtcdJoin.AddsOnlyToStarted` | pkg/actions/etcd/etcd.go:340-352 | in every run a joiner adds itself only when all members of its first listing have started |
| `EtcdJoin.StartedByItself` | pkg/actions/etcd/etcd.go:514-520 | a member has a client URL only once it has started itself |
| `EtcdJoin.SuccessIff` | pkg/actions/etcd/etcd.go:357-368 | a call ends in success with a second listing of at most one member more than the first, and in no other way |
| `SnapshotIndexes.SnapshotIndex.Operate` | pkg/index/snapshot.go:64-140 | any sequence of backups, collections, reads and restarts, each store call failing or not: in minutes that differ, after every single store call the newest min(4, n) copies of the stored index have their file; in increasing minutes the newest copy stays paired with its spec, and if no call fails it is that of the last backup |
| `SnapshotIndexes.SnapshotIndex.OperateAndRecover` | pkg/index/snapshot.go:64-140 | if no store call fails and the minutes increase, what is recovered after any such sequence are the spec and the file of its last backup |
| `SnapshotIndexes.SnapshotIndex.Backup` | pkg/index/snapshot.go:86-107 | succeeds exactly when no store call failed, and then the copy and its spec are appended; otherwise the index is the old or the appended one; safety is kept whatever the minute, pairing if it is later than all that are listed |
| `SnapshotIndexes.SnapshotIndex.BackupGC` | pkg/index/snapshot.go:109-140 | the newest four copies stay the newest four and no copy is invented; once the index is read, each copy beyond the fourth gets exactly one delete call and the index is written, whatever the replies; safety is kept if the fourth and fifth newest identities differ, and once all calls succeed only then; exactly the newest four are left then and the files of the others are gone |
| `SnapshotIndexes.SnapshotIndex.LatestBackup` | pkg/index/snapshot.go:64-84 | on a safe index it succeeds exactly when some copy is listed and no store call fails; file and spec are the inputs of one `Backup` call, and no listed copy was made in a later minute |
| `SnapshotIndexes.SnapshotIndex.LazyLoad` | pkg/index/snapshot.go:39-58 | on success the memory is the stored index, or unchanged when there is none |
| `SnapshotIndexes.SnapshotIndex.SortBackups` | pkg/index/snapshot.go:191-196 | the copies in memory become the descending order of themselves; the stored index, safety and pairing are kept |
| `SnapshotIndexes.SnapshotIndex.Restart` | pkg/index/snapshot.go:22-30 | a new process with an empty memory keeps safety and pairing |
| `SnapshotIndexes.NewestIsLatestMinute` | pkg/index/snapshot.go:191-208 | the first of the sorted copies was taken at the latest minute |
| `Backups.CollectionIsSafeIff` | pkg/index/snapshot.go:119-130 | collection keeps the files of the kept copies if and only if the fourth and fifth newest identities differ |
| `Backups.SharedMinute` | pkg/index/snapshot.go:119-130 | five copies of which the fourth and fifth share a minute, and collection loses the file of one it keeps |
| `Backups.DeleteKeeps` | pkg/index/snapshot.go:122-130 | deleting the file of a copy beyond the fourth leaves the newest four available |
| `Backups.PathInjective` | pkg/index/snapshot.go:176-178 | different identities have different paths |
| `Backups.ClustersApart` | pkg/index/snapshot.go:165-178 | clusters of different names share neither snapshot paths nor the index location |
| `Backups.PathNotIndex` | pkg/index/snapshot.go:168-178 | no snapshot path is the index path |
| `BackupOrder.SortUnique` | pkg/index/snapshot.go:191-196 | whatever sorting routine is used, the descending order of the copies is one and the same |
| `BackupOrder.SortDescends` | pkg/index/snapshot.go:191-196 | the sorted copies descend; as a multiset they are the copies |
| `BackupOrder.NewestIsGreatest` | pkg/index/snapshot.go:198-204 | no listed identity is greater than the first sorted one |
| `BackupOrder.NewestAfterAppend` | pkg/index/snapshot.go:99-99 | after an append the newest copies are old newest ones and the new one |
| `TimeFormat.FormatOrder` | pkg/index/snapshot.go:206-208 | the lexicographic order of identities is the chronological order of the minutes |
| `TimeFormat.FormatInjective` | pkg/index/snapshot.go:206-208 | one identity, one minute |
| `Monitoring.Monitor.Check` | pkg/operator/monit/monitor.go:79-109 | actions fire if and only if more than five minutes have passed since the last firing ended and the latest threshold + 1 answers of every check are failures; then each check is asked and its answer recorded |
| `Monitoring.Monitor.CheckRound` | pkg/operator/monit/monitor.go:114-140 | each check's history grows by its answer, if any, and each counter is the length of the run of failures at its end |
| `Monitoring.Monitor.Watch` | pkg/operator/monit/monitor.go:73-112 | any run with thresholds of six: a turn fires if and only if the seven latest answers of every check are failures and more than five minutes have passed since the last firing ended; each history is the old one and the answers of the turns in order |
| `Monitoring.Monitor.MeetAll` | pkg/operator/monit/monitor.go:79-86 | true exactly when every check is over its threshold |
| `Monitoring.Monitor.WithCheck` | pkg/operator/monit/monitor.go:59-67 | registering starts the check's counter and history over, a name registered before included |
| `Monitoring.MeetMeans` | pkg/operator/monit/monitor.go:45-47 | all counters over their thresholds means each check has failed threshold + 1 times in a row up to now |
| `Monitoring.FiringsApart` | pkg/operator/monit/monitor.go:94-104 | any two firings are more than five minutes apart |
| `Monitoring.TrailingMeans` | pkg/operator/monit/monitor.go:127-136 | the counter is at least n if and only if the latest n answers are failures |
| `Unstructureds.Unstructured.WalkPath` | pkg/utils/unstructed/unstructed.go:59-184 | the walk with a cursor, editing in place, gives the result and the tree of the recursive definition |
| `Unstructureds.Unstructured.SetValue` | pkg/utils/unstructed/unstructed.go:54-57 | writes as the recursive definition says, and reports success exactly when it does |
| `Unstructureds.Unstructured.GetValue` | pkg/utils/unstructed/unstructed.go:45-52 | reads as the recursive definition says, missing maps created on the way included |
| `Unstructureds.ScanStrings` | pkg/utils/unstructed/unstructed.go:103-134 | the loop over a slice of strings: first match when reading; replace all or append when writing; error on a non-string |
| `Unstructureds.ScanMaps` | pkg/utils/unstructed/unstructed.go:149-178 | the loop over a slice of maps inside a path: first match when reading, last when writing |
| `Unstructureds.ScanLastMaps` | pkg/utils/unstructed/unstructed.go:149-178 | the loop over a slice of maps at the end of a path |
| `PathLaws.SetThenGet` | pkg/utils/unstructed/unstructed.go:69-85 | on a path of maps: set, then get, returns the value and leaves the tree |
| `PathLaws.SetThenSet` | pkg/utils/unstructed/unstructed.go:69-85 | of two writes the later wins |
| `PathLaws.GetThenSet` | pkg/utils/unstructed/unstructed.go:69-85 | writing back what was read changes nothing |
| `PathLaws.OtherPathsKept` | pkg/utils/unstructed/unstructed.go:69-85 | a write does not show on a path that parts from its own |
| `PathLaws.WriteFails` | pkg/utils/unstructed/unstructed.go:69-85 | on a path of maps a write fails if and only if a value on the way is no map, and then changes nothing |
| `PathLaws.ReadIsPure` | pkg/utils/unstructed/unstructed.go:77-82 | a read leaves the tree alone if and only if the path is there or is blocked |
| `PathLaws.ReadYields` | pkg/utils/unstructed/unstructed.go:69-85 | reading along maps fails if and only if it is blocked, and yields what is there or else the empty map it makes |
| `PathLaws.ReadCreates` | pkg/utils/unstructed/unstructed.go:77-82 | a concrete read that changes the tree |
| `PathLaws.SimpleSetThenGet` | pkg/utils/unstructed/unstructed.go:100-135 | after writing `name[key]` the value is read back if and only if it starts with the key |
| `PathLaws.SimpleSetKeepsRest` | pkg/utils/unstructed/unstructed.go:100-135 | elements that do not match keep their values and their order |
| `PathLaws.SliceSetThenGet` | pkg/utils/unstructed/unstructed.go:69-136 | the same through any path of maps in front |
| `PathLaws.FailedSliceWrite` | pkg/utils/unstructed/unstructed.go:69-136 | a failed write to a slice behind a path of maps leaves the tree alone if and only if that path was there or was blocked |
| `PathLaws.FailedWriteCreates` | pkg/utils/unstructed/unstructed.go:69-136 | a concrete failed write that changes the tree |
| `PathLaws.ComplexSetThenGet` | pkg/utils/unstructed/unstructed.go:69-180 | after writing `p.name[key:value].q`, for any paths of maps p and q, the value is read back if and only if first and last selected element coincide or the first already held it; if q is the selecting key, if and only if the value is the selected one |
| `PathLaws.SliceWrite` | pkg/utils/unstructed/unstructed.go:86-180 | a write to `p.name[key]` or `p.name[key:value]` succeeds if and only if the slice is there and holds only texts, or only maps; then every hit has become the value, or the value was appended where there was none, every other element keeps its place, and so does the rest of the tree |
| `PathLaws.SliceRead` | pkg/utils/unstructed/unstructed.go:86-180 | a read of `p.name[key]` yields the first text that starts with the key, one of `p.name[key:value]` the last map that holds the value; it fails if and only if the slice is missing, has no such element, or a value of another kind is in the way |
| `PathLaws.ComplexEndSetThenGet` | pkg/utils/unstructed/unstructed.go:137-180 | what was written to `p.name[key:value]` is read back if and only if it holds that value itself |
| `PathLaws.ThroughSlice` | pkg/utils/unstructed/unstructed.go:137-180 | a walk through `p.name[key:value].q` goes on from the first selected map when reading and from the last when writing, fails if there is none, and leaves the rest of the slice and of the tree |
| `PathLaws.SimpleInside` | pkg/utils/unstructed/unstructed.go:85-90 | a `name[key]` before the end of a path is an error |
| `PathLaws.ReadMissesWrite` | pkg/utils/unstructed/unstructed.go:151-166 | a concrete tree where the write goes to the second selected element and the read sees the first |
| `Pruning.RemoveEmptyValues` | pkg/utils/hash/hash.go:43-53 | in whatever order the keys are visited, the result is the recursive pruning |
| `Pruning.PruneTidies` | pkg/utils/hash/hash.go:43-53 | no empty value is left in any map reached through maps |
| `Pruning.PruneIdempotent` | pkg/utils/hash/hash.go:43-53 | pruning twice is pruning once |
| `Pruning.PruneCanonical` | pkg/utils/hash/hash.go:16-53 | two objects prune to one result if and only if they differ only by hollow values |
| `Pruning.HollowVanishes` | pkg/utils/hash/hash.go:29-53 | a value prunes to an empty one if and only if it is empty or a map of such values |
| `Pruning.LeafKept` | pkg/utils/hash/hash.go:29-53 | exactly the leaves that are true, a number but zero, or a text or slice but the empty one survive, in their place and as they were |
| `Pruning.KeyKept` | pkg/utils/hash/hash.go:43-53 | a key survives if and only if such a leaf lies under it |
| `Publishing.NormalForm` | cmd/wdrip/vm/publish.go:24-84 | for every string, printing what was parsed and parsing it again gives the same four fields |
| `Publishing.PrintParse` | cmd/wdrip/vm/publish.go:24-84 | a Publish comes back from its printed form if and only if no field holds '@' or ':' |
| `Publishing.ParsedIsClean` | cmd/wdrip/vm/publish.go:24-61 | parsing never yields a field with a separator |
| `Publishing.ParseForms` | cmd/wdrip/vm/publish.go:24-61 | a side without a network is on tcp; an address of one side has it on both; else left and right are as written |
| `Publishing.ExtraIgnored` | cmd/wdrip/vm/publish.go:32-61 | what follows the second part of an address or of a side is ignored |

## Left out

- Scale-out: whole-run safety of the code as it stands is claimed for scale-in only. A newcomer that gets its node and its Master without becoming a member, or a handover stopped half-way before, lets a later batch lose the majority (`GrowthAloneLosesMajority`, `GrowthLosesMajority`); with growth, runs are safe under the count of `GuardedRunsKeepMajority`, which the code does not make. No progress is claimed through the unhealthy branch of the scale function (masterset.go:197-199), which wraps a nil error.
- ScaleLimits.GuardedRunsKeepMajority: one direction as to the guard: unguarded runs may be safe by luck of the victims; the exact bound is given for each batch by `BatchSafeIff`.
- HealerSafety.MajorityIsSafeIff: the run that loses the majority ends by removing the only remaining member, so it is about an etcd that accepts this.
- Reconciling.ScaleMasterGroup: says nothing about machines having left or come when it reports success, because the source only waits for the scaling activities to end; one that outlives its wait is not modelled.
- Reconciling.BringUp: stands for what the cloud does; the contract only bounds what may change. New machines joining by themselves, outside a repair, are not modelled.
- Healing.Plane.AwaitHeartbeat: stands, like `LabelNode` and `Rejoin`, for what the machine, its kubelet and its etcd do meanwhile; the contract only bounds what may change.
- Completion.RepairAll: whether Masters get created and a machine tended to gets well is up to its outcome, stated as a condition; kubelets, disks and creations do not count among the calls that fail.
- Completion.ScaleInAll: that the group does what it is told is a condition on the number of machines seen after each round, because the source does not check it.
- Healing.Plane.Reset: throttles, draining and disk replacement are arbitrary answers; a nil node in the log line of a failed drain is not modelled.
- Healing.Plane.FixMasterCRD: a node without any address, on which the code would panic, is not modelled.
- NodeRepair.AdmitNode: whether a heartbeat is recent is a parameter, not a comparison of clocks.
- EtcdMembers.EtcdMemDiff: the guard compares exactly; the single-precision arithmetic of the source is not modelled.
- EtcdJoin: a joiner whose first listing holds a member without client URL makes the code panic (etcd.go:514-520); in the model it gets no further than that listing. An add that takes effect only after its caller has gone on is not modelled, and waiting for endpoints is an arbitrary answer.
- SnapshotIndexes.SnapshotIndex.LazyLoad: loading replaces the index in memory; that the JSON decoder keeps fields absent from the stored text is not modelled.
- TimeFormat: wall-clock changes that repeat a minute are not modelled; two backups in one minute are.
- Unstructureds.Unstructured.WalkPath: paths are given parsed; the regular expression, the JSON round trip of written values and sharing between parts of a tree are not modelled, maps and slices being values inside one mutable tree.
- Pruning.RemoveEmptyValues: maps are values, so the caller's map changing in place appears as the returned map; YAML and SHA are left out.
- Monitoring.Monitor: the texts of the last good and failed times and the outcome of actions, which are only logged, are left out.
- Locks: the mutexes of the healer and the index are not modelled; passes of one healer, and operations of one index, run one at a time.
- `NewTripleWorker`, `NewTripleWorkerB` and `NewTripleMasterB`, node pools and worker repair: older or similar copies that would add easy members only.
- Providers, cloud clients, certificates, kubeadm and kubelet actions, templates, the command line and generated clients: text, I/O and foreign calls.
