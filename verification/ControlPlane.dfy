/**
 The control plane as a state machine. Two processes share one cluster: the healer
 runs `FixMasterNode` passes, the scaler runs `QuorumScale` batches. Every remote
 call is one step, so a pass may be overtaken by a batch, may read its three lists
 at different moments, may fail or crash anywhere, and a call may take effect
 although it reports an error.
 */
module ControlPlane {
  import opened Basics
  import Scaling

  type Id = string

  /** Machines, Master objects, master nodes (with readiness) and etcd members, by machine. */
  datatype Cluster = Cluster(insts: set<Id>, crds: set<Id>, nodes: map<Id, bool>, members: set<Id>)

  /** What `NewTripleMaster` saw, and how its rows are classified. */
  datatype View = View(crds: set<Id>, nodes: map<Id, bool>, insts: set<Id>) {
    predicate Healthy() {
      insts == crds == nodes.Keys && forall n :: n in nodes ==> nodes[n]
    }
    function OrphanCrds(): set<Id> { crds - insts }
    function MissedCrds(): set<Id> { insts * nodes.Keys - crds }
    function OrphanNodes(): set<Id> { nodes.Keys - insts }
    function Additions(): set<Id> { insts - nodes.Keys }
    function Unready(): set<Id> { set n | n in nodes && n in insts && !nodes[n] }
  }

  function Look(c: Cluster): View {
    View(c.crds, c.nodes, c.insts)
  }

  /** `EtcdMemDiff`: the members without a machine, unless they are more than half. */
  function MemDiff(members: set<Id>, insts: set<Id>): set<Id> {
    if 2 * |members - insts| > |members| then {} else members - insts
  }

  predicate Majority(c: Cluster) {
    2 * |c.members * c.insts| > |c.members|
  }

  // ----- The two processes ----------------------------------------------------

  /** Deleting orphan Masters, recreating missed ones, removing stale members, deleting orphan nodes. */
  datatype Phase = Cleaning | Rebuilding | Removing | Deleting

  datatype Heal =
    | Idle
    | SawCrds(crds: set<Id>)
    | SawNodes(crds: set<Id>, nodes: map<Id, bool>)
    | Working(phase: Phase, v: View, todo: set<Id>)
    | Listing(v: View)                    // about to list the etcd members
    | Repairing(v: View)                  // one hard repair

  datatype Scaler =
    | Rest
    | ScannedCrds(crds: set<Id>)
    | ScannedNodes(crds: set<Id>, nodes: map<Id, bool>)
    | Cleared                             // `Healthy()` has answered yes
    | Handover(follower: Id)              // its member is gone, its machine not yet

  /**
   `half` records a handover whose second half, removing the machine, never happened;
   `strayed` that machines were added, or fewer than one was asked for.
   */
  datatype State = State(c: Cluster, heal: Heal, scaler: Scaler, half: bool, strayed: bool)

  datatype Event =
    | ReadCrds | ReadNodes | ReadInsts
    | Call(d: Id, reply: Reply)           // the phase's call for one id
    | Finish                              // the phase has nothing left to do
    | ListMembers(ok: bool)
    | Repair(after: Cluster)
    | HealStop
    | ScanCrds | ScanNodes | ScanInsts
    | ScaleGroup(target: int, victims: set<Id>)
    | ScaleOut(target: int, newcomers: set<Id>)
    | RemoveFollower(target: int, d: Id, reply: Reply)
    | RemoveMachine(reply: Reply)
    | ScaleStop
    | Flip(n: Id, ready: bool)

  /**
   What one hard repair may leave behind. A machine without a node may get one, and a
   reset takes its member away before it rejoins; an unready node may become ready.
   The admission check keeps a reset from going further (see NodeRepair).
   */
  predicate Repaired(v: View, c: Cluster, after: Cluster) {
    || after == c
    || (exists i :: i in v.Additions() && Rejoined(i, c, after))
    || (v.Additions() == {} && exists n :: n in v.Unready() && n in c.nodes && after == c.(nodes := c.nodes[n := true]))
  }

  predicate Rejoined(i: Id, c: Cluster, after: Cluster) {
    && after.insts == c.insts
    && (after.crds == c.crds || after.crds == c.crds + {i})
    && (after.nodes == c.nodes || after.nodes == c.nodes[i := true] || after.nodes == c.nodes[i := false])
    && after.members - {i} == c.members - {i}
  }

  function Drop(s: set<Id>, d: Id, reply: Reply): set<Id> {
    if reply.Applied() then s - {d} else s
  }

  /** Every id that some list knows. */
  function Named(c: Cluster): set<Id> {
    c.insts + c.crds + c.nodes.Keys + c.members
  }

  predicate Enabled(s: State, e: Event) {
    match e
    case ReadCrds => s.heal.Idle?
    case ReadNodes => s.heal.SawCrds?
    case ReadInsts => s.heal.SawNodes?
    case Call(d, _) => s.heal.Working? && d in s.heal.todo
    case Finish => s.heal.Working? && s.heal.todo == {}
    case ListMembers(ok) => s.heal.Listing? && (ok ==> s.heal.v.crds != {})
    case Repair(after) => s.heal.Repairing? && Repaired(s.heal.v, s.c, after)
    case HealStop => true
    case ScanCrds => s.scaler.Rest?
    case ScanNodes => s.scaler.ScannedCrds?
    case ScanInsts => s.scaler.ScannedNodes? && View(s.scaler.crds, s.scaler.nodes, s.c.insts).Healthy()
    case ScaleGroup(target, victims) =>
      // the group loses at most the excess, and any machines may be the ones to go
      && s.scaler.Cleared? && target < |s.c.insts| && victims <= s.c.insts
      && var t := Scaling.Batch(|s.c.insts|, target).value;
      t != 1 && |victims| <= |s.c.insts| - t
    case ScaleOut(target, newcomers) =>
      && s.scaler.Cleared? && |s.c.insts| < target && target != 1
      && newcomers !! Named(s.c) && |newcomers| <= target - |s.c.insts|
    case RemoveFollower(target, d, _) =>
      // `endpoint status` answers for both Masters only while both are members
      && s.scaler.Cleared? && Scaling.Batch(|s.c.insts|, target) == Some(1)
      && |s.c.crds| == 2 && s.c.crds <= s.c.members && d in s.c.crds
    case RemoveMachine(_) => s.scaler.Handover?
    case ScaleStop => true
    case Flip(n, _) => n in s.c.nodes
  }

  /** What a phase's calls do to the cluster. */
  function Effect(c: Cluster, phase: Phase, ids: set<Id>): Cluster {
    match phase
    case Cleaning => c.(crds := c.crds - ids)
    case Rebuilding => c.(crds := c.crds + ids)
    case Removing => c.(members := c.members - ids)
    case Deleting => c.(nodes := c.nodes - ids)
  }

  /** An error ends the pass, except when a Master cannot be recreated: that is only logged. */
  function AfterCall(h: Heal, d: Id, reply: Reply): Heal
    requires h.Working?
  {
    if reply.Done? || h.phase.Rebuilding? then h.(todo := h.todo - {d}) else Idle
  }

  /** Masters first, then etcd, then nodes. */
  function AfterPhase(phase: Phase, v: View): Heal {
    match phase
    case Cleaning => Working(Rebuilding, v, v.MissedCrds())
    case Rebuilding => Listing(v)
    case Removing => Working(Deleting, v, v.OrphanNodes())
    case Deleting => Repairing(v)
  }

  function Next(s: State, e: Event): State
    requires Enabled(s, e)
  {
    match e
    case ReadCrds => s.(heal := SawCrds(s.c.crds))
    case ReadNodes => s.(heal := SawNodes(s.heal.crds, s.c.nodes))
    case ReadInsts =>
      var v := View(s.heal.crds, s.heal.nodes, s.c.insts);
      s.(heal := Working(Cleaning, v, v.OrphanCrds()))
    case Call(d, reply) =>
      s.(c := if reply.Applied() then Effect(s.c, s.heal.phase, {d}) else s.c, heal := AfterCall(s.heal, d, reply))
    case Finish => s.(heal := AfterPhase(s.heal.phase, s.heal.v))
    case ListMembers(ok) =>
      s.(heal := if ok then Working(Removing, s.heal.v, MemDiff(s.c.members, s.heal.v.insts)) else Idle)
    case Repair(after) => s.(c := after, heal := Idle)
    case HealStop => s.(heal := Idle)
    case ScanCrds => s.(scaler := ScannedCrds(s.c.crds))
    case ScanNodes => s.(scaler := ScannedNodes(s.scaler.crds, s.c.nodes))
    case ScanInsts => s.(scaler := Cleared)
    case ScaleGroup(target, victims) =>
      s.(c := s.c.(insts := s.c.insts - victims), scaler := Rest, strayed := s.strayed || target < 1)
    case ScaleOut(_, newcomers) =>
      s.(c := s.c.(insts := s.c.insts + newcomers), scaler := Rest, strayed := true)
    case RemoveFollower(target, d, reply) =>
      s.(c := s.c.(members := Drop(s.c.members, d, reply)),
         scaler := if reply.Done? then Handover(d) else Rest,
         half := s.half || reply.Lost?,
         strayed := s.strayed || target < 1)
    case RemoveMachine(reply) =>
      s.(c := s.c.(insts := Drop(s.c.insts, s.scaler.follower, reply)), scaler := Rest,
         half := s.half || reply.Refused?)
    case ScaleStop => s.(scaler := Rest, half := s.half || s.scaler.Handover?)
    case Flip(n, ready) => s.(c := s.c.(nodes := s.c.nodes[n := ready]))
  }

  predicate Possible(s: State, es: seq<Event>)
    decreases es
  {
    es == [] || (Enabled(s, es[0]) && Possible(Next(s, es[0]), es[1..]))
  }

  /** The state after a run. */
  function Exec(s: State, es: seq<Event>): State
    requires Possible(s, es)
    decreases es
  {
    if es == [] then s else Exec(Next(s, es[0]), es[1..])
  }

  lemma {:induction false} ExecAppend(s: State, es: seq<Event>, e: Event)
    requires Possible(s, es) && Enabled(Exec(s, es), e)
    ensures Possible(s, es + [e]) && Exec(s, es + [e]) == Next(Exec(s, es), e)
    decreases es
  {
    if es == [] {
      assert es + [e] == [e] && [e][1..] == [];
    } else {
      ExecAppend(Next(s, es[0]), es[1..], e);
      assert (es + [e])[1..] == es[1..] + [e];
    }
  }
}
