/**
 The repair pass as the code runs it (pkg/operator/heal/healet.go). Every remote call
 may fail or take effect without saying so. The ghost results of each method are the run
 of the ControlPlane machine it amounts to, so all that is proved of runs holds of it.
 */
module Healing {
  import opened Basics
  import opened ProviderIds
  import opened Triples
  import opened TripleScan
  import opened JoinTheorem
  import opened TripleDiffs
  import opened EtcdMembers
  import opened HealView
  import opened NodeRepair
  import opened Passes
  import opened PassRun
  import ControlPlane

  /** A small random index; for n > 1 the last one is never drawn. */
  method Randn(n: nat, draw: nat) returns (r: nat)
    ensures r == 0 || r < n - 1
    ensures draw < n - 1 ==> r == draw
  {
    if n <= 1 {
      return 0;
    }
    r := draw % (n - 1);
  }

  function RowIds(nm: Naming, rows: seq<NodeInfo>): (ids: seq<Id>)
    ensures |ids| == |rows| && forall k :: 0 <= k < |rows| ==> ids[k] == RowKey(nm, rows[k])
  {
    seq(|rows|, k requires 0 <= k < |rows| => RowKey(nm, rows[k]))
  }

  lemma MinusTwice(m: map<Id, bool>, a: set<Id>, b: set<Id>)
    ensures m - a - b == m - (a + b)
    ensures m - {} == m
  {
  }

  /** Rows with distinct ids, each with the Master of its id. */
  ghost predicate MasterRows(nm: Naming, rows: seq<NodeInfo>) {
    && DistinctKeys(nm, rows)
    && forall r :: r in rows ==> r.resource.Some? && r.resource.value.id == RowKey(nm, r)
  }

  /** Rows with distinct ids, each with the node of its id. */
  ghost predicate NodeRows(nm: Naming, rows: seq<NodeInfo>) {
    && DistinctKeys(nm, rows)
    && forall r :: r in rows ==> r.node.Some? && r.node.value.providerId == RowKey(nm, r)
  }

  /** Deleting the Master of one row leaves those of the rows after it. */
  lemma LaterMasters(nm: Naming, masters: seq<Master>, rows: seq<NodeInfo>, k: nat)
    requires MasterRows(nm, rows) && k < |rows| && DistinctMasterNames(masters)
    requires forall j :: k <= j < |rows| ==> rows[j].resource.value in masters
    ensures forall j :: k < j < |rows| ==> rows[j].resource.value in DropMaster(masters, rows[k].resource.value.name)
  {
    forall j | k < j < |rows|
      ensures rows[j].resource.value.name != rows[k].resource.value.name
    {
      assert RowKey(nm, rows[k]) != RowKey(nm, rows[j]);
    }
  }

  lemma LaterNodes(nm: Naming, nodes: seq<Node>, rows: seq<NodeInfo>, k: nat)
    requires NodeRows(nm, rows) && k < |rows| && DistinctNodeNames(nodes)
    requires forall j :: k <= j < |rows| ==> rows[j].node.value in nodes
    ensures forall j :: k < j < |rows| ==> rows[j].node.value in DropNode(nodes, rows[k].node.value.name)
  {
    forall j | k < j < |rows|
      ensures rows[j].node.value.name != rows[k].node.value.name
    {
      assert RowKey(nm, rows[k]) != RowKey(nm, rows[j]);
    }
  }

  /** Lists without repetition, whose objects are well named. */
  ghost predicate Listable(nm: Naming, inv: Inventory) {
    && inv.WellNamed(nm) && inv.DistinctInstances()
    && DistinctMasterNames(inv.masters) && DistinctNodeNames(inv.nodes)
  }

  lemma RowIdsOf(nm: Naming, inv: Inventory, p: NodeInfo -> bool)
    requires Listable(nm, inv)
    ensures var rows := Select(inv.Rows(nm), p);
            DistinctKeys(nm, rows) && Distinct(RowIds(nm, rows)) && Elements(RowIds(nm, rows)) == Keys(nm, rows)
  {
    RowsDistinct(nm, inv);
    SelectDistinct(nm, inv.Rows(nm), p);
    var rows := Select(inv.Rows(nm), p);
    var ids := RowIds(nm, rows);
    forall x | x in Keys(nm, rows)
      ensures x in ids
    {
      var k :| 0 <= k < |rows| && RowKey(nm, rows[k]) == x;
      assert ids[k] == x;
    }
  }

  lemma OrphanMasterFacts(nm: Naming, inv: Inventory)
    requires Listable(nm, inv)
    ensures var rows := Select(inv.Rows(nm), OrphanMaster);
            && MasterRows(nm, rows) && (forall r :: r in rows ==> r.resource.value in inv.masters)
            && Distinct(RowIds(nm, rows)) && Elements(RowIds(nm, rows)) == ViewOf(nm, inv).OrphanCrds()
  {
    RowIdsOf(nm, inv, OrphanMaster);
    OrphanMasterKeys(nm, inv);
    forall r | r in Select(inv.Rows(nm), OrphanMaster)
      ensures r.resource.value in inv.masters && r.resource.value.id == RowKey(nm, r)
    {
      OuterJoin(nm, inv, r);
    }
  }

  lemma MissedMasterFacts(nm: Naming, inv: Inventory)
    requires Listable(nm, inv)
    ensures var rows := Select(inv.Rows(nm), MissedMaster);
            && NodeRows(nm, rows) && (forall r :: r in rows ==> r.node.value in inv.nodes)
            && (forall r :: r in rows ==> nm.ValidProviderId(RowKey(nm, r)) && RowKey(nm, r) !in inv.MasterKeys())
            && Distinct(RowIds(nm, rows)) && Elements(RowIds(nm, rows)) == ViewOf(nm, inv).MissedCrds()
  {
    RowIdsOf(nm, inv, MissedMaster);
    MissedMasterKeys(nm, inv);
    forall r | r in Select(inv.Rows(nm), MissedMaster)
      ensures r.node.value in inv.nodes && r.node.value.providerId == RowKey(nm, r)
      ensures RowKey(nm, r) !in inv.MasterKeys()
    {
      OuterJoin(nm, inv, r);
    }
  }

  lemma OrphanNodeFacts(nm: Naming, inv: Inventory)
    requires Listable(nm, inv)
    ensures var rows := Select(inv.Rows(nm), OrphanNode);
            && NodeRows(nm, rows) && (forall r :: r in rows ==> r.node.value in inv.nodes)
            && Distinct(RowIds(nm, rows)) && Elements(RowIds(nm, rows)) == ViewOf(nm, inv).OrphanNodes()
  {
    RowIdsOf(nm, inv, OrphanNode);
    OrphanNodeKeys(nm, inv);
    forall r | r in Select(inv.Rows(nm), OrphanNode)
      ensures r.node.value in inv.nodes && r.node.value.providerId == RowKey(nm, r)
    {
      OuterJoin(nm, inv, r);
    }
  }

  // Object names and ids are unique and well formed, and each object knows its machine's address.

  ghost predicate InstancesOk(nm: Naming, instances: seq<Instance>, addr: map<Id, string>) {
    && (forall i :: i in instances ==> nm.BareId(i.id)) && Inventory(instances, [], []).DistinctInstances()
    && InstancesKnown(nm, instances, addr)
  }

  ghost predicate MastersOk(nm: Naming, masters: seq<Master>, addr: map<Id, string>) {
    && (forall m :: m in masters ==> nm.ValidProviderId(m.id)) && DistinctMasterNames(masters)
    && MastersKnown(masters, addr)
  }

  ghost predicate NodesNamed(nm: Naming, nodes: seq<Node>) {
    forall n :: n in nodes ==> nm.ValidProviderId(n.providerId)
  }

  ghost predicate SingleReady(nodes: seq<Node>) {
    forall n :: n in nodes ==> OneReady(n)
  }

  ghost predicate NodesOk(nm: Naming, nodes: seq<Node>, addr: map<Id, string>) {
    && NodesNamed(nm, nodes) && SingleReady(nodes) && DistinctNodeNames(nodes) && NodesKnown(nodes, addr)
  }

  ghost predicate MembersOk(members: seq<Member>, addr: map<Id, string>) {
    && MembersKnown(members, addr)
    && (forall m :: m in members ==> m.peerUrls != [] && m.peerUrls[0] == Advertise(m.ip, "2380"))
  }

  lemma DropMasterOk(nm: Naming, masters: seq<Master>, addr: map<Id, string>, m: Master)
    requires MastersOk(nm, masters, addr) && m in masters
    ensures MastersOk(nm, DropMaster(masters, m.name), addr)
    ensures Inventory([], DropMaster(masters, m.name), []).MasterKeys() ==
            Inventory([], masters, []).MasterKeys() - {m.id}
  {
    DropMasterKeys(masters, m);
    DropMasterDistinct(masters, m.name);
  }

  lemma DropNodeOk(nm: Naming, nodes: seq<Node>, addr: map<Id, string>, n: Node)
    requires NodesOk(nm, nodes, addr) && n in nodes
    ensures NodesOk(nm, DropNode(nodes, n.name), addr)
    ensures NodeMap(DropNode(nodes, n.name)) == NodeMap(nodes) - {n.providerId}
  {
    DropNodeMap(nodes, n);
    DropNodeDistinct(nodes, n.name);
    DropNodeNamed(nm, nodes, addr, n.name);
  }

  lemma DropNodeNamed(nm: Naming, nodes: seq<Node>, addr: map<Id, string>, name: string)
    requires NodesNamed(nm, nodes) && SingleReady(nodes) && NodesKnown(nodes, addr)
    ensures var left := DropNode(nodes, name);
            NodesNamed(nm, left) && SingleReady(left) && NodesKnown(left, addr)
  {
  }

  lemma WithoutOk(members: seq<Member>, addr: map<Id, string>, m: Member, key: Id)
    requires Injective(addr) && MembersOk(members, addr) && m in members && key in addr && addr[key] == m.ip
    ensures MembersOk(Without(members, m.id), addr)
    ensures MemberKeys(Without(members, m.id), addr) == MemberKeys(members, addr) - {key}
  {
    WithoutKnown(members, addr, m, key);
  }

  /** What `EtcdMemDiff` returns, as a set of machines. */
  lemma MemDiffKeys(nm: Naming, members: seq<Member>, instances: seq<Instance>, addr: map<Id, string>)
    requires Injective(addr) && MembersKnown(members, addr) && InstancesKnown(nm, instances, addr)
    ensures var dels := if 2 * |Stale(members, instances)| > |members| then [] else Stale(members, instances);
            && MembersKnown(dels, addr)
            && MemberKeys(dels, addr) ==
               ControlPlane.MemDiff(MemberKeys(members, addr), Inventory(instances, [], []).InstanceKeys(nm))
  {
    StaleKeys(nm, members, instances, addr);
  }

  /** What is asked of a machine, or of the group of machines. */
  datatype Action =
    | Restarted(key: Id, heard: bool)                // its kubelet, and whether a heartbeat followed
    | Labelled(key: Id, ok: bool)                    // its node, as a master
    | ResetAsked(key: Id)
    | GroupTold(size: int)
    | Reinstalled(key: Id, members: set<Id>)         // its disk, and who was in etcd then

  /**
   What a reset asks: nothing more if throttled or not admitted; else, unless a call fails, the
   machine is reinstalled, and never while it is still a member of etcd.
   */
  ghost predicate ResetActs(key: Id, info: NodeInfo, env: Surroundings, calm: bool, acts: seq<Action>) {
    && 1 <= |acts| <= 2 && acts[0] == ResetAsked(key)
    && (|acts| == 2 ==> acts[1].Reinstalled? && acts[1].key == key && key !in acts[1].members)
    && (|acts| == 2 ==> !env.throttled && Admitted(info, env))
    && (!env.throttled && Admitted(info, env) && calm ==> |acts| == 2)
  }

  /** The repair of one machine: its kubelet is restarted; heard of again, its node is labelled; if not, it is reset. */
  ghost predicate Attempt(key: Id, info: NodeInfo, env: Surroundings, calm: bool, acts: seq<Action>) {
    && acts != [] && acts[0].Restarted? && acts[0].key == key
    && if acts[0].heard then |acts| == 2 && acts[1].Labelled? && acts[1].key == key
       else ResetActs(key, info, env, calm, acts[1..])
  }

  /** The first row without a node is repaired; if there is none, some unready one; if there is none, nothing is done. */
  ghost predicate Tended(nm: Naming, rows: seq<NodeInfo>, env: Surroundings, calm: bool, acts: seq<Action>) {
    && (forall j :: First(rows, LacksNode, j) ==> Attempt(RowKey(nm, rows[j]), rows[j], env, calm, acts))
    && ((forall r :: r in rows ==> !LacksNode(r)) ==>
          || (exists r :: r in rows && Unready(r) && Attempt(RowKey(nm, r), r, env, calm, acts))
          || (acts == [] && forall r :: r in rows ==> !Unready(r)))
  }

  /** The last thing asked was a label, in vain. */
  predicate LabelFailed(acts: seq<Action>) {
    acts != [] && acts[|acts| - 1].Labelled? && !acts[|acts| - 1].ok
  }

  lemma HeardAttempt(key: Id, info: NodeInfo, env: Surroundings, calm: bool, ok: bool)
    ensures var acts := [Restarted(key, true)] + [Labelled(key, ok)];
            Attempt(key, info, env, calm, acts) && (LabelFailed(acts) <==> !ok)
  {
  }

  lemma ResetAttempt(key: Id, info: NodeInfo, env: Surroundings, calm: bool, more: seq<Action>)
    requires ResetActs(key, info, env, calm, more)
    ensures var acts := [Restarted(key, false)] + more;
            Attempt(key, info, env, calm, acts) && !LabelFailed(acts)
  {
    var acts := [Restarted(key, false)] + more;
    assert acts[1..] == more;
    assert acts[|acts| - 1] == more[|more| - 1];
  }

  lemma Assoc(a: seq<Action>, b: seq<Action>, c: seq<Action>)
    ensures a + b + c == a + (b + c)
  {
  }

  lemma FirstTended(nm: Naming, rows: seq<NodeInfo>, env: Surroundings, calm: bool, acts: seq<Action>)
    requires var lacking := Select(rows, LacksNode);
             lacking != [] && Attempt(RowKey(nm, lacking[0]), lacking[0], env, calm, acts)
    ensures Tended(nm, rows, env, calm, acts)
  {
    SelectFirst(rows, LacksNode);
    assert Select(rows, LacksNode)[0] in Select(rows, LacksNode);
  }

  lemma NoneLacking(rows: seq<NodeInfo>, p: NodeInfo -> bool)
    requires Select(rows, p) == []
    ensures forall r :: r in rows ==> !p(r)
  {
    forall r | r in rows
      ensures !p(r)
    {
      assert r !in Select(rows, p);
    }
  }

  lemma UnreadyTended(nm: Naming, rows: seq<NodeInfo>, env: Surroundings, calm: bool, acts: seq<Action>, r: NodeInfo)
    requires Select(rows, LacksNode) == [] && r in Select(rows, Unready)
    requires Attempt(RowKey(nm, r), r, env, calm, acts)
    ensures Tended(nm, rows, env, calm, acts)
  {
    NoneLacking(rows, LacksNode);
  }

  lemma NothingTended(nm: Naming, rows: seq<NodeInfo>, env: Surroundings, calm: bool)
    requires Select(rows, LacksNode) == [] && Select(rows, Unready) == []
    ensures Tended(nm, rows, env, calm, [])
  {
    NoneLacking(rows, LacksNode);
    NoneLacking(rows, Unready);
  }

  /** What became of the cluster, told by the machine that was tended to. */
  ghost predicate Treated(v: ControlPlane.View, c: ControlPlane.Cluster, after: ControlPlane.Cluster, acts: seq<Action>) {
    if acts == [] then v.Additions() == {} && v.Unready() == {} && after == c
    else
      && acts[0].Restarted?
      && var k := acts[0].key;
      if v.Additions() != {} then k in v.Additions() && ControlPlane.Rejoined(k, c, after)
      else k in v.Unready() && k in c.nodes && (after == c || after == c.(nodes := c.nodes[k := true]))
  }

  lemma TreatedIsRepaired(v: ControlPlane.View, c: ControlPlane.Cluster, after: ControlPlane.Cluster, acts: seq<Action>)
    requires Treated(v, c, after, acts)
    ensures ControlPlane.Repaired(v, c, after)
  {
  }

  /** All Masters could be created, and the machine tended to has a ready node. */
  ghost predicate AllWell(c: ControlPlane.Cluster, made: set<Id>, after: ControlPlane.Cluster, acts: seq<Action>) {
    && made == ControlPlane.Look(c).MissedCrds()
    && (acts != [] && acts[0].Restarted? ==> acts[0].key in after.nodes && after.nodes[acts[0].key])
  }

  /** Then the pass is one of the good rounds by which the control plane converges. */
  lemma TreatedIsGood(c: ControlPlane.Cluster, made: set<Id>, after: ControlPlane.Cluster, acts: seq<Action>)
    requires Treated(ControlPlane.Look(c), Tidied(c, made), after, acts) && AllWell(c, made, after, acts)
    ensures GoodRound(c, after)
  {
    var v, mid := ControlPlane.Look(c), Tidied(c, made);
    if v.Additions() != {} {
      var k := acts[0].key;
      assert k !in mid.nodes;
      assert after.nodes == mid.nodes[k := true];
    } else if v.Unready() != {} {
      var k := acts[0].key;
      assert !mid.nodes[k];
    }
  }

  class Plane {
    var instances: seq<Instance>
    var masters: seq<Master>
    var nodes: seq<Node>
    var members: seq<Member>
    var checking: bool
    ghost var faults: nat          // how many remote calls have failed, creations, restarts and disks apart
    ghost var creates: seq<Id>     // the Masters that were asked to be created
    ghost var log: seq<Action>     // what was asked of machines

    ghost const nm: Naming
    ghost const addr: map<Id, string>

    ghost function Lists(): Inventory
      reads this`instances, this`masters, this`nodes
    {
      Inventory(instances, masters, nodes)
    }

    /** What the state machine sees. */
    ghost function Abs(): ControlPlane.Cluster
      reads this`instances, this`masters, this`nodes, this`members
    {
      ControlPlane.Cluster(Lists().InstanceKeys(nm), Lists().MasterKeys(), NodeMap(nodes), MemberKeys(members, addr))
    }

    /** Object names and ids are unique, ids are well formed, and members sit on known machines. */
    ghost predicate Valid()
      reads this`instances, this`masters, this`nodes, this`members
    {
      && Injective(addr) && InstancesOk(nm, instances, addr) && MastersOk(nm, masters, addr)
      && NodesOk(nm, nodes, addr) && MembersOk(members, addr)
    }

    constructor (ghost nm: Naming, ghost addr: map<Id, string>, instances: seq<Instance>, masters: seq<Master>,
                 nodes: seq<Node>, members: seq<Member>)
      ensures this.nm == nm && this.addr == addr && !checking && faults == 0
      ensures this.instances == instances && this.masters == masters && this.nodes == nodes && this.members == members
    {
      this.nm, this.addr, checking, faults := nm, addr, false, 0;
      this.instances, this.masters, this.nodes, this.members := instances, masters, nodes, members;
    }

    // ----- Remote calls ---------------------------------------------------------

    method DeleteMaster(m: Master) returns (reply: Reply)
      requires Valid() && m in masters
      modifies this`masters, this`faults
      ensures Valid() && faults == old(faults) + if reply.Done? then 0 else 1
      ensures masters == if reply.Applied() then DropMaster(old(masters), m.name) else old(masters)
      ensures Lists().MasterKeys() == old(Lists().MasterKeys()) - if reply.Applied() then {m.id} else {}
    {
      reply := *;
      faults := faults + if reply.Done? then 0 else 1;
      if reply.Applied() {
        DropMasterOk(nm, masters, addr, m);
        masters := DropMaster(masters, m.name);
      }
    }

    method CreateMaster(m: Master) returns (reply: Reply)
      requires Valid() && nm.ValidProviderId(m.id) && m.id !in Lists().MasterKeys()
      requires m.id in addr && addr[m.id] == m.ip
      modifies this`masters, this`creates
      ensures Valid() && creates == old(creates) + [m.id]
      ensures masters == if reply.Applied() then old(masters) + [m] else old(masters)
      ensures Lists().MasterKeys() == old(Lists().MasterKeys()) + if reply.Applied() then {m.id} else {}
    {
      reply := *;
      creates := creates + [m.id];
      if exists x :: x in masters && x.name == m.name {
        reply := Refused;  // the name is taken
      }
      if reply.Applied() {
        masters := masters + [m];
        assert Lists().MasterKeys() == old(Lists().MasterKeys()) + {m.id};
      }
    }

    method RemoveMember(m: Member, ghost key: Id) returns (reply: Reply)
      requires Valid() && m in members && key in addr && addr[key] == m.ip
      modifies this`members, this`faults
      ensures Valid() && faults == old(faults) + if reply.Done? then 0 else 1
      ensures members == if reply.Applied() then Without(old(members), m.id) else old(members)
      ensures MemberKeys(members, addr) == MemberKeys(old(members), addr) - if reply.Applied() then {key} else {}
    {
      reply := *;
      faults := faults + if reply.Done? then 0 else 1;
      if reply.Applied() {
        WithoutOk(members, addr, m, key);
        members := Without(members, m.id);
      }
    }

    method DeleteNode(n: Node) returns (reply: Reply)
      requires Valid() && n in nodes
      modifies this`nodes, this`faults
      ensures Valid() && faults == old(faults) + if reply.Done? then 0 else 1
      ensures nodes == if reply.Applied() then DropNode(old(nodes), n.name) else old(nodes)
      ensures NodeMap(nodes) == if reply.Applied() then NodeMap(old(nodes)) - {n.providerId} else NodeMap(old(nodes))
    {
      reply := *;
      faults := faults + if reply.Done? then 0 else 1;
      if reply.Applied() {
        DropNodeOk(nm, nodes, addr, n);
        SetNodes(DropNode(nodes, n.name));
      }
    }

    method SetNodes(left: seq<Node>)
      requires Valid() && NodesOk(nm, left, addr)
      modifies this`nodes
      ensures Valid() && nodes == left
    {
      nodes := left;
    }

    // ----- Step 1: Masters -------------------------------------------------------

    method DeleteMasterOf(rows: seq<NodeInfo>, k: nat) returns (reply: Reply)
      requires Valid() && MasterRows(nm, rows) && k < |rows|
      requires forall j :: k <= j < |rows| ==> rows[j].resource.value in masters
      modifies this`masters, this`faults
      ensures Valid() && faults == old(faults) + if reply.Done? then 0 else 1
      ensures forall j :: k < j < |rows| ==> rows[j].resource.value in masters
      ensures Lists().MasterKeys() ==
              old(Lists().MasterKeys()) - if reply.Applied() then {RowIds(nm, rows)[k]} else {}
    {
      LaterMasters(nm, masters, rows, k);
      assert rows[k] in rows;
      reply := DeleteMaster(rows[k].resource.value);
    }

    method DeleteOrphanMasters(deletions: seq<NodeInfo>) returns (ok: bool, done: nat, last: Reply)
      requires Valid() && MasterRows(nm, deletions)
      requires forall r :: r in deletions ==> r.resource.value in masters
      modifies this`masters, this`faults
      ensures Valid() && Stopped(|deletions|, done, last, ok) && faults == old(faults) + if ok then 0 else 1
      ensures Lists().MasterKeys() == old(Lists().MasterKeys()) - HitBy(RowIds(nm, deletions), done, last)
    {
      done, last := 0, Done;
      ghost var ids := RowIds(nm, deletions);
      for k := 0 to |deletions|
        invariant Valid() && done == k && last.Done? && faults == old(faults)
        invariant forall j :: k <= j < |deletions| ==> deletions[j].resource.value in masters
        invariant Lists().MasterKeys() == old(Lists().MasterKeys()) - HitBy(ids, k, Done)
      {
        last := DeleteMasterOf(deletions, k);
        HitByStep(ids, k, last);
        if !last.Done? {
          return false, done, last;
        }
        done := k + 1;
      }
      return true, done, last;
    }

    method CreateMasterOf(missed: seq<NodeInfo>, k: nat) returns (reply: Reply)
      requires Valid() && NodeRows(nm, missed) && k < |missed|
      requires forall r :: r in missed ==> nm.ValidProviderId(RowKey(nm, r))
      requires forall r :: r in missed ==> RowKey(nm, r) in addr && addr[RowKey(nm, r)] == r.node.value.address
      requires forall j :: k <= j < |missed| ==> RowKey(nm, missed[j]) !in Lists().MasterKeys()
      modifies this`masters, this`creates
      ensures Valid() && creates == old(creates) + [RowIds(nm, missed)[k]]
      ensures Lists().MasterKeys() ==
              old(Lists().MasterKeys()) + if reply.Applied() then {RowIds(nm, missed)[k]} else {}
      ensures forall j :: k < j < |missed| ==> RowKey(nm, missed[j]) !in Lists().MasterKeys()
      ensures SelfNamed(old(masters), masters)
    {
      var n := missed[k].node.value;
      assert missed[k] in missed;
      reply := CreateMaster(Master(n.providerId, n.providerId, n.address));
    }

    /** Recreate Masters from their nodes. An error is logged and the loop goes on. */
    method FixMasterCRD(missed: seq<NodeInfo>) returns (ghost replies: seq<Reply>)
      requires Valid() && NodeRows(nm, missed)
      requires forall r :: r in missed ==> nm.ValidProviderId(RowKey(nm, r)) && RowKey(nm, r) !in Lists().MasterKeys()
      requires forall r :: r in missed ==> RowKey(nm, r) in addr && addr[RowKey(nm, r)] == r.node.value.address
      modifies this`masters, this`creates
      ensures Valid() && |replies| == |missed| && creates == old(creates) + RowIds(nm, missed)
      ensures Lists().MasterKeys() == old(Lists().MasterKeys()) + Hit(RowIds(nm, missed), replies)
      ensures SelfNamed(old(masters), masters)
    {
      replies := [];
      ghost var ids := RowIds(nm, missed);
      for k := 0 to |missed|
        invariant Valid() && |replies| == k && creates == old(creates) + ids[..k]
        invariant SelfNamed(old(masters), masters)
        invariant forall j :: k <= j < |missed| ==> RowKey(nm, missed[j]) !in Lists().MasterKeys()
        invariant Lists().MasterKeys() == old(Lists().MasterKeys()) + Hit(ids, replies)
      {
        var reply := CreateMasterOf(missed, k);
        HitStep(ids, replies, reply);
        TakeNext(old(creates), ids, k);
        replies := replies + [reply];
      }
      assert ids[..|ids|] == ids;
    }

    /**
     Delete Masters without a machine, then recreate those that live nodes miss. The
     ghost results are the machine run these calls amount to.
     */
    method FixUpMeta(trip: Triple, ghost s: ControlPlane.State)
      returns (ok: bool, ghost made: set<Id>, ghost es: seq<ControlPlane.Event>, ghost t: ControlPlane.State)
      requires Valid() && trip == Triple(Lists(), Lists().Rows(nm))
      requires s.c == Abs()
      requires s.heal == ControlPlane.Working(ControlPlane.Cleaning, Seen(trip), Seen(trip).OrphanCrds())
      modifies this`masters, this`faults, this`creates
      ensures Valid() && Reaches(s, es, t) && faults == old(faults) + if ok then 0 else 1
      ensures ok ==> Asked(old(creates), Seen(trip).MissedCrds(), creates)
      ensures t == s.(c := Abs(), heal := if ok then ControlPlane.Listing(Seen(trip)) else ControlPlane.Idle)
      ensures ok ==> made <= Seen(trip).MissedCrds()
      ensures ok ==> Lists().MasterKeys() == s.c.crds - Seen(trip).OrphanCrds() + made
    {
      var deletions, missed := MasterCRDDiff(trip.rows);
      OrphanMasterFacts(nm, trip.inv);
      MissedMasterFacts(nm, trip.inv);
      ghost var ids, more := RowIds(nm, deletions), RowIds(nm, missed);
      var good, done, last := DeleteOrphanMasters(deletions);
      if !good {
        StoppedPhase(s, ids, done, last, false);
        return false, {}, PhaseEvents(ids, done, last, false), s.(c := Abs(), heal := ControlPlane.Idle);
      }
      HitByAll(ids);
      ghost var creates := FixMasterCRD(missed);
      MetaRun(s, ids, done, last, more, creates);
      assert Hit(more, creates) <= Elements(more);
      es := PhaseEvents(ids, done, last, true) + (Calls(more, creates) + [ControlPlane.Finish]);
      return true, Hit(more, creates), es, s.(c := Abs(), heal := ControlPlane.Listing(Seen(trip)));
    }

    ghost function Seen(trip: Triple): ControlPlane.View {
      ViewOf(nm, trip.inv)
    }

    // ----- Step 2: etcd members --------------------------------------------------

    method RemoveStaleMembers(dels: seq<Member>, ghost ids: seq<Id>) returns (ok: bool, done: nat, last: Reply)
      requires Valid() && DistinctIds(dels) && forall m :: m in dels ==> m in members
      requires |ids| == |dels| && forall k :: 0 <= k < |dels| ==> ids[k] in addr && addr[ids[k]] == dels[k].ip
      modifies this`members, this`faults
      ensures Valid() && Stopped(|dels|, done, last, ok) && faults == old(faults) + if ok then 0 else 1
      ensures MemberKeys(members, addr) == MemberKeys(old(members), addr) - HitBy(ids, done, last)
    {
      done, last := 0, Done;
      for k := 0 to |dels|
        invariant Valid() && done == k && last.Done? && faults == old(faults)
        invariant forall j :: k <= j < |dels| ==> dels[j] in members
        invariant MemberKeys(members, addr) == MemberKeys(old(members), addr) - HitBy(ids, k, Done)
      {
        last := RemoveMember(dels[k], ids[k]);
        HitByStep(ids, k, last);
        if !last.Done? {
          return false, done, last;
        }
        done := k + 1;
      }
      return true, done, last;
    }

    /** Remove the members whose machine is gone, if the guard lets them be listed. */
    method FixUpEtcd(trip: Triple, ghost s: ControlPlane.State)
      returns (ok: bool, ghost es: seq<ControlPlane.Event>, ghost t: ControlPlane.State)
      requires Valid() && trip.inv.instances == instances
      requires s.c == Abs() && s.heal == ControlPlane.Listing(Seen(trip))
      modifies this`members, this`faults
      ensures Valid() && Reaches(s, es, t)
      ensures old(faults) <= faults && (ok <==> faults == old(faults) && trip.inv.masters != [])
      ensures t == s.(c := Abs(), heal := if ok then ControlPlane.AfterPhase(ControlPlane.Removing, Seen(trip))
                                          else ControlPlane.Idle)
      ensures ok ==> MemberKeys(members, addr) == s.c.members - ControlPlane.MemDiff(s.c.members, s.c.insts)
    {
      ListingFails(s);
      if |trip.inv.masters| == 0 {
        return false, [ControlPlane.ListMembers(false)], s.(heal := ControlPlane.Idle);
      }
      var listed: bool := *;
      if !listed {
        faults := faults + 1;
        return false, [ControlPlane.ListMembers(false)], s.(heal := ControlPlane.Idle);
      }
      assert trip.inv.masters[0].id in Seen(trip).crds by { assert trip.inv.masters[0] in trip.inv.masters; }
      ok, es, t := RemoveListed(trip, s);
    }

    /** The members are listed; remove the stale ones. */
    method RemoveListed(trip: Triple, ghost s: ControlPlane.State)
      returns (ok: bool, ghost es: seq<ControlPlane.Event>, ghost t: ControlPlane.State)
      requires Valid() && trip.inv.instances == instances
      requires s.c == Abs() && s.heal == ControlPlane.Listing(Seen(trip)) && Seen(trip).crds != {}
      modifies this`members, this`faults
      ensures Valid() && Reaches(s, es, t) && faults == old(faults) + if ok then 0 else 1
      ensures t == s.(c := Abs(), heal := if ok then ControlPlane.AfterPhase(ControlPlane.Removing, Seen(trip))
                                          else ControlPlane.Idle)
      ensures ok ==> MemberKeys(members, addr) == s.c.members - ControlPlane.MemDiff(s.c.members, s.c.insts)
    {
      var dels := EtcdMemDiff(trip.inv.instances, members);
      MemDiffKeys(nm, members, instances, addr);
      OwnersAre(dels, addr);
      ghost var ids := Owners(dels, addr);
      var good, done, last := RemoveStaleMembers(dels, ids);
      EtcdRun(s, ids, done, last, good);
      HitByAll(ids);
      es := [ControlPlane.ListMembers(true)] + PhaseEvents(ids, done, last, good);
      t := s.(c := Abs(), heal := if good then ControlPlane.AfterPhase(ControlPlane.Removing, Seen(trip))
                                  else ControlPlane.Idle);
      return good, es, t;
    }

    // ----- Step 3: nodes ---------------------------------------------------------

    method DeleteNodeOf(rows: seq<NodeInfo>, k: nat) returns (reply: Reply)
      requires Valid() && NodeRows(nm, rows) && k < |rows|
      requires forall j :: k <= j < |rows| ==> rows[j].node.value in nodes
      modifies this`nodes, this`faults
      ensures Valid() && faults == old(faults) + if reply.Done? then 0 else 1
      ensures forall j :: k < j < |rows| ==> rows[j].node.value in nodes
      ensures NodeMap(nodes) ==
              if reply.Applied() then NodeMap(old(nodes)) - {RowIds(nm, rows)[k]} else NodeMap(old(nodes))
    {
      LaterNodes(nm, nodes, rows, k);
      assert rows[k] in rows;
      reply := DeleteNode(rows[k].node.value);
    }

    method DeleteOrphanNodes(deletion: seq<NodeInfo>) returns (ok: bool, done: nat, last: Reply)
      requires Valid() && NodeRows(nm, deletion)
      requires forall r :: r in deletion ==> r.node.value in nodes
      modifies this`nodes, this`faults
      ensures Valid() && Stopped(|deletion|, done, last, ok) && faults == old(faults) + if ok then 0 else 1
      ensures NodeMap(nodes) == NodeMap(old(nodes)) - HitBy(RowIds(nm, deletion), done, last)
    {
      done, last := 0, Done;
      ghost var ids := RowIds(nm, deletion);
      MinusTwice(NodeMap(nodes), {}, {});
      for k := 0 to |deletion|
        invariant Valid() && done == k && last.Done? && faults == old(faults)
        invariant forall j :: k <= j < |deletion| ==> deletion[j].node.value in nodes
        invariant NodeMap(nodes) == NodeMap(old(nodes)) - HitBy(ids, k, Done)
      {
        last := DeleteNodeOf(deletion, k);
        HitByStep(ids, k, last);
        MinusTwice(NodeMap(old(nodes)), HitBy(ids, k, Done), if last.Applied() then {ids[k]} else {});
        if !last.Done? {
          return false, done, last;
        }
        done := k + 1;
      }
      return true, done, last;
    }

    // ----- The hard repair of one machine ------------------------------------------

    /**
     Outside effects. These three stand for what the machine, its kubelet and its etcd do
     meanwhile: the contract says what may change, and callers know no more than that.
     */
    method AwaitHeartbeat(ghost key: Id) returns (ok: bool)
      requires Valid()
      modifies this`nodes, this`log
      ensures Valid() && log == old(log) + [Restarted(key, ok)]
      ensures || NodeMap(nodes) == NodeMap(old(nodes))
              || (key in NodeMap(old(nodes)) && NodeMap(nodes) == NodeMap(old(nodes))[key := true])
    {
      ok := *;
      log := log + [Restarted(key, ok)];
    }

    method LabelNode(ghost key: Id) returns (ok: bool)
      requires Valid()
      modifies this`nodes, this`faults, this`log
      ensures Valid() && faults == old(faults) + (if ok then 0 else 1) && log == old(log) + [Labelled(key, ok)]
      ensures || NodeMap(nodes) == NodeMap(old(nodes))
              || (key !in NodeMap(old(nodes)) && NodeMap(nodes) == NodeMap(old(nodes))[key := true])
              || (key !in NodeMap(old(nodes)) && NodeMap(nodes) == NodeMap(old(nodes))[key := false])
    {
      ok := *;
      faults := faults + if ok then 0 else 1;
      log := log + [Labelled(key, ok)];
    }

    /** The disk is replaced, and whatever the machine then does. */
    method Reinstall(ghost key: Id) returns (ok: bool)
      requires Valid()
      modifies this`masters, this`nodes, this`members, this`log
      ensures Valid() && ControlPlane.Rejoined(key, old(Abs()), Abs())
      ensures log == old(log) + [Reinstalled(key, old(Abs().members))]
    {
      var replaced: bool := *;
      log := log + [Reinstalled(key, Abs().members)];
      if !replaced {
        return false;
      }
      ok := Rejoin(key);
    }

    method Rejoin(ghost key: Id) returns (ok: bool)
      requires Valid()
      modifies this`masters, this`nodes, this`members
      ensures Valid() && ControlPlane.Rejoined(key, old(Abs()), Abs())
    {
      ok := *;
    }

    /** Take the machine's own member out of etcd; a missing member counts as removed. */
    method RemoveEtcd(ip: string, ghost key: Id) returns (ok: bool)
      requires Valid() && key in addr && addr[key] == ip
      modifies this`members, this`faults
      ensures Valid() && faults == old(faults) + if ok then 0 else 1
      ensures MemberKeys(members, addr) - {key} == MemberKeys(old(members), addr) - {key}
      ensures ok ==> key !in MemberKeys(members, addr)
    {
      var listed: bool := *;
      if !listed {
        faults := faults + 1;
        return false;
      }
      var mem := FindMemberByIP(members, ip);
      if mem.id == 0 {
        return true;
      }
      AdvertiseInjective(mem.ip, ip, "2380");
      var reply := RemoveMember(mem, key);
      return reply.Done?;
    }

    /** Reinstall the machine, if the throttles and the admission check allow it. */
    method Reset(info: NodeInfo, ghost key: Id, env: Surroundings) returns (ok: bool, ghost acts: seq<Action>)
      requires Valid() && Repairable(info, key)
      modifies this`masters, this`nodes, this`members, this`faults, this`log
      ensures Valid() && old(faults) <= faults
      ensures log == old(log) + acts && ResetActs(key, info, env, faults == old(faults), acts)
      ensures Unready(info) ==> Abs() == old(Abs())
      ensures ControlPlane.Rejoined(key, old(Abs()), Abs())
    {
      acts := [ResetAsked(key)];
      log := log + acts;
      if env.throttled {
        return false, acts;
      }
      var admit := AdmitNode(info, env);
      if !admit {
        return false, acts;
      }
      var removed := RemoveEtcd(info.instance.value.ip, key);
      if !removed {
        return false, acts;
      }
      var userData: bool := *;
      if !userData {
        faults := faults + 1;
        return false, acts;
      }
      acts := acts + [Reinstalled(key, Abs().members)];
      ok := Reinstall(key);
    }

    ghost predicate Repairable(info: NodeInfo, key: Id)
      reads this
    {
      && info.instance.Some? && info.instance.value in instances && key == nm.ProviderId(info.instance.value.id)
      && (info.node.Some? ==> OneReady(info.node.value))
    }

    method RestartKubelet(ghost key: Id) returns (heard: bool, labelled: bool, ghost acts: seq<Action>)
      requires Valid()
      modifies this`nodes, this`faults, this`log
      ensures log == old(log) + acts
      ensures acts == if heard then [Restarted(key, true)] + [Labelled(key, labelled)] else [Restarted(key, false)]
      ensures Valid() && faults == old(faults) + if heard && !labelled then 1 else 0
      ensures key in NodeMap(old(nodes)) ==>
                Abs() == old(Abs()) || Abs() == old(Abs()).(nodes := NodeMap(old(nodes))[key := true])
      ensures key !in NodeMap(old(nodes)) ==>
                ControlPlane.Rejoined(key, old(Abs()), Abs()) && (!heard ==> Abs() == old(Abs()))
    {
      labelled := false;
      heard := AwaitHeartbeat(key);
      if heard {
        labelled := LabelNode(key);
      }
      acts := if heard then [Restarted(key, true)] + [Labelled(key, labelled)] else [Restarted(key, false)];
    }

    /** Restart the kubelet; failing that, reset. A failed reset is logged, not reported. */
    method FixUpHard(info: NodeInfo, ghost key: Id, env: Surroundings) returns (ok: bool, ghost acts: seq<Action>)
      requires Valid() && Repairable(info, key)
      requires Unready(info) || key !in NodeMap(nodes)
      requires Unready(info) ==> key in NodeMap(nodes)
      modifies this`masters, this`nodes, this`members, this`faults, this`log
      ensures Valid() && old(faults) <= faults && (!ok ==> old(faults) < faults)
      ensures log == old(log) + acts && Attempt(key, info, env, faults == old(faults), acts)
      ensures ok <==> !LabelFailed(acts)
      ensures Unready(info) ==> || Abs() == old(Abs())
                                || Abs() == old(Abs()).(nodes := old(Abs().nodes)[key := true])
      ensures !Unready(info) ==> ControlPlane.Rejoined(key, old(Abs()), Abs())
    {
      var heard, labelled;
      heard, labelled, acts := RestartKubelet(key);
      if heard {
        HeardAttempt(key, info, env, faults == old(faults), labelled);
        return labelled, acts;
      }
      acts := ResetUnheard(info, key, env, old(log));
      return true, acts;
    }

    /** Nothing was heard after the restart. */
    method ResetUnheard(info: NodeInfo, ghost key: Id, env: Surroundings, ghost before: seq<Action>)
      returns (ghost acts: seq<Action>)
      requires Valid() && Repairable(info, key) && log == before + [Restarted(key, false)]
      modifies this`masters, this`nodes, this`members, this`faults, this`log
      ensures Valid() && old(faults) <= faults
      ensures log == before + acts && Attempt(key, info, env, faults == old(faults), acts)
      ensures !LabelFailed(acts)
      ensures Unready(info) ==> Abs() == old(Abs())
      ensures ControlPlane.Rejoined(key, old(Abs()), Abs())
    {
      ghost var more;
      var reset;
      reset, more := Reset(info, key, env);
      Assoc(before, [Restarted(key, false)], more);
      ResetAttempt(key, info, env, faults == old(faults), more);
      return [Restarted(key, false)] + more;
    }

    /** Repair one machine: the first without a node, else a random unready one. */
    method RepairOne(trip: Triple, addition: seq<NodeInfo>, env: Surroundings)
      returns (ok: bool, ghost acts: seq<Action>)
      requires Valid() && Listable(nm, trip.inv) && trip.rows == trip.inv.Rows(nm) && trip.inv.instances == instances
      requires addition == Select(trip.rows, LacksNode)
      requires NodeMap(nodes) == Keep(Seen(trip).nodes, Seen(trip).insts)
      requires forall n :: n in trip.inv.nodes ==> OneReady(n)
      modifies this`masters, this`nodes, this`members, this`faults, this`log
      ensures old(faults) <= faults && (!ok ==> old(faults) < faults)
      ensures Valid() && Treated(Seen(trip), old(Abs()), Abs(), acts)
      ensures log == old(log) + acts && Tended(nm, trip.rows, env, faults == old(faults), acts)
    {
      AdditionKeys(nm, trip.inv);
      if |addition| <= 0 {
        ok, acts := RepairUnready(trip, env);
      } else {
        var info := addition[0];
        ghost var key := RowKey(nm, info);
        assert info in addition;
        OuterJoin(nm, trip.inv, info);
        ok, acts := FixUpHard(info, key, env);
        FirstTended(nm, trip.rows, env, faults == old(faults), acts);
      }
    }

    /** Every machine has a node: repair a random one whose node is unready. */
    method RepairUnready(trip: Triple, env: Surroundings) returns (ok: bool, ghost acts: seq<Action>)
      requires Valid() && Listable(nm, trip.inv) && trip.rows == trip.inv.Rows(nm) && trip.inv.instances == instances
      requires Select(trip.rows, LacksNode) == [] && Seen(trip).Additions() == {}
      requires NodeMap(nodes) == Keep(Seen(trip).nodes, Seen(trip).insts)
      requires forall n :: n in trip.inv.nodes ==> OneReady(n)
      modifies this`masters, this`nodes, this`members, this`faults, this`log
      ensures old(faults) <= faults && (!ok ==> old(faults) < faults)
      ensures Valid() && Treated(Seen(trip), old(Abs()), Abs(), acts)
      ensures log == old(log) + acts && Tended(nm, trip.rows, env, faults == old(faults), acts)
    {
      var infos := UnReadyNodeList(trip.rows);
      UnreadyKeys(nm, trip.inv);
      if |infos| <= 0 {
        NothingTended(nm, trip.rows, env, true);
        return true, [];
      }
      var draw: nat := *;
      var k := Randn(|infos|, draw);
      var info := infos[k];
      ghost var key := RowKey(nm, info);
      assert info in infos;
      OuterJoin(nm, trip.inv, info);
      ok, acts := FixUpHard(info, key, env);
      UnreadyTended(nm, trip.rows, env, faults == old(faults), acts, info);
    }

    /** Delete nodes without a machine. */
    method CleanNodes(trip: Triple, deletion: seq<NodeInfo>, ghost s: ControlPlane.State)
      returns (ok: bool, ghost es: seq<ControlPlane.Event>)
      requires Valid() && Listable(nm, trip.inv) && trip.rows == trip.inv.Rows(nm) && trip.inv.nodes == nodes
      requires deletion == Select(trip.rows, OrphanNode)
      requires s.c == Abs() && s.heal == ControlPlane.AfterPhase(ControlPlane.Removing, Seen(trip))
      modifies this`nodes, this`faults
      ensures Valid() && faults == old(faults) + if ok then 0 else 1
      ensures Reaches(s, es, s.(c := Abs(), heal := if ok then ControlPlane.Repairing(Seen(trip)) else ControlPlane.Idle))
      ensures ok ==> NodeMap(nodes) == NodeMap(old(nodes)) - Seen(trip).OrphanNodes()
    {
      OrphanNodeFacts(nm, trip.inv);
      ghost var ids := RowIds(nm, deletion);
      var good, done, last := DeleteOrphanNodes(deletion);
      DeletePhase(s, Seen(trip), ids, done, last, good);
      return good, PhaseEvents(ids, done, last, good);
    }

    /** Delete nodes without a machine, then repair one machine. */
    method FixUpNode(trip: Triple, ghost s: ControlPlane.State, env: Surroundings)
      returns (ok: bool, ghost es: seq<ControlPlane.Event>, ghost t: ControlPlane.State, ghost acts: seq<Action>)
      requires Valid() && Listable(nm, trip.inv) && trip.rows == trip.inv.Rows(nm)
      requires trip.inv.instances == instances && trip.inv.nodes == nodes
      requires s.c == Abs() && s.heal == ControlPlane.AfterPhase(ControlPlane.Removing, Seen(trip))
      modifies this`masters, this`nodes, this`members, this`faults, this`log
      ensures old(faults) <= faults && (!ok ==> old(faults) < faults)
      ensures Valid() && Reaches(s, es, t) && t == s.(c := Abs(), heal := ControlPlane.Idle)
      ensures log == old(log) + acts
      ensures ok ==> Treated(Seen(trip), s.c.(nodes := Keep(s.c.nodes, s.c.insts)), Abs(), acts)
      ensures ok ==> Tended(nm, trip.rows, env, faults == old(faults), acts)
    {
      acts := [];
      var addition, deletion := InstanceNodeDiff(trip.rows);
      ok, es := CleanNodes(trip, deletion, s);
      t := s.(c := Abs(), heal := ControlPlane.Idle);
      if !ok {
        return;
      }
      KeepMeans(s.c.nodes, s.c.insts);
      ghost var mid := s.(c := Abs(), heal := ControlPlane.Repairing(Seen(trip)));
      ok, acts := RepairOne(trip, addition, env);
      TreatedIsRepaired(Seen(trip), mid.c, Abs(), acts);
      t := s.(c := Abs(), heal := ControlPlane.Idle);
      ReachesStep(s, es, mid, ControlPlane.Repair(Abs()));
      es := es + [ControlPlane.Repair(Abs())];
    }

    method ReadTriple() returns (trip: Result<Triple>)
      requires Valid()
      modifies this`faults
      ensures trip.Ok? ==> trip.value == Triple(Lists(), Lists().Rows(nm))
      ensures faults == old(faults) + if trip.Ok? then 0 else 1
    {
      var a: bool, b: bool, c: bool, d: bool := *, *, *, *;
      NamedUnambiguous(nm, Lists());
      trip := NewTripleMaster(if a then Ok(()) else Err("cluster"), if b then Ok(masters) else Err("masters"),
                              if c then Ok(nodes) else Err("nodes"), if d then Ok(instances) else Err("instances"));
      faults := faults + if trip.Ok? then 0 else 1;
    }

    /**
     One repair pass: Masters, then etcd, then nodes. It amounts to a run of the state
     machine, whether it succeeds or stops at an error; a success is a finished pass, in which
     every missing Master was asked for and, if there is one to repair, one machine was tended
     to. If the Masters were created and that machine got well, it is a good round.
     */
    method FixMasterNode(env: Surroundings, ghost s: ControlPlane.State)
      returns (ok: bool, ghost made: set<Id>, ghost es: seq<ControlPlane.Event>, ghost t: ControlPlane.State,
               ghost acts: seq<Action>)
      requires Valid() && s.c == Abs() && s.heal == ControlPlane.Idle
      modifies this`masters, this`nodes, this`members, this`checking, this`faults, this`creates, this`log
      ensures Valid() && !checking && old(faults) <= faults
      ensures !ok ==> old(faults) < faults || old(masters) == []
      ensures Reaches(s, es, t) && t == s.(c := Abs())
      ensures ok ==> Treated(ControlPlane.Look(s.c), Tidied(s.c, made), Abs(), acts)
      ensures ok ==> PassDone(s.c, made, Abs()) && Asked(old(creates), ControlPlane.Look(s.c).MissedCrds(), creates)
      ensures log == old(log) + acts
      ensures ok ==> Tended(nm, old(Lists()).Rows(nm), env, faults == old(faults), acts)
      ensures ok && AllWell(s.c, made, Abs(), acts) ==> GoodRound(s.c, Abs())
    {
      checking := true;
      ok, made, es, t, acts := RunPass(env, s);
      checking := false;
      if ok && AllWell(s.c, made, Abs(), acts) {
        TreatedIsGood(s.c, made, Abs(), acts);
      }
      if ok {
        TreatedIsRepaired(ControlPlane.Look(s.c), Tidied(s.c, made), Abs(), acts);
      }
    }

    method RunPass(env: Surroundings, ghost s: ControlPlane.State)
      returns (ok: bool, ghost made: set<Id>, ghost es: seq<ControlPlane.Event>, ghost t: ControlPlane.State,
               ghost acts: seq<Action>)
      requires Valid() && s.c == Abs() && s.heal == ControlPlane.Idle
      modifies this`masters, this`nodes, this`members, this`faults, this`creates, this`log
      ensures Valid() && Reaches(s, es, t) && t == s.(c := Abs()) && old(faults) <= faults
      ensures !ok ==> old(faults) < faults || old(masters) == []
      ensures ok ==> made <= ControlPlane.Look(s.c).MissedCrds()
      ensures ok ==> Asked(old(creates), ControlPlane.Look(s.c).MissedCrds(), creates)
      ensures ok ==> Treated(ControlPlane.Look(s.c), Tidied(s.c, made), Abs(), acts)
      ensures log == old(log) + acts
      ensures ok ==> Tended(nm, old(Lists()).Rows(nm), env, faults == old(faults), acts)
    {
      acts := [];
      var read := ReadTriple();
      if read.Err? {
        return false, {}, [], s, acts;
      }
      var trip := read.value;
      ReadRun(s);
      ghost var reading := [ControlPlane.ReadCrds, ControlPlane.ReadNodes, ControlPlane.ReadInsts];
      ghost var u := s.(heal := ControlPlane.Working(ControlPlane.Cleaning, Seen(trip), Seen(trip).OrphanCrds()));
      ok, made, es, t, acts := FixUpAll(trip, env, u);
      ReachesConcat(s, reading, u, es, t);
      es := reading + es;
    }

    /** The three steps, on the lists that were read. */
    method FixUpAll(trip: Triple, env: Surroundings, ghost s: ControlPlane.State)
      returns (ok: bool, ghost made: set<Id>, ghost es: seq<ControlPlane.Event>, ghost t: ControlPlane.State,
               ghost acts: seq<Action>)
      requires Valid() && trip == Triple(Lists(), Lists().Rows(nm)) && s.c == Abs()
      requires s.heal == ControlPlane.Working(ControlPlane.Cleaning, Seen(trip), Seen(trip).OrphanCrds())
      modifies this`masters, this`nodes, this`members, this`faults, this`creates, this`log
      ensures Valid() && Reaches(s, es, t) && t == s.(c := Abs(), heal := ControlPlane.Idle)
      ensures old(faults) <= faults && (!ok ==> old(faults) < faults || old(masters) == [])
      ensures ok ==> made <= Seen(trip).MissedCrds() && Asked(old(creates), Seen(trip).MissedCrds(), creates)
      ensures ok ==> Treated(Seen(trip), Tidied(s.c, made), Abs(), acts)
      ensures log == old(log) + acts
      ensures ok ==> Tended(nm, trip.rows, env, faults == old(faults), acts)
    {
      acts := [];
      ok, made, es, t := FixUpMeta(trip, s);
      if !ok {
        return false, made, es, t, acts;
      }
      ghost var meta, fs, u := Abs(), [], t;
      ok, fs, u, acts := FixUpRest(trip, t, env);
      ReachesConcat(s, es, t, fs, u);
      es, t := es + fs, u;
      TidiedMeans(s.c, made, meta);
    }

    /** Steps 2 and 3. */
    method FixUpRest(trip: Triple, ghost s: ControlPlane.State, env: Surroundings)
      returns (ok: bool, ghost es: seq<ControlPlane.Event>, ghost t: ControlPlane.State, ghost acts: seq<Action>)
      requires Valid() && Listable(nm, trip.inv) && trip.rows == trip.inv.Rows(nm)
      requires trip.inv.instances == instances && trip.inv.nodes == nodes
      requires s.c == Abs() && s.heal == ControlPlane.Listing(Seen(trip))
      modifies this`masters, this`nodes, this`members, this`faults, this`log
      ensures old(faults) <= faults && (!ok ==> old(faults) < faults || trip.inv.masters == [])
      ensures Valid() && Reaches(s, es, t) && t == s.(c := Abs(), heal := ControlPlane.Idle)
      ensures ok ==> Treated(Seen(trip), WithoutStale(s.c), Abs(), acts)
      ensures log == old(log) + acts
      ensures ok ==> Tended(nm, trip.rows, env, faults == old(faults), acts)
    {
      acts := [];
      ok, es, t := FixUpEtcd(trip, s);
      if !ok {
        return false, es, t, acts;
      }
      ghost var fs, u;
      ok, fs, u, acts := FixUpNode(trip, t, env);
      ReachesConcat(s, es, t, fs, u);
      return ok, es + fs, u, acts;
    }
  }

  /** Every Master that was not there before is named by its id. */
  ghost predicate SelfNamed(before: seq<Master>, after: seq<Master>) {
    forall m :: m in after ==> m in before || m.name == m.id
  }

  lemma TakeNext(before: seq<Id>, ids: seq<Id>, k: nat)
    requires k < |ids|
    ensures before + ids[..k] + [ids[k]] == before + ids[..k + 1]
  {
  }

  /** Each of these ids was asked for once. */
  ghost predicate Asked(before: seq<Id>, ids: set<Id>, after: seq<Id>) {
    before <= after && Distinct(after[|before|..]) && Elements(after[|before|..]) == ids
  }

  /** What steps 2 and 3 leave, before the repair. */
  function WithoutStale(c: ControlPlane.Cluster): ControlPlane.Cluster {
    c.(members := c.members - ControlPlane.MemDiff(c.members, c.insts), nodes := Keep(c.nodes, c.insts))
  }

  lemma TidiedMeans(c: ControlPlane.Cluster, made: set<Id>, meta: ControlPlane.Cluster)
    requires meta == c.(crds := c.crds - ControlPlane.Look(c).OrphanCrds() + made)
    ensures WithoutStale(meta) == Tidied(c, made)
  {
    assert c.crds - (c.crds - c.insts) == c.crds * c.insts;
  }

  lemma KeepMeans(nodes: map<Id, bool>, ids: set<Id>)
    ensures nodes - (nodes.Keys - ids) == Keep(nodes, ids)
  {
  }
}
