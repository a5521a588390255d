/** From lists of objects to the sets of the state machine: how rows, deletions and removals show there. */
module HealView {
  import opened Basics
  import opened ProviderIds
  import opened Triples
  import opened JoinTheorem
  import opened TripleDiffs
  import opened EtcdMembers
  import ControlPlane

  type Id = ControlPlane.Id

  // ----- Rows ------------------------------------------------------------------

  function Keys(nm: Naming, rows: seq<NodeInfo>): set<Id> {
    set r | r in rows :: RowKey(nm, r)
  }

  predicate DistinctKeys(nm: Naming, rows: seq<NodeInfo>) {
    forall i, j :: 0 <= i < j < |rows| ==> RowKey(nm, rows[i]) != RowKey(nm, rows[j])
  }

  lemma {:induction false} CountAtLeast(nm: Naming, rows: seq<NodeInfo>, i: nat, key: string)
    requires i < |rows| && RowKey(nm, rows[i]) == key
    ensures CountRows(nm, rows, key) >= 1
  {
    if i < |rows| - 1 {
      CountAtLeast(nm, rows[..|rows| - 1], i, key);
    }
  }

  lemma {:induction false} CountTwo(nm: Naming, rows: seq<NodeInfo>, i: nat, j: nat, key: string)
    requires i < j < |rows| && RowKey(nm, rows[i]) == RowKey(nm, rows[j]) == key
    ensures CountRows(nm, rows, key) >= 2
  {
    if j < |rows| - 1 {
      CountTwo(nm, rows[..|rows| - 1], i, j, key);
    } else {
      CountAtLeast(nm, rows[..|rows| - 1], i, key);
    }
  }

  lemma RowsDistinct(nm: Naming, inv: Inventory)
    requires inv.DistinctInstances() && inv.DistinctMasters() && inv.DistinctNodes()
    ensures DistinctKeys(nm, inv.Rows(nm))
  {
    var rows := inv.Rows(nm);
    forall i, j | 0 <= i < j < |rows|
      ensures RowKey(nm, rows[i]) != RowKey(nm, rows[j])
    {
      var key := RowKey(nm, rows[j]);
      if RowKey(nm, rows[i]) == key {
        CountTwo(nm, rows, i, j, key);
        assert rows[j] in rows;
        JoinCovers(nm, inv, key);
        DistinctListsJoin(nm, inv);
      }
    }
  }

  lemma {:induction false} SelectDistinct(nm: Naming, rows: seq<NodeInfo>, p: NodeInfo -> bool)
    requires DistinctKeys(nm, rows)
    ensures DistinctKeys(nm, Select(rows, p))
  {
    if rows != [] {
      var init, last := rows[..|rows| - 1], rows[|rows| - 1];
      SelectDistinct(nm, init, p);
      var picked := Select(init, p);
      forall i | 0 <= i < |picked|
        ensures RowKey(nm, picked[i]) != RowKey(nm, last)
      {
        assert picked[i] in init;
      }
    }
  }

  /** The readiness of each node id. */
  function NodeMap(nodes: seq<Node>): map<Id, bool> {
    map key | key in Inventory([], [], nodes).NodeKeys() :: NodeReady(FirstNode(nodes, key).value)
  }

  function ViewOf(nm: Naming, inv: Inventory): ControlPlane.View {
    ControlPlane.View(inv.MasterKeys(), NodeMap(inv.nodes), inv.InstanceKeys(nm))
  }

  lemma NodeMapKeys(inv: Inventory)
    ensures NodeMap(inv.nodes).Keys == inv.NodeKeys()
  {
    assert Inventory([], [], inv.nodes).NodeKeys() == inv.NodeKeys();
  }

  /** If a predicate on rows says the same as a set of ids, selecting by it yields that set. */
  lemma PickedKeys(nm: Naming, inv: Inventory, p: NodeInfo -> bool, ids: set<Id>)
    requires ids <= inv.InstanceKeys(nm) + inv.MasterKeys() + inv.NodeKeys()
    requires forall r :: r in inv.Rows(nm) ==> (p(r) <==> RowKey(nm, r) in ids)
    ensures Keys(nm, Select(inv.Rows(nm), p)) == ids
  {
    var picked := Select(inv.Rows(nm), p);
    forall key | key in ids
      ensures key in Keys(nm, picked)
    {
      JoinCovers(nm, inv, key);
      var r :| r in inv.Rows(nm) && RowKey(nm, r) == key;
      assert r in picked;
    }
  }

  // The row lists of the repair steps are the sets of the state machine.

  lemma OrphanMasterKeys(nm: Naming, inv: Inventory)
    ensures Keys(nm, Select(inv.Rows(nm), OrphanMaster)) == ViewOf(nm, inv).OrphanCrds()
  {
    NodeMapKeys(inv);
    forall r | r in inv.Rows(nm)
      ensures OrphanMaster(r) <==> RowKey(nm, r) in ViewOf(nm, inv).OrphanCrds()
    {
      OuterJoin(nm, inv, r);
    }
    PickedKeys(nm, inv, OrphanMaster, ViewOf(nm, inv).OrphanCrds());
  }

  lemma MissedMasterKeys(nm: Naming, inv: Inventory)
    ensures Keys(nm, Select(inv.Rows(nm), MissedMaster)) == ViewOf(nm, inv).MissedCrds()
  {
    NodeMapKeys(inv);
    forall r | r in inv.Rows(nm)
      ensures MissedMaster(r) <==> RowKey(nm, r) in ViewOf(nm, inv).MissedCrds()
    {
      OuterJoin(nm, inv, r);
    }
    PickedKeys(nm, inv, MissedMaster, ViewOf(nm, inv).MissedCrds());
  }

  lemma OrphanNodeKeys(nm: Naming, inv: Inventory)
    ensures Keys(nm, Select(inv.Rows(nm), OrphanNode)) == ViewOf(nm, inv).OrphanNodes()
  {
    NodeMapKeys(inv);
    forall r | r in inv.Rows(nm)
      ensures OrphanNode(r) <==> RowKey(nm, r) in ViewOf(nm, inv).OrphanNodes()
    {
      OuterJoin(nm, inv, r);
    }
    PickedKeys(nm, inv, OrphanNode, ViewOf(nm, inv).OrphanNodes());
  }

  lemma AdditionKeys(nm: Naming, inv: Inventory)
    ensures Keys(nm, Select(inv.Rows(nm), LacksNode)) == ViewOf(nm, inv).Additions()
  {
    NodeMapKeys(inv);
    forall r | r in inv.Rows(nm)
      ensures LacksNode(r) <==> RowKey(nm, r) in ViewOf(nm, inv).Additions()
    {
      OuterJoin(nm, inv, r);
    }
    PickedKeys(nm, inv, LacksNode, ViewOf(nm, inv).Additions());
  }

  lemma UnreadyKeys(nm: Naming, inv: Inventory)
    ensures Keys(nm, Select(inv.Rows(nm), Unready)) == ViewOf(nm, inv).Unready()
  {
    NodeMapKeys(inv);
    forall r | r in inv.Rows(nm)
      ensures Unready(r) <==> RowKey(nm, r) in ViewOf(nm, inv).Unready()
    {
      OuterJoin(nm, inv, r);
    }
    PickedKeys(nm, inv, Unready, ViewOf(nm, inv).Unready());
  }

  // ----- Deleting objects by name -----------------------------------------------

  predicate DistinctMasterNames(masters: seq<Master>) {
    forall i, j :: 0 <= i < j < |masters| ==> masters[i].name != masters[j].name && masters[i].id != masters[j].id
  }

  predicate DistinctNodeNames(nodes: seq<Node>) {
    forall i, j :: 0 <= i < j < |nodes| ==>
      nodes[i].name != nodes[j].name && nodes[i].providerId != nodes[j].providerId
  }

  function DropMaster(masters: seq<Master>, name: string): (r: seq<Master>)
    ensures forall m :: m in r <==> m in masters && m.name != name
  {
    Filter(masters, (m: Master) => m.name != name)
  }

  function DropNode(nodes: seq<Node>, name: string): (r: seq<Node>)
    ensures forall n :: n in r <==> n in nodes && n.name != name
  {
    Filter(nodes, (n: Node) => n.name != name)
  }

  lemma DropMasterDistinct(masters: seq<Master>, name: string)
    requires DistinctMasterNames(masters)
    ensures DistinctMasterNames(DropMaster(masters, name))
  {
    FilterPairwise(masters, (m: Master) => m.name != name, (a: Master, b: Master) => a.name != b.name && a.id != b.id);
  }

  lemma DropNodeDistinct(nodes: seq<Node>, name: string)
    requires DistinctNodeNames(nodes)
    ensures DistinctNodeNames(DropNode(nodes, name))
  {
    FilterPairwise(nodes, (n: Node) => n.name != name,
                   (a: Node, b: Node) => a.name != b.name && a.providerId != b.providerId);
  }

  lemma DropMasterKeys(masters: seq<Master>, m: Master)
    requires DistinctMasterNames(masters) && m in masters
    ensures Inventory([], DropMaster(masters, m.name), []).MasterKeys() ==
            Inventory([], masters, []).MasterKeys() - {m.id}
  {
    var left := DropMaster(masters, m.name);
    forall x | x in masters
      ensures x.id == m.id <==> x.name == m.name
    {
    }
    assert forall x :: x in left <==> x in masters && x.id != m.id;
  }

  lemma FirstNodeUnique(nodes: seq<Node>, n: Node)
    requires DistinctNodeNames(nodes) && n in nodes
    ensures FirstNode(nodes, n.providerId) == Some(n)
  {
    var r := FirstNode(nodes, n.providerId);
    assert r.Some?;
  }

  lemma NodeMapAt(nodes: seq<Node>, n: Node)
    requires DistinctNodeNames(nodes) && n in nodes
    ensures n.providerId in NodeMap(nodes) && NodeMap(nodes)[n.providerId] == NodeReady(n)
  {
    FirstNodeUnique(nodes, n);
    assert n.providerId in Inventory([], [], nodes).NodeKeys();
  }

  lemma DropNodeKeys(nodes: seq<Node>, n: Node)
    requires DistinctNodeNames(nodes) && n in nodes
    ensures Inventory([], [], DropNode(nodes, n.name)).NodeKeys() == Inventory([], [], nodes).NodeKeys() - {n.providerId}
  {
    var left := DropNode(nodes, n.name);
    forall x | x in nodes
      ensures x in left <==> x.providerId != n.providerId
    {
      SameNode(nodes, x, n);
    }
  }

  lemma DropNodeMap(nodes: seq<Node>, n: Node)
    requires DistinctNodeNames(nodes) && n in nodes
    ensures NodeMap(DropNode(nodes, n.name)) == NodeMap(nodes) - {n.providerId}
  {
    var left := DropNode(nodes, n.name);
    DropNodeDistinct(nodes, n.name);
    DropNodeKeys(nodes, n);
    forall key | key in NodeMap(left)
      ensures key in NodeMap(nodes) && NodeMap(nodes)[key] == NodeMap(left)[key]
    {
      SameReadiness(nodes, left, key);
    }
  }

  lemma SameReadiness(nodes: seq<Node>, left: seq<Node>, key: Id)
    requires DistinctNodeNames(nodes) && DistinctNodeNames(left)
    requires (forall x :: x in left ==> x in nodes) && key in NodeMap(left)
    ensures key in NodeMap(nodes) && NodeMap(nodes)[key] == NodeMap(left)[key]
  {
    var x := FirstNode(left, key).value;
    NodeMapAt(nodes, x);
  }

  lemma SameNode(nodes: seq<Node>, a: Node, b: Node)
    requires DistinctNodeNames(nodes) && a in nodes && b in nodes
    ensures a.providerId == b.providerId <==> a.name == b.name
  {
  }

  // ----- Etcd members by machine --------------------------------------------------

  /** Which address each machine has, past machines included; no address is shared. */
  predicate Injective(addr: map<Id, string>) {
    forall a, b :: a in addr && b in addr && addr[a] == addr[b] ==> a == b
  }

  predicate DistinctIps(members: seq<Member>) {
    forall i, j :: 0 <= i < j < |members| ==> members[i].ip != members[j].ip
  }

  predicate MembersKnown(members: seq<Member>, addr: map<Id, string>) {
    && DistinctIds(members)
    && DistinctIps(members)
    && (forall m :: m in members ==> m.id > 0 && exists key :: key in addr && addr[key] == m.ip)
  }

  function MemberKeys(members: seq<Member>, addr: map<Id, string>): set<Id> {
    set key | key in addr && exists m :: m in members && m.ip == addr[key]
  }

  lemma {:induction false} MemberKeysSize(members: seq<Member>, addr: map<Id, string>)
    requires Injective(addr) && MembersKnown(members, addr)
    ensures |MemberKeys(members, addr)| == |members|
  {
    if members != [] {
      var init, last := members[..|members| - 1], members[|members| - 1];
      assert members == init + [last];
      MemberKeysSize(init, addr);
      assert last in members;
      var key :| key in addr && addr[key] == last.ip;
      assert MemberKeys(members, addr) == MemberKeys(init, addr) + {key};
    } else {
      assert MemberKeys(members, addr) == {};
    }
  }

  lemma WithoutKnown(members: seq<Member>, addr: map<Id, string>, m: Member, key: Id)
    requires Injective(addr) && MembersKnown(members, addr)
    requires m in members && key in addr && addr[key] == m.ip
    ensures MembersKnown(Without(members, m.id), addr)
    ensures MemberKeys(Without(members, m.id), addr) == MemberKeys(members, addr) - {key}
  {
    WithoutDistinct(members, m.id);
    WithoutDistinctIps(members, m.id);
    forall x | x in members
      ensures x.id == m.id <==> x.ip == m.ip
    {
    }
  }

  lemma WithoutDistinctIps(members: seq<Member>, id: nat)
    requires DistinctIps(members)
    ensures DistinctIps(Without(members, id))
  {
    FilterPairwise(members, (m: Member) => m.id != id, (a: Member, b: Member) => a.ip != b.ip);
  }

  predicate MastersKnown(masters: seq<Master>, addr: map<Id, string>) {
    forall m :: m in masters ==> m.id in addr && addr[m.id] == m.ip
  }

  predicate NodesKnown(nodes: seq<Node>, addr: map<Id, string>) {
    forall n :: n in nodes ==> n.providerId in addr && addr[n.providerId] == n.address
  }

  predicate InstancesKnown(nm: Naming, instances: seq<Instance>, addr: map<Id, string>) {
    forall i :: i in instances ==> nm.ProviderId(i.id) in addr && addr[nm.ProviderId(i.id)] == i.ip
  }

  /** A member has a machine, by address, exactly when its machine is among the instances, by id. */
  lemma BackedMeans(nm: Naming, instances: seq<Instance>, addr: map<Id, string>, m: Member, key: Id)
    requires Injective(addr) && InstancesKnown(nm, instances, addr)
    requires key in addr && addr[key] == m.ip
    ensures Backed(m, instances) <==> key in Inventory(instances, [], []).InstanceKeys(nm)
  {
  }

  lemma {:induction false} StaleKnown(members: seq<Member>, instances: seq<Instance>, addr: map<Id, string>)
    requires MembersKnown(members, addr)
    ensures MembersKnown(Stale(members, instances), addr)
  {
    if members != [] {
      var tail := members[1..];
      assert MembersKnown(tail, addr) by { assert forall m :: m in tail ==> m in members; }
      StaleKnown(tail, instances, addr);
      var rest := Stale(tail, instances);
      forall j | 0 <= j < |rest|
        ensures rest[j].ip != members[0].ip && rest[j].id != members[0].id
      {
        assert rest[j] in members[1..];
      }
    }
  }

  /** `EtcdMemDiff` on lists is `MemDiff` on sets. */
  lemma StaleKeys(nm: Naming, members: seq<Member>, instances: seq<Instance>, addr: map<Id, string>)
    requires Injective(addr) && MembersKnown(members, addr) && InstancesKnown(nm, instances, addr)
    ensures MembersKnown(Stale(members, instances), addr)
    ensures MemberKeys(Stale(members, instances), addr) ==
            MemberKeys(members, addr) - Inventory(instances, [], []).InstanceKeys(nm)
    ensures 2 * |Stale(members, instances)| > |members| <==>
            2 * |MemberKeys(members, addr) - Inventory(instances, [], []).InstanceKeys(nm)| > |MemberKeys(members, addr)|
  {
    var stale := Stale(members, instances);
    StaleKnown(members, instances, addr);
    var insts := Inventory(instances, [], []).InstanceKeys(nm);
    forall key, m | key in addr && m in members && m.ip == addr[key]
      ensures m in stale <==> key !in insts
    {
      BackedMeans(nm, instances, addr, m, key);
    }
    assert MemberKeys(stale, addr) == MemberKeys(members, addr) - insts;
    MemberKeysSize(members, addr);
    MemberKeysSize(stale, addr);
  }

  /** The machine behind each member of a list. */
  ghost function Owners(members: seq<Member>, addr: map<Id, string>): (ids: seq<Id>)
    requires MembersKnown(members, addr)
    ensures |ids| == |members|
    ensures forall k :: 0 <= k < |members| ==> ids[k] in addr && addr[ids[k]] == members[k].ip
  {
    seq(|members|, k requires 0 <= k < |members| => Owner(members[k], addr, members))
  }

  ghost function Owner(m: Member, addr: map<Id, string>, members: seq<Member>): (key: Id)
    requires MembersKnown(members, addr) && m in members
    ensures key in addr && addr[key] == m.ip
  {
    var key :| key in addr && addr[key] == m.ip;
    key
  }

  lemma OwnersAre(members: seq<Member>, addr: map<Id, string>)
    requires Injective(addr) && MembersKnown(members, addr)
    ensures Distinct(Owners(members, addr)) && Elements(Owners(members, addr)) == MemberKeys(members, addr)
  {
    var ids := Owners(members, addr);
    forall key | key in MemberKeys(members, addr)
      ensures key in ids
    {
      var m :| m in members && m.ip == addr[key];
      var k :| 0 <= k < |members| && members[k] == m;
      assert ids[k] == key;
    }
    forall k | 0 <= k < |ids|
      ensures ids[k] in MemberKeys(members, addr)
    {
      assert members[k] in members;
    }
  }
}
