/**
 The three-way view of the control plane: cloud instances, Master objects and
 master nodes, and what it means to join them on the instance id
 (pkg/operator/heal/triple.go).
 */
module Triples {
  import opened Basics
  import opened ProviderIds

  datatype Instance = Instance(id: string, ip: string)

  datatype Master = Master(name: string, id: string, ip: string)

  datatype Condition = Condition(kind: string, status: string)

  datatype Node = Node(name: string, providerId: string, address: string, conditions: seq<Condition>)

  /** One row of the join: any part may be missing. */
  datatype NodeInfo = NodeInfo(instance: Option<Instance>, node: Option<Node>, resource: Option<Master>)

  /** A node is unready only through a `Ready` condition whose status is not `True`. */
  predicate NodeReady(n: Node) {
    forall c :: c in n.conditions && c.kind == "Ready" ==> c.status == "True"
  }

  /** As the code asks: the conditions of each node, one after the other. */
  method NodesReady(nodes: seq<Node>) returns (ready: bool)
    ensures ready <==> forall n, c :: n in nodes && c in n.conditions && c.kind == "Ready" ==> c.status == "True"
  {
    for i := 0 to |nodes|
      invariant forall n, c :: n in nodes[..i] && c in n.conditions && c.kind == "Ready" ==> c.status == "True"
    {
      var conditions := nodes[i].conditions;
      for k := 0 to |conditions|
        invariant forall c :: c in conditions[..k] && c.kind == "Ready" ==> c.status == "True"
      {
        if conditions[k].kind != "Ready" {
          continue;
        }
        if conditions[k].status != "True" {
          assert nodes[i] in nodes && conditions[k] in conditions;
          return false;
        }
      }
      assert conditions[..|conditions|] == conditions;
    }
    assert nodes[..|nodes|] == nodes;
    return true;
  }

  // ----- What the join means ------------------------------------------------

  /** The three lists that the getters return. */
  datatype Inventory = Inventory(instances: seq<Instance>, masters: seq<Master>, nodes: seq<Node>) {

    predicate WellNamed(nm: Naming) {
      && (forall i :: i in instances ==> nm.BareId(i.id))
      && (forall m :: m in masters ==> nm.ValidProviderId(m.id))
      && (forall n :: n in nodes ==> nm.ValidProviderId(n.providerId))
    }

    /** The scaling group detail is a map keyed by instance id. */
    predicate DistinctInstances() {
      forall i, j :: 0 <= i < j < |instances| ==> instances[i].id != instances[j].id
    }

    predicate DistinctMasters() {
      forall i, j :: 0 <= i < j < |masters| ==> masters[i].id != masters[j].id
    }

    predicate DistinctNodes() {
      forall i, j :: 0 <= i < j < |nodes| ==> nodes[i].providerId != nodes[j].providerId
    }

    function InstanceKeys(nm: Naming): set<string> {
      set i | i in instances :: nm.ProviderId(i.id)
    }

    function MasterKeys(): set<string> {
      set m | m in masters :: m.id
    }

    function NodeKeys(): set<string> {
      set n | n in nodes :: n.providerId
    }

    function InstanceRow(nm: Naming, i: Instance): NodeInfo {
      var key := nm.ProviderId(i.id);
      NodeInfo(Some(i), FirstNode(nodes, key), FirstMaster(masters, key))
    }

    function InstanceRows(nm: Naming, k: nat): seq<NodeInfo>
      requires k <= |instances|
    {
      if k == 0 then [] else InstanceRows(nm, k - 1) + [InstanceRow(nm, instances[k - 1])]
    }

    /**
     Master k gets a row of its own when no instance has its id, unless a node
     has it and an earlier Master with the same id has already claimed that node.
     */
    predicate ListsMaster(nm: Naming, k: nat)
      requires k < |masters|
    {
      var key := masters[k].id;
      && key !in InstanceKeys(nm)
      && !(key in NodeKeys() && FirstMaster(masters[..k], key).Some?)
    }

    function MasterRows(nm: Naming, k: nat): seq<NodeInfo>
      requires k <= |masters|
    {
      if k == 0 then []
      else if ListsMaster(nm, k - 1) then
        var m := masters[k - 1];
        MasterRows(nm, k - 1) + [NodeInfo(None, FirstNode(nodes, m.id), Some(m))]
      else MasterRows(nm, k - 1)
    }

    predicate ListsNode(nm: Naming, k: nat)
      requires k < |nodes|
    {
      nodes[k].providerId !in InstanceKeys(nm) + MasterKeys()
    }

    function NodeRows(nm: Naming, k: nat): seq<NodeInfo>
      requires k <= |nodes|
    {
      if k == 0 then []
      else if ListsNode(nm, k - 1) then NodeRows(nm, k - 1) + [NodeInfo(None, Some(nodes[k - 1]), None)]
      else NodeRows(nm, k - 1)
    }

    /** The rows once k Masters and j nodes have been looked at. */
    function RowsSoFar(nm: Naming, k: nat, j: nat): seq<NodeInfo>
      requires k <= |masters| && j <= |nodes|
    {
      InstanceRows(nm, |instances|) + MasterRows(nm, k) + NodeRows(nm, j)
    }

    function Rows(nm: Naming): seq<NodeInfo> {
      RowsSoFar(nm, |masters|, |nodes|)
    }
  }

  function FirstMaster(masters: seq<Master>, key: string): (r: Option<Master>)
    ensures r.Some? ==> r.value in masters && r.value.id == key
    ensures r.None? ==> forall m :: m in masters ==> m.id != key
  {
    if masters == [] then None
    else if masters[0].id == key then Some(masters[0])
    else FirstMaster(masters[1..], key)
  }

  function FirstNode(nodes: seq<Node>, key: string): (r: Option<Node>)
    ensures r.Some? ==> r.value in nodes && r.value.providerId == key
    ensures r.None? ==> forall n :: n in nodes ==> n.providerId != key
  {
    if nodes == [] then None
    else if nodes[0].providerId == key then Some(nodes[0])
    else FirstNode(nodes[1..], key)
  }

  // ----- What is in each block of rows --------------------------------------

  lemma {:induction false} InstanceRowsAt(nm: Naming, inv: Inventory, k: nat)
    requires k <= |inv.instances|
    ensures |inv.InstanceRows(nm, k)| == k
    ensures forall j :: 0 <= j < k ==> inv.InstanceRows(nm, k)[j] == inv.InstanceRow(nm, inv.instances[j])
  {
    if k > 0 {
      InstanceRowsAt(nm, inv, k - 1);
    }
  }

  ghost predicate MasterRowShape(nm: Naming, inv: Inventory, k: nat, r: NodeInfo)
    requires k <= |inv.masters|
  {
    && r.instance.None? && r.resource.Some?
    && r.resource.value in inv.masters[..k]
    && r.resource.value.id !in inv.InstanceKeys(nm)
    && r.node == FirstNode(inv.nodes, r.resource.value.id)
  }

  lemma {:induction false} MasterRowsShape(nm: Naming, inv: Inventory, k: nat)
    requires k <= |inv.masters|
    ensures forall r :: r in inv.MasterRows(nm, k) ==> MasterRowShape(nm, inv, k, r)
  {
    if k > 0 {
      MasterRowsShape(nm, inv, k - 1);
      assert inv.masters[..k] == inv.masters[..k - 1] + [inv.masters[k - 1]];
    }
  }

  /** Every Master id without an instance is covered by some row. */
  lemma {:induction false} MasterRowsCover(nm: Naming, inv: Inventory, k: nat, key: string)
    requires k <= |inv.masters|
    requires FirstMaster(inv.masters[..k], key).Some? && key !in inv.InstanceKeys(nm)
    ensures exists r :: r in inv.MasterRows(nm, k) && r.resource.Some? && r.resource.value.id == key
  {
    assert inv.masters[..k] == inv.masters[..k - 1] + [inv.masters[k - 1]];
    if FirstMaster(inv.masters[..k - 1], key).Some? {
      MasterRowsCover(nm, inv, k - 1, key);
    } else {
      var m := inv.masters[k - 1];
      assert m.id == key;
      assert NodeInfo(None, FirstNode(inv.nodes, m.id), Some(m)) in inv.MasterRows(nm, k);
    }
  }

  lemma {:induction false} NodeRowsShape(nm: Naming, inv: Inventory, k: nat)
    requires k <= |inv.nodes|
    ensures forall r :: r in inv.NodeRows(nm, k) ==>
              && r.instance.None? && r.resource.None? && r.node.Some? && r.node.value in inv.nodes[..k]
              && r.node.value.providerId !in inv.InstanceKeys(nm) + inv.MasterKeys()
  {
    if k > 0 {
      NodeRowsShape(nm, inv, k - 1);
      assert inv.nodes[..k] == inv.nodes[..k - 1] + [inv.nodes[k - 1]];
    }
  }

  lemma {:induction false} NodeRowsCover(nm: Naming, inv: Inventory, k: nat, n: Node)
    requires k <= |inv.nodes| && n in inv.nodes[..k]
    requires n.providerId !in inv.InstanceKeys(nm) + inv.MasterKeys()
    ensures NodeInfo(None, Some(n), None) in inv.NodeRows(nm, k)
  {
    assert inv.nodes[..k] == inv.nodes[..k - 1] + [inv.nodes[k - 1]];
    if n in inv.nodes[..k - 1] {
      NodeRowsCover(nm, inv, k - 1, n);
    }
  }

  lemma InstanceRowIn(nm: Naming, inv: Inventory, i: Instance)
    requires i in inv.instances
    ensures inv.InstanceRow(nm, i) in inv.InstanceRows(nm, |inv.instances|)
  {
    InstanceRowsAt(nm, inv, |inv.instances|);
    var j :| 0 <= j < |inv.instances| && inv.instances[j] == i;
    assert inv.InstanceRows(nm, |inv.instances|)[j] == inv.InstanceRow(nm, i);
  }

  /** Does a row already account for this Master: by its instance, else by its node? */
  ghost predicate ClaimsMaster(nm: Naming, row: NodeInfo, key: string) {
    || (row.instance.Some? && nm.ProviderId(row.instance.value.id) == key)
    || (row.node.Some? && row.node.value.providerId == key)
  }

  ghost predicate ClaimsNode(nm: Naming, row: NodeInfo, key: string) {
    || (row.instance.Some? && nm.ProviderId(row.instance.value.id) == key)
    || (row.resource.Some? && row.resource.value.id == key)
  }

  lemma MasterClaimedMeans(nm: Naming, inv: Inventory, k: nat)
    requires k < |inv.masters|
    ensures (exists r :: r in inv.RowsSoFar(nm, k, 0) && ClaimsMaster(nm, r, inv.masters[k].id)) <==>
            !inv.ListsMaster(nm, k)
  {
    var key := inv.masters[k].id;
    var rows := inv.RowsSoFar(nm, k, 0);
    InstanceRowsAt(nm, inv, |inv.instances|);
    MasterRowsShape(nm, inv, k);
    if key in inv.InstanceKeys(nm) {
      var i :| i in inv.instances && nm.ProviderId(i.id) == key;
      InstanceRowIn(nm, inv, i);
      assert inv.InstanceRow(nm, i) in rows && ClaimsMaster(nm, inv.InstanceRow(nm, i), key);
    } else if !inv.ListsMaster(nm, k) {
      MasterRowsCover(nm, inv, k, key);
      var r :| r in inv.MasterRows(nm, k) && r.resource.Some? && r.resource.value.id == key;
      assert r in rows && ClaimsMaster(nm, r, key);
    }
  }

  lemma NodeClaimedMeans(nm: Naming, inv: Inventory, j: nat)
    requires j < |inv.nodes|
    ensures (exists r :: r in inv.RowsSoFar(nm, |inv.masters|, j) && ClaimsNode(nm, r, inv.nodes[j].providerId)) <==>
            !inv.ListsNode(nm, j)
    ensures inv.ListsNode(nm, j) ==> FirstMaster(inv.masters, inv.nodes[j].providerId) == None
  {
    var key := inv.nodes[j].providerId;
    var k := |inv.masters|;
    assert inv.masters[..k] == inv.masters;
    InstanceRowsAt(nm, inv, |inv.instances|);
    MasterRowsShape(nm, inv, k);
    NodeRowsShape(nm, inv, j);
    if key in inv.InstanceKeys(nm) {
      var i :| i in inv.instances && nm.ProviderId(i.id) == key;
      InstanceRowIn(nm, inv, i);
      assert ClaimsNode(nm, inv.InstanceRow(nm, i), key);
    } else if key in inv.MasterKeys() {
      MasterRowsCover(nm, inv, k, key);
      var r :| r in inv.MasterRows(nm, k) && r.resource.Some? && r.resource.value.id == key;
      assert ClaimsNode(nm, r, key);
    }
  }
}
