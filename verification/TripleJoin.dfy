/** The rows are the full outer join of instances, Masters and nodes on the instance id. */
module JoinTheorem {
  import opened Basics
  import opened ProviderIds
  import opened Triples

  /** The id a row stands for. */
  function RowKey(nm: Naming, row: NodeInfo): string {
    if row.instance.Some? then nm.ProviderId(row.instance.value.id)
    else if row.resource.Some? then row.resource.value.id
    else if row.node.Some? then row.node.value.providerId
    else ""
  }

  function CountRows(nm: Naming, rows: seq<NodeInfo>, key: string): nat {
    if rows == [] then 0
    else CountRows(nm, rows[..|rows| - 1], key) + if RowKey(nm, rows[|rows| - 1]) == key then 1 else 0
  }

  function CountMasters(masters: seq<Master>, key: string): nat {
    if masters == [] then 0
    else CountMasters(masters[..|masters| - 1], key) + if masters[|masters| - 1].id == key then 1 else 0
  }

  function CountNodes(nodes: seq<Node>, key: string): nat {
    if nodes == [] then 0
    else CountNodes(nodes[..|nodes| - 1], key) + if nodes[|nodes| - 1].providerId == key then 1 else 0
  }

  lemma {:induction false} CountConcat(nm: Naming, a: seq<NodeInfo>, b: seq<NodeInfo>, key: string)
    ensures CountRows(nm, a + b, key) == CountRows(nm, a, key) + CountRows(nm, b, key)
  {
    if b == [] {
      assert a + b == a;
    } else {
      assert (a + b)[..|a + b| - 1] == a + b[..|b| - 1];
      CountConcat(nm, a, b[..|b| - 1], key);
    }
  }

  function CountInstances(nm: Naming, inv: Inventory, k: nat, key: string): nat
    requires k <= |inv.instances|
  {
    if k == 0 then 0
    else CountInstances(nm, inv, k - 1, key) + if nm.ProviderId(inv.instances[k - 1].id) == key then 1 else 0
  }

  lemma {:induction false} CountByInstance(nm: Naming, inv: Inventory, rows: seq<NodeInfo>, key: string)
    requires |rows| <= |inv.instances| && forall j :: 0 <= j < |rows| ==> rows[j].instance == Some(inv.instances[j])
    ensures CountRows(nm, rows, key) == CountInstances(nm, inv, |rows|, key)
    decreases |rows|
  {
    if rows != [] {
      CountByInstance(nm, inv, rows[..|rows| - 1], key);
    }
  }

  /** No instance is listed twice. */
  lemma {:induction false} InstancesOnce(nm: Naming, inv: Inventory, k: nat, key: string)
    requires k <= |inv.instances| && inv.DistinctInstances()
    ensures CountInstances(nm, inv, k, key) ==
            if exists j :: 0 <= j < k && nm.ProviderId(inv.instances[j].id) == key then 1 else 0
  {
    if k > 0 {
      InstancesOnce(nm, inv, k - 1, key);
      forall j | 0 <= j < k - 1
        ensures nm.ProviderId(inv.instances[j].id) != nm.ProviderId(inv.instances[k - 1].id)
      {
        if nm.ProviderId(inv.instances[j].id) == nm.ProviderId(inv.instances[k - 1].id) {
          ProviderIdInjective(nm, inv.instances[j].id, inv.instances[k - 1].id);
        }
      }
    }
  }

  lemma CountInstanceRows(nm: Naming, inv: Inventory, key: string)
    requires inv.DistinctInstances()
    ensures CountRows(nm, inv.InstanceRows(nm, |inv.instances|), key) == if key in inv.InstanceKeys(nm) then 1 else 0
  {
    var n := |inv.instances|;
    InstanceRowsAt(nm, inv, n);
    CountByInstance(nm, inv, inv.InstanceRows(nm, n), key);
    InstanceListed(nm, inv, key);
  }

  lemma InstanceListed(nm: Naming, inv: Inventory, key: string)
    requires inv.DistinctInstances()
    ensures CountInstances(nm, inv, |inv.instances|, key) == if key in inv.InstanceKeys(nm) then 1 else 0
  {
    InstancesOnce(nm, inv, |inv.instances|, key);
    if key in inv.InstanceKeys(nm) {
      var i :| i in inv.instances && nm.ProviderId(i.id) == key;
      assert exists j :: 0 <= j < |inv.instances| && inv.instances[j] == i;
    }
  }

  /** How many rows the Masters of an id get: with a node, only the first. */
  function MasterShare(nm: Naming, inv: Inventory, masters: seq<Master>, key: string): nat {
    if key in inv.InstanceKeys(nm) then 0
    else if key in inv.NodeKeys() then (if FirstMaster(masters, key).Some? then 1 else 0)
    else CountMasters(masters, key)
  }

  lemma {:induction false} CountMasterRows(nm: Naming, inv: Inventory, k: nat, key: string)
    requires k <= |inv.masters|
    ensures CountRows(nm, inv.MasterRows(nm, k), key) == MasterShare(nm, inv, inv.masters[..k], key)
  {
    if k == 0 {
      NoMasterYet(nm, inv, key);
    } else {
      CountMasterRows(nm, inv, k - 1, key);
      OneMoreMaster(nm, inv, k - 1, key);
      ShareGrows(nm, inv, k - 1, key);
    }
  }

  lemma NoMasterYet(nm: Naming, inv: Inventory, key: string)
    ensures CountRows(nm, inv.MasterRows(nm, 0), key) == 0 == MasterShare(nm, inv, inv.masters[..0], key)
  {
    assert inv.masters[..0] == [];
  }

  /** What the k-th Master adds to that. */
  function OwnRow(nm: Naming, inv: Inventory, k: nat, key: string): nat
    requires k < |inv.masters|
  {
    if inv.masters[k].id == key && inv.ListsMaster(nm, k) then 1 else 0
  }

  lemma ShareGrows(nm: Naming, inv: Inventory, k: nat, key: string)
    requires k < |inv.masters|
    ensures MasterShare(nm, inv, inv.masters[..k + 1], key) == MasterShare(nm, inv, inv.masters[..k], key) +
            OwnRow(nm, inv, k, key)
  {
    assert inv.masters[..k + 1] == inv.masters[..k] + [inv.masters[k]];
    MasterAppended(inv.masters[..k], inv.masters[k], key);
  }

  lemma OneMoreMaster(nm: Naming, inv: Inventory, k: nat, key: string)
    requires k < |inv.masters|
    ensures CountRows(nm, inv.MasterRows(nm, k + 1), key) ==
            CountRows(nm, inv.MasterRows(nm, k), key) + OwnRow(nm, inv, k, key)
  {
    var rows := inv.MasterRows(nm, k + 1);
    if inv.ListsMaster(nm, k) {
      assert rows[..|rows| - 1] == inv.MasterRows(nm, k);
    }
  }

  lemma MasterAppended(masters: seq<Master>, m: Master, key: string)
    ensures FirstMaster(masters + [m], key).Some? <==> FirstMaster(masters, key).Some? || m.id == key
    ensures CountMasters(masters + [m], key) == CountMasters(masters, key) + if m.id == key then 1 else 0
  {
    var more := masters + [m];
    assert more[..|more| - 1] == masters && more[|more| - 1] == m;
    assert m in more && forall x :: x in masters ==> x in more;
  }

  lemma {:induction false} CountNodeRows(nm: Naming, inv: Inventory, k: nat, key: string)
    requires k <= |inv.nodes|
    ensures CountRows(nm, inv.NodeRows(nm, k), key) ==
            if key in inv.InstanceKeys(nm) + inv.MasterKeys() then 0 else CountNodes(inv.nodes[..k], key)
  {
    if k > 0 {
      var rows := inv.NodeRows(nm, k);
      assert inv.nodes[..k][..k - 1] == inv.nodes[..k - 1];
      CountNodeRows(nm, inv, k - 1, key);
      if inv.ListsNode(nm, k - 1) {
        assert rows[..|rows| - 1] == inv.NodeRows(nm, k - 1);
      }
    }
  }

  /** How many rows an id gets, whatever the three lists hold. */
  lemma RowMultiplicity(nm: Naming, inv: Inventory, key: string)
    requires inv.DistinctInstances()
    ensures CountRows(nm, inv.Rows(nm), key) ==
            if key in inv.InstanceKeys(nm) then 1
            else if key in inv.MasterKeys() && key in inv.NodeKeys() then 1
            else if key in inv.MasterKeys() then CountMasters(inv.masters, key)
            else CountNodes(inv.nodes, key)
  {
    var n, k, j := |inv.instances|, |inv.masters|, |inv.nodes|;
    assert inv.masters[..k] == inv.masters && inv.nodes[..j] == inv.nodes;
    CountConcat(nm, inv.InstanceRows(nm, n) + inv.MasterRows(nm, k), inv.NodeRows(nm, j), key);
    CountConcat(nm, inv.InstanceRows(nm, n), inv.MasterRows(nm, k), key);
    CountInstanceRows(nm, inv, key);
    CountMasterRows(nm, inv, k, key);
    CountNodeRows(nm, inv, j, key);
    CountAbsentMaster(inv.masters, key);
  }

  lemma {:induction false} CountAbsentMaster(masters: seq<Master>, key: string)
    ensures (CountMasters(masters, key) == 0) <==> (forall m :: m in masters ==> m.id != key)
  {
    if masters != [] {
      var init, last := masters[..|masters| - 1], masters[|masters| - 1];
      assert masters == init + [last];
      CountAbsentMaster(init, key);
    }
  }

  lemma {:induction false} CountAbsentNode(nodes: seq<Node>, key: string)
    ensures (CountNodes(nodes, key) == 0) <==> (forall n :: n in nodes ==> n.providerId != key)
  {
    if nodes != [] {
      var init, last := nodes[..|nodes| - 1], nodes[|nodes| - 1];
      assert nodes == init + [last];
      CountAbsentNode(init, key);
    }
  }

  /** A row carries exactly the parts that exist for its id, and only parts of that id. */
  lemma OuterJoin(nm: Naming, inv: Inventory, row: NodeInfo)
    requires row in inv.Rows(nm)
    ensures var key := RowKey(nm, row);
            && (row.instance.Some? <==> key in inv.InstanceKeys(nm))
            && (row.resource.Some? <==> key in inv.MasterKeys())
            && (row.node.Some? <==> key in inv.NodeKeys())
            && (row.instance.Some? ==> row.instance.value in inv.instances)
            && (row.resource.Some? ==> row.resource.value in inv.masters && row.resource.value.id == key)
            && (row.node.Some? ==> row.node.value in inv.nodes && row.node.value.providerId == key)
            && (row.instance.Some? || row.resource.Some? ==> row.node == FirstNode(inv.nodes, key))
  {
    var n, k, j := |inv.instances|, |inv.masters|, |inv.nodes|;
    assert inv.masters[..k] == inv.masters && inv.nodes[..j] == inv.nodes;
    if row in inv.InstanceRows(nm, n) {
      InstanceRowsAt(nm, inv, n);
    } else if row in inv.MasterRows(nm, k) {
      MasterRowsShape(nm, inv, k);
    } else {
      NodeRowsShape(nm, inv, j);
    }
  }

  /** Every id of the union has a row. */
  lemma JoinCovers(nm: Naming, inv: Inventory, key: string)
    ensures key in inv.InstanceKeys(nm) + inv.MasterKeys() + inv.NodeKeys() <==>
            exists row :: row in inv.Rows(nm) && RowKey(nm, row) == key
  {
    var k, j := |inv.masters|, |inv.nodes|;
    assert inv.masters[..k] == inv.masters && inv.nodes[..j] == inv.nodes;
    if key in inv.InstanceKeys(nm) {
      var i :| i in inv.instances && nm.ProviderId(i.id) == key;
      InstanceRowIn(nm, inv, i);
      assert inv.InstanceRow(nm, i) in inv.Rows(nm);
    } else if key in inv.MasterKeys() {
      MasterRowsCover(nm, inv, k, key);
      MasterRowsShape(nm, inv, k);
      var r :| r in inv.MasterRows(nm, k) && r.resource.Some? && r.resource.value.id == key;
      assert r in inv.Rows(nm) && RowKey(nm, r) == key;
    } else if key in inv.NodeKeys() {
      var m :| m in inv.nodes && m.providerId == key;
      NodeRowsCover(nm, inv, j, m);
      assert NodeInfo(None, Some(m), None) in inv.Rows(nm);
    }
    forall row | row in inv.Rows(nm) && RowKey(nm, row) == key
      ensures key in inv.InstanceKeys(nm) + inv.MasterKeys() + inv.NodeKeys()
    {
      OuterJoin(nm, inv, row);
      OneOfThree(nm, inv, row);
    }
  }

  lemma OneOfThree(nm: Naming, inv: Inventory, row: NodeInfo)
    requires row in inv.Rows(nm)
    ensures row.instance.Some? || row.resource.Some? || row.node.Some?
  {
    InstanceRowsAt(nm, inv, |inv.instances|);
    MasterRowsShape(nm, inv, |inv.masters|);
    NodeRowsShape(nm, inv, |inv.nodes|);
  }

  /**
   Exactly one row per id, if and only if no orphan Master without a node and no
   orphan node without a Master is listed twice. Repeated Masters or nodes of a
   live instance, and repeated Masters of an orphan node, do not matter.
   */
  lemma {:induction false} OneRowPerId(nm: Naming, inv: Inventory)
    requires inv.DistinctInstances()
    ensures (forall key :: key in inv.InstanceKeys(nm) + inv.MasterKeys() + inv.NodeKeys() ==>
                             CountRows(nm, inv.Rows(nm), key) == 1) <==>
            && (forall key :: key in inv.MasterKeys() - inv.InstanceKeys(nm) - inv.NodeKeys() ==>
                                CountMasters(inv.masters, key) <= 1)
            && (forall key :: key in inv.NodeKeys() - inv.InstanceKeys(nm) - inv.MasterKeys() ==>
                                CountNodes(inv.nodes, key) <= 1)
  {
    var all := inv.InstanceKeys(nm) + inv.MasterKeys() + inv.NodeKeys();
    var lone := inv.MasterKeys() - inv.InstanceKeys(nm) - inv.NodeKeys();
    var bare := inv.NodeKeys() - inv.InstanceKeys(nm) - inv.MasterKeys();
    forall key | key in all
      ensures CountRows(nm, inv.Rows(nm), key) == 1 <==>
              && (key in lone ==> CountMasters(inv.masters, key) <= 1)
              && (key in bare ==> CountNodes(inv.nodes, key) <= 1)
    {
      RowMultiplicity(nm, inv, key);
      CountAbsentMaster(inv.masters, key);
      CountAbsentNode(inv.nodes, key);
    }
    if forall key :: key in all ==> CountRows(nm, inv.Rows(nm), key) == 1 {
      forall key | key in lone
        ensures CountMasters(inv.masters, key) <= 1
      {
        assert key in all && CountRows(nm, inv.Rows(nm), key) == 1;
      }
      forall key | key in bare
        ensures CountNodes(inv.nodes, key) <= 1
      {
        assert key in all && CountRows(nm, inv.Rows(nm), key) == 1;
      }
    }
  }

  lemma {:induction false} DistinctMastersCountOnce(masters: seq<Master>, key: string)
    requires forall i, j :: 0 <= i < j < |masters| ==> masters[i].id != masters[j].id
    ensures CountMasters(masters, key) <= 1
  {
    if masters != [] {
      var init := masters[..|masters| - 1];
      DistinctMastersCountOnce(init, key);
      CountAbsentMaster(init, key);
    }
  }

  lemma {:induction false} DistinctNodesCountOnce(nodes: seq<Node>, key: string)
    requires forall i, j :: 0 <= i < j < |nodes| ==> nodes[i].providerId != nodes[j].providerId
    ensures CountNodes(nodes, key) <= 1
  {
    if nodes != [] {
      var init := nodes[..|nodes| - 1];
      DistinctNodesCountOnce(init, key);
      CountAbsentNode(init, key);
    }
  }

  /** The usual case: no list repeats an id. */
  lemma DistinctListsJoin(nm: Naming, inv: Inventory)
    requires inv.DistinctInstances() && inv.DistinctMasters() && inv.DistinctNodes()
    ensures forall key :: key in inv.InstanceKeys(nm) + inv.MasterKeys() + inv.NodeKeys() ==>
                            CountRows(nm, inv.Rows(nm), key) == 1
  {
    forall key
      ensures CountMasters(inv.masters, key) <= 1 && CountNodes(inv.nodes, key) <= 1
    {
      DistinctMastersCountOnce(inv.masters, key);
      DistinctNodesCountOnce(inv.nodes, key);
    }
    OneRowPerId(nm, inv);
  }
}
