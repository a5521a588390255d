/** Classifying the rows: what is missing, what is left over, and when nothing is. */
module TripleDiffs {
  import opened Basics
  import opened ProviderIds
  import opened Triples
  import opened JoinTheorem

  /** The rows that satisfy p, in order. */
  function Select(rows: seq<NodeInfo>, p: NodeInfo -> bool): (r: seq<NodeInfo>)
    ensures forall x :: x in r <==> x in rows && p(x)
  {
    if rows == [] then []
    else
      var init, last := rows[..|rows| - 1], rows[|rows| - 1];
      assert rows == init + [last];
      if p(last) then Select(init, p) + [last] else Select(init, p)
  }

  /** Row j is the first that satisfies p. */
  predicate First(rows: seq<NodeInfo>, p: NodeInfo -> bool, j: int) {
    0 <= j < |rows| && p(rows[j]) && forall i :: 0 <= i < j ==> !p(rows[i])
  }

  lemma {:induction false} SelectNone(rows: seq<NodeInfo>, p: NodeInfo -> bool)
    requires forall i :: 0 <= i < |rows| ==> !p(rows[i])
    ensures Select(rows, p) == []
    decreases |rows|
  {
    if rows != [] {
      SelectNone(rows[..|rows| - 1], p);
    }
  }

  /** The head of a selection is the first row that satisfies p. */
  lemma {:induction false} SelectFirst(rows: seq<NodeInfo>, p: NodeInfo -> bool)
    ensures forall j :: First(rows, p, j) ==> Select(rows, p) != [] && Select(rows, p)[0] == rows[j]
    decreases |rows|
  {
    if rows != [] {
      var init, last := rows[..|rows| - 1], rows[|rows| - 1];
      assert rows == init + [last];
      SelectFirst(init, p);
      forall j | First(rows, p, j)
        ensures Select(rows, p) != [] && Select(rows, p)[0] == rows[j]
      {
        if j < |init| {
          assert First(init, p, j);
        } else {
          SelectNone(init, p);
        }
      }
    }
  }

  predicate Unready(r: NodeInfo) {
    r.node.Some? && r.instance.Some? && !NodeReady(r.node.value)
  }

  predicate LacksMaster(r: NodeInfo) {
    r.instance.Some? && r.resource.None?
  }

  predicate OrphanMaster(r: NodeInfo) {
    r.instance.None? && r.resource.Some?
  }

  predicate LacksNode(r: NodeInfo) {
    r.instance.Some? && r.node.None?
  }

  predicate OrphanNode(r: NodeInfo) {
    r.instance.None? && r.node.Some?
  }

  /** A live node whose Master object went missing: the Master is rebuilt from the node. */
  predicate MissedMaster(r: NodeInfo) {
    r.resource.None? && r.node.Some? && r.instance.Some?
  }

  /** Of the rows with a machine and a node, those whose node has a `Ready` condition that is not `True`. */
  method UnReadyNodeList(rows: seq<NodeInfo>) returns (infos: seq<NodeInfo>)
    ensures infos == Select(rows, Unready)
    ensures forall r :: r in infos <==>
              && r in rows && r.instance.Some? && r.node.Some?
              && exists c :: c in r.node.value.conditions && c.kind == "Ready" && c.status != "True"
  {
    infos := [];
    for k := 0 to |rows|
      invariant infos == Select(rows[..k], Unready)
    {
      assert rows[..k + 1][..k] == rows[..k];
      var n := rows[k];
      if n.node.None? || n.instance.None? {
        continue;
      }
      var ready := NodesReady([n.node.value]);
      assert n.node.value in [n.node.value];
      if !ready {
        infos := infos + [n];
      }
    }
    assert rows[..|rows|] == rows;
  }

  method InstanceCRDiff(rows: seq<NodeInfo>) returns (addition: seq<NodeInfo>, deletion: seq<NodeInfo>)
    ensures addition == Select(rows, LacksMaster)
    ensures deletion == Select(rows, OrphanMaster)
  {
    addition, deletion := [], [];
    for k := 0 to |rows|
      invariant addition == Select(rows[..k], LacksMaster)
      invariant deletion == Select(rows[..k], OrphanMaster)
    {
      assert rows[..k + 1][..k] == rows[..k];
      var i := rows[k];
      if i.instance.Some? && i.resource.None? {
        addition := addition + [i];
      }
      if i.instance.None? && i.resource.Some? {
        deletion := deletion + [i];
      }
    }
    assert rows[..|rows|] == rows;
  }

  method InstanceNodeDiff(rows: seq<NodeInfo>) returns (addition: seq<NodeInfo>, deletion: seq<NodeInfo>)
    ensures addition == Select(rows, LacksNode)
    ensures deletion == Select(rows, OrphanNode)
  {
    addition, deletion := [], [];
    for k := 0 to |rows|
      invariant addition == Select(rows[..k], LacksNode)
      invariant deletion == Select(rows[..k], OrphanNode)
    {
      assert rows[..k + 1][..k] == rows[..k];
      var i := rows[k];
      if i.instance.Some? && i.node.None? {
        addition := addition + [i];
      }
      if i.instance.None? && i.node.Some? {
        deletion := deletion + [i];
      }
    }
    assert rows[..|rows|] == rows;
  }

  method MasterCRDDiff(rows: seq<NodeInfo>) returns (tdel: seq<NodeInfo>, missed: seq<NodeInfo>)
    ensures tdel == Select(rows, OrphanMaster)
    ensures missed == Select(rows, MissedMaster)
  {
    tdel, missed := [], [];
    for k := 0 to |rows|
      invariant tdel == Select(rows[..k], OrphanMaster)
      invariant missed == Select(rows[..k], MissedMaster)
    {
      assert rows[..k + 1][..k] == rows[..k];
      var i := rows[k];
      if i.resource.Some? {
        if i.instance.Some? {
          continue;
        }
        tdel := tdel + [i];
      }
      if i.resource.None? && i.node.Some? {
        if i.instance.None? {
          continue;
        }
        missed := missed + [i];
      }
    }
    assert rows[..|rows|] == rows;
  }

  /** All three parts present, and the node ready. */
  predicate Settled(r: NodeInfo) {
    r.instance.Some? && r.node.Some? && r.resource.Some? && NodeReady(r.node.value)
  }

  /** No part at all; no such row is ever built. */
  predicate Blank(r: NodeInfo) {
    r.instance.None? && r.node.None? && r.resource.None?
  }

  method SystemInConsistency(rows: seq<NodeInfo>) returns (consistent: bool)
    ensures consistent <==> forall r :: r in rows ==> Settled(r) || Blank(r)
  {
    var uready := UnReadyNodeList(rows);
    var uiadd, uidel := InstanceCRDiff(rows);
    var ucadd, ucdel := InstanceNodeDiff(rows);
    var umadd, umdel := MasterCRDDiff(rows);
    var addl := |uready| + |uiadd| + |uidel| + |ucadd| + |ucdel| + |umadd| + |umdel|;
    if addl == 0 {
      NothingPicked(rows);
    } else {
      SomethingPicked(rows, Unready);
      SomethingPicked(rows, LacksMaster);
      SomethingPicked(rows, OrphanMaster);
      SomethingPicked(rows, LacksNode);
      SomethingPicked(rows, OrphanNode);
      SomethingPicked(rows, MissedMaster);
    }
    return addl == 0;
  }

  /** Each of these lists holds only rows that are not as they should be. */
  lemma SomethingPicked(rows: seq<NodeInfo>, f: NodeInfo -> bool)
    requires f in [Unready, LacksMaster, OrphanMaster, LacksNode, OrphanNode, MissedMaster]
    ensures Select(rows, f) != [] ==> exists r :: r in rows && !Settled(r) && !Blank(r)
  {
    if Select(rows, f) != [] {
      var r := Select(rows, f)[0];
      assert r in Select(rows, f) && f(r);
    }
  }

  lemma NothingPicked(rows: seq<NodeInfo>)
    requires Select(rows, Unready) == Select(rows, LacksMaster) == Select(rows, OrphanMaster) == []
    requires Select(rows, LacksNode) == Select(rows, OrphanNode) == []
    ensures forall r :: r in rows ==> Settled(r) || Blank(r)
  {
    forall r | r in rows
      ensures Settled(r) || Blank(r)
    {
      assert r !in Select(rows, Unready) && r !in Select(rows, LacksMaster) && r !in Select(rows, OrphanMaster);
      assert r !in Select(rows, LacksNode) && r !in Select(rows, OrphanNode);
    }
  }

  ghost predicate Consistent(nm: Naming, inv: Inventory) {
    forall r :: r in inv.Rows(nm) ==> Settled(r)
  }

  /**
   The system is consistent exactly when the three id sets coincide and the node
   found for each id is ready.
   */
  lemma ConsistentMeans(nm: Naming, inv: Inventory)
    ensures Consistent(nm, inv) <==>
            && inv.InstanceKeys(nm) == inv.MasterKeys() == inv.NodeKeys()
            && forall key :: key in inv.NodeKeys() ==> NodeReady(FirstNode(inv.nodes, key).value)
  {
    if Consistent(nm, inv) {
      forall key | key in inv.InstanceKeys(nm) + inv.MasterKeys() + inv.NodeKeys()
        ensures key in inv.InstanceKeys(nm) && key in inv.MasterKeys() && key in inv.NodeKeys()
        ensures NodeReady(FirstNode(inv.nodes, key).value)
      {
        JoinCovers(nm, inv, key);
        var row :| row in inv.Rows(nm) && RowKey(nm, row) == key;
        OuterJoin(nm, inv, row);
      }
      assert inv.InstanceKeys(nm) == inv.MasterKeys() == inv.NodeKeys();
    }
    if && inv.InstanceKeys(nm) == inv.MasterKeys() == inv.NodeKeys()
       && forall key :: key in inv.NodeKeys() ==> NodeReady(FirstNode(inv.nodes, key).value) {
      forall row | row in inv.Rows(nm)
        ensures Settled(row)
      {
        OuterJoin(nm, inv, row);
        OneOfThree(nm, inv, row);
      }
    }
  }

  // ----- Which orphan Masters are seen ----------------------------------------------

  predicate UniqueNames(masters: seq<Master>) {
    forall i, j :: 0 <= i < j < |masters| ==> masters[i].name != masters[j].name
  }

  lemma {:induction false} MasterRowOf(nm: Naming, inv: Inventory, n: nat, i: nat)
    requires i < n <= |inv.masters| && UniqueNames(inv.masters)
    ensures (exists r :: r in inv.MasterRows(nm, n) && r.resource == Some(inv.masters[i])) <==> inv.ListsMaster(nm, i)
    decreases n
  {
    var m := inv.masters[n - 1];
    if i < n - 1 {
      MasterRowOf(nm, inv, n - 1, i);
    } else {
      MasterRowsShape(nm, inv, n - 1);
      var row := NodeInfo(None, FirstNode(inv.nodes, m.id), Some(m));
      assert inv.ListsMaster(nm, i) ==> row in inv.MasterRows(nm, n);
    }
  }

  /**
   A Master without an instance is picked for deletion exactly when no node carries its
   id or no earlier Master does: of several Masters of an orphan node, the first hides
   the others.
   */
  lemma OrphanPicked(nm: Naming, inv: Inventory, i: nat)
    requires i < |inv.masters| && UniqueNames(inv.masters) && inv.masters[i].id !in inv.InstanceKeys(nm)
    ensures (exists r :: r in Select(inv.Rows(nm), OrphanMaster) && r.resource == Some(inv.masters[i])) <==>
            inv.masters[i].id !in inv.NodeKeys() || forall m :: m in inv.masters[..i] ==> m.id != inv.masters[i].id
  {
    var n := |inv.masters|;
    MasterRowOf(nm, inv, n, i);
    InstanceRowsAt(nm, inv, |inv.instances|);
    MasterRowsShape(nm, inv, n);
    NodeRowsShape(nm, inv, |inv.nodes|);
    forall r: NodeInfo | r.resource == Some(inv.masters[i])
      ensures r in Select(inv.Rows(nm), OrphanMaster) <==> r in inv.MasterRows(nm, n)
    {
    }
  }

  /** Two Masters of one orphan node: the second is not picked. */
  lemma HiddenOrphan() returns (nm: Naming, inv: Inventory)
    ensures |inv.masters| == 2 && UniqueNames(inv.masters) && inv.instances == []
    ensures forall r :: r in Select(inv.Rows(nm), OrphanMaster) ==> r.resource != Some(inv.masters[1])
  {
    nm := Naming("r", 2);
    var n := Node("n", "r.i1", "10.0.0.1", []);
    inv := Inventory([], [Master("10.0.0.1", "r.i1", "10.0.0.1"), Master("r.i1", "r.i1", "10.0.0.1")], [n]);
    assert n in inv.nodes && "r.i1" in inv.NodeKeys();
    assert inv.masters[..1][0].id == inv.masters[1].id && inv.masters[..1][0] in inv.masters[..1];
    OrphanPicked(nm, inv, 1);
  }

  lemma {:induction false} InstanceKeysSize(nm: Naming, instances: seq<Instance>)
    requires forall i, j :: 0 <= i < j < |instances| ==> instances[i].id != instances[j].id
    ensures |Inventory(instances, [], []).InstanceKeys(nm)| == |instances|
  {
    if instances != [] {
      var init, last := instances[..|instances| - 1], instances[|instances| - 1];
      assert instances == init + [last];
      InstanceKeysSize(nm, init);
      InstanceKeysGrow(nm, init, last);
    }
  }

  lemma InstanceKeysGrow(nm: Naming, init: seq<Instance>, last: Instance)
    requires forall i :: i in init ==> i.id != last.id
    ensures var keys := Inventory(init, [], []).InstanceKeys(nm);
            && nm.ProviderId(last.id) !in keys
            && Inventory(init + [last], [], []).InstanceKeys(nm) == keys + {nm.ProviderId(last.id)}
  {
    forall i | i in init
      ensures nm.ProviderId(i.id) != nm.ProviderId(last.id)
    {
      if nm.ProviderId(i.id) == nm.ProviderId(last.id) {
        ProviderIdInjective(nm, i.id, last.id);
      }
    }
  }

  lemma {:induction false} NodeKeysSize(nodes: seq<Node>)
    requires forall i, j :: 0 <= i < j < |nodes| ==> nodes[i].providerId != nodes[j].providerId
    ensures |Inventory([], [], nodes).NodeKeys()| == |nodes|
  {
    if nodes != [] {
      var init, last := nodes[..|nodes| - 1], nodes[|nodes| - 1];
      assert nodes == init + [last];
      NodeKeysSize(init);
      assert Inventory([], [], nodes).NodeKeys() == Inventory([], [], init).NodeKeys() + {last.providerId};
    }
  }

  /**
   On a consistent snapshot the two replica checks of the masterset controller,
   node count and instance count, give one answer for every replica number.
   */
  lemma ReplicaChecksAgree(nm: Naming, inv: Inventory, replicas: int)
    requires inv.DistinctInstances() && inv.DistinctNodes()
    requires Consistent(nm, inv)
    ensures |inv.nodes| == replicas <==> |inv.instances| == replicas
    ensures forall n :: n in inv.nodes ==> NodeReady(n)
  {
    ConsistentMeans(nm, inv);
    InstanceKeysSize(nm, inv.instances);
    NodeKeysSize(inv.nodes);
    assert Inventory(inv.instances, [], []).InstanceKeys(nm) == inv.InstanceKeys(nm);
    assert Inventory([], [], inv.nodes).NodeKeys() == inv.NodeKeys();
    forall n | n in inv.nodes
      ensures NodeReady(n)
    {
      assert n.providerId in inv.NodeKeys();
      assert FirstNode(inv.nodes, n.providerId).value == n;
    }
  }
}
