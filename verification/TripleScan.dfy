/**
 The join as the code computes it: nested scans that compare ids with `strings.Contains`
 (pkg/operator/heal/triple.go). ScanExact says exactly when these scans are the join.
 */
module TripleScan {
  import opened Basics
  import opened Strings
  import opened ProviderIds
  import opened Triples

  // ----- What the scans find --------------------------------------------------

  /** The first Master whose id contains the given one. */
  function MasterWith(masters: seq<Master>, id: string): (r: Option<Master>)
    ensures r.Some? ==> r.value in masters
  {
    if masters == [] then None
    else if Contains(masters[0].id, id) then Some(masters[0])
    else MasterWith(masters[1..], id)
  }

  /** The first Master whose id is contained in the given one. */
  function MasterWithin(masters: seq<Master>, pid: string): (r: Option<Master>)
    ensures r.Some? ==> r.value in masters
  {
    if masters == [] then None
    else if Contains(pid, masters[0].id) then Some(masters[0])
    else MasterWithin(masters[1..], pid)
  }

  /** The first node whose provider id contains the given id. */
  function NodeWith(nodes: seq<Node>, id: string): (r: Option<Node>)
    ensures r.Some? ==> r.value in nodes
  {
    if nodes == [] then None
    else if Contains(nodes[0].providerId, id) then Some(nodes[0])
    else NodeWith(nodes[1..], id)
  }

  predicate CoversMaster(row: NodeInfo, id: string) {
    || (row.instance.Some? && Contains(id, row.instance.value.id))
    || (row.node.Some? && Contains(row.node.value.providerId, id))
  }

  predicate CoversNode(row: NodeInfo, pid: string) {
    || (row.instance.Some? && Contains(pid, row.instance.value.id))
    || (row.resource.Some? && Contains(pid, row.resource.value.id))
  }

  function InstanceScan(inv: Inventory, k: nat): seq<NodeInfo>
    requires k <= |inv.instances|
  {
    if k == 0 then []
    else
      var i := inv.instances[k - 1];
      InstanceScan(inv, k - 1) + [NodeInfo(Some(i), NodeWith(inv.nodes, i.id), MasterWith(inv.masters, i.id))]
  }

  function MasterScan(inv: Inventory, k: nat): seq<NodeInfo>
    requires k <= |inv.masters|
  {
    if k == 0 then InstanceScan(inv, |inv.instances|)
    else
      var rows, m := MasterScan(inv, k - 1), inv.masters[k - 1];
      if exists r :: r in rows && CoversMaster(r, m.id) then rows
      else rows + [NodeInfo(None, NodeWith(inv.nodes, m.id), Some(m))]
  }

  function NodeScan(inv: Inventory, k: nat): seq<NodeInfo>
    requires k <= |inv.nodes|
  {
    if k == 0 then MasterScan(inv, |inv.masters|)
    else
      var rows, n := NodeScan(inv, k - 1), inv.nodes[k - 1];
      if exists r :: r in rows && CoversNode(r, n.providerId) then rows
      else rows + [NodeInfo(None, Some(n), MasterWithin(inv.masters, n.providerId))]
  }

  /** All rows of the scan. */
  function Scan(inv: Inventory): seq<NodeInfo> {
    NodeScan(inv, |inv.nodes|)
  }

  // ----- The code ---------------------------------------------------------------

  method MatchMaster(masters: seq<Master>, id: string) returns (r: Option<Master>)
    ensures r == MasterWith(masters, id)
  {
    for k := 0 to |masters|
      invariant MasterWith(masters, id) == MasterWith(masters[k..], id)
    {
      if Contains(masters[k].id, id) {
        return Some(masters[k]);
      }
    }
    return None;
  }

  method MatchNode(nodes: seq<Node>, id: string) returns (r: Option<Node>)
    ensures r == NodeWith(nodes, id)
  {
    for k := 0 to |nodes|
      invariant NodeWith(nodes, id) == NodeWith(nodes[k..], id)
    {
      if Contains(nodes[k].providerId, id) {
        return Some(nodes[k]);
      }
    }
    return None;
  }

  method MatchMasterOfNode(masters: seq<Master>, pid: string) returns (r: Option<Master>)
    ensures r == MasterWithin(masters, pid)
  {
    for k := 0 to |masters|
      invariant MasterWithin(masters, pid) == MasterWithin(masters[k..], pid)
    {
      if Contains(pid, masters[k].id) {
        return Some(masters[k]);
      }
    }
    return None;
  }

  method MasterFound(rows: seq<NodeInfo>, id: string) returns (found: bool)
    ensures found <==> exists r :: r in rows && CoversMaster(r, id)
  {
    for k := 0 to |rows|
      invariant forall j :: 0 <= j < k ==> !CoversMaster(rows[j], id)
    {
      var i := rows[k];
      if i.instance.Some? {
        if Contains(id, i.instance.value.id) {
          assert i in rows && CoversMaster(i, id);
          return true;
        }
      }
      if i.node.Some? {
        if Contains(i.node.value.providerId, id) {
          assert i in rows && CoversMaster(i, id);
          return true;
        }
      }
    }
    return false;
  }

  method NodeFound(rows: seq<NodeInfo>, pid: string) returns (found: bool)
    ensures found <==> exists r :: r in rows && CoversNode(r, pid)
  {
    for k := 0 to |rows|
      invariant forall j :: 0 <= j < k ==> !CoversNode(rows[j], pid)
    {
      var i := rows[k];
      if i.instance.Some? {
        if Contains(pid, i.instance.value.id) {
          assert i in rows && CoversNode(i, pid);
          return true;
        }
      }
      if i.resource.Some? {
        if Contains(pid, i.resource.value.id) {
          assert i in rows && CoversNode(i, pid);
          return true;
        }
      }
    }
    return false;
  }

  method AddInstances(inv: Inventory) returns (rows: seq<NodeInfo>)
    ensures rows == InstanceScan(inv, |inv.instances|)
  {
    rows := [];
    for k := 0 to |inv.instances|
      invariant rows == InstanceScan(inv, k)
    {
      var i := inv.instances[k];
      var resource := MatchMaster(inv.masters, i.id);
      var node := MatchNode(inv.nodes, i.id);
      rows := rows + [NodeInfo(Some(i), node, resource)];
    }
  }

  method AddMasters(inv: Inventory, init: seq<NodeInfo>) returns (rows: seq<NodeInfo>)
    requires init == MasterScan(inv, 0)
    ensures rows == MasterScan(inv, |inv.masters|)
  {
    rows := init;
    for k := 0 to |inv.masters|
      invariant rows == MasterScan(inv, k)
    {
      var m := inv.masters[k];
      var found := MasterFound(rows, m.id);
      if !found {
        var node := MatchNode(inv.nodes, m.id);
        rows := rows + [NodeInfo(None, node, Some(m))];
      }
    }
  }

  method AddNodes(inv: Inventory, init: seq<NodeInfo>) returns (rows: seq<NodeInfo>)
    requires init == NodeScan(inv, 0)
    ensures rows == Scan(inv)
  {
    rows := init;
    for k := 0 to |inv.nodes|
      invariant rows == NodeScan(inv, k)
    {
      var n := inv.nodes[k];
      var found := NodeFound(rows, n.providerId);
      if !found {
        var resource := MatchMasterOfNode(inv.masters, n.providerId);
        rows := rows + [NodeInfo(None, Some(n), resource)];
      }
    }
  }

  datatype Triple = Triple(inv: Inventory, rows: seq<NodeInfo>)

  /** Any failed listing fails the whole; otherwise every row of the scan, and the join where ids cannot hide. */
  method NewTripleMaster(cluster: Result<()>, masters: Result<seq<Master>>, nodes: Result<seq<Node>>,
                         instances: Result<seq<Instance>>)
    returns (trip: Result<Triple>)
    ensures trip.Ok? <==> cluster.Ok? && masters.Ok? && nodes.Ok? && instances.Ok?
    ensures trip.Ok? ==> trip.value.inv == Inventory(instances.value, masters.value, nodes.value)
    ensures trip.Ok? ==> trip.value.rows == Scan(trip.value.inv)
    ensures trip.Ok? ==> forall nm :: Unambiguous(nm, trip.value.inv) ==> trip.value.rows == trip.value.inv.Rows(nm)
  {
    if cluster.Err? {
      return Err("get cluster");
    }
    if masters.Err? {
      return Err("get master");
    }
    if nodes.Err? {
      return Err("master node");
    }
    if instances.Err? {
      return Err("ess master");
    }
    var inv := Inventory(instances.value, masters.value, nodes.value);
    var rows := AddInstances(inv);
    rows := AddMasters(inv, rows);
    rows := AddNodes(inv, rows);
    forall nm | Unambiguous(nm, inv)
      ensures rows == inv.Rows(nm)
    {
      ScanIsJoin(nm, inv);
    }
    return Ok(Triple(inv, rows));
  }

  // ----- When the scan is the join -------------------------------------------------

  /** No id hides in another: one id contains another only where both name one machine. */
  ghost predicate Unambiguous(nm: Naming, inv: Inventory) {
    && (forall i, m :: i in inv.instances && m in inv.masters ==>
          (Contains(m.id, i.id) <==> m.id == nm.ProviderId(i.id)))
    && (forall i, n :: i in inv.instances && n in inv.nodes ==>
          (Contains(n.providerId, i.id) <==> n.providerId == nm.ProviderId(i.id)))
    && (forall m, n :: m in inv.masters && n in inv.nodes ==>
          (Contains(n.providerId, m.id) <==> n.providerId == m.id))
  }

  /** One region and ids of one width are enough. */
  lemma NamedUnambiguous(nm: Naming, inv: Inventory)
    requires inv.WellNamed(nm)
    ensures Unambiguous(nm, inv)
  {
    forall i, m | i in inv.instances && m in inv.masters
      ensures Contains(m.id, i.id) <==> m.id == nm.ProviderId(i.id)
    {
      BareIdContained(nm, nm.Bare(m.id), i.id);
    }
    forall i, n | i in inv.instances && n in inv.nodes
      ensures Contains(n.providerId, i.id) <==> n.providerId == nm.ProviderId(i.id)
    {
      BareIdContained(nm, nm.Bare(n.providerId), i.id);
    }
    forall m, n | m in inv.masters && n in inv.nodes
      ensures Contains(n.providerId, m.id) <==> n.providerId == m.id
    {
      ProviderIdContained(nm, nm.Bare(n.providerId), nm.Bare(m.id));
    }
  }

  lemma {:induction false} MasterWithIs(masters: seq<Master>, id: string, key: string)
    requires forall m :: m in masters ==> (Contains(m.id, id) <==> m.id == key)
    ensures MasterWith(masters, id) == FirstMaster(masters, key)
  {
    if masters != [] {
      assert masters[0] in masters;
      MasterWithIs(masters[1..], id, key);
    }
  }

  lemma {:induction false} MasterWithinIs(masters: seq<Master>, pid: string)
    requires forall m :: m in masters ==> (Contains(pid, m.id) <==> m.id == pid)
    ensures MasterWithin(masters, pid) == FirstMaster(masters, pid)
  {
    if masters != [] {
      assert masters[0] in masters;
      MasterWithinIs(masters[1..], pid);
    }
  }

  lemma {:induction false} NodeWithIs(nodes: seq<Node>, id: string, key: string)
    requires forall n :: n in nodes ==> (Contains(n.providerId, id) <==> n.providerId == key)
    ensures NodeWith(nodes, id) == FirstNode(nodes, key)
  {
    if nodes != [] {
      assert nodes[0] in nodes;
      NodeWithIs(nodes[1..], id, key);
    }
  }

  /** A row is made of listed parts. */
  ghost predicate RowFrom(inv: Inventory, r: NodeInfo) {
    && (r.instance.Some? ==> r.instance.value in inv.instances)
    && (r.resource.Some? ==> r.resource.value in inv.masters)
    && (r.node.Some? ==> r.node.value in inv.nodes)
  }

  lemma RowsFrom(nm: Naming, inv: Inventory, k: nat, j: nat)
    requires k <= |inv.masters| && j <= |inv.nodes|
    ensures forall r :: r in inv.RowsSoFar(nm, k, j) ==> RowFrom(inv, r)
  {
    InstanceRowsAt(nm, inv, |inv.instances|);
    MasterRowsShape(nm, inv, k);
    NodeRowsShape(nm, inv, j);
  }

  lemma {:induction false} InstanceScanIs(nm: Naming, inv: Inventory, k: nat)
    requires k <= |inv.instances| && Unambiguous(nm, inv)
    ensures InstanceScan(inv, k) == inv.InstanceRows(nm, k)
  {
    if k > 0 {
      InstanceScanIs(nm, inv, k - 1);
      var i := inv.instances[k - 1];
      assert i in inv.instances;
      MasterWithIs(inv.masters, i.id, nm.ProviderId(i.id));
      NodeWithIs(inv.nodes, i.id, nm.ProviderId(i.id));
    }
  }

  lemma MasterCovered(nm: Naming, inv: Inventory, k: nat)
    requires k < |inv.masters| && Unambiguous(nm, inv)
    ensures (exists r :: r in inv.RowsSoFar(nm, k, 0) && CoversMaster(r, inv.masters[k].id)) <==>
            !inv.ListsMaster(nm, k)
  {
    var rows, m := inv.RowsSoFar(nm, k, 0), inv.masters[k];
    RowsFrom(nm, inv, k, 0);
    MasterClaimedMeans(nm, inv, k);
    forall r | r in rows
      ensures CoversMaster(r, m.id) <==> ClaimsMaster(nm, r, m.id)
    {
      assert RowFrom(inv, r) && m in inv.masters;
    }
  }

  lemma NodeCovered(nm: Naming, inv: Inventory, j: nat)
    requires j < |inv.nodes| && Unambiguous(nm, inv)
    ensures (exists r :: r in inv.RowsSoFar(nm, |inv.masters|, j) && CoversNode(r, inv.nodes[j].providerId)) <==>
            !inv.ListsNode(nm, j)
  {
    var rows, n := inv.RowsSoFar(nm, |inv.masters|, j), inv.nodes[j];
    RowsFrom(nm, inv, |inv.masters|, j);
    NodeClaimedMeans(nm, inv, j);
    forall r | r in rows
      ensures CoversNode(r, n.providerId) <==> ClaimsNode(nm, r, n.providerId)
    {
      assert RowFrom(inv, r) && n in inv.nodes;
    }
  }

  lemma MasterAppend(nm: Naming, inv: Inventory, k: nat)
    requires k < |inv.masters| && MasterScan(inv, k) == inv.RowsSoFar(nm, k, 0)
    requires (exists r :: r in inv.RowsSoFar(nm, k, 0) && CoversMaster(r, inv.masters[k].id)) <==>
             !inv.ListsMaster(nm, k)
    requires NodeWith(inv.nodes, inv.masters[k].id) == FirstNode(inv.nodes, inv.masters[k].id)
    ensures MasterScan(inv, k + 1) == inv.RowsSoFar(nm, k + 1, 0)
  {
  }

  lemma NodeAppend(nm: Naming, inv: Inventory, j: nat)
    requires j < |inv.nodes| && NodeScan(inv, j) == inv.RowsSoFar(nm, |inv.masters|, j)
    requires (exists r :: r in inv.RowsSoFar(nm, |inv.masters|, j) && CoversNode(r, inv.nodes[j].providerId)) <==>
             !inv.ListsNode(nm, j)
    requires MasterWithin(inv.masters, inv.nodes[j].providerId) == FirstMaster(inv.masters, inv.nodes[j].providerId)
    ensures NodeScan(inv, j + 1) == inv.RowsSoFar(nm, |inv.masters|, j + 1)
  {
    NodeClaimedMeans(nm, inv, j);
  }

  lemma NodeOfMaster(nm: Naming, inv: Inventory, m: Master)
    requires Unambiguous(nm, inv) && m in inv.masters
    ensures NodeWith(inv.nodes, m.id) == FirstNode(inv.nodes, m.id)
  {
    NodeWithIs(inv.nodes, m.id, m.id);
  }

  lemma MasterOfNode(nm: Naming, inv: Inventory, n: Node)
    requires Unambiguous(nm, inv) && n in inv.nodes
    ensures MasterWithin(inv.masters, n.providerId) == FirstMaster(inv.masters, n.providerId)
  {
    MasterWithinIs(inv.masters, n.providerId);
  }

  lemma MasterStep(nm: Naming, inv: Inventory, k: nat)
    requires k < |inv.masters| && Unambiguous(nm, inv) && MasterScan(inv, k) == inv.RowsSoFar(nm, k, 0)
    ensures MasterScan(inv, k + 1) == inv.RowsSoFar(nm, k + 1, 0)
  {
    MasterCovered(nm, inv, k);
    NodeOfMaster(nm, inv, inv.masters[k]);
    MasterAppend(nm, inv, k);
  }

  lemma NodeStep(nm: Naming, inv: Inventory, j: nat)
    requires j < |inv.nodes| && Unambiguous(nm, inv) && NodeScan(inv, j) == inv.RowsSoFar(nm, |inv.masters|, j)
    ensures NodeScan(inv, j + 1) == inv.RowsSoFar(nm, |inv.masters|, j + 1)
  {
    NodeCovered(nm, inv, j);
    MasterOfNode(nm, inv, inv.nodes[j]);
    NodeAppend(nm, inv, j);
  }

  lemma {:induction false} MasterScanIs(nm: Naming, inv: Inventory, k: nat)
    requires k <= |inv.masters| && Unambiguous(nm, inv)
    ensures MasterScan(inv, k) == inv.RowsSoFar(nm, k, 0)
  {
    if k == 0 {
      InstanceScanIs(nm, inv, |inv.instances|);
    } else {
      MasterScanIs(nm, inv, k - 1);
      MasterStep(nm, inv, k - 1);
    }
  }

  lemma {:induction false} NodeScanIs(nm: Naming, inv: Inventory, k: nat)
    requires k <= |inv.nodes| && Unambiguous(nm, inv)
    ensures NodeScan(inv, k) == inv.RowsSoFar(nm, |inv.masters|, k)
  {
    if k == 0 {
      MasterScanIs(nm, inv, |inv.masters|);
    } else {
      NodeScanIs(nm, inv, k - 1);
      NodeStep(nm, inv, k - 1);
    }
  }

  lemma ScanIsJoin(nm: Naming, inv: Inventory)
    requires Unambiguous(nm, inv)
    ensures Scan(inv) == inv.Rows(nm)
  {
    NodeScanIs(nm, inv, |inv.nodes|);
  }

  /** Lists drawn from the same objects. */
  ghost predicate Drawn(sub: Inventory, inv: Inventory) {
    && (forall i :: i in sub.instances ==> i in inv.instances)
    && (forall m :: m in sub.masters ==> m in inv.masters)
    && (forall n :: n in sub.nodes ==> n in inv.nodes)
  }

  /**
   The scan is the join for whatever lists can be drawn from these objects, if and only
   if no id hides in another.
   */
  lemma ScanExact(nm: Naming, inv: Inventory)
    ensures (forall sub :: Drawn(sub, inv) ==> Scan(sub) == sub.Rows(nm)) <==> Unambiguous(nm, inv)
  {
    if Unambiguous(nm, inv) {
      forall sub | Drawn(sub, inv)
        ensures Scan(sub) == sub.Rows(nm)
      {
        ScanIsJoin(nm, sub);
      }
    }
    if forall sub :: Drawn(sub, inv) ==> Scan(sub) == sub.Rows(nm) {
      forall i, m | i in inv.instances && m in inv.masters
        ensures Contains(m.id, i.id) <==> m.id == nm.ProviderId(i.id)
      {
        assert Drawn(Inventory([i], [m], []), inv);
        MasterPair(nm, i, m);
      }
      forall i, n | i in inv.instances && n in inv.nodes
        ensures Contains(n.providerId, i.id) <==> n.providerId == nm.ProviderId(i.id)
      {
        assert Drawn(Inventory([i], [], [n]), inv);
        NodePair(nm, i, n);
      }
      forall m, n | m in inv.masters && n in inv.nodes
        ensures Contains(n.providerId, m.id) <==> n.providerId == m.id
      {
        assert Drawn(Inventory([], [m], [n]), inv);
        MasterNodePair(nm, m, n);
      }
    }
  }

  lemma MasterPair(nm: Naming, i: Instance, m: Master)
    requires var inv := Inventory([i], [m], []); Scan(inv) == inv.Rows(nm)
    ensures Contains(m.id, i.id) <==> m.id == nm.ProviderId(i.id)
  {
    FirstRow(nm, i, [m], []);
  }

  lemma NodePair(nm: Naming, i: Instance, n: Node)
    requires var inv := Inventory([i], [], [n]); Scan(inv) == inv.Rows(nm)
    ensures Contains(n.providerId, i.id) <==> n.providerId == nm.ProviderId(i.id)
  {
    FirstRow(nm, i, [], [n]);
  }

  lemma MasterNodePair(nm: Naming, m: Master, n: Node)
    requires var inv := Inventory([], [m], [n]); Scan(inv) == inv.Rows(nm)
    ensures Contains(n.providerId, m.id) <==> n.providerId == m.id
  {
    LoneMaster(nm, m, n);
  }

  lemma {:induction false} ScanGrows(inv: Inventory, k: nat, j: nat)
    requires k <= |inv.masters| && j <= |inv.nodes|
    ensures InstanceScan(inv, |inv.instances|) <= MasterScan(inv, k)
    ensures MasterScan(inv, |inv.masters|) <= NodeScan(inv, j)
    decreases k + j
  {
    if k > 0 {
      ScanGrows(inv, k - 1, j);
    } else if j > 0 {
      ScanGrows(inv, k, j - 1);
    }
  }

  lemma FirstRow(nm: Naming, i: Instance, masters: seq<Master>, nodes: seq<Node>)
    ensures var inv := Inventory([i], masters, nodes);
            && Scan(inv) != [] && Scan(inv)[0] == NodeInfo(Some(i), NodeWith(nodes, i.id), MasterWith(masters, i.id))
            && inv.Rows(nm) != [] && inv.Rows(nm)[0] == inv.InstanceRow(nm, i)
  {
    var inv := Inventory([i], masters, nodes);
    ScanGrows(inv, |masters|, |nodes|);
    assert InstanceScan(inv, 1) == [NodeInfo(Some(i), NodeWith(nodes, i.id), MasterWith(masters, i.id))] by {
      assert InstanceScan(inv, 0) == [];
    }
    InstanceRowsAt(nm, inv, 1);
  }

  lemma LoneMaster(nm: Naming, m: Master, n: Node)
    ensures var inv := Inventory([], [m], [n]);
            && Scan(inv) != [] && Scan(inv)[0] == NodeInfo(None, NodeWith([n], m.id), Some(m))
            && inv.Rows(nm) != [] && inv.Rows(nm)[0] == NodeInfo(None, FirstNode([n], m.id), Some(m))
  {
    var inv := Inventory([], [m], [n]);
    ScanGrows(inv, 1, 1);
    assert MasterScan(inv, 0) == [];
    assert MasterScan(inv, 1) == [NodeInfo(None, NodeWith([n], m.id), Some(m))];
    assert inv.InstanceKeys(nm) == {} && inv.masters[..0] == [];
    assert inv.MasterRows(nm, 0) == [];
    assert inv.MasterRows(nm, 1) == [NodeInfo(None, FirstNode([n], m.id), Some(m))];
  }

  /**
   Ids of different widths can hide: with instances `i-1` and `i-12`, the Master of the
   second is also taken for the first's.
   */
  lemma HiddenId() returns (nm: Naming, inv: Inventory)
    ensures inv.DistinctInstances() && inv.DistinctMasters() && inv.nodes == []
    ensures Scan(inv) != inv.Rows(nm)
  {
    nm := Naming("r", 3);
    var i, m := Instance("i-1", "10.0.0.1"), Master("m", "r.i-12", "10.0.0.2");
    inv := Inventory([i], [m], []);
    FirstRow(nm, i, [m], []);
    assert OccursAt(m.id, i.id, 2);
    assert m.id[2..5] == "i-1";
    assert |nm.ProviderId(i.id)| == 5 && |m.id| == 6;
  }
}
