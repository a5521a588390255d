/** The admission check in front of a node reset (pkg/operator/heal/operation.go, pkg/operator/controllers/help/node.go). */
module NodeRepair {
  import opened Basics
  import opened Strings
  import opened Triples
  import opened TripleScan

  function FirstReady(conditions: seq<Condition>): (r: Option<Condition>)
    ensures r.Some? ==> r.value in conditions && r.value.kind == "Ready"
    ensures r.None? ==> forall c :: c in conditions ==> c.kind != "Ready"
  {
    if conditions == [] then None
    else if conditions[0].kind == "Ready" then Some(conditions[0])
    else FirstReady(conditions[1..])
  }

  /** Ready by its first `Ready` condition and a recent heartbeat; a node without the condition passes. */
  predicate HeartbeatReady(n: Node, recent: bool) {
    var cond := FirstReady(n.conditions);
    cond.None? || (cond.value.status == "True" && recent)
  }

  predicate OneReady(n: Node) {
    forall c, d :: c in n.conditions && d in n.conditions && c.kind == d.kind == "Ready" ==> c == d
  }

  /**
   What a repair meets: the node listing (`missing` tells a not-found error from others),
   whether the last heartbeat is recent, and whether the machine was made or reset too recently.
   */
  datatype Surroundings = Surroundings(listed: Result<seq<Node>>, missing: bool, recent: bool, throttled: bool)

  predicate Admitted(info: NodeInfo, env: Surroundings) {
    && info.instance.Some?
    && if info.node.Some? then HeartbeatReady(info.node.value, env.recent)
       else if env.listed.Err? then env.missing
       else var found := NodeWith(env.listed.value, info.instance.value.id);
            found.None? || HeartbeatReady(found.value, env.recent)
  }

  /** None of the first n nodes has this id in its provider id. */
  predicate NoneNamed(nodes: seq<Node>, id: string, n: int)
    requires n <= |nodes|
  {
    forall i :: 0 <= i < n ==> !Contains(nodes[i].providerId, id)
  }

  predicate FirstNamed(nodes: seq<Node>, id: string, k: int) {
    0 <= k < |nodes| && Contains(nodes[k].providerId, id) && NoneNamed(nodes, id, k)
  }

  lemma {:induction false} NamedIsFound(nodes: seq<Node>, id: string)
    ensures NoneNamed(nodes, id, |nodes|) ==> NodeWith(nodes, id).None?
    ensures forall k :: FirstNamed(nodes, id, k) ==> NodeWith(nodes, id) == Some(nodes[k])
    decreases |nodes|
  {
    if nodes != [] && !Contains(nodes[0].providerId, id) {
      var rest := nodes[1..];
      NamedIsFound(rest, id);
      assert NoneNamed(nodes, id, |nodes|) ==> NoneNamed(rest, id, |rest|);
      forall k | FirstNamed(nodes, id, k)
        ensures FirstNamed(rest, id, k - 1)
      {
        forall i | 0 <= i < k - 1
          ensures !Contains(rest[i].providerId, id)
        {
          assert rest[i] == nodes[i + 1];
        }
      }
    }
  }

  /** `AdmitNode` answers "ready", so an unready node with an object is never admitted to a reset. */
  method AdmitNode(info: NodeInfo, env: Surroundings) returns (admit: bool)
    ensures admit <==> Admitted(info, env)
    ensures info.instance.None? ==> !admit
    ensures info.instance.Some? && info.node.Some? && !NodeReady(info.node.value) && OneReady(info.node.value) ==> !admit
    ensures info.instance.Some? && info.node.None? && env.listed.Err? ==> (admit <==> env.missing)
    ensures info.instance.Some? && info.node.None? && env.listed.Ok? ==>
              && (NoneNamed(env.listed.value, info.instance.value.id, |env.listed.value|) ==> admit)
              && forall k :: FirstNamed(env.listed.value, info.instance.value.id, k) ==>
                   (admit <==> HeartbeatReady(env.listed.value[k], env.recent))
  {
    if info.instance.Some? && info.node.None? && env.listed.Ok? {
      NamedIsFound(env.listed.value, info.instance.value.id);
    }
    if info.instance.None? {
      return false;
    }
    var node := info.node;
    if node.None? {
      if env.listed.Err? {
        return env.missing;
      }
      node := MatchNode(env.listed.value, info.instance.value.id);
      if node.None? {
        return true;
      }
    }
    return HeartbeatReady(node.value, env.recent);
  }

  /** With at most one `Ready` condition and a recent heartbeat the two readiness tests agree. */
  lemma ReadinessAgrees(n: Node)
    requires OneReady(n)
    ensures HeartbeatReady(n, true) <==> NodeReady(n)
    ensures HeartbeatReady(n, false) <==> forall c :: c in n.conditions ==> c.kind != "Ready"
  {
    var cond := FirstReady(n.conditions);
    assert cond.Some? ==> cond.value in n.conditions;
  }

  /**
   With several `Ready` conditions the two readiness tests can disagree: an unready
   node is admitted exactly when its first one is true and the heartbeat is recent.
   */
  lemma UnreadyAdmitted(n: Node, recent: bool)
    requires !NodeReady(n)
    ensures HeartbeatReady(n, recent) <==> recent && FirstReady(n.conditions).value.status == "True"
    ensures OneReady(n) ==> !HeartbeatReady(n, recent)
  {
    var c :| c in n.conditions && c.kind == "Ready" && c.status != "True";
    assert FirstReady(n.conditions).Some?;
  }
}
