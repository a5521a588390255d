/**
 The operator at work: reconciliations and repair passes, one after the other. What every
 turn does when no call fails, and what holds after every step whatever fails.
 */
module Operating {
  import opened Basics
  import opened Triples
  import opened TripleDiffs
  import opened NodeRepair
  import opened Passes
  import opened PassRun
  import opened Healing
  import opened HealView
  import opened Reconciling
  import ControlPlane
  import ScaleInSafety
  import Scaling

  // ----- One pass, one reconciliation ---------------------------------------------------

  /** What a pass made of the Masters, and what it asked of machines. */
  datatype Pass = Pass(made: set<Id>, acts: seq<Action>)

  /** A finished pass: what it made of the cluster, and of the machine it tended to. */
  ghost predicate Passed(c: ControlPlane.Cluster, pass: Pass, after: ControlPlane.Cluster) {
    && pass.made <= ControlPlane.Look(c).MissedCrds() && PassDone(c, pass.made, after)
    && Treated(ControlPlane.Look(c), Tidied(c, pass.made), after, pass.acts)
  }

  /** A live Master stays, so no pass is aborted for want of one. */
  lemma LiveMasterStays(c: ControlPlane.Cluster, made: set<Id>, after: ControlPlane.Cluster)
    requires PassDone(c, made, after) && c.crds * c.insts != {}
    ensures after.crds * after.insts != {}
  {
    var i :| i in c.crds * c.insts;
    PassSparesLive(c, made, after, i);
    assert i in after.crds * after.insts;
  }

  lemma MasterListed(p: Plane)
    requires p.Abs().crds != {}
    ensures p.masters != []
  {
    var k :| k in p.Abs().crds;
  }

  /** One repair pass, whatever it meets. */
  method OnePass(p: Plane, ghost s: ControlPlane.State)
    returns (ghost pass: Pass, ghost after: ControlPlane.Cluster, ghost es: seq<ControlPlane.Event>,
             ghost t: ControlPlane.State)
    requires p.Valid() && s.c == p.Abs() && s.heal == ControlPlane.Idle
    modifies p
    ensures p.Valid() && Reaches(s, es, t) && t == s.(c := p.Abs()) && after == p.Abs() && old(p.faults) <= p.faults
    ensures p.instances == old(p.instances) && p.log == old(p.log) + pass.acts
    ensures p.faults == old(p.faults) && s.c.crds != {} ==> Passed(s.c, pass, after)
    ensures p.faults == old(p.faults) && s.c.crds * s.c.insts != {} ==> after.crds * after.insts != {}
  {
    if s.c.crds != {} {
      MasterListed(p);
    }
    var env: Surroundings := *;
    var ok;
    ghost var made, acts;
    ok, made, es, t, acts := p.FixMasterNode(env, s);
    pass, after := Pass(made, acts), p.Abs();
    if ok && s.c.crds * s.c.insts != {} {
      LiveMasterStays(s.c, made, after);
    }
  }

  lemma NodeCount(p: Plane)
    requires p.Valid() && ControlPlane.Look(p.Abs()).Healthy()
    ensures |p.nodes| == |p.instances|
  {
    MachineCount(p);
    NodeKeysSize(p.nodes);
    NodeMapKeys(p.Lists());
    assert Inventory([], [], p.nodes).NodeKeys() == p.Lists().NodeKeys();
  }

  /**
   A reconciliation in which no call failed: a finished pass over an unhealthy cluster that has
   a Master, nothing where the number is right, and else exactly one order.
   */
  ghost predicate Served(c: ControlPlane.Cluster, replicas: int, es: seq<ControlPlane.Event>, acts: seq<Action>,
                         after: ControlPlane.Cluster) {
    if !ControlPlane.Look(c).Healthy() then
      c.crds == {} || exists made :: Passed(c, Pass(made, acts), after)
    else if |c.insts| == replicas then after == c && es == [] && acts == []
    else acts == Told(|c.insts|, replicas) && exists r :: Stepped(r, es, replicas, |c.insts|, c, after)
  }

  method ReconcileOnce(p: Plane, replicas: int, ghost s: ControlPlane.State)
    returns (ghost es: seq<ControlPlane.Event>, ghost t: ControlPlane.State, ghost acts: seq<Action>)
    requires p.Valid() && s.c == p.Abs() && s.heal == ControlPlane.Idle && s.scaler == ControlPlane.Rest
    modifies p
    ensures p.Valid() && Between(replicas, |p.instances|, |old(p.instances)|)
    ensures Reaches(s, es, t) && t == s.(c := p.Abs(), half := t.half, strayed := t.strayed)
    ensures 1 <= replicas <= |old(p.instances)| ==> t.strayed == s.strayed
    ensures old(p.faults) <= p.faults && p.log == old(p.log) + acts
    ensures p.faults == old(p.faults) ==> Served(s.c, replicas, es, acts, t.c)
  {
    MachineCount(p);
    if s.c.crds != {} {
      MasterListed(p);
    }
    if ControlPlane.Look(s.c).Healthy() {
      NodeCount(p);
    }
    var a: Answers := *;
    ghost var env, made;
    es, t, env, made, acts := Reconcile(p, replicas, a, s);
    if p.faults == old(p.faults) && !ControlPlane.Look(s.c).Healthy() && s.c.crds != {} {
      PassServes(s.c, replicas, es, made, acts, t.c);
    }
  }

  lemma PassServes(c: ControlPlane.Cluster, replicas: int, es: seq<ControlPlane.Event>, made: set<Id>,
                   acts: seq<Action>, after: ControlPlane.Cluster)
    requires !ControlPlane.Look(c).Healthy() && PassDone(c, made, after)
    requires Treated(ControlPlane.Look(c), Tidied(c, made), after, acts)
    ensures Served(c, replicas, es, acts, after)
  {
    assert Passed(c, Pass(made, acts), after);
  }

  // ----- Turns --------------------------------------------------------------------------

  /** What one turn did: a reconciliation, and a pass or none. */
  datatype Turned = Turned(replicas: int, before: ControlPlane.Cluster, es: seq<ControlPlane.Event>,
                           acts: seq<Action>, mid: ControlPlane.Cluster, passed: bool, pass: Pass,
                           after: ControlPlane.Cluster)

  /** Both did their work. */
  ghost predicate WellTurned(d: Turned) {
    && Served(d.before, d.replicas, d.es, d.acts, d.mid)
    && (if d.passed then d.mid.crds == {} || Passed(d.mid, d.pass, d.after) else d.after == d.mid)
  }

  function ActsOf(d: Turned): seq<Action> {
    d.acts + if d.passed then d.pass.acts else []
  }

  function AllActs(ds: seq<Turned>): seq<Action> {
    if ds == [] then [] else AllActs(ds[..|ds| - 1]) + ActsOf(ds[|ds| - 1])
  }

  /** One turn after the other, towards these numbers. */
  ghost predicate Chained(ds: seq<Turned>, replicas: seq<int>, c: ControlPlane.Cluster, after: ControlPlane.Cluster) {
    && |ds| == |replicas| && (forall i :: 0 <= i < |ds| ==> ds[i].replicas == replicas[i])
    && (forall i :: 0 <= i < |ds| - 1 ==> ds[i].after == ds[i + 1].before)
    && (if ds == [] then after == c else ds[0].before == c && ds[|ds| - 1].after == after)
  }

  lemma ChainedNext(ds: seq<Turned>, replicas: seq<int>, k: nat, c: ControlPlane.Cluster, d: Turned)
    requires k < |replicas| && Chained(ds, replicas[..k], c, d.before) && d.replicas == replicas[k]
    ensures Chained(ds + [d], replicas[..k + 1], c, d.after)
    ensures AllActs(ds + [d]) == AllActs(ds) + ActsOf(d)
  {
    assert (ds + [d])[..|ds|] == ds;
  }

  /** A reconciliation, and perhaps a repair pass after it. */
  method Turn(p: Plane, replicas: int, ghost s: ControlPlane.State)
    returns (ghost es: seq<ControlPlane.Event>, ghost t: ControlPlane.State, ghost d: Turned)
    requires p.Valid() && s.c == p.Abs() && s.heal == ControlPlane.Idle && s.scaler == ControlPlane.Rest
    modifies p
    ensures p.Valid() && Between(replicas, |p.instances|, |old(p.instances)|)
    ensures Reaches(s, es, t) && t == s.(c := p.Abs(), half := t.half, strayed := t.strayed)
    ensures 1 <= replicas <= |old(p.instances)| ==> t.strayed == s.strayed
    ensures d.replicas == replicas && d.before == s.c && d.after == t.c && d.es <= es
    ensures old(p.faults) <= p.faults && p.log == old(p.log) + ActsOf(d)
    ensures p.faults == old(p.faults) ==> WellTurned(d)
  {
    ghost var acts;
    es, t, acts := ReconcileOnce(p, replicas, s);
    d := Turned(replicas, s.c, es, acts, t.c, false, Pass({}, []), t.c);
    var pass: bool := *;
    if pass {
      ghost var fs, u, made, after;
      made, after, fs, u := OnePass(p, t);
      d := d.(passed := true, pass := made, after := after);
      ReachesConcat(s, es, t, fs, u);
      es, t := es + fs, u;
    }
  }

  /** Wanted numbers of a scale-in from n machines: at least one, and never growing. */
  predicate ScaleIn(replicas: seq<int>, n: int) {
    && (forall i :: 0 <= i < |replicas| ==> 1 <= replicas[i] <= n)
    && (forall i, j :: 0 <= i < j < |replicas| ==> replicas[j] <= replicas[i])
  }

  lemma ScaleInStep(replicas: seq<int>, n: int, m: int)
    requires replicas != [] && ScaleIn(replicas, n) && replicas[0] <= m
    ensures ScaleIn(replicas[1..], m)
  {
  }

  /** Any number of such turns, towards any numbers of machines. */
  method Turns(p: Plane, replicas: seq<int>, ghost s: ControlPlane.State)
    returns (ghost es: seq<ControlPlane.Event>, ghost t: ControlPlane.State, ghost ds: seq<Turned>)
    requires p.Valid() && s.c == p.Abs() && s.heal == ControlPlane.Idle && s.scaler == ControlPlane.Rest
    modifies p
    ensures p.Valid() && Reaches(s, es, t) && t == s.(c := p.Abs(), half := t.half, strayed := t.strayed)
    ensures ScaleIn(replicas, |old(p.instances)|) ==> t.strayed == s.strayed
    ensures ScaleIn(replicas, |old(p.instances)|) && replicas != [] ==> replicas[|replicas| - 1] <= |p.instances|
    ensures Chained(ds, replicas, s.c, t.c) && p.log == old(p.log) + AllActs(ds) && old(p.faults) <= p.faults
    ensures p.faults == old(p.faults) ==> forall d :: d in ds ==> WellTurned(d)
  {
    es, t, ds := [], s, [];
    ghost var calm, shrinking, log := true, ScaleIn(replicas, |p.instances|), p.log;
    for k := 0 to |replicas|
      invariant p.Valid() && Reaches(s, es, t) && t == s.(c := p.Abs(), half := t.half, strayed := t.strayed)
      invariant shrinking ==> t.strayed == s.strayed && ScaleIn(replicas[k..], |p.instances|)
      invariant shrinking && 0 < k ==> replicas[k - 1] <= |p.instances|
      invariant Chained(ds, replicas[..k], s.c, t.c) && Logged(log, ds, p.log)
      invariant old(p.faults) <= p.faults && (calm <==> p.faults == old(p.faults))
      invariant calm ==> AllWellTurned(ds)
    {
      ghost var fs, u, n := [], t, |p.instances|;
      fs, u, ds := NextTurn(p, replicas, k, s.c, t, ds, log);
      calm := p.faults == old(p.faults);
      ReachesConcat(s, es, t, fs, u);
      es, t := es + fs, u;
      if shrinking {
        ScaleInStep(replicas[k..], n, |p.instances|);
        assert replicas[k..][1..] == replicas[k + 1..];
      }
    }
    assert replicas[..|replicas|] == replicas;
  }

  ghost predicate AllWellTurned(ds: seq<Turned>) {
    forall d :: d in ds ==> WellTurned(d)
  }

  /** What was asked of machines since `before` was asked in these turns. */
  ghost predicate Logged(before: seq<Action>, ds: seq<Turned>, log: seq<Action>) {
    log == before + AllActs(ds)
  }

  method NextTurn(p: Plane, replicas: seq<int>, k: nat, ghost c: ControlPlane.Cluster, ghost s: ControlPlane.State,
                  ghost ds: seq<Turned>, ghost log: seq<Action>)
    returns (ghost es: seq<ControlPlane.Event>, ghost t: ControlPlane.State, ghost more: seq<Turned>)
    requires p.Valid() && s.c == p.Abs() && s.heal == ControlPlane.Idle && s.scaler == ControlPlane.Rest
    requires k < |replicas| && Chained(ds, replicas[..k], c, s.c) && Logged(log, ds, p.log)
    modifies p
    ensures p.Valid() && Between(replicas[k], |p.instances|, |old(p.instances)|)
    ensures Reaches(s, es, t) && t == s.(c := p.Abs(), half := t.half, strayed := t.strayed)
    ensures 1 <= replicas[k] <= |old(p.instances)| ==> t.strayed == s.strayed
    ensures Chained(more, replicas[..k + 1], c, t.c) && Logged(log, more, p.log)
    ensures old(p.faults) <= p.faults && (p.faults == old(p.faults) && AllWellTurned(ds) ==> AllWellTurned(more))
  {
    ghost var d;
    es, t, d := Turn(p, replicas[k], s);
    ChainedNext(ds, replicas, k, c, d);
    more := ds + [d];
  }

  /**
   The operator: reconciliations towards any numbers of machines, repair passes in between,
   any of their calls failing. If it is a scale-in, to at least one machine and never growing,
   then from a healthy start a strict majority of the etcd members has a machine after every
   step, and the control plane never gets smaller than asked. If no call fails, every turn
   does its work.
   */
  method Operate(p: Plane, replicas: seq<int>, ghost s: ControlPlane.State)
    returns (ghost es: seq<ControlPlane.Event>, ghost t: ControlPlane.State, ghost ds: seq<Turned>)
    requires p.Valid() && s.c == p.Abs() && ScaleInSafety.Init(s)
    modifies p
    ensures p.Valid() && Reaches(s, es, t) && t.c == p.Abs()
    ensures ScaleIn(replicas, |old(p.instances)|) ==>
              && (replicas != [] ==> replicas[|replicas| - 1] <= |p.instances|)
              && (forall k :: 0 <= k <= |es| ==> Quorate(s, es, k))
              && 2 * |p.Abs().members * p.Abs().insts| > |p.Abs().members|
    ensures Chained(ds, replicas, s.c, t.c) && p.log == old(p.log) + AllActs(ds)
    ensures p.faults == old(p.faults) ==> forall d :: d in ds ==> WellTurned(d)
  {
    es, t, ds := Turns(p, replicas, s);
    if ScaleIn(replicas, |old(p.instances)|) {
      RunQuorate(s, es, t);
    }
  }

  /** After the first k steps of the run, a strict majority of the etcd members has a machine. */
  ghost predicate Quorate(s: ControlPlane.State, es: seq<ControlPlane.Event>, k: nat)
    requires k <= |es|
  {
    ControlPlane.Possible(s, es[..k]) && ControlPlane.Majority(ControlPlane.Exec(s, es[..k]).c)
  }

  lemma QuorateAt(s: ControlPlane.State, es: seq<ControlPlane.Event>, k: nat)
    requires ScaleInSafety.Init(s) && ControlPlane.Possible(s, es) && k <= |es|
    requires forall e :: e in es ==> ScaleInSafety.Shrinking(e)
    ensures Quorate(s, es, k)
  {
    PossiblePrefix(s, es, k);
    ScaleInSafety.ScaleInIsSafe(s, es[..k]);
  }

  lemma RunQuorate(s: ControlPlane.State, es: seq<ControlPlane.Event>, t: ControlPlane.State)
    requires ScaleInSafety.Init(s) && Reaches(s, es, t) && !t.strayed
    ensures forall k :: 0 <= k <= |es| ==> Quorate(s, es, k)
    ensures ControlPlane.Majority(t.c)
  {
    ScaleInSafety.NotStrayed(s, es);
    forall k | 0 <= k <= |es|
      ensures Quorate(s, es, k)
    {
      QuorateAt(s, es, k);
    }
    ScaleInSafety.ScaleInIsSafe(s, es);
  }

  lemma {:induction false} PossiblePrefix(s: ControlPlane.State, es: seq<ControlPlane.Event>, k: nat)
    requires ControlPlane.Possible(s, es) && k <= |es|
    ensures ControlPlane.Possible(s, es[..k])
    decreases k
  {
    if k > 0 {
      PossiblePrefix(ControlPlane.Next(s, es[0]), es[1..], k - 1);
      assert es[..k][1..] == es[1..][..k - 1];
    }
  }
}
