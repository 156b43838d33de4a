/**
 From the statuses of deployments to the status of a nodeset: what the two controllers say to
 each other is true.
 */
module NodeSetVerdict {
  import opened Conditions
  import opened Deployers
  import opened CheckDeployments
  import opened NodeSetControllers
  import opened DeploymentControllers
  import opened ReconcileOrder
  import opened Protocol
  import opened ProtocolTheorems

  /** In every persisted status, a nodeset that says it is deployed has all its services
      succeeded, whether or not the deployment is done on the other nodesets. */
  lemma NodeSetSaysDoneRightly(cat: Catalogue, s0: System, events: seq<Event>, d: string, k: int)
    requires Initial(s0) && MirrorIsSound(cat.mirror)
    requires var s := Run(cat, s0, events);
             && d in s.deployments && Known(s.deployments[d].spec, s.nodeSets, k)
             && s.deployments[d].spec.nodeSets[k] in s.deployments[d].status.nodeSetConditions
             && IsTrue(s.deployments[d].status.nodeSetConditions[s.deployments[d].spec.nodeSets[k]],
                NodeSetDeploymentReadyCondition)
    ensures var s := Run(cat, s0, events);
            NodeSetDone(cat, d, s.deployments[d].spec, s.nodeSets, s.jobs, k)
  {
    hide Run, NodeSetDone;
    ReachableInvariant(cat, s0, events);
    assert DeploymentOk(cat, Run(cat, s0, events), d);
  }

  // ---------- the newest deployment ----------

  /** The newest live deployment that names the nodeset. */
  ghost predicate Newest(ns: string, rs: seq<Record>, r: Record) {
    r in rs && r.Concerns(ns) && forall x | x in rs && x.Concerns(ns) && x != r :: Before(x, r)
  }

  lemma {:induction false} NewestExists(ns: string, rs: seq<Record>) returns (r: Record)
    requires TimesDistinct(rs) && exists x | x in rs :: x.Concerns(ns)
    ensures Newest(ns, rs, r)
  {
    var n := |rs| - 1;
    var init, last := rs[..n], rs[n];
    assert rs == init + [last];
    assert forall x :: x in rs <==> x in init || x == last;
    assert last in rs;
    if exists x | x in init :: x.Concerns(ns) {
      r := NewestExists(ns, init);
      assert r in rs;
      if last.Concerns(ns) && last.transition.value > r.transition.value {
        r := last;
      } else if last.Concerns(ns) {
        LaterOrSame(rs, r);
      }
    } else {
      r := last;
    }
  }

  lemma LaterOrSame(rs: seq<Record>, r: Record)
    requires TimesDistinct(rs) && rs != [] && r in rs[..|rs| - 1]
    ensures r.transition != rs[|rs| - 1].transition
  {
    var i :| 0 <= i < |rs| - 1 && rs[..|rs| - 1][i] == r;
    assert rs[i] == r;
  }

  /** A nodeset whose verdict comes from the check is Ready if and only if it is set up, is not a
      pre-provisioned one with baremetal hosts, no live deployment that names it is in error, and
      the newest one says that the nodeset is deployed. */
  lemma ReadyIffNewestDone(ns: NodeSet, name: string, env: NodeSetEnv, mirror: Conditions -> Condition,
                           rs: seq<Record>, st: Recorded)
    requires MirrorIsSound(mirror) && TimesDistinct(rs) && env.verdict == Check(name, rs, st).0
    ensures IsTrue(Summarize(NodeSetFlow(ns, env), mirror), ReadyCondition) <==>
              && AllStepsDone(ns, env) && !(ns.preProvisioned && ns.baremetalHosts > 0)
              && (forall r | r in rs :: !InError(name, r))
              && exists r :: Newest(name, rs, r) && r.ConditionFor(name).True?
  {
    hide MirrorIsSound, NodeSetFlow, Summarize, AllStepsDone, Check, TimesDistinct;
    ReadyMeansDeployed(ns, env, mirror);
    VerdictOfNewest(name, rs, st);
    if exists x | x in rs :: x.Concerns(name) {
      var r := NewestExists(name, rs);
      assert forall x | Newest(name, rs, x) :: x == r by { NewestIsUnique(name, rs, r); }
    }
  }

  lemma NewestIsUnique(ns: string, rs: seq<Record>, r: Record)
    requires Newest(ns, rs, r)
    ensures forall x | Newest(ns, rs, x) :: x == r
  {
  }

  // ---------- the nodeset and the jobs ----------

  /** What the check lists: a record of every deployment, with its nodesets and its conditions. */
  ghost predicate RecordsOf(s: System, rs: seq<Record>) {
    && (forall r | r in rs ::
          && r.name in s.deployments && r.nodeSets == s.deployments[r.name].spec.nodeSets
          && r.nodeSetConditions == s.deployments[r.name].status.nodeSetConditions)
    && forall d | d in s.deployments :: exists r | r in rs :: r.name == d
  }

  /** Every service of the deployment on this nodeset has succeeded. */
  ghost predicate DoneOn(cat: Catalogue, s: System, d: string, name: string)
    requires d in s.deployments
  {
    forall k | Known(s.deployments[d].spec, s.nodeSets, k) && s.deployments[d].spec.nodeSets[k] == name ::
      NodeSetDone(cat, d, s.deployments[d].spec, s.nodeSets, s.jobs, k)
  }

  /** In every reachable state, when a nodeset's reconcile checks the deployments there are and
      ends with Ready True, all services of the newest deployment that names the nodeset have
      succeeded there. */
  lemma ReadyNodeSetIsDeployed(cat: Catalogue, s0: System, events: seq<Event>, name: string, env: NodeSetEnv,
                               rs: seq<Record>, st: Recorded)
    returns (r: Record)
    requires Initial(s0) && MirrorIsSound(cat.mirror)
    requires var s := Run(cat, s0, events);
             && name in s.nodeSets && RecordsOf(s, rs) && TimesDistinct(rs) && env.verdict == Check(name, rs, st).0
             && IsTrue(Summarize(NodeSetFlow(s.nodeSets[name], env), cat.mirror), ReadyCondition)
    ensures var s := Run(cat, s0, events);
            Newest(name, rs, r) && r.name in s.deployments && DoneOn(cat, s, r.name, name)
  {
    var s := Run(cat, s0, events);
    hide MirrorIsSound, NodeSetFlow, Summarize, AllStepsDone, Check, TimesDistinct, Run, NodeSetDone, Initial, InError;
    ReadyIffNewestDone(s.nodeSets[name], name, env, cat.mirror, rs, st);
    r :| Newest(name, rs, r) && r.ConditionFor(name).True?;
    forall k | Known(s.deployments[r.name].spec, s.nodeSets, k) && s.deployments[r.name].spec.nodeSets[k] == name
      ensures NodeSetDone(cat, r.name, s.deployments[r.name].spec, s.nodeSets, s.jobs, k)
    {
      NodeSetSaysDoneRightly(cat, s0, events, r.name, k);
    }
  }
}
