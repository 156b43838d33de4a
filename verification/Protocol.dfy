/**
 The deployment protocol as a transition system: reconciles of deployments and of nodesets,
 in any order and with any outcome of their calls, interleaved with changes of job statuses.
 */
module Protocol {
  import opened Conditions
  import opened AnsibleExecutions
  import opened Services
  import opened Deployers
  import opened NodeSetControllers
  import opened DeploymentControllers
  import opened ServiceOrder
  import opened ServiceProgress
  import opened ReconcileOrder

  /** The jobs, the deployments, the nodesets, and the nodesets that own the IP sets there are. */
  datatype System = System(jobs: JobStore, deployments: map<string, Deployment>, nodeSets: NodeSets, owners: Owners)

  datatype Event =
    | DeploymentReconciled(deployment: string, env: Env)
    | NodeSetReconciled(nodeSet: string, nodeSetEnv: NodeSetEnv)
    | JobsChanged(change: string -> JobStatus)

  /** Any job may change its status, except that a succeeded one stays succeeded. */
  function ChangeJobs(jobs: JobStore, change: string -> JobStatus): JobStore {
    map n | n in jobs :: if jobs[n].status.Succeeded? then jobs[n] else jobs[n].(status := change(n))
  }

  function Next(cat: Catalogue, s: System, e: Event): System {
    match e
    case DeploymentReconciled(d, env) =>
      if d !in s.deployments then s
      else
        var r := Reconcile(cat, d, s.deployments[d], s.nodeSets, s.jobs, env);
        s.(jobs := r.jobs, deployments := s.deployments[d := s.deployments[d].(status := r.status)])
    case NodeSetReconciled(n, env) =>
      if n !in s.nodeSets then s
      else
        var ns := s.nodeSets[n];
        var actual := Actual(n, ns, s.owners, cat.objectName, env);
        s.(nodeSets := s.nodeSets[n := ReconcileNodeSet(ns, actual, cat.mirror)],
           owners := OwnersAfter(n, ns, s.owners, cat.objectName, env))
    case JobsChanged(change) =>
      s.(jobs := ChangeJobs(s.jobs, change))
  }

  function Run(cat: Catalogue, s: System, events: seq<Event>): System
    decreases |events|
  {
    if events == [] then s else Run(cat, Next(cat, s, events[0]), events[1..])
  }

  /** Nothing has been reconciled yet. */
  ghost predicate Initial(s: System) {
    && s.jobs == map[] && s.owners == map[]
    && (forall d | d in s.deployments :: s.deployments[d].status == Status(map[], map[], false))
    && (forall n | n in s.nodeSets :: s.nodeSets[n].conditions == map[])
  }

  // ---------- the invariant ----------

  ghost predicate DeploymentOk(cat: Catalogue, s: System, d: string)
    requires d in s.deployments
  {
    && JobsInOrder(cat, d, s.deployments[d].spec, s.nodeSets, s.jobs)
    && StatusMeaning(cat, d, s.deployments[d].spec, s.nodeSets, s.jobs, s.deployments[d].status)
    && ServicesChecked(cat, d, s.deployments[d].spec, s.nodeSets, s.jobs)
  }

  ghost predicate Invariant(cat: Catalogue, s: System) {
    && Keyed(cat, s.jobs)
    && (forall n | n in s.jobs :: s.jobs[n].labels.deployment in s.deployments)
    && (forall d | d in s.deployments :: DeploymentOk(cat, s, d))
    && (forall n | n in s.nodeSets && IsTrue(s.nodeSets[n].conditions, SetupReadyCondition) ::
          SetUp(s.nodeSets[n], s.nodeSets[n].conditions))
  }

  /** The same nodesets, with other conditions. */
  ghost predicate SameSpecs(nodeSets: NodeSets, nodeSets': NodeSets) {
    && nodeSets'.Keys == nodeSets.Keys
    && forall n | n in nodeSets :: nodeSets'[n] == nodeSets[n].(conditions := nodeSets'[n].conditions)
  }

  lemma ConditionsDoNotMatter(cat: Catalogue, d: string, spec: DeploymentSpec, nodeSets: NodeSets, nodeSets': NodeSets,
                              jobs: JobStore, st: Status)
    requires SameSpecs(nodeSets, nodeSets')
    ensures JobsInOrder(cat, d, spec, nodeSets, jobs) ==> JobsInOrder(cat, d, spec, nodeSets', jobs)
    ensures StatusMeaning(cat, d, spec, nodeSets, jobs, st) ==> StatusMeaning(cat, d, spec, nodeSets', jobs, st)
    ensures ServicesChecked(cat, d, spec, nodeSets, jobs) ==> ServicesChecked(cat, d, spec, nodeSets', jobs)
  {
    hide InOrder, OnlyListed, AllDone, Consistent, Usable, CertSourcesKnown;
    assert forall k :: Known(spec, nodeSets', k) <==> Known(spec, nodeSets, k);
    assert forall k | Known(spec, nodeSets, k) ::
        TargetAt(cat, d, spec, nodeSets', k) == TargetAt(cat, d, spec, nodeSets, k)
          && ServicesAt(spec, nodeSets', k) == ServicesAt(spec, nodeSets, k);
    if AllKnown(spec, nodeSets) {
      assert ServiceLists(spec.nodeSets, nodeSets') == ServiceLists(spec.nodeSets, nodeSets);
    }
  }

  /** Changes of job statuses, and jobs of other deployments, do not disturb a deployment. */
  lemma OrderFollowsOwnJobs(cat: Catalogue, d: string, spec: DeploymentSpec, nodeSets: NodeSets, jobs: JobStore,
                            jobs': JobStore, st: Status)
    requires Keyed(cat, jobs')
    requires forall n | n in jobs ::
        n in jobs' && jobs'[n].labels == jobs[n].labels && (jobs[n].status.Succeeded? ==> jobs'[n].status.Succeeded?)
    requires forall n | n in jobs' && jobs'[n].labels.deployment == d :: n in jobs
    ensures JobsInOrder(cat, d, spec, nodeSets, jobs) ==> JobsInOrder(cat, d, spec, nodeSets, jobs')
    ensures StatusMeaning(cat, d, spec, nodeSets, jobs, st) ==> StatusMeaning(cat, d, spec, nodeSets, jobs', st)
    ensures ServicesChecked(cat, d, spec, nodeSets, jobs) ==> ServicesChecked(cat, d, spec, nodeSets, jobs')
  {
    hide Listed, Consistent;
    forall k | Known(spec, nodeSets, k)
      ensures NodeSetInOrder(cat, d, spec, nodeSets, jobs, k) ==> NodeSetInOrder(cat, d, spec, nodeSets, jobs', k)
      ensures NodeSetDone(cat, d, spec, nodeSets, jobs, k) ==> NodeSetDone(cat, d, spec, nodeSets, jobs', k)
    {
      TargetFollowsOwnJobs(cat, TargetAt(cat, d, spec, nodeSets, k), ServicesAt(spec, nodeSets, k), jobs, jobs');
    }
    hide NodeSetInOrder, NodeSetDone;
  }

  lemma TargetFollowsOwnJobs(cat: Catalogue, t: Target, services: seq<string>, jobs: JobStore, jobs': JobStore)
    requires forall n | n in jobs ::
        n in jobs' && jobs'[n].labels == jobs[n].labels && (jobs[n].status.Succeeded? ==> jobs'[n].status.Succeeded?)
    requires forall n | n in jobs' && jobs'[n].labels.deployment == t.deployment :: n in jobs
    ensures InOrder(cat, t, services, jobs) ==> InOrder(cat, t, services, jobs')
    ensures OnlyListed(cat, t, services, jobs) ==> OnlyListed(cat, t, services, jobs')
    ensures AllDone(cat, t, services, 0, jobs) ==> AllDone(cat, t, services, 0, jobs')
  {
    hide First;
    assert forall s :: HasJobFor(cat, t, jobs', s) ==> HasJobFor(cat, t, jobs, s);
    assert forall s :: DoneFor(cat, t, jobs, s) ==> DoneFor(cat, t, jobs', s);
  }

  lemma InitialInvariant(cat: Catalogue, s: System)
    requires Initial(s)
    ensures Invariant(cat, s)
  {
  }

  lemma DeploymentStepKeeps(cat: Catalogue, s: System, d: string, env: Env)
    requires Invariant(cat, s) && MirrorIsSound(cat.mirror) && d in s.deployments
    ensures Invariant(cat, Next(cat, s, DeploymentReconciled(d, env)))
  {
    hide Reconcile, SetUp, JobsInOrder, StatusMeaning, ServicesChecked;
    assert DeploymentOk(cat, s, d);
    ReconcileKeeps(cat, d, s.deployments[d], s.nodeSets, s.jobs, env);
    var s' := Next(cat, s, DeploymentReconciled(d, env));
    assert Keyed(cat, s'.jobs) by { KeyedFromOrder(cat, d, s.deployments[d].spec, s.nodeSets, s'.jobs); }
    forall d' | d' in s'.deployments
      ensures DeploymentOk(cat, s', d')
    {
      if d' != d {
        assert DeploymentOk(cat, s, d');
        OrderFollowsOwnJobs(cat, d', s.deployments[d'].spec, s.nodeSets, s.jobs, s'.jobs, s.deployments[d'].status);
      }
    }
  }

  lemma KeyedFromOrder(cat: Catalogue, d: string, spec: DeploymentSpec, nodeSets: NodeSets, jobs: JobStore)
    requires JobsInOrder(cat, d, spec, nodeSets, jobs)
    ensures Keyed(cat, jobs)
  {
  }

  lemma NodeSetReconcileEffect(ns: NodeSet, env: NodeSetEnv, mirror: Conditions -> Condition)
    ensures var ns' := ReconcileNodeSet(ns, env, mirror);
            && ns' == ns.(conditions := ns'.conditions)
            && (ns'.conditions == ns.conditions || (IsTrue(ns'.conditions, SetupReadyCondition)
               ==> SetUp(ns', ns'.conditions)))
  {
    hide NodeSetFlow;
    SetupReadyMeansSetUp(ns, env);
  }

  lemma NodeSetStepKeeps(cat: Catalogue, s: System, n: string, env: NodeSetEnv)
    requires Invariant(cat, s) && n in s.nodeSets
    ensures Invariant(cat, Next(cat, s, NodeSetReconciled(n, env)))
  {
    hide JobsInOrder, StatusMeaning, ServicesChecked, ReconcileNodeSet;
    NodeSetReconcileEffect(s.nodeSets[n], Actual(n, s.nodeSets[n], s.owners, cat.objectName, env), cat.mirror);
    hide Actual, OwnersAfter;
    var s' := Next(cat, s, NodeSetReconciled(n, env));
    forall d | d in s'.deployments
      ensures DeploymentOk(cat, s', d)
    {
      assert DeploymentOk(cat, s, d);
      ConditionsDoNotMatter(cat, d, s.deployments[d].spec, s.nodeSets, s'.nodeSets, s.jobs, s.deployments[d].status);
    }
  }

  lemma JobStepKeeps(cat: Catalogue, s: System, change: string -> JobStatus)
    requires Invariant(cat, s)
    ensures Invariant(cat, Next(cat, s, JobsChanged(change)))
  {
    hide JobsInOrder, StatusMeaning, ServicesChecked, SetUp;
    var s' := Next(cat, s, JobsChanged(change));
    forall d | d in s'.deployments
      ensures DeploymentOk(cat, s', d)
    {
      assert DeploymentOk(cat, s, d);
      OrderFollowsOwnJobs(cat, d, s.deployments[d].spec, s.nodeSets, s.jobs, s'.jobs, s.deployments[d].status);
    }
  }

  lemma StepKeeps(cat: Catalogue, s: System, e: Event)
    requires Invariant(cat, s) && MirrorIsSound(cat.mirror)
    ensures Invariant(cat, Next(cat, s, e))
  {
    hide Invariant;
    match e
    case DeploymentReconciled(d, env) =>
      if d in s.deployments { DeploymentStepKeeps(cat, s, d, env); }
    case NodeSetReconciled(n, env) =>
      if n in s.nodeSets { NodeSetStepKeeps(cat, s, n, env); }
    case JobsChanged(change) =>
      JobStepKeeps(cat, s, change);
  }

  lemma {:induction false} RunKeeps(cat: Catalogue, s: System, events: seq<Event>)
    requires Invariant(cat, s) && MirrorIsSound(cat.mirror)
    ensures Invariant(cat, Run(cat, s, events))
    decreases |events|
  {
    hide Invariant, Next;
    if events != [] {
      StepKeeps(cat, s, events[0]);
      RunKeeps(cat, Next(cat, s, events[0]), events[1..]);
    }
  }
}
