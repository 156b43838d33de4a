/**
 What holds in every state the protocol can reach.
 */
module ProtocolTheorems {
  import opened Conditions
  import opened AnsibleExecutions
  import opened Services
  import opened Deployers
  import opened NodeSetControllers
  import opened DeploymentControllers
  import opened ServiceOrder
  import opened ServiceProgress
  import opened ReconcileOrder
  import opened Protocol

  lemma ReachableInvariant(cat: Catalogue, s0: System, events: seq<Event>)
    requires Initial(s0) && MirrorIsSound(cat.mirror)
    ensures Invariant(cat, Run(cat, s0, events))
  {
    hide Invariant;
    InitialInvariant(cat, s0);
    RunKeeps(cat, s0, events);
  }

  // ---------- the jobs of a nodeset form a prefix of its services ----------

  /** The services without those whose condition type an earlier service already has. */
  ghost function Effective(cat: Catalogue, services: seq<string>): seq<string> {
    if services == [] then []
    else
      var n := |services| - 1;
      Effective(cat, services[..n]) + if First(cat, services, n) then [services[n]] else []
  }

  lemma {:induction false} EffectiveElements(cat: Catalogue, services: seq<string>, s: string)
    ensures s in Effective(cat, services) <==> Listed(cat, services, s)
  {
    if services != [] {
      var n := |services| - 1;
      var init := services[..n];
      EffectiveElements(cat, init, s);
      assert forall i | 0 <= i < n :: First(cat, init, i) <==> First(cat, services, i);
      assert forall i | 0 <= i < n :: init[i] == services[i];
      hide First;
      ListedOneMore(cat, services, s);
      hide Listed;
    }
  }

  lemma ListedOneMore(cat: Catalogue, services: seq<string>, s: string)
    requires services != []
    requires var n := |services| - 1;
             forall i | 0 <= i < n :: First(cat, services[..n], i) <==> First(cat, services, i)
    ensures var n := |services| - 1;
            Listed(cat, services, s) <==>
              Listed(cat, services[..n], s) || (First(cat, services, n) && services[n] == s)
  {
    hide First;
    var n := |services| - 1;
    var init := services[..n];
    if Listed(cat, services, s) && !(First(cat, services, n) && services[n] == s) {
      var i :| 0 <= i < |services| && First(cat, services, i) && services[i] == s;
      assert init[i] == s;
    }
    if Listed(cat, init, s) {
      var i :| 0 <= i < n && First(cat, init, i) && init[i] == s;
      assert services[i] == s;
    }
  }

  /** The first `k` effective services have a job, all of these but the last have succeeded,
      and no other service has one. */
  ghost predicate JobsArePrefix(cat: Catalogue, t: Target, services: seq<string>, jobs: JobStore, k: nat) {
    var e := Effective(cat, services);
    && k <= |e|
    && (forall i | 0 <= i < k :: HasJobFor(cat, t, jobs, e[i]))
    && (forall i | 0 <= i < k - 1 :: DoneFor(cat, t, jobs, e[i]))
    && (forall i | k <= i < |e| :: !HasJobFor(cat, t, jobs, e[i]))
  }

  /** When the last service is effective and has a job, all the effective ones before it have
      succeeded. */
  lemma EarlierDone(cat: Catalogue, t: Target, services: seq<string>, jobs: JobStore, e: seq<string>)
    requires services != [] && InOrder(cat, t, services, jobs)
    requires First(cat, services, |services| - 1) && HasJobFor(cat, t, jobs, services[|services| - 1])
    requires e == Effective(cat, services[..|services| - 1])
    ensures forall i | 0 <= i < |e| :: DoneFor(cat, t, jobs, e[i])
  {
    hide Effective, HasJobFor, DoneFor;
    var n := |services| - 1;
    var init := services[..n];
    forall i | 0 <= i < |e|
      ensures DoneFor(cat, t, jobs, e[i])
    {
      EffectiveElements(cat, init, e[i]);
      var j :| 0 <= j < n && First(cat, init, j) && init[j] == e[i];
      assert First(cat, services, j) && services[j] == e[i];
    }
  }

  lemma FirstOnPrefix(cat: Catalogue, services: seq<string>, n: nat)
    requires n <= |services|
    ensures forall i | 0 <= i < n :: First(cat, services[..n], i) <==> First(cat, services, i)
  {
  }

  lemma InOrderOnPrefix(cat: Catalogue, t: Target, services: seq<string>, jobs: JobStore, n: nat)
    requires n <= |services| && InOrder(cat, t, services, jobs)
    ensures InOrder(cat, t, services[..n], jobs)
  {
    hide HasJobFor, DoneFor;
    var init := services[..n];
    FirstOnPrefix(cat, services, n);
    hide First;
  }

  lemma {:induction false} InOrderIsPrefix(cat: Catalogue, t: Target, services: seq<string>,
                                           jobs: JobStore) returns (k: nat)
    requires InOrder(cat, t, services, jobs)
    ensures JobsArePrefix(cat, t, services, jobs, k)
  {
    if services == [] {
      k := 0;
    } else {
      var n := |services| - 1;
      InOrderOnPrefix(cat, t, services, jobs, n);
      k := InOrderIsPrefix(cat, t, services[..n], jobs);
      if First(cat, services, n) && HasJobFor(cat, t, jobs, services[n]) {
        var e := Effective(cat, services[..n]);
        EarlierDone(cat, t, services, jobs, e);
        assert k < |e| ==> HasJobFor(cat, t, jobs, e[k]);
        k := k + 1;
      }
    }
  }

  /** In every reachable state and for every nodeset of every deployment, the services that
      have a job are the first ones of the nodeset's effective list, and all of them but the
      last have succeeded. */
  lemma JobsFormPrefix(cat: Catalogue, s0: System, events: seq<Event>, d: string, k: int) returns (p: nat)
    requires Initial(s0) && MirrorIsSound(cat.mirror)
    requires d in Run(cat, s0, events).deployments
    requires Known(Run(cat, s0, events).deployments[d].spec, Run(cat, s0, events).nodeSets, k)
    ensures var s := Run(cat, s0, events);
            var t, services := TargetAt(cat, d, s.deployments[d].spec, s.nodeSets, k),
                ServicesAt(s.deployments[d].spec, s.nodeSets, k);
            && JobsArePrefix(cat, t, services, s.jobs, p)
            && (forall service :: HasJobFor(cat, t, s.jobs, service) ==> service in Effective(cat, services)[..p])
  {
    ReachableInvariant(cat, s0, events);
    var s := Run(cat, s0, events);
    assert DeploymentOk(cat, s, d);
    var t, services := TargetAt(cat, d, s.deployments[d].spec, s.nodeSets, k),
        ServicesAt(s.deployments[d].spec, s.nodeSets, k);
    assert NodeSetInOrder(cat, d, s.deployments[d].spec, s.nodeSets, s.jobs, k);
    p := InOrderIsPrefix(cat, t, services, s.jobs);
    OwnersAreEffective(cat, t, services, s.jobs, p);
  }

  lemma OwnersAreEffective(cat: Catalogue, t: Target, services: seq<string>, jobs: JobStore, p: nat)
    requires OnlyListed(cat, t, services, jobs) && JobsArePrefix(cat, t, services, jobs, p)
    ensures forall service :: HasJobFor(cat, t, jobs, service) ==> service in Effective(cat, services)[..p]
  {
    var e := Effective(cat, services);
    forall service | HasJobFor(cat, t, jobs, service)
      ensures service in e[..p]
    {
      EffectiveElements(cat, services, service);
      var i :| 0 <= i < |e| && e[i] == service;
      assert i < p;
      assert e[..p][i] == service;
    }
  }

  // ---------- one job per label triple ----------

  /** In every reachable state a label triple has at most one job, so that the lookup never
      answers "multiple", and unless the services are overridden a service deployed on all
      nodesets has at most one job in a deployment. */
  lemma OneJobPerService(cat: Catalogue, s0: System, events: seq<Event>)
    requires Initial(s0) && MirrorIsSound(cat.mirror)
    ensures var s := Run(cat, s0, events);
            && (forall l :: !GetAnsibleExecution(s.jobs, l).Multiple?)
            && (forall n, m | n in s.jobs && m in s.jobs && s.jobs[n].labels == s.jobs[m].labels :: n == m)
            && (forall n, m | n in s.jobs && m in s.jobs
                              && s.jobs[n].labels.deployment == s.jobs[m].labels.deployment
                              && s.jobs[n].labels.service == s.jobs[m].labels.service
                              && IsGlobal(cat.services, s.jobs[n].labels.service)
                              && s.jobs[n].labels.deployment in s.deployments
                              && s.deployments[s.jobs[n].labels.deployment].spec.servicesOverride.None? :: n == m)
  {
    ReachableInvariant(cat, s0, events);
    var s := Run(cat, s0, events);
    forall l
      ensures !GetAnsibleExecution(s.jobs, l).Multiple?
    {
      LookupIsExact(cat.executionName, s.jobs, l);
    }
    forall n, m | n in s.jobs && m in s.jobs
                  && s.jobs[n].labels.deployment == s.jobs[m].labels.deployment
                  && s.jobs[n].labels.service == s.jobs[m].labels.service
                  && IsGlobal(cat.services, s.jobs[n].labels.service)
                  && s.jobs[n].labels.deployment in s.deployments
                  && s.deployments[s.jobs[n].labels.deployment].spec.servicesOverride.None?
      ensures n == m
    {
      GlobalJobsCoincide(cat, s, n, m);
    }
  }

  /** The job under `n` is for a service listed for some nodeset of its deployment. */
  lemma JobIsListed(cat: Catalogue, s: System, n: string) returns (k: int)
    requires Invariant(cat, s) && n in s.jobs && s.jobs[n].labels.deployment in s.deployments
    ensures var l := s.jobs[n].labels;
            var spec := s.deployments[l.deployment].spec;
            Known(spec, s.nodeSets, k) && spec.nodeSets[k] == l.nodeSet && l.service in ServicesAt(spec, s.nodeSets, k)
  {
    hide Usable, Consistent, StatusMeaning, ServicesChecked, SetUp, InOrder, First;
    var l := s.jobs[n].labels;
    var spec := s.deployments[l.deployment].spec;
    assert DeploymentOk(cat, s, l.deployment);
    k :| 0 <= k < |spec.nodeSets| && spec.nodeSets[k] == l.nodeSet;
    assert Known(spec, s.nodeSets, k);
    assert NodeSetInOrder(cat, l.deployment, spec, s.nodeSets, s.jobs, k);
    assert Listed(cat, ServicesAt(spec, s.nodeSets, k), l.service);
  }

  lemma GlobalJobsCoincide(cat: Catalogue, s: System, n: string, m: string)
    requires Invariant(cat, s) && n in s.jobs && m in s.jobs
    requires s.jobs[n].labels.deployment == s.jobs[m].labels.deployment && s.jobs[n].labels.deployment in s.deployments
    requires s.jobs[n].labels.service == s.jobs[m].labels.service && IsGlobal(cat.services, s.jobs[n].labels.service)
    requires s.deployments[s.jobs[n].labels.deployment].spec.servicesOverride.None?
    ensures n == m
  {
    var d := s.jobs[n].labels.deployment;
    var spec := s.deployments[d].spec;
    assert DeploymentOk(cat, s, d);
    var k := JobIsListed(cat, s, n);
    var k' := JobIsListed(cat, s, m);
    hide Consistent;
    assert ServicesChecked(cat, d, spec, s.nodeSets, s.jobs);
    GlobalServiceInOneList(cat.services, ServiceLists(spec.nodeSets, s.nodeSets), ALL_READABLE, k, k',
      s.jobs[n].labels.service);
  }

  // ---------- Deployed ----------

  /** In every persisted status Deployed holds if and only if Ready is True, and it means
      that every service of every nodeset has succeeded. */
  lemma DeployedMeansDone(cat: Catalogue, s0: System, events: seq<Event>, d: string)
    requires Initial(s0) && MirrorIsSound(cat.mirror) && d in Run(cat, s0, events).deployments
    ensures var s := Run(cat, s0, events);
            var st := s.deployments[d].status;
            && (st.deployed <==> IsTrue(st.conditions, ReadyCondition))
            && (st.deployed ==>
                  forall k, i | Known(s.deployments[d].spec, s.nodeSets, k)
                                      && 0 <= i < |ServicesAt(s.deployments[d].spec, s.nodeSets, k)|
                                && First(cat, ServicesAt(s.deployments[d].spec, s.nodeSets, k), i) ::
                    DoneFor(cat, TargetAt(cat, d, s.deployments[d].spec, s.nodeSets, k), s.jobs,
                      ServicesAt(s.deployments[d].spec, s.nodeSets, k)[i]))
  {
    ReachableInvariant(cat, s0, events);
    var s := Run(cat, s0, events);
    assert DeploymentOk(cat, s, d);
    if s.deployments[d].status.deployed {
      forall k | Known(s.deployments[d].spec, s.nodeSets, k)
        ensures AllDone(cat, TargetAt(cat, d, s.deployments[d].spec, s.nodeSets, k),
                ServicesAt(s.deployments[d].spec, s.nodeSets, k), 0, s.jobs)
      {
        assert NodeSetDone(cat, d, s.deployments[d].spec, s.nodeSets, s.jobs, k);
      }
    }
  }

  /** The jobs of `d` are the same in both stores. */
  ghost predicate SameJobsOf(d: string, jobs: JobStore, jobs': JobStore) {
    forall n :: ((n in jobs && jobs[n].labels.deployment == d) || (n in jobs' && jobs'[n].labels.deployment == d)) ==>
                  n in jobs && n in jobs' && jobs[n] == jobs'[n]
  }

  lemma JobsOfDeployedSucceeded(cat: Catalogue, s: System, d: string)
    requires Invariant(cat, s) && d in s.deployments && s.deployments[d].status.deployed
    ensures forall n | n in s.jobs && s.jobs[n].labels.deployment == d :: s.jobs[n].status.Succeeded?
  {
    var spec := s.deployments[d].spec;
    assert DeploymentOk(cat, s, d);
    forall n | n in s.jobs && s.jobs[n].labels.deployment == d
      ensures s.jobs[n].status.Succeeded?
    {
      var l := s.jobs[n].labels;
      var k :| 0 <= k < |spec.nodeSets| && spec.nodeSets[k] == l.nodeSet;
      assert Known(spec, s.nodeSets, k);
      assert NodeSetInOrder(cat, d, spec, s.nodeSets, s.jobs, k) && NodeSetDone(cat, d, spec, s.nodeSets, s.jobs, k);
      assert Listed(cat, ServicesAt(spec, s.nodeSets, k), l.service);
      assert DoneFor(cat, TargetAt(cat, d, spec, s.nodeSets, k), s.jobs, l.service);
    }
  }

  lemma OthersKeepJobsOf(cat: Catalogue, s: System, d: string, d': string, env: Env)
    requires Invariant(cat, s) && MirrorIsSound(cat.mirror) && d' in s.deployments && d != d'
    ensures SameJobsOf(d, s.jobs, Next(cat, s, DeploymentReconciled(d', env)).jobs)
  {
    assert DeploymentOk(cat, s, d');
    hide Reconcile, JobsInOrder, StatusMeaning, ServicesChecked, SetUp;
    ReconcileKeeps(cat, d', s.deployments[d'], s.nodeSets, s.jobs, env);
  }

  lemma DeployedStepIsFinal(cat: Catalogue, s: System, e: Event, d: string)
    requires Invariant(cat, s) && MirrorIsSound(cat.mirror) && d in s.deployments && s.deployments[d].status.deployed
    ensures var s' := Next(cat, s, e);
            d in s'.deployments && s'.deployments[d] == s.deployments[d] && SameJobsOf(d, s.jobs, s'.jobs)
  {
    match e
    case DeploymentReconciled(d', env) =>
      hide Invariant;
      if d' in s.deployments && d' != d {
        hide Reconcile;
        OthersKeepJobsOf(cat, s, d, d', env);
      }
    case NodeSetReconciled(_, _) =>
    case JobsChanged(_) =>
      hide Invariant;
      JobsOfDeployedSucceeded(cat, s, d);
  }

  /** Deployed is final: whatever happens afterwards, the status of the deployment stays as it
      is and none of its jobs is created, patched or changed again. */
  lemma {:induction false} DeployedIsFinal(cat: Catalogue, s: System, events: seq<Event>, d: string)
    requires Invariant(cat, s) && MirrorIsSound(cat.mirror) && d in s.deployments && s.deployments[d].status.deployed
    ensures var s' := Run(cat, s, events);
            d in s'.deployments && s'.deployments[d] == s.deployments[d] && SameJobsOf(d, s.jobs, s'.jobs)
    decreases |events|
  {
    hide Invariant, Next, MirrorIsSound;
    if events != [] {
      DeployedStepIsFinal(cat, s, events[0], d);
      StepKeeps(cat, s, events[0]);
      DeployedIsFinal(cat, Next(cat, s, events[0]), events[1..], d);
    }
  }

  // ---------- the gates across the two controllers ----------

  /** Whenever a reconcile of a deployment creates or patches a job, each of its nodesets has
      its addresses reserved, its DNS data, its inputs and its service account in place and,
      unless it was provisioned beforehand, its baremetal nodes provisioned. */
  lemma JobsOnlyOnSetUpNodeSets(cat: Catalogue, s0: System, events: seq<Event>, d: string, env: Env)
    requires Initial(s0) && MirrorIsSound(cat.mirror)
    requires var s := Run(cat, s0, events); Next(cat, s, DeploymentReconciled(d, env)).jobs != s.jobs
    ensures var s := Run(cat, s0, events);
            && d in s.deployments && AllKnown(s.deployments[d].spec, s.nodeSets)
            && forall k | 0 <= k < |s.deployments[d].spec.nodeSets| ::
                 var ns := s.nodeSets[s.deployments[d].spec.nodeSets[k]];
                 SetUp(ns, ns.conditions) && (ns.tlsEnabled ==> env.tls(k).CertsReady?)
  {
    hide Reconcile;
    ReachableInvariant(cat, s0, events);
    var s := Run(cat, s0, events);
    JobsOnlyBehindGates(cat, d, s.deployments[d], s.nodeSets, s.jobs, env);
  }
}
