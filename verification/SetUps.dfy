/**
 What it takes to set up nodesets: which can be set up at all, in the presence of each other,
 and what a deployment that is done has seen of them.
 */
module SetUps {
  import opened Conditions
  import opened AnsibleExecutions
  import opened Deployers
  import opened NodeSetControllers
  import opened CheckDeployments
  import opened DeploymentControllers
  import opened ReconcileOrder
  import opened Protocol
  import opened Liveness

  // ---------- what no event changes ----------

  /** The deployments and the nodesets of a system, without what their reconciles write. */
  ghost predicate SameObjects(s: System, s': System) {
    && s'.deployments.Keys == s.deployments.Keys
    && (forall d | d in s.deployments :: s'.deployments[d].spec == s.deployments[d].spec)
    && SameSpecs(s.nodeSets, s'.nodeSets)
  }

  lemma StepKeepsObjects(cat: Catalogue, s: System, e: Event)
    ensures SameObjects(s, Next(cat, s, e))
  {
    hide Reconcile, ReconcileNodeSet;
    match e
    case NodeSetReconciled(n, env) =>
      if n in s.nodeSets {
        NodeSetReconcileEffect(s.nodeSets[n], Actual(n, s.nodeSets[n], s.owners, cat.objectName, env), cat.mirror);
      }
    case _ =>
  }

  lemma {:induction false} RunKeepsObjects(cat: Catalogue, s: System, events: seq<Event>)
    ensures SameObjects(s, Run(cat, s, events))
    decreases |events|
  {
    hide Next;
    if events != [] {
      StepKeepsObjects(cat, s, events[0]);
      RunKeepsObjects(cat, Next(cat, s, events[0]), events[1..]);
    }
  }

  // ---------- the owners of IP sets ----------

  ghost predicate SetupReadyIn(s: System, n: string) {
    n in s.nodeSets && IsTrue(s.nodeSets[n].conditions, SetupReadyCondition)
  }

  ghost predicate KeepsOwners(owners: Owners, owners': Owners) {
    forall h | h in owners :: h in owners' && owners'[h] == owners[h]
  }

  /** A nodeset that ends its setup could be set up, and owns the IP sets of all its hosts. */
  lemma SetupReadyOwns(name: string, ns: NodeSet, owners: Owners, objectName: string -> bool, env: NodeSetEnv)
    requires IsTrue(NodeSetFlow(ns, Actual(name, ns, owners, objectName, env)), SetupReadyCondition)
    ensures CanBeSetUp(ns, objectName) && OwnsHosts(name, ns, OwnersAfter(name, ns, owners, objectName, env))
  {
    hide NodeSetFlow;
    SetupReadyMeansSetUp(ns, Actual(name, ns, owners, objectName, env));
    assert CanReserveAll(name, ns, owners, objectName);
    forall n | n in ns.nodes
      ensures var h := ns.nodes[n].hostName; objectName(h) && (h in owners ==> owners[h] == name)
    {
      assert !RefusedFor(name, owners, objectName)(ns.nodes[n].hostName);
    }
  }

  /** The nodeset at `k` can pass the gates and owns its hosts. */
  ghost predicate PassedAt(cat: Catalogue, s: System, spec: DeploymentSpec, k: int)
    requires Known(spec, s.nodeSets, k)
  {
    var name := spec.nodeSets[k];
    GatePassable(cat, spec, s.nodeSets, k) && OwnsHosts(name, s.nodeSets[name], s.owners)
  }

  ghost predicate PassedGates(cat: Catalogue, s: System, d: string)
    requires d in s.deployments
  {
    cat.validName(d)
    && forall k | Known(s.deployments[d].spec, s.nodeSets, k) :: PassedAt(cat, s, s.deployments[d].spec, k)
  }

  ghost predicate NodeSetUpRightly(cat: Catalogue, s: System, n: string)
    requires n in s.nodeSets
  {
    CanBeSetUp(s.nodeSets[n], cat.objectName) && OwnsHosts(n, s.nodeSets[n], s.owners)
  }

  /** Who is set up could be set up and owns its hosts, and who is done has passed its gates. */
  ghost predicate SetUpRightly(cat: Catalogue, s: System) {
    && (forall n | SetupReadyIn(s, n) :: NodeSetUpRightly(cat, s, n))
    && (forall d | d in s.deployments && s.deployments[d].status.deployed :: PassedGates(cat, s, d))
  }

  /** More owners, and other conditions, take nothing back. */
  lemma PassedGatesKept(cat: Catalogue, s: System, s': System, d: string)
    requires d in s.deployments && d in s'.deployments && PassedGates(cat, s, d)
    requires s'.deployments[d].spec == s.deployments[d].spec && SameSpecs(s.nodeSets, s'.nodeSets)
             && KeepsOwners(s.owners, s'.owners)
    ensures PassedGates(cat, s', d)
  {
    hide CanBeSetUp, CertsPossible, HostsOf;
    var spec := s.deployments[d].spec;
    forall k | Known(spec, s'.nodeSets, k)
      ensures PassedAt(cat, s', spec, k)
    {
      assert Known(spec, s.nodeSets, k) && PassedAt(cat, s, spec, k);
      SpecsKeepPassable(cat, spec, s.nodeSets, s'.nodeSets, k);
      SpecsKeepHosts(s.nodeSets, s'.nodeSets, spec.nodeSets[k]);
    }
  }

  lemma SpecsKeepPassable(cat: Catalogue, spec: DeploymentSpec, nodeSets: NodeSets, nodeSets': NodeSets, k: int)
    requires SameSpecs(nodeSets, nodeSets') && Known(spec, nodeSets, k) && GatePassable(cat, spec, nodeSets, k)
    ensures Known(spec, nodeSets', k) && GatePassable(cat, spec, nodeSets', k)
  {
  }

  lemma SpecsKeepHosts(nodeSets: NodeSets, nodeSets': NodeSets, n: string)
    requires SameSpecs(nodeSets, nodeSets') && n in nodeSets
    ensures n in nodeSets' && HostsOf(nodeSets'[n]) == HostsOf(nodeSets[n])
  {
  }

  lemma NodeSetStepSetsUpRightly(cat: Catalogue, s: System, n: string, env: NodeSetEnv)
    requires SetUpRightly(cat, s) && n in s.nodeSets
    ensures SetUpRightly(cat, Next(cat, s, NodeSetReconciled(n, env)))
  {
    var s' := Next(cat, s, NodeSetReconciled(n, env));
    hide NodeSetFlow, CanBeSetUp, PassedGates, Summarize;
    StepKeepsObjects(cat, s, NodeSetReconciled(n, env));
    assert KeepsOwners(s.owners, s'.owners);
    hide OwnersAfter;
    forall m | SetupReadyIn(s', m)
      ensures NodeSetUpRightly(cat, s', m)
    {
      SpecsKeepHosts(s.nodeSets, s'.nodeSets, m);
      if m == n && env.statusWritten {
        SummaryKeepsSetupReady(NodeSetFlow(s.nodeSets[n], Actual(n, s.nodeSets[n], s.owners, cat.objectName, env)),
          cat.mirror);
        SetupReadyOwns(n, s.nodeSets[n], s.owners, cat.objectName, env);
        SpecsKeepCanBeSetUp(s.nodeSets, s'.nodeSets, n, cat.objectName);
      } else {
        assert SetupReadyIn(s, m);
        SpecsKeepCanBeSetUp(s.nodeSets, s'.nodeSets, m, cat.objectName);
      }
    }
    forall d | d in s'.deployments && s'.deployments[d].status.deployed
      ensures PassedGates(cat, s', d)
    {
      PassedGatesKept(cat, s, s', d);
    }
  }

  lemma SpecsKeepCanBeSetUp(nodeSets: NodeSets, nodeSets': NodeSets, n: string, objectName: string -> bool)
    requires SameSpecs(nodeSets, nodeSets') && n in nodeSets
    ensures n in nodeSets' && (CanBeSetUp(nodeSets'[n], objectName) <==> CanBeSetUp(nodeSets[n], objectName))
  {
  }

  lemma SummaryKeepsSetupReady(cs: Conditions, mirror: Conditions -> Condition)
    ensures IsTrue(Summarize(cs, mirror), SetupReadyCondition) <==> IsTrue(cs, SetupReadyCondition)
  {
  }

  /** A reconcile that makes a deployment Deployed has passed the gates. */
  lemma DeployedThroughGates(cat: Catalogue, d: string, dep: Deployment, nodeSets: NodeSets, jobs: JobStore, env: Env)
    requires !dep.status.deployed && Reconcile(cat, d, dep, nodeSets, jobs, env).status.deployed
    ensures cat.validName(d) && Gates(cat, dep.spec, nodeSets, env).Open?
  {
    hide Gates, DeployNodeSetsFrom, Conclude, Summarize;
    if Gates(cat, dep.spec, nodeSets, env).Shut? {
      ShutStatus(cat, dep.spec, nodeSets, env);
    }
  }

  lemma DeploymentStepSetsUpRightly(cat: Catalogue, s: System, d: string, env: Env)
    requires SetUpRightly(cat, s) && d in s.deployments
    ensures SetUpRightly(cat, Next(cat, s, DeploymentReconciled(d, env)))
  {
    var s' := Next(cat, s, DeploymentReconciled(d, env));
    var dep := s.deployments[d];
    hide Reconcile, CanBeSetUp, OwnsHosts, CertsPossible, Gates;
    if s'.deployments[d].status.deployed && !dep.status.deployed {
      DeployedThroughGates(cat, d, dep, s.nodeSets, s.jobs, env);
      GatesOpenIff(cat, dep.spec, s.nodeSets, env);
      forall k | Known(dep.spec, s.nodeSets, k)
        ensures PassedAt(cat, s, dep.spec, k)
      {
        assert SetupReadyIn(s, dep.spec.nodeSets[k]);
        assert CertsDone(cat, dep.spec, s.nodeSets[dep.spec.nodeSets[k]], env.tls(k));
      }
      assert PassedGates(cat, s, d);
    }
    forall d' | d' in s'.deployments && s'.deployments[d'].status.deployed
      ensures PassedGates(cat, s', d')
    {
      PassedGatesKept(cat, s, s', d');
    }
    forall n | SetupReadyIn(s', n)
      ensures NodeSetUpRightly(cat, s', n)
    {
      assert SetupReadyIn(s, n);
    }
  }

  lemma JobStepSetsUpRightly(cat: Catalogue, s: System, change: string -> JobStatus)
    requires SetUpRightly(cat, s)
    ensures SetUpRightly(cat, Next(cat, s, JobsChanged(change)))
  {
    var s' := Next(cat, s, JobsChanged(change));
    hide GatePassable, CanBeSetUp, OwnsHosts;
    assert forall n | SetupReadyIn(s', n) :: SetupReadyIn(s, n) && NodeSetUpRightly(cat, s, n);
    forall d | d in s'.deployments && s'.deployments[d].status.deployed
      ensures PassedGates(cat, s', d)
    {
      PassedGatesKept(cat, s, s', d);
    }
  }

  lemma {:induction false} RunSetsUpRightly(cat: Catalogue, s: System, events: seq<Event>)
    requires SetUpRightly(cat, s)
    ensures SetUpRightly(cat, Run(cat, s, events))
    decreases |events|
  {
    hide SetUpRightly, Reconcile, ReconcileNodeSet, OwnersAfter, ChangeJobs;
    if events != [] {
      match events[0] {
        case DeploymentReconciled(d, env) =>
          if d in s.deployments { DeploymentStepSetsUpRightly(cat, s, d, env); }
        case NodeSetReconciled(n, env) =>
          if n in s.nodeSets { NodeSetStepSetsUpRightly(cat, s, n, env); }
        case JobsChanged(change) =>
          JobStepSetsUpRightly(cat, s, change);
      }
      RunSetsUpRightly(cat, Next(cat, s, events[0]), events[1..]);
    }
  }

  lemma InitiallySetUpRightly(cat: Catalogue, s: System)
    requires Initial(s)
    ensures SetUpRightly(cat, s)
  {
  }

  /** In every reachable state, a nodeset that is set up can reserve for all its nodes, has
      baremetal hosts unless its nodes are provisioned beforehand, and shares no host with
      another one that is set up. */
  lemma SetUpNodeSetsOwnTheirHosts(cat: Catalogue, s0: System, events: seq<Event>, n: string, m: string)
    requires Initial(s0)
    requires var s := Run(cat, s0, events); SetupReadyIn(s, n) && SetupReadyIn(s, m)
    ensures var s := Run(cat, s0, events);
            && CanBeSetUp(s.nodeSets[n], cat.objectName) && OwnsHosts(n, s.nodeSets[n], s.owners)
            && (n != m ==> HostsOf(s.nodeSets[n]) !! HostsOf(s.nodeSets[m]))
  {
    hide CanBeSetUp, HostsOf, Run;
    InitiallySetUpRightly(cat, s0);
    RunSetsUpRightly(cat, s0, events);
    var s := Run(cat, s0, events);
    assert NodeSetUpRightly(cat, s, n) && NodeSetUpRightly(cat, s, m);
  }

  /** A deployment that is done could pass its gates. */
  lemma DonePassedGates(cat: Catalogue, s0: System, events: seq<Event>, d: string)
    requires Initial(s0)
    requires var s := Run(cat, s0, events); d in s.deployments && s.deployments[d].status.deployed
    ensures var s := Run(cat, s0, events); GatesPassable(cat, d, s.deployments[d].spec, s.nodeSets)
  {
    hide GatePassable, HostsOf, Run;
    InitiallySetUpRightly(cat, s0);
    RunSetsUpRightly(cat, s0, events);
    var s := Run(cat, s0, events);
    var spec := s.deployments[d].spec;
    assert PassedGates(cat, s, d);
    forall k, k' | Known(spec, s.nodeSets, k) && Known(spec, s.nodeSets, k') && spec.nodeSets[k] != spec.nodeSets[k']
      ensures HostsOf(s.nodeSets[spec.nodeSets[k]]) !! HostsOf(s.nodeSets[spec.nodeSets[k']])
    {
      assert PassedAt(cat, s, spec, k) && PassedAt(cat, s, spec, k');
    }
  }

  // ---------- setting up the nodesets ----------

  const GOOD_NODESET_ENV :=
    NodeSetEnv(true, true, (h: string) => true, StepDone, StepDone, StepDone, StepDone, StepDone, true, StepDone, true,
      Flags(false, false, false), true, true)

  function SetUpEvents(names: seq<string>): seq<Event> {
    if names == [] then [] else [NodeSetReconciled(names[0], GOOD_NODESET_ENV)] + SetUpEvents(names[1..])
  }

  /** No host of the nodeset belongs to another one. */
  ghost predicate HostsFree(name: string, ns: NodeSet, owners: Owners) {
    forall h | h in HostsOf(ns) && h in owners :: owners[h] == name
  }

  lemma GoodNodeSetReconcile(cat: Catalogue, s: System, n: string)
    requires n in s.nodeSets && CanBeSetUp(s.nodeSets[n], cat.objectName) && HostsFree(n, s.nodeSets[n], s.owners)
    ensures SetupReadyIn(Next(cat, s, NodeSetReconciled(n, GOOD_NODESET_ENV)), n)
  {
    hide NodeSetFlow, Summarize;
    var ns := s.nodeSets[n];
    var actual := Actual(n, ns, s.owners, cat.objectName, GOOD_NODESET_ENV);
    assert forall m | m in ns.nodes :: ns.nodes[m].hostName in HostsOf(ns);
    SetupReadyMeansSetUp(ns, actual);
    SummaryKeepsSetupReady(NodeSetFlow(ns, actual), cat.mirror);
  }

  /** The nodesets can all be set up, next to each other. */
  ghost predicate CanSetUpAll(cat: Catalogue, s: System, names: seq<string>) {
    && (forall n | n in names ::
          && n in s.nodeSets && CanBeSetUp(s.nodeSets[n], cat.objectName)
          && HostsFree(n, s.nodeSets[n], s.owners))
    && (forall n, m | n in names && m in names && n != m && n in s.nodeSets && m in s.nodeSets ::
          HostsOf(s.nodeSets[n]) !! HostsOf(s.nodeSets[m]))
  }

  /** The owners after setting up one nodeset: they are the old ones, and the nodeset itself for
      its own hosts. */
  lemma OneOwnerMore(cat: Catalogue, s: System, n: string, h: string)
    requires n in s.nodeSets
    ensures var s' := Next(cat, s, NodeSetReconciled(n, GOOD_NODESET_ENV));
            h in s'.owners ==> (h in s.owners && s'.owners[h] == s.owners[h])
                               || (h in HostsOf(s.nodeSets[n]) && s'.owners[h] == n)
  {
    hide HostsOf, ReconcileNodeSet, IPsOf;
  }

  lemma HostsStayFree(cat: Catalogue, s: System, n: string, m: string)
    requires n in s.nodeSets && m in s.nodeSets && HostsFree(m, s.nodeSets[m], s.owners)
    requires n == m || HostsOf(s.nodeSets[n]) !! HostsOf(s.nodeSets[m])
    ensures var s' := Next(cat, s, NodeSetReconciled(n, GOOD_NODESET_ENV));
            m in s'.nodeSets && HostsFree(m, s'.nodeSets[m], s'.owners)
            && HostsOf(s'.nodeSets[m]) == HostsOf(s.nodeSets[m])
            && (CanBeSetUp(s'.nodeSets[m], cat.objectName) <==> CanBeSetUp(s.nodeSets[m], cat.objectName))
  {
    var s' := Next(cat, s, NodeSetReconciled(n, GOOD_NODESET_ENV));
    StepKeepsObjects(cat, s, NodeSetReconciled(n, GOOD_NODESET_ENV));
    hide ReconcileNodeSet, OwnersAfter, CanBeSetUp, HostsOf, Next;
    SpecsKeepHosts(s.nodeSets, s'.nodeSets, m);
    SpecsKeepCanBeSetUp(s.nodeSets, s'.nodeSets, m, cat.objectName);
    forall h | h in HostsOf(s'.nodeSets[m]) && h in s'.owners
      ensures s'.owners[h] == m
    {
      OneOwnerMore(cat, s, n, h);
    }
  }

  lemma SetUpOneOf(cat: Catalogue, s: System, names: seq<string>)
    requires names != [] && CanSetUpAll(cat, s, names)
    ensures var s' := Next(cat, s, NodeSetReconciled(names[0], GOOD_NODESET_ENV));
            && CanSetUpAll(cat, s', names[1..]) && SetupReadyIn(s', names[0])
            && (forall n | SetupReadyIn(s, n) :: SetupReadyIn(s', n))
            && s'.jobs == s.jobs && s'.deployments == s.deployments
  {
    GoodNodeSetReconcile(cat, s, names[0]);
    hide ReconcileNodeSet, CanBeSetUp, HostsOf, HostsFree, OwnersAfter, Actual;
    var s' := Next(cat, s, NodeSetReconciled(names[0], GOOD_NODESET_ENV));
    forall n | n in names[1..]
      ensures n in s'.nodeSets && CanBeSetUp(s'.nodeSets[n], cat.objectName) && HostsFree(n, s'.nodeSets[n], s'.owners)
      ensures HostsOf(s'.nodeSets[n]) == HostsOf(s.nodeSets[n])
    {
      HostsStayFree(cat, s, names[0], n);
    }
  }

  lemma {:induction false} SetUpEventsSetUp(cat: Catalogue, s: System, names: seq<string>)
    requires CanSetUpAll(cat, s, names)
    ensures var s' := Run(cat, s, SetUpEvents(names));
            && s'.jobs == s.jobs && s'.deployments == s.deployments
            && (forall n | n in names || SetupReadyIn(s, n) :: SetupReadyIn(s', n))
    decreases |names|
  {
    hide Next, CanSetUpAll, SetupReadyIn;
    if names != [] {
      var e := NodeSetReconciled(names[0], GOOD_NODESET_ENV);
      assert SetUpEvents(names)[1..] == SetUpEvents(names[1..]);
      SetUpOneOf(cat, s, names);
      SetUpEventsSetUp(cat, Next(cat, s, e), names[1..]);
      assert forall n | n in names :: n == names[0] || n in names[1..];
    }
  }
}
