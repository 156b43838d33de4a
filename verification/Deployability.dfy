/**
 A deployment that nothing has touched yet can end with Deployed, in some run, if and only if
 it is deployable; in particular two services that meet in one execution name exclude it.
 */
module Deployability {
  import opened Conditions
  import opened AnsibleExecutions
  import opened Services
  import opened Deployers
  import opened NodeSetControllers
  import opened DeploymentControllers
  import opened ServiceOrder
  import opened ServiceProgress
  import opened ReconcileOrder
  import opened Protocol
  import opened ProtocolTheorems
  import opened Liveness
  import opened DeploymentProgress
  import opened SetUps

  // ---------- the condition speaks of specifications only ----------

  lemma DeployableFollowsSpecs(cat: Catalogue, d: string, spec: DeploymentSpec, nodeSets: NodeSets, nodeSets': NodeSets)
    requires SameSpecs(nodeSets, nodeSets') && Deployable(cat, d, spec, nodeSets)
    ensures Deployable(cat, d, spec, nodeSets')
  {
    hide Consistent, Listed, Usable, GatePassable, HostsOf;
    assert forall k :: Known(spec, nodeSets', k) <==> Known(spec, nodeSets, k);
    assert forall k | Known(spec, nodeSets, k) ::
        TargetAt(cat, d, spec, nodeSets', k) == TargetAt(cat, d, spec, nodeSets, k)
          && ServicesAt(spec, nodeSets', k) == ServicesAt(spec, nodeSets, k);
    assert ServiceLists(spec.nodeSets, nodeSets') == ServiceLists(spec.nodeSets, nodeSets);
    assert forall l :: OwnLabels(cat, d, spec, nodeSets', l) ==> OwnLabels(cat, d, spec, nodeSets, l);
    hide OwnLabels;
    GatesFollowSpecs(cat, d, spec, nodeSets, nodeSets');
  }

  lemma GatesFollowSpecs(cat: Catalogue, d: string, spec: DeploymentSpec, nodeSets: NodeSets, nodeSets': NodeSets)
    requires SameSpecs(nodeSets, nodeSets') && GatesPassable(cat, d, spec, nodeSets)
    ensures GatesPassable(cat, d, spec, nodeSets')
  {
    hide GatePassable, HostsOf;
    forall k | Known(spec, nodeSets', k)
      ensures Known(spec, nodeSets, k) && GatePassable(cat, spec, nodeSets', k)
      ensures HostsOf(nodeSets'[spec.nodeSets[k]]) == HostsOf(nodeSets[spec.nodeSets[k]])
    {
      SpecsKeepPassable(cat, spec, nodeSets, nodeSets', k);
      SpecsKeepHosts(nodeSets, nodeSets', spec.nodeSets[k]);
    }
  }

  // ---------- the characterization ----------

  /** The largest number of effective services of a nodeset, from nodeset `k` on. */
  ghost function MostServices(cat: Catalogue, spec: DeploymentSpec, nodeSets: NodeSets, k: nat): (n: nat)
    requires k <= |spec.nodeSets| && AllKnown(spec, nodeSets)
    ensures forall j | k <= j && Known(spec, nodeSets, j) :: |Effective(cat, ServicesAt(spec, nodeSets, j))| <= n
    decreases |spec.nodeSets| - k
  {
    if k == |spec.nodeSets| then 0
    else
      var rest := MostServices(cat, spec, nodeSets, k + 1);
      assert Known(spec, nodeSets, k);
      var here := |Effective(cat, ServicesAt(spec, nodeSets, k))|;
      if here > rest then here else rest
  }

  /** A run in which nothing goes wrong: the nodesets are set up, then rounds follow. */
  ghost function GoodRun(cat: Catalogue, s: System, d: string): seq<Event>
    requires d in s.deployments && AllKnown(s.deployments[d].spec, s.nodeSets)
  {
    var spec := s.deployments[d].spec;
    SetUpEvents(spec.nodeSets) + (Rounds(d, MostServices(cat, spec, s.nodeSets, 0))
      + [DeploymentReconciled(d, GOOD_ENV)])
  }

  lemma EveryNodeSetCanBeSetUp(cat: Catalogue, s: System, d: string)
    requires Initial(s) && d in s.deployments && Deployable(cat, d, s.deployments[d].spec, s.nodeSets)
    ensures CanSetUpAll(cat, s, s.deployments[d].spec.nodeSets)
  {
    hide OwnLabels, NamesApart, Consistent, CanBeSetUp, HostsOf, ServicesUsable, CertsPossible;
    var spec := s.deployments[d].spec;
    forall n | n in spec.nodeSets
      ensures n in s.nodeSets && CanBeSetUp(s.nodeSets[n], cat.objectName)
    {
      var k :| 0 <= k < |spec.nodeSets| && spec.nodeSets[k] == n;
      assert Known(spec, s.nodeSets, k);
      assert GatePassable(cat, spec, s.nodeSets, k);
    }
    forall n, m | n in spec.nodeSets && m in spec.nodeSets && n != m
      ensures HostsOf(s.nodeSets[n]) !! HostsOf(s.nodeSets[m])
    {
      var k, k' :| 0 <= k < |spec.nodeSets| && spec.nodeSets[k] == n
                                                   && 0 <= k' < |spec.nodeSets| && spec.nodeSets[k'] == m;
      assert Known(spec, s.nodeSets, k) && Known(spec, s.nodeSets, k');
    }
  }

  lemma SetUpSystemProgresses(cat: Catalogue, s: System, d: string)
    requires Initial(s) && MirrorIsSound(cat.mirror) && d in s.deployments
    requires Deployable(cat, d, s.deployments[d].spec, s.nodeSets)
    ensures var s1 := Run(cat, s, SetUpEvents(s.deployments[d].spec.nodeSets));
            Progressing(cat, s1, d) && s1.deployments == s.deployments && SameSpecs(s.nodeSets, s1.nodeSets)
  {
    hide Invariant, MirrorIsSound, OwnLabels, NamesApart, Consistent, CanBeSetUp, HostsOf, ServicesUsable,
      CertsPossible;
    var spec := s.deployments[d].spec;
    EveryNodeSetCanBeSetUp(cat, s, d);
    SetUpEventsSetUp(cat, s, spec.nodeSets);
    RunKeepsObjects(cat, s, SetUpEvents(spec.nodeSets));
    ReachableInvariant(cat, s, SetUpEvents(spec.nodeSets));
    var s1 := Run(cat, s, SetUpEvents(spec.nodeSets));
    DeployableFollowsSpecs(cat, d, spec, s.nodeSets, s1.nodeSets);
    assert forall k | 0 <= k < |spec.nodeSets| :: SetupReadyIn(s1, spec.nodeSets[k]);
  }

  lemma DeployableGetsDone(cat: Catalogue, s: System, d: string)
    requires Initial(s) && MirrorIsSound(cat.mirror) && d in s.deployments
    requires Deployable(cat, d, s.deployments[d].spec, s.nodeSets)
    ensures DeployedAfter(cat, s, GoodRun(cat, s, d), d)
  {
    hide Initial, Progressing, Deployable, MirrorIsSound, Effective, MostServices;
    var spec := s.deployments[d].spec;
    SetUpSystemProgresses(cat, s, d);
    assert AllKnown(spec, s.nodeSets) by { DeployableKnows(cat, d, spec, s.nodeSets); }
    var s1 := Run(cat, s, SetUpEvents(spec.nodeSets));
    var n := MostServices(cat, spec, s.nodeSets, 0);
    assert forall k | Known(spec, s1.nodeSets, k) :: Known(spec, s.nodeSets, k)
                            && ServicesAt(spec, s1.nodeSets, k) == ServicesAt(spec, s.nodeSets, k);
    DeployedWithinBound(cat, s1, d, n);
    RunAppend(cat, s, SetUpEvents(spec.nodeSets), Rounds(d, n) + [DeploymentReconciled(d, GOOD_ENV)]);
  }

  lemma DeployableKnows(cat: Catalogue, d: string, spec: DeploymentSpec, nodeSets: NodeSets)
    requires Deployable(cat, d, spec, nodeSets)
    ensures AllKnown(spec, nodeSets)
  {
  }

  ghost predicate DeployedAfter(cat: Catalogue, s: System, events: seq<Event>, d: string) {
    var s' := Run(cat, s, events);
    d in s'.deployments && s'.deployments[d].status.deployed
  }

  lemma DoneOnlyIfDeployable(cat: Catalogue, s: System, events: seq<Event>, d: string)
    requires Initial(s) && MirrorIsSound(cat.mirror) && d in s.deployments && DeployedAfter(cat, s, events, d)
    ensures Deployable(cat, d, s.deployments[d].spec, s.nodeSets)
  {
    hide Deployable, Run, MirrorIsSound, Initial;
    var s' := Run(cat, s, events);
    ReachableInvariant(cat, s, events);
    assert DeploymentOk(cat, s', d);
    RunKeepsObjects(cat, s, events);
    DonePassedGates(cat, s, events, d);
    DoneWasDeployable(cat, d, s.deployments[d].spec, s'.nodeSets, s'.jobs);
    DeployableFollowsSpecs(cat, d, s.deployments[d].spec, s'.nodeSets, s.nodeSets);
  }

  /** Some run of the system ends with the deployment Deployed if and only if its nodesets and
      services exist, its execution names stay apart and, unless it overrides its services, no
      global service is listed twice. */
  lemma DeployableIff(cat: Catalogue, s: System, d: string)
    requires Initial(s) && MirrorIsSound(cat.mirror) && d in s.deployments
    ensures (exists events :: DeployedAfter(cat, s, events, d))
            <==> Deployable(cat, d, s.deployments[d].spec, s.nodeSets)
  {
    hide Deployable, Initial, MirrorIsSound, DeployedAfter;
    if Deployable(cat, d, s.deployments[d].spec, s.nodeSets) {
      DeployableGetsDone(cat, s, d);
    }
    if events :| DeployedAfter(cat, s, events, d) {
      DoneOnlyIfDeployable(cat, s, events, d);
    }
  }

  // ---------- global services given through an override ----------

  /** With the operator's names, an override that lists a service deployed on all nodesets
      keeps a deployment of two nodesets from ever being Deployed: both need the one job. */
  lemma OverriddenGlobalServiceNeverDeploys(services: ServiceStore, camel: string -> string,
                                            mirror: Conditions -> Condition,
                                            s: System, events: seq<Event>, d: string, service: string)
    requires Initial(s) && MirrorIsSound(mirror) && d in s.deployments && IsGlobal(services, service)
    requires var spec := s.deployments[d].spec;
             && spec.servicesOverride.Some?
             && Listed(StandardCatalogue(services, camel, mirror), spec.servicesOverride.value, service)
             && exists k, k' | 0 <= k < k' < |spec.nodeSets| :: spec.nodeSets[k] != spec.nodeSets[k']
    ensures !DeployedAfter(StandardCatalogue(services, camel, mirror), s, events, d)
  {
    var cat := StandardCatalogue(services, camel, mirror);
    var spec := s.deployments[d].spec;
    hide Initial, MirrorIsSound, DeployedAfter;
    if DeployedAfter(cat, s, events, d) {
      DoneOnlyIfDeployable(cat, s, events, d);
      var k, k' :| 0 <= k < k' < |spec.nodeSets| && spec.nodeSets[k] != spec.nodeSets[k'];
      SharedName(services, Labels(service, d, spec.nodeSets[k]), Labels(service, d, spec.nodeSets[k']));
      OverriddenServiceOwned(cat, d, spec, s.nodeSets, k, service);
      OverriddenServiceOwned(cat, d, spec, s.nodeSets, k', service);
      assert false;
    }
  }

  lemma SharedName(services: ServiceStore, l: Labels, l': Labels)
    requires IsGlobal(services, l.service) && l' == l.(nodeSet := l'.nodeSet)
    ensures StandardNaming(Globals(services))(l) == StandardNaming(Globals(services))(l')
  {
  }

  lemma OverriddenServiceOwned(cat: Catalogue, d: string, spec: DeploymentSpec, nodeSets: NodeSets, k: nat,
                               service: string)
    requires AllKnown(spec, nodeSets) && k < |spec.nodeSets|
    requires spec.servicesOverride.Some? && Listed(cat, spec.servicesOverride.value, service)
    ensures OwnLabels(cat, d, spec, nodeSets, Labels(service, d, spec.nodeSets[k]))
  {
    assert Known(spec, nodeSets, k);
  }
}
