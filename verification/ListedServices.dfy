/**
 Which services a deployment runs: those of its override, unless that is empty, and else those of
 each nodeset; over all runs.
 */
module ListedServices {
  import opened Conditions
  import opened AnsibleExecutions
  import opened Services
  import opened Deployers
  import opened NodeSetControllers
  import opened DeploymentControllers
  import opened ServiceOrder
  import opened ServiceProgress
  import opened ReconcileOrder
  import opened Protocol
  import opened ProtocolTheorems
  import opened GateOutcomes

  lemma ListIsServicesFor(spec: DeploymentSpec, ns: NodeSet, services: seq<string>)
    ensures Lists(spec, ns, services) <==> services == ServicesFor(spec, ns)
  {
  }

  /** What a replay on a nodeset goes by: TLS and certificate sources are those of the services it runs. */
  lemma TargetIs(cat: Catalogue, d: string, spec: DeploymentSpec, name: string, ns: NodeSet, services: seq<string>)
    requires Lists(spec, ns, services)
    ensures var t := TargetFor(cat, d, spec, name, ns);
            && t.deployment == d && t.nodeSet == name && t.tlsEnabled == ns.tlsEnabled
            && (t.certSources <==> CertSourcesKnown(cat.services, services, ns.nodes != map[]))
  {
    hide CertSourcesKnown;
    ListIsServicesFor(spec, ns, services);
  }

  /** In every reachable state a job is for a service that its deployment runs on one of its nodesets. */
  lemma JobsAreForListedServices(cat: Catalogue, s0: System, events: seq<Event>, n: string) returns (k: int)
    requires Initial(s0) && MirrorIsSound(cat.mirror) && n in Run(cat, s0, events).jobs
    ensures var s := Run(cat, s0, events);
            var l := s.jobs[n].labels;
            && l.deployment in s.deployments
            && var spec := s.deployments[l.deployment].spec;
               && Known(spec, s.nodeSets, k) && spec.nodeSets[k] == l.nodeSet
               && forall services | Lists(spec, s.nodeSets[l.nodeSet], services) :: l.service in services
  {
    hide Run, Initial, MirrorIsSound, Lists;
    ReachableInvariant(cat, s0, events);
    var s := Run(cat, s0, events);
    var l := s.jobs[n].labels;
    k := JobIsListed(cat, s, n);
    hide Invariant;
    forall services | Lists(s.deployments[l.deployment].spec, s.nodeSets[l.nodeSet], services)
      ensures l.service in services
    {
      ListIsServicesFor(s.deployments[l.deployment].spec, s.nodeSets[l.nodeSet], services);
    }
  }

  /** The job of the service, or of an earlier one of the list with the same condition, has succeeded. */
  ghost predicate Succeeded(cat: Catalogue, d: string, nodeSet: string, services: seq<string>, jobs: JobStore, i: nat)
    requires i < |services|
  {
    exists j | 0 <= j <= i :: cat.serviceCondition(services[j]) == cat.serviceCondition(services[i])
                              && Done(cat.executionName, jobs, Labels(services[j], d, nodeSet))
  }

  /** In every reachable state all the services that a Deployed deployment runs have succeeded. */
  lemma DeployedRanItsServices(cat: Catalogue, s0: System, events: seq<Event>, d: string, k: int, services: seq<string>,
                               i: nat)
    requires Initial(s0) && MirrorIsSound(cat.mirror)
    requires var s := Run(cat, s0, events);
             && d in s.deployments && s.deployments[d].status.deployed && Known(s.deployments[d].spec, s.nodeSets, k)
             && Lists(s.deployments[d].spec, s.nodeSets[s.deployments[d].spec.nodeSets[k]], services)
    requires i < |services|
    ensures var s := Run(cat, s0, events);
            Succeeded(cat, d, s.deployments[d].spec.nodeSets[k], services, s.jobs, i)
  {
    hide Run, Initial, MirrorIsSound, Lists;
    ReachableInvariant(cat, s0, events);
    var s := Run(cat, s0, events);
    var spec := s.deployments[d].spec;
    ListIsServicesFor(spec, s.nodeSets[spec.nodeSets[k]], services);
    assert DeploymentOk(cat, s, d) && NodeSetDone(cat, d, spec, s.nodeSets, s.jobs, k);
    assert AllDone(cat, TargetAt(cat, d, spec, s.nodeSets, k), services, 0, s.jobs);
    hide Invariant, NodeSetDone, DeploymentDone;
    var j := FirstOfItsType(cat, services, i);
    assert DoneFor(cat, TargetAt(cat, d, spec, s.nodeSets, k), s.jobs, services[j]);
  }

  lemma {:induction false} FirstOfItsType(cat: Catalogue, services: seq<string>, i: nat) returns (j: nat)
    requires i < |services|
    ensures j <= i && First(cat, services, j)
            && cat.serviceCondition(services[j]) == cat.serviceCondition(services[i])
  {
    j := i;
    if !First(cat, services, i) {
      var m :| 0 <= m < i && cat.ConditionTypeOf(services[m]) == cat.ConditionTypeOf(services[i]);
      j := FirstOfItsType(cat, services, m);
    }
  }
}
