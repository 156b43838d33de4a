/**
 The deployment of one nodeset: its services are replayed from the start, in order, and the
 replay stops at the first one whose condition is not True (pkg/deployment/deployment.go).
 */
module Deployers {
  import opened Conditions
  import opened AnsibleExecutions
  import opened Services
  import opened ObjectNames

  /** What a deployment takes as given: the services of the cluster, how jobs and conditions
      are named, how conditions are mirrored, and which names are accepted: `validName` those
      of deployments, `objectName` those of IP sets, `admissible` the labels a new job can have
      together with the name that follows from them. */
  datatype Catalogue = Catalogue(services: ServiceStore, executionName: Naming,
                                 serviceCondition: string -> string, mirror: Conditions -> Condition,
                                 validName: string -> bool, objectName: string -> bool, admissible: Labels -> bool)
  {
    function ConditionTypeOf(service: string): ConditionType {
      ServiceCondition(serviceCondition(service))
    }

    /** A new job is refused unless its name and its labels are accepted. */
    function WriteOf(jobs: JobStore, l: Labels, w: Write): Write {
      if executionName(l) in jobs || admissible(l) then w else Refused
    }
  }

  /** The API server takes a job under its name and with its labels. */
  predicate JobAccepted(name: Naming, l: Labels) {
    IsObjectName(name(l)) && IsLabelValue(l.service) && IsLabelValue(l.deployment) && IsLabelValue(l.nodeSet)
  }

  /** The operator's catalogue, for a given camel-case conversion and mirroring. */
  function StandardCatalogue(services: ServiceStore, camel: string -> string,
                             mirror: Conditions -> Condition): Catalogue
  {
    Catalogue(services, StandardNaming(Globals(services)), s => "Service" + camel(s) + "DeploymentReady", mirror,
              s => IsRFC1123HostName(s), s => IsObjectName(s), l => JobAccepted(StandardNaming(Globals(services)), l))
  }

  /** The nodeset that a deployer works on; `certSources` tells whether the services that its
      certificate mounts need are there. */
  datatype Target = Target(deployment: string, nodeSet: string, tlsEnabled: bool, hasNodes: bool, certSources: bool) {
    function LabelsOf(service: string): Labels {
      Labels(service, deployment, nodeSet)
    }
  }

  /** How the calls made for one service turn out: those before its job is written, and the
      second lookup of the job. */
  datatype Call = Call(serviceRead: bool, mountsBuilt: bool, certMountsBuilt: bool,
                       listed: Listing, write: Write, listedAfter: Listing)

  const GOOD_CALL := Call(true, true, true, Shown, Applied, Shown)

  /** Proceed: go on with the next service. Wait: stop without an error. Fail: stop with an
      error. Panic: the reconcile goes on with a job it does not have. */
  datatype Outcome = Proceed | Wait | Fail | Panic

  datatype Step = Step(jobs: JobStore, conds: Conditions, outcome: Outcome)

  /** What a job's status makes of a service condition that is False so far. */
  function Judge(c: Condition, status: JobStatus): (Condition, Outcome) {
    match status
    case Succeeded => (True, Proceed)
    case Running => (REQUESTED, Wait)
    case Pending => (REQUESTED, Wait)
    case JobFailed(reason, severity) => (False(reason, severity), Fail)
    case NotStarted => (c, Wait)
  }

  /** The second half of a conditional deployment: the job of a service whose condition is
      False is looked up, and its status settles the condition. When no job is found the
      conditions stay as they were stored; any other error of the lookup is passed over. */
  function Settle(cat: Catalogue, t: Target, service: string, jobs: JobStore, conds: Conditions, c: Condition,
                  listing: Listing): (s: Step)
    ensures s.jobs == jobs
  {
    match Find(jobs, t.LabelsOf(service), listing)
    case NotFound => Step(jobs, conds, Wait)
    case Multiple => Step(jobs, conds, Panic)
    case LookupFailed => Step(jobs, conds, Panic)
    case Found(name) =>
      var (c', outcome) := Judge(c, jobs[name].status);
      Step(jobs, conds[cat.ConditionTypeOf(service) := c'], outcome)
  }

  function ConditionalDeployStep(cat: Catalogue, t: Target, service: string, jobs: JobStore, conds: Conditions,
                                 call: Call): Step
  {
    match Get(conds, cat.ConditionTypeOf(service))
    case True => Step(jobs, conds, Proceed)
    case False(_, _) =>
      Settle(cat, t, service, jobs, conds, Get(conds, cat.ConditionTypeOf(service)), call.listedAfter)
    case Unknown =>
      var (jobs', ok) := Execute(cat.executionName, jobs, t.LabelsOf(service), call.listed,
                               cat.WriteOf(jobs, t.LabelsOf(service), call.write));
      if ok then Settle(cat, t, service, jobs', conds, REQUESTED, call.listedAfter) else Step(jobs', conds, Fail)
  }

  function DeployOne(cat: Catalogue, t: Target, service: string, jobs: JobStore, conds: Conditions, call: Call): Step {
    if !call.serviceRead || service !in cat.services || !call.mountsBuilt
       || (t.tlsEnabled && cat.services[service].addCertMounts && !(t.certSources && call.certMountsBuilt)) then
      Step(jobs, conds[cat.ConditionTypeOf(service) := FAILED], Fail)
    else
      ConditionalDeployStep(cat, t, service, jobs, conds, call)
  }

  /** The services from index `i` on. */
  function DeployFrom(cat: Catalogue, t: Target, services: seq<string>, i: nat, jobs: JobStore, conds: Conditions,
                      calls: nat -> Call): Step
    requires i <= |services|
    decreases |services| - i
  {
    if i == |services| then Step(jobs, conds, Proceed)
    else
      var s := DeployOne(cat, t, services[i], jobs, conds, calls(i));
      if s.outcome.Proceed? then DeployFrom(cat, t, services, i + 1, s.jobs, s.conds, calls) else s
  }

  /** The status of a deployment while it is reconciled. */
  class DeploymentStatus {
    var conditions: Conditions
    var nodeSetConditions: map<string, Conditions>
    var deployed: bool

    /** Every condition back to Unknown, and the deployment not deployed. */
    constructor InitConditions(nodeSets: seq<string>)
      ensures conditions == map[ReadyCondition := Unknown, DeploymentReadyCondition := Unknown,
              InputReadyCondition := Unknown]
      ensures nodeSetConditions == InitialNodeSetConditions(nodeSets)
      ensures !deployed
    {
      conditions := map[ReadyCondition := Unknown, DeploymentReadyCondition := Unknown, InputReadyCondition := Unknown];
      nodeSetConditions := map[];
      deployed := false;
      new;
      for i := 0 to |nodeSets|
        modifies `nodeSetConditions
        invariant nodeSetConditions == InitialNodeSetConditions(nodeSets[..i])
      {
        nodeSetConditions := nodeSetConditions[nodeSets[i] := map[NodeSetDeploymentReadyCondition := Unknown]];
      }
      assert nodeSets[..|nodeSets|] == nodeSets;
    }
  }

  function InitialNodeSetConditions(nodeSets: seq<string>): map<string, Conditions> {
    map n | n in nodeSets :: map[NodeSetDeploymentReadyCondition := Unknown]
  }

  /** The deployer of one nodeset. It shares the cluster and the status with the reconcile
      that made it and with the deployers of the other nodesets. */
  class Deployer {
    const cat: Catalogue
    const target: Target
    const cluster: Cluster
    const status: DeploymentStatus

    constructor (cat: Catalogue, target: Target, cluster: Cluster, status: DeploymentStatus)
      ensures this.cat == cat && this.target == target && this.cluster == cluster && this.status == status
    {
      this.cat, this.target, this.cluster, this.status := cat, target, cluster, status;
    }

    method ConditionalDeploy(service: string, call: Call) returns (outcome: Outcome)
      requires target.nodeSet in status.nodeSetConditions
      modifies cluster, status`nodeSetConditions
      ensures var s := ConditionalDeployStep(cat, target, service, old(cluster.jobs),
                                             old(status.nodeSetConditions[target.nodeSet]), call);
              && cluster.jobs == s.jobs && outcome == s.outcome
              && status.nodeSetConditions == old(status.nodeSetConditions)[target.nodeSet := s.conds]
    {
      hide Execute;
      var ns := target.nodeSet;
      var ct, l := cat.ConditionTypeOf(service), target.LabelsOf(service);
      var nsConditions := status.nodeSetConditions[ns];
      ghost var conds := nsConditions;
      outcome := Wait;
      if Get(nsConditions, ct).Unknown? {
        var ok := cluster.AnsibleExecution(cat.executionName, l, call.listed, cat.WriteOf(cluster.jobs, l, call.write));
        if !ok {
          return Fail;
        }
        nsConditions := nsConditions[ct := REQUESTED];
      }
      if Get(nsConditions, ct).False? {
        var found := Find(cluster.jobs, l, call.listedAfter);
        if found.NotFound? {
          return Wait;
        }
        if found.Multiple? || found.LookupFailed? {
          return Panic;
        }
        var jobStatus := cluster.jobs[found.name].status;
        if jobStatus.Succeeded? {
          nsConditions := nsConditions[ct := True];
        }
        if jobStatus.Running? || jobStatus.Pending? {
          nsConditions := nsConditions[ct := REQUESTED];
        }
        if jobStatus.JobFailed? {
          nsConditions := nsConditions[ct := False(jobStatus.reason, jobStatus.severity)];
          outcome := Fail;
        }
      }
      assert nsConditions == ConditionalDeployStep(cat, target, service, old(cluster.jobs), conds, call).conds;
      status.nodeSetConditions := status.nodeSetConditions[ns := nsConditions];
      if IsTrue(nsConditions, ct) {
        outcome := Proceed;
      }
    }

    /** The services read for the certificate mounts; the first one whose source is missing ends it. */
    method AddCertMounts(services: seq<string>, built: bool) returns (ok: bool)
      ensures ok <==> CertSourcesKnown(cat.services, services, target.hasNodes) && built
    {
      for i := 0 to |services|
        invariant forall s | s in services[..i] ::
            s in cat.services && SourceKnown(cat.services, services, target.hasNodes, cat.services[s])
      {
        if services[i] !in cat.services {
          return false;
        }
        var service := cat.services[services[i]];
        if Borrows(service) {
          if service.certsFrom.value in services {
            continue;
          }
          if service.certsFrom.value !in cat.services {
            return false;
          }
          service := cat.services[service.certsFrom.value];
        }
        if service.tlsCerts && !target.hasNodes {
          return false;
        }
      }
      ok := built;
    }

    method Deploy(services: seq<string>, calls: nat -> Call) returns (outcome: Outcome)
      requires target.nodeSet in status.nodeSetConditions
      requires target.certSources == CertSourcesKnown(cat.services, services, target.hasNodes)
      modifies cluster, status`nodeSetConditions
      ensures var s := DeployFrom(cat, target, services, 0, old(cluster.jobs),
                                  old(status.nodeSetConditions[target.nodeSet]), calls);
              && cluster.jobs == s.jobs && outcome == s.outcome
              && status.nodeSetConditions == old(status.nodeSetConditions)[target.nodeSet := s.conds]
    {
      hide ConditionalDeployStep, CertSourcesKnown;
      var ns := target.nodeSet;
      ghost var jobs0, conds0 := cluster.jobs, status.nodeSetConditions[ns];
      for i := 0 to |services|
        invariant ns in status.nodeSetConditions
        invariant status.nodeSetConditions == old(status.nodeSetConditions)[ns := status.nodeSetConditions[ns]]
        invariant DeployFrom(cat, target, services, 0, jobs0, conds0, calls)
               == DeployFrom(cat, target, services, i, cluster.jobs, status.nodeSetConditions[ns], calls)
      {
        var service, call := services[i], calls(i);
        var ct := cat.ConditionTypeOf(service);
        var nsConditions := status.nodeSetConditions[ns];
        if !call.serviceRead || service !in cat.services {
          status.nodeSetConditions := status.nodeSetConditions[ns := nsConditions[ct := FAILED]];
          return Fail;
        }
        if !call.mountsBuilt {
          status.nodeSetConditions := status.nodeSetConditions[ns := nsConditions[ct := FAILED]];
          return Fail;
        }
        if target.tlsEnabled && cat.services[service].addCertMounts {
          var mounted := AddCertMounts(services, call.certMountsBuilt);
          if !mounted {
            status.nodeSetConditions := status.nodeSetConditions[ns := nsConditions[ct := FAILED]];
            return Fail;
          }
        }
        outcome := ConditionalDeploy(service, call);
        if !outcome.Proceed? {
          return;
        }
      }
      outcome := Proceed;
    }
  }
}
