/**
 One reconcile of an OpenStackDataPlaneDeployment: the gates, the loop over its nodesets and
 the status written at the end (controllers/openstackdataplanedeployment_controller.go).
 */
module DeploymentControllers {
  import opened Conditions
  import opened AnsibleExecutions
  import opened Services
  import opened Deployers
  import opened NodeSetControllers

  datatype DeploymentSpec = DeploymentSpec(nodeSets: seq<string>, servicesOverride: Option<seq<string>>)

  datatype Status = Status(conditions: Conditions, nodeSetConditions: map<string, Conditions>, deployed: bool)

  datatype Deployment = Deployment(spec: DeploymentSpec, status: Status)

  /** How the calls of one reconcile turn out, by position in the list of nodesets. */
  datatype Env = Env(read: nat -> Read, tls: nat -> Tls, serviceRead: nat -> bool, versionRead: bool,
                     calls: nat -> nat -> Call, statusWritten: bool)

  datatype Read = Got | Missing | ReadError

  datatype Tls = CertsReady | CertsPending | CertsFailed

  /** The override applies when it is not empty. */
  function ServicesFor(spec: DeploymentSpec, ns: NodeSet): seq<string> {
    if spec.servicesOverride.Some? && |spec.servicesOverride.value| != 0 then spec.servicesOverride.value
      else ns.services
  }

  function TargetFor(cat: Catalogue, d: string, spec: DeploymentSpec, name: string, ns: NodeSet): Target {
    var hasNodes := ns.nodes != map[];
    Target(d, name, ns.tlsEnabled, hasNodes, CertSourcesKnown(cat.services, ServicesFor(spec, ns), hasNodes))
  }

  function InitialStatus(nodeSets: seq<string>): Status {
    Status(map[ReadyCondition := Unknown, DeploymentReadyCondition := Unknown, InputReadyCondition := Unknown],
      InitialNodeSetConditions(nodeSets), false)
  }

  // ---------- the gates ----------

  datatype Gate = Open | Shut(status: Status)

  function FetchFrom(names: seq<string>, nodeSets: NodeSets, env: Env, i: nat, st: Status): (g: Gate)
    requires i <= |names|
    ensures g.Open? ==> forall k | i <= k < |names| :: names[k] in nodeSets
    decreases |names| - i
  {
    if i == |names| then Open
    else if env.read(i).ReadError? then Shut(st.(conditions := st.conditions[SetupReadyCondition := FAILED]))
    else if env.read(i).Missing? || names[i] !in nodeSets then Shut(st)
    else FetchFrom(names, nodeSets, env, i + 1, st)
  }

  predicate AllSetupReady(names: seq<string>, nodeSets: NodeSets)
    requires forall k | 0 <= k < |names| :: names[k] in nodeSets
  {
    forall k | 0 <= k < |names| :: IsTrue(nodeSets[names[k]].conditions, SetupReadyCondition)
  }

  /** Certificates can be had for a nodeset with TLS when all the services are there and, if some
      of them needs certificates, every node is on the control plane. */
  predicate CertsPossible(services: ServiceStore, listed: seq<string>, ns: NodeSet) {
    forall s | s in listed :: s in services && (services[s].tlsCerts ==> EveryNodeOnCtlplane(ns))
  }

  /** How the certificates of a nodeset end. */
  function TlsOutcome(cat: Catalogue, spec: DeploymentSpec, ns: NodeSet, outcome: Tls): Tls {
    if outcome.CertsReady? && !CertsPossible(cat.services, ServicesFor(spec, ns), ns) then CertsFailed else outcome
  }

  predicate CertsDone(cat: Catalogue, spec: DeploymentSpec, ns: NodeSet, outcome: Tls) {
    ns.tlsEnabled ==> outcome.CertsReady? && CertsPossible(cat.services, ServicesFor(spec, ns), ns)
  }

  function CertsFrom(cat: Catalogue, spec: DeploymentSpec, nodeSets: NodeSets, env: Env, i: nat, st: Status): (g: Gate)
    requires i <= |spec.nodeSets|
    requires forall k | 0 <= k < |spec.nodeSets| ::
        spec.nodeSets[k] in nodeSets && spec.nodeSets[k] in st.nodeSetConditions
    ensures g.Open? <==> forall k | i <= k < |spec.nodeSets| ::
        CertsDone(cat, spec, nodeSets[spec.nodeSets[k]], env.tls(k))
    decreases |spec.nodeSets| - i
  {
    if i == |spec.nodeSets| then Open
    else if CertsDone(cat, spec, nodeSets[spec.nodeSets[i]], env.tls(i)) then
      CertsFrom(cat, spec, nodeSets, env, i + 1, st)
    else if TlsOutcome(cat, spec, nodeSets[spec.nodeSets[i]], env.tls(i)).CertsPending? then Shut(st)
    else
      var ns := spec.nodeSets[i];
      Shut(st.(conditions := st.conditions[InputReadyCondition := FAILED],
               nodeSetConditions := st.nodeSetConditions[ns :=
                 st.nodeSetConditions[ns][NodeSetDeploymentReadyCondition := FAILED]]))
  }

  function ServiceLists(names: seq<string>, nodeSets: NodeSets): seq<seq<string>>
    requires forall k | 0 <= k < |names| :: names[k] in nodeSets
  {
    seq(|names|, k requires 0 <= k < |names| => nodeSets[names[k]].services)
  }

  /** The gates in the order of the source. Only a status that passed all of them lets the
      reconcile reach the nodesets; it has InputReady True. */
  function Gates(cat: Catalogue, spec: DeploymentSpec, nodeSets: NodeSets, env: Env): (g: Gate)
    ensures g.Open? ==> forall k | 0 <= k < |spec.nodeSets| :: spec.nodeSets[k] in nodeSets
  {
    var names := spec.nodeSets;
    var st := InitialStatus(names);
    var fetched := FetchFrom(names, nodeSets, env, 0, st);
    if fetched.Shut? then fetched
    else if !AllSetupReady(names, nodeSets) then Shut(st)
    else
      var certs := CertsFrom(cat, spec, nodeSets, env, 0, st);
      if certs.Shut? then certs
      else
        var st := st.(conditions := st.conditions[InputReadyCondition := True]);
        if spec.servicesOverride.None? && !Consistent(cat.services, Flatten(ServiceLists(names, nodeSets)),
                                      env.serviceRead) then
          Shut(st.(conditions := st.conditions[DeploymentReadyCondition := FAILED]))
        else if !env.versionRead then Shut(st)
        else Open
  }

  function OpenStatus(spec: DeploymentSpec): Status {
    var st := InitialStatus(spec.nodeSets);
    st.(conditions := st.conditions[InputReadyCondition := True])
  }

  // ---------- the loop over the nodesets ----------

  datatype Progress = Progress(jobs: JobStore, status: Status, haveError: bool, backoff: bool, requeue: bool,
                               panicked: bool)

  /** The conditions of a nodeset after its replay: the overall condition mirrors the
      services, and is True once the replay has finished. */
  function NodeSetConditionsAfter(cat: Catalogue, conds: Conditions, outcome: Outcome): Conditions {
    conds[NodeSetDeploymentReadyCondition := if outcome.Proceed? then True else cat.mirror(conds)]
  }

  predicate IsBackoff(c: Condition) {
    c.False? && c.reason.BackoffLimitExceeded?
  }

  function ReplayOf(cat: Catalogue, d: string, spec: DeploymentSpec, nodeSets: NodeSets, i: nat, jobs: JobStore,
                    conds: Conditions, env: Env): Step
    requires i < |spec.nodeSets| && spec.nodeSets[i] in nodeSets
  {
    var name := spec.nodeSets[i];
    var ns := nodeSets[name];
    DeployFrom(cat, TargetFor(cat, d, spec, name, ns), ServicesFor(spec, ns), 0, jobs, conds, env.calls(i))
  }

  function DeployNodeSet(cat: Catalogue, d: string, spec: DeploymentSpec, nodeSets: NodeSets, i: nat, p: Progress,
                         env: Env): (p': Progress)
    requires i < |spec.nodeSets| && spec.nodeSets[i] in nodeSets && spec.nodeSets[i] in p.status.nodeSetConditions
    ensures p'.status.nodeSetConditions.Keys == p.status.nodeSetConditions.Keys
  {
    var name := spec.nodeSets[i];
    var s := ReplayOf(cat, d, spec, nodeSets, i, p.jobs, p.status.nodeSetConditions[name], env);
    var conditions := p.status.conditions[DeploymentReadyCondition := REQUESTED];
    if s.outcome.Panic? then
      p.(jobs := s.jobs, status := Status(conditions, p.status.nodeSetConditions[name := s.conds], false),
        panicked := true)
    else
      Progress(s.jobs,
               Status(conditions, p.status.nodeSetConditions[name := NodeSetConditionsAfter(cat, s.conds, s.outcome)],
                 false),
               p.haveError || s.outcome.Fail?,
               if s.outcome.Fail? then IsBackoff(cat.mirror(s.conds)) else p.backoff,
               p.requeue || !s.outcome.Proceed?,
               false)
  }

  function DeployNodeSetsFrom(cat: Catalogue, d: string, spec: DeploymentSpec, nodeSets: NodeSets, i: nat, p: Progress,
                              env: Env): Progress
    requires i <= |spec.nodeSets|
    requires forall k | 0 <= k < |spec.nodeSets| ::
        spec.nodeSets[k] in nodeSets && spec.nodeSets[k] in p.status.nodeSetConditions
    decreases |spec.nodeSets| - i
  {
    if i == |spec.nodeSets| || p.panicked then p
    else DeployNodeSetsFrom(cat, d, spec, nodeSets, i + 1, DeployNodeSet(cat, d, spec, nodeSets, i, p, env), env)
  }

  function StartOf(spec: DeploymentSpec, jobs: JobStore): Progress {
    Progress(jobs, OpenStatus(spec), false, false, false, false)
  }

  /** The outcome of the loop: an error, a deployment that is still running, or a deployment
      that is done. */
  function Conclude(p: Progress): Status {
    if p.panicked then p.status
    else if p.haveError then
      var c := if p.backoff then False(BackoffLimitExceeded, Error) else False(ErrorOccurred, Warning);
      p.status.(conditions := p.status.conditions[DeploymentReadyCondition := c])
    else if p.requeue then p.status
    else p.status.(conditions := p.status.conditions[DeploymentReadyCondition := True], deployed := true)
  }

  // ---------- the reconcile ----------

  datatype Result = Result(jobs: JobStore, status: Status, panicked: bool)

  /** The jobs and the status at the end of a reconcile that does not find the deployment
      done already. */
  function ReconcileNormal(cat: Catalogue, d: string, spec: DeploymentSpec, nodeSets: NodeSets, jobs: JobStore,
                           env: Env): Result
  {
    var gate := Gates(cat, spec, nodeSets, env);
    if gate.Shut? then Result(jobs, gate.status, false)
    else
      var p := DeployNodeSetsFrom(cat, d, spec, nodeSets, 0, StartOf(spec, jobs), env);
      Result(p.jobs, Conclude(p), p.panicked)
  }

  function Persist(cat: Catalogue, st: Status): Status {
    st.(conditions := Summarize(st.conditions, cat.mirror))
  }

  /** A deployment whose name is not valid is turned away before it is read. */
  function Reconcile(cat: Catalogue, d: string, dep: Deployment, nodeSets: NodeSets, jobs: JobStore, env: Env): Result {
    if !cat.validName(d) || dep.status.deployed then Result(jobs, dep.status, false)
    else
      var r := ReconcileNormal(cat, d, dep.spec, nodeSets, jobs, env);
      r.(status := if env.statusWritten then Persist(cat, r.status) else dep.status)
  }

  /** The controller, with the deployments and the nodesets of the cluster. */
  class DeploymentReconciler {
    const cat: Catalogue
    const cluster: Cluster
    var deployments: map<string, Deployment>
    var nodeSets: NodeSets

    constructor (cat: Catalogue, cluster: Cluster, deployments: map<string, Deployment>, nodeSets: NodeSets)
      ensures this.cat == cat && this.cluster == cluster && this.deployments == deployments && this.nodeSets == nodeSets
    {
      this.cat, this.cluster, this.deployments, this.nodeSets := cat, cluster, deployments, nodeSets;
    }

    ghost function StatusOf(instance: DeploymentStatus): Status
      reads instance
    {
      Status(instance.conditions, instance.nodeSetConditions, instance.deployed)
    }

    /** Reads the nodesets one by one; the first that is missing or cannot be read ends it. */
    method FetchNodeSets(names: seq<string>, instance: DeploymentStatus, env: Env) returns (ok: bool)
      modifies instance
      ensures var g := FetchFrom(names, nodeSets, env, 0, old(StatusOf(instance)));
              (ok <==> g.Open?) && StatusOf(instance) == (if ok then old(StatusOf(instance)) else g.status)
      ensures ok ==> forall k | 0 <= k < |names| :: names[k] in nodeSets
    {
      ghost var st := StatusOf(instance);
      for i := 0 to |names|
        invariant StatusOf(instance) == st
        invariant forall k | 0 <= k < i :: names[k] in nodeSets
        invariant FetchFrom(names, nodeSets, env, 0, st) == FetchFrom(names, nodeSets, env, i, st)
      {
        if env.read(i).ReadError? {
          instance.conditions := instance.conditions[SetupReadyCondition := FAILED];
          return false;
        }
        if env.read(i).Missing? || names[i] !in nodeSets {
          return false;
        }
      }
      ok := true;
    }

    /** The certificates of one nodeset: every service is read, and the first that is missing or
        needs certificates that a node cannot have ends it. */
    method EnsureNodeSetCerts(spec: DeploymentSpec, ns: NodeSet, outcome: Tls) returns (r: Tls)
      ensures r == TlsOutcome(cat, spec, ns, outcome)
    {
      if !outcome.CertsReady? {
        return outcome;
      }
      var services := ServicesFor(spec, ns);
      for i := 0 to |services|
        invariant CertsPossible(cat.services, services[..i], ns)
      {
        if services[i] !in cat.services || (cat.services[services[i]].tlsCerts && !EveryNodeOnCtlplane(ns)) {
          return CertsFailed;
        }
      }
      r := CertsReady;
    }

    /** Ensures the certificates of the nodesets that have TLS enabled. */
    method EnsureCerts(spec: DeploymentSpec, instance: DeploymentStatus, env: Env) returns (ok: bool)
      requires forall k | 0 <= k < |spec.nodeSets| ::
          spec.nodeSets[k] in nodeSets && spec.nodeSets[k] in instance.nodeSetConditions
      modifies instance
      ensures var g := CertsFrom(cat, spec, nodeSets, env, 0, old(StatusOf(instance)));
              (ok <==> g.Open?) && StatusOf(instance) == (if ok then old(StatusOf(instance)) else g.status)
    {
      hide CertsPossible, ServicesFor;
      ghost var st := StatusOf(instance);
      for i := 0 to |spec.nodeSets|
        invariant StatusOf(instance) == st
        invariant CertsFrom(cat, spec, nodeSets, env, 0, st) == CertsFrom(cat, spec, nodeSets, env, i, st)
      {
        var name := spec.nodeSets[i];
        if nodeSets[name].tlsEnabled {
          var outcome := EnsureNodeSetCerts(spec, nodeSets[name], env.tls(i));
          if outcome.CertsFailed? {
            instance.conditions := instance.conditions[InputReadyCondition := FAILED];
            var nsConditions := instance.nodeSetConditions[name];
            instance.nodeSetConditions := instance.nodeSetConditions[name :=
              nsConditions[NodeSetDeploymentReadyCondition := FAILED]];
            return false;
          }
          if outcome.CertsPending? {
            return false;
          }
        }
      }
      ok := true;
    }

    /** The gates; `ok` tells whether the reconcile goes on to the nodesets. */
    method PassGates(spec: DeploymentSpec, instance: DeploymentStatus, env: Env) returns (ok: bool)
      requires StatusOf(instance) == InitialStatus(spec.nodeSets)
      modifies instance
      ensures ok <==> Gates(cat, spec, nodeSets, env).Open?
      ensures ok ==> StatusOf(instance) == OpenStatus(spec)
      ensures !ok ==> StatusOf(instance) == Gates(cat, spec, nodeSets, env).status
    {
      hide FetchFrom, CertsFrom, Consistent, Flatten;
      var names := spec.nodeSets;
      var fetched := FetchNodeSets(names, instance, env);
      if !fetched {
        return false;
      }
      for i := 0 to |names|
        invariant StatusOf(instance) == InitialStatus(names)
        invariant forall k | 0 <= k < i :: IsTrue(nodeSets[names[k]].conditions, SetupReadyCondition)
      {
        if !IsTrue(nodeSets[names[i]].conditions, SetupReadyCondition) {
          return false;
        }
      }
      var certs := EnsureCerts(spec, instance, env);
      if !certs {
        return false;
      }
      instance.conditions := instance.conditions[InputReadyCondition := True];
      if spec.servicesOverride.None? {
        var consistent := CheckGlobalServiceExecutionConsistency(cat.services, ServiceLists(names, nodeSets),
            env.serviceRead);
        if !consistent {
          instance.conditions := instance.conditions[DeploymentReadyCondition := FAILED];
          return false;
        }
      }
      ok := env.versionRead;
    }

    ghost function ProgressOf(instance: DeploymentStatus, flags: (bool, bool, bool), panicked: bool): Progress
      reads instance, cluster
    {
      Progress(cluster.jobs, StatusOf(instance), flags.0, flags.1, flags.2, panicked)
    }

    /** What the replay of a nodeset leaves in its overall condition and in the flags: whether
        some nodeset failed, whether the last failure reached the backoff limit, and whether
        some nodeset is not finished. */
    method RecordOutcome(name: string, outcome: Outcome, instance: DeploymentStatus, flags: (bool, bool, bool))
      returns (flags': (bool, bool, bool))
      requires name in instance.nodeSetConditions
      modifies instance`nodeSetConditions
      ensures var conds := old(instance.nodeSetConditions)[name];
              && instance.nodeSetConditions
                 == old(instance.nodeSetConditions)[name := NodeSetConditionsAfter(cat, conds, outcome)]
              && flags' == (flags.0 || outcome.Fail?,
                            if outcome.Fail? then IsBackoff(cat.mirror(conds)) else flags.1,
                            flags.2 || !outcome.Proceed?)
    {
      var (haveError, backoffLimitReached, shouldRequeue) := flags;
      var nsConditions := instance.nodeSetConditions[name];
      var mirrored := cat.mirror(nsConditions);
      nsConditions := nsConditions[NodeSetDeploymentReadyCondition := mirrored];
      if outcome.Fail? {
        haveError := true;
        backoffLimitReached := IsBackoff(nsConditions[NodeSetDeploymentReadyCondition]);
      }
      if !outcome.Proceed? {
        shouldRequeue := true;
      } else {
        nsConditions := nsConditions[NodeSetDeploymentReadyCondition := True];
      }
      assert nsConditions == NodeSetConditionsAfter(cat, instance.nodeSetConditions[name], outcome);
      instance.nodeSetConditions := instance.nodeSetConditions[name := nsConditions];
      return (haveError, backoffLimitReached, shouldRequeue);
    }

    /** Runs a deployer for the nodeset at `i`. */
    method RunDeployer(d: string, spec: DeploymentSpec, i: nat, instance: DeploymentStatus, env: Env)
      returns (outcome: Outcome)
      requires i < |spec.nodeSets| && spec.nodeSets[i] in nodeSets && spec.nodeSets[i] in instance.nodeSetConditions
      modifies cluster, instance`nodeSetConditions
      ensures var name := spec.nodeSets[i];
              var conds := old(instance.nodeSetConditions[name]);
              var s := ReplayOf(cat, d, spec, nodeSets, i, old(cluster.jobs), conds, env);
              && cluster.jobs == s.jobs && outcome == s.outcome
              && instance.nodeSetConditions == old(instance.nodeSetConditions)[name := s.conds]
    {
      hide DeployFrom, ServicesFor, CertSourcesKnown;
      var name := spec.nodeSets[i];
      var nodeSet := nodeSets[name];
      var deployer := new Deployer(cat, TargetFor(cat, d, spec, name, nodeSet), cluster, instance);
      outcome := deployer.Deploy(ServicesFor(spec, nodeSet), env.calls(i));
    }

    method DeployNextNodeSet(d: string, spec: DeploymentSpec, i: nat, instance: DeploymentStatus, env: Env,
                             flags: (bool, bool, bool))
      returns (flags': (bool, bool, bool), panicked: bool)
      requires i < |spec.nodeSets| && spec.nodeSets[i] in nodeSets && spec.nodeSets[i] in instance.nodeSetConditions
      modifies cluster, instance
      ensures ProgressOf(instance, flags', panicked) == DeployNodeSet(cat, d, spec, nodeSets, i,
              old(ProgressOf(instance, flags, false)), env)
    {
      hide ReplayOf, NodeSetConditionsAfter;
      instance.deployed := false;
      instance.conditions := instance.conditions[DeploymentReadyCondition := REQUESTED];
      var outcome := RunDeployer(d, spec, i, instance, env);
      if outcome.Panic? {
        return flags, true;
      }
      flags' := RecordOutcome(spec.nodeSets[i], outcome, instance, flags);
      panicked := false;
    }

    /** The loop over the nodesets. It does not wait for one nodeset before it starts the next. */
    method DeployNodeSets(d: string, spec: DeploymentSpec, instance: DeploymentStatus,
                          env: Env) returns (panicked: bool)
      requires StatusOf(instance) == OpenStatus(spec)
      requires forall k | 0 <= k < |spec.nodeSets| :: spec.nodeSets[k] in nodeSets
      modifies cluster, instance
      ensures var p := DeployNodeSetsFrom(cat, d, spec, nodeSets, 0, StartOf(spec, old(cluster.jobs)), env);
              cluster.jobs == p.jobs && StatusOf(instance) == Conclude(p) && panicked == p.panicked
    {
      hide DeployNodeSet;
      var flags := (false, false, false);
      panicked := false;
      ghost var start := StartOf(spec, cluster.jobs);
      for i := 0 to |spec.nodeSets|
        invariant instance.nodeSetConditions.Keys == start.status.nodeSetConditions.Keys
        invariant DeployNodeSetsFrom(cat, d, spec, nodeSets, 0, start, env)
               == DeployNodeSetsFrom(cat, d, spec, nodeSets, i, ProgressOf(instance, flags, false), env)
      {
        ghost var before := ProgressOf(instance, flags, false);
        flags, panicked := DeployNextNodeSet(d, spec, i, instance, env, flags);
        ghost var after := DeployNodeSet(cat, d, spec, nodeSets, i, before, env);
        assert after.status.nodeSetConditions.Keys == before.status.nodeSetConditions.Keys;
        if panicked {
          return;
        }
      }
      var (haveError, backoffLimitReached, shouldRequeue) := flags;
      if haveError {
        var c := if backoffLimitReached then False(BackoffLimitExceeded, Error) else False(ErrorOccurred, Warning);
        instance.conditions := instance.conditions[DeploymentReadyCondition := c];
      } else if !shouldRequeue {
        instance.conditions := instance.conditions[DeploymentReadyCondition := True];
        instance.deployed := true;
      }
    }

    method ReconcileDeployment(d: string, env: Env) returns (panicked: bool)
      modifies this`deployments, cluster
      ensures d !in old(deployments) ==> deployments == old(deployments) && cluster.jobs == old(cluster.jobs)
      ensures d in old(deployments) ==>
                var r := Reconcile(cat, d, old(deployments)[d], nodeSets, old(cluster.jobs), env);
                && cluster.jobs == r.jobs && panicked == r.panicked
                && deployments == old(deployments)[d := old(deployments)[d].(status := r.status)]
    {
      hide Gates, DeployNodeSetsFrom, Summarize;
      if !cat.validName(d) {
        return false;
      }
      if d !in deployments {
        return false;
      }
      var dep := deployments[d];
      if dep.status.deployed {
        return false;
      }
      var instance := new DeploymentStatus.InitConditions(dep.spec.nodeSets);
      panicked := false;
      var ok := PassGates(dep.spec, instance, env);
      if ok {
        panicked := DeployNodeSets(d, dep.spec, instance, env);
      }
      // The deferred step: the Ready condition is computed and the status is patched.
      instance.conditions := Summarize(instance.conditions, cat.mirror);
      if env.statusWritten {
        deployments := deployments[d := dep.(status :=
                                      Status(instance.conditions, instance.nodeSetConditions, instance.deployed))];
      }
    }
  }
}
