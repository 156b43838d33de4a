/**
 One reconcile of an OpenStackDataPlaneNodeSet, as seen by its conditions: the setup steps in
 order, each of which may end the reconcile
 (controllers/openstackdataplanenodeset_controller.go).
 */
module NodeSetControllers {
  import opened Conditions
  import opened CheckDeployments
  import DNSData
  import IPReservations

  /** A nodeset: its services, its nodes with the networks of the template, and its conditions.
      Only the conditions change while the system runs. */
  datatype NodeSet = NodeSet(services: seq<string>, tlsEnabled: bool, preProvisioned: bool, baremetalHosts: nat,
                             nodes: map<string, DNSData.Node>, template: seq<string>, conditions: Conditions)

  type NodeSets = map<string, NodeSet>

  function HostsOf(ns: NodeSet): set<string> {
    set n | n in ns.nodes :: ns.nodes[n].hostName
  }

  /** Every node requests a network of the control plane. */
  predicate EveryNodeOnCtlplane(ns: NodeSet) {
    forall n | n in ns.nodes :: OnCtlplane(IPReservations.NetworksOf(ns.nodes[n], ns.template))
  }

  predicate OnCtlplane(networks: seq<string>) {
    exists i | 0 <= i < |networks| :: DNSData.Lower(networks[i]) == DNSData.CTLPLANE
  }

  // ---------- the reservation of addresses ----------

  /** The nodesets that own the IP sets there are, by host name. */
  type Owners = map<string, string>

  /** The API server refuses an IP set whose name it does not accept, and the operator one that
      belongs to another nodeset. */
  function RefusedFor(name: string, owners: Owners, objectName: string -> bool): string -> bool {
    (h: string) => !objectName(h) || (h in owners && owners[h] != name)
  }

  predicate CanReserveAll(name: string, ns: NodeSet, owners: Owners, objectName: string -> bool) {
    forall n | n in ns.nodes ::
      IPReservations.CanReserve(ns.nodes[n], ns.template, RefusedFor(name, owners, objectName))
  }

  /** How a setup step ends. */
  datatype Ensure = StepDone | StepPending | StepFailed

  /** How the steps of one reconcile end, as far as the nodeset itself does not settle it;
      `reached` are the hosts whose IP sets are written before the reservation fails, and
      `verdict` is what the check of the deployments found. */
  datatype NodeSetEnv = NodeSetEnv(configHashed: bool, servicesEnsured: bool, reached: string -> bool, ips: Ensure,
                                   dns: Ensure, input: Ensure, serviceAccount: Ensure, roleBinding: Ensure,
                                   versionRead: bool, baremetal: Ensure, deploymentsListed: bool, verdict: Flags,
                                   inventoryWritten: bool, statusWritten: bool)

  /** How the reservation ends: it fails if some IP set cannot be reserved. */
  function IPsOf(name: string, ns: NodeSet, owners: Owners, objectName: string -> bool, env: NodeSetEnv): Ensure {
    if CanReserveAll(name, ns, owners, objectName) then env.ips else StepFailed
  }

  /** The owners after the reservation: the nodeset has the IP sets it has written. */
  function OwnersAfter(name: string, ns: NodeSet, owners: Owners, objectName: string -> bool, env: NodeSetEnv): Owners {
    if !env.configHashed || !env.servicesEnsured then owners
    else
      var failed := IPsOf(name, ns, owners, objectName, env).StepFailed?;
      owners + map h | h in HostsOf(ns) && h !in owners && objectName(h) && (failed ==> env.reached(h)) :: name
  }

  /** The outcomes of the steps with the reservation that the nodeset allows for. */
  function Actual(name: string, ns: NodeSet, owners: Owners, objectName: string -> bool, env: NodeSetEnv): NodeSetEnv {
    env.(ips := IPsOf(name, ns, owners, objectName, env))
  }

  const ACCOUNT_FAILED := False(ErrorOccurred, Warning)
  const INPUT_FAILED := False(Requested, Error)

  function InitialConditions(ns: NodeSet): Conditions {
    var cs := map[ReadyCondition := Unknown, DeploymentReadyCondition := Unknown, InputReadyCondition := Unknown,
        SetupReadyCondition := Unknown,
                  NodeSetIPReservationReadyCondition := Unknown, NodeSetDNSDataReadyCondition := Unknown,
                    ServiceAccountReadyCondition := Unknown];
    if ns.baremetalHosts > 0 then cs[NodeSetBareMetalProvisionReadyCondition := Unknown] else cs
  }

  /** The condition of a step that ended: True, requested, or `error`. */
  function Mark(cs: Conditions, t: ConditionType, e: Ensure, error: Condition): Conditions {
    cs[t := match e case StepDone => True case StepPending => REQUESTED case StepFailed => error]
  }

  /** The steps up to the service account. */
  function InputFlow(ns: NodeSet, env: NodeSetEnv): (Conditions, bool) {
    var cs := InitialConditions(ns)[SetupReadyCondition := REQUESTED];
    if !env.configHashed then (cs, false)
    else if !env.servicesEnsured then (cs[SetupReadyCondition := FAILED], false)
    else
      var cs := Mark(cs, NodeSetIPReservationReadyCondition, env.ips, FAILED);
      if !env.ips.StepDone? then (cs, false)
      else
        var cs := Mark(cs, NodeSetDNSDataReadyCondition, env.dns, FAILED);
        if !env.dns.StepDone? then (cs, false)
        else
          var cs := Mark(cs, InputReadyCondition, env.input, INPUT_FAILED);
          (cs, env.input.StepDone?)
  }

  /** The steps from the service account to the baremetal nodes. */
  function ProvisionFlow(ns: NodeSet, env: NodeSetEnv, cs: Conditions): (Conditions, bool) {
    if !env.serviceAccount.StepDone? then (Mark(cs, ServiceAccountReadyCondition, env.serviceAccount, ACCOUNT_FAILED),
                                  false)
    else
      var cs := Mark(cs, ServiceAccountReadyCondition, env.roleBinding, ACCOUNT_FAILED);
      if !env.roleBinding.StepDone? || !env.versionRead then (cs, false)
      else if ns.preProvisioned then (cs, true)
      else if ns.baremetalHosts == 0 then (cs[NodeSetBareMetalProvisionReadyCondition := Unknown], false)
      else (Mark(cs, NodeSetBareMetalProvisionReadyCondition, env.baremetal, FAILED), env.baremetal.StepDone?)
  }

  /** The check of the deployments, the inventory, and the end of the setup. */
  function DeploymentFlow(env: NodeSetEnv, cs: Conditions): Conditions {
    if !env.deploymentsListed then cs[DeploymentReadyCondition := FAILED]
    else if !env.verdict.running && !env.verdict.failed && !env.inventoryWritten then cs[SetupReadyCondition := FAILED]
    else
      var cs := cs[SetupReadyCondition := True];
      if env.verdict.ready then cs[DeploymentReadyCondition := True]
      else if env.verdict.running then cs[DeploymentReadyCondition := REQUESTED]
      else if env.verdict.failed then cs[DeploymentReadyCondition := FAILED]
      else if Get(cs, DeploymentReadyCondition).Unknown? then cs[DeploymentReadyCondition := REQUESTED]
      else cs
  }

  /** The conditions at the end of a reconcile, before they are summarized. */
  function NodeSetFlow(ns: NodeSet, env: NodeSetEnv): Conditions {
    var (cs, ok) := InputFlow(ns, env);
    if !ok then cs
    else
      var (cs, ok) := ProvisionFlow(ns, env, cs);
      if !ok then cs else DeploymentFlow(env, cs)
  }

  function ReconcileNodeSet(ns: NodeSet, env: NodeSetEnv, mirror: Conditions -> Condition): NodeSet {
    if env.statusWritten then ns.(conditions := Summarize(NodeSetFlow(ns, env), mirror)) else ns
  }

  class NodeSetReconciler {
    const mirror: Conditions -> Condition
    const objectName: string -> bool
    var nodeSets: NodeSets
    var owners: Owners
    var conditions: Conditions

    constructor (mirror: Conditions -> Condition, objectName: string -> bool, nodeSets: NodeSets, owners: Owners)
      ensures this.mirror == mirror && this.objectName == objectName && this.nodeSets == nodeSets
              && this.owners == owners
    {
      this.mirror, this.objectName, this.nodeSets, this.owners := mirror, objectName, nodeSets, owners;
      this.conditions := map[];
    }

    /** Marks the condition of a step that ended. */
    method MarkStep(t: ConditionType, e: Ensure, error: Condition)
      modifies this`conditions
      ensures conditions == Mark(old(conditions), t, e, error)
    {
      match e
      case StepDone => conditions := conditions[t := True];
      case StepPending => conditions := conditions[t := REQUESTED];
      case StepFailed => conditions := conditions[t := error];
    }

    method EnsureInputs(name: string, ns: NodeSet, env: NodeSetEnv) returns (ok: bool)
      modifies this`conditions, this`owners
      ensures (conditions, ok) == InputFlow(ns, Actual(name, ns, old(owners), objectName, env))
      ensures owners == OwnersAfter(name, ns, old(owners), objectName, env)
    {
      hide IPsOf, CanReserveAll, HostsOf;
      conditions := InitialConditions(ns);
      conditions := conditions[SetupReadyCondition := REQUESTED];
      if !env.configHashed {
        return false;
      }
      if !env.servicesEnsured {
        conditions := conditions[SetupReadyCondition := FAILED];
        return false;
      }
      var ips := IPsOf(name, ns, owners, objectName, env);
      owners := OwnersAfter(name, ns, owners, objectName, env);
      MarkStep(NodeSetIPReservationReadyCondition, ips, FAILED);
      if !ips.StepDone? {
        return false;
      }
      MarkStep(NodeSetDNSDataReadyCondition, env.dns, FAILED);
      if !env.dns.StepDone? {
        return false;
      }
      MarkStep(InputReadyCondition, env.input, INPUT_FAILED);
      ok := env.input.StepDone?;
    }

    method Provision(ns: NodeSet, env: NodeSetEnv) returns (ok: bool)
      modifies this`conditions
      ensures (conditions, ok) == ProvisionFlow(ns, env, old(conditions))
    {
      if !env.serviceAccount.StepDone? {
        MarkStep(ServiceAccountReadyCondition, env.serviceAccount, ACCOUNT_FAILED);
        return false;
      }
      MarkStep(ServiceAccountReadyCondition, env.roleBinding, ACCOUNT_FAILED);
      if !env.roleBinding.StepDone? || !env.versionRead {
        return false;
      }
      if ns.preProvisioned {
        return true;
      }
      ghost var before := conditions;
      conditions := conditions[NodeSetBareMetalProvisionReadyCondition := Unknown];
      if ns.baremetalHosts == 0 {
        return false;
      }
      MarkStep(NodeSetBareMetalProvisionReadyCondition, env.baremetal, FAILED);
      assert conditions == Mark(before, NodeSetBareMetalProvisionReadyCondition, env.baremetal, FAILED);
      ok := env.baremetal.StepDone?;
    }

    method FinishSetup(env: NodeSetEnv)
      modifies this`conditions
      ensures conditions == DeploymentFlow(env, old(conditions))
    {
      if !env.deploymentsListed {
        conditions := conditions[DeploymentReadyCondition := FAILED];
        return;
      }
      if !env.verdict.running && !env.verdict.failed && !env.inventoryWritten {
        conditions := conditions[SetupReadyCondition := FAILED];
        return;
      }
      conditions := conditions[SetupReadyCondition := True];
      if Get(conditions, DeploymentReadyCondition).Unknown? {
        conditions := conditions[DeploymentReadyCondition := REQUESTED];
      }
      if env.verdict.ready {
        conditions := conditions[DeploymentReadyCondition := True];
      } else if env.verdict.running {
        conditions := conditions[DeploymentReadyCondition := REQUESTED];
      } else if env.verdict.failed {
        conditions := conditions[DeploymentReadyCondition := FAILED];
      }
      assert conditions == DeploymentFlow(env, old(conditions));
    }

    method Reconcile(name: string, env: NodeSetEnv)
      modifies this
      ensures name !in old(nodeSets) ==> nodeSets == old(nodeSets) && owners == old(owners)
      ensures name in old(nodeSets) ==>
                var ns := old(nodeSets)[name];
                var actual := Actual(name, ns, old(owners), objectName, env);
                && nodeSets == old(nodeSets)[name := ReconcileNodeSet(ns, actual, mirror)]
                && owners == OwnersAfter(name, ns, old(owners), objectName, env)
    {
      if name !in nodeSets {
        return;
      }
      var ns := nodeSets[name];
      var ok := EnsureInputs(name, ns, env);
      if ok {
        ok := Provision(ns, env);
        if ok {
          FinishSetup(env);
        }
      }
      conditions := Summarize(conditions, mirror);
      if env.statusWritten {
        nodeSets := nodeSets[name := ns.(conditions := conditions)];
      }
    }
  }

  /** The loop over the nodes ends well, in any order, exactly when the nodeset can reserve for all
      of them, short of calls that fail for other reasons. */
  lemma ReservationDecides(order: seq<string>, name: string, ns: NodeSet, owners: Owners, objectName: string -> bool,
                           store: map<string, IPReservations.IPSet>)
    requires (forall n :: n in order <==> n in ns.nodes) && IPReservations.DistinctHostNames(ns.nodes)
    ensures var refused := RefusedFor(name, owners, objectName);
            IPReservations.ReserveFrom(order, 0, ns.nodes, ns.template, refused, store, map[]).1.Reserved?
            <==> CanReserveAll(name, ns, owners, objectName)
  {
    IPReservations.ReservingIgnoresOrder(order, ns.nodes, ns.template, RefusedFor(name, owners, objectName), store);
  }

  /** What the setup asks of the nodeset itself: networks for every node, host names that IP sets
      can have, and baremetal hosts unless the nodes are provisioned beforehand. */
  predicate CanBeSetUp(ns: NodeSet, objectName: string -> bool) {
    && (forall n | n in ns.nodes ::
          IPReservations.NetworksOf(ns.nodes[n], ns.template) != [] && objectName(ns.nodes[n].hostName))
    && (!ns.preProvisioned ==> ns.baremetalHosts > 0)
  }

  ghost predicate OwnsHosts(name: string, ns: NodeSet, owners: Owners) {
    forall h | h in HostsOf(ns) :: h in owners && owners[h] == name
  }

  // ---------- what SetupReady means ----------

  /** The conditions that a nodeset owes before it counts as set up. */
  ghost predicate SetUp(ns: NodeSet, cs: Conditions) {
    && IsTrue(cs, NodeSetIPReservationReadyCondition) && IsTrue(cs, NodeSetDNSDataReadyCondition)
       && IsTrue(cs, InputReadyCondition) && IsTrue(cs, ServiceAccountReadyCondition)
    && (!ns.preProvisioned ==> IsTrue(cs, NodeSetBareMetalProvisionReadyCondition))
  }

  ghost predicate AllStepsDone(ns: NodeSet, env: NodeSetEnv) {
    && env.configHashed && env.servicesEnsured && env.versionRead && env.deploymentsListed
    && env.ips.StepDone? && env.dns.StepDone? && env.input.StepDone? && env.serviceAccount.StepDone?
       && env.roleBinding.StepDone?
    && (!ns.preProvisioned ==> ns.baremetalHosts > 0 && env.baremetal.StepDone?)
    && (env.verdict.running || env.verdict.failed || env.inventoryWritten)
  }

  lemma InputFlowFacts(ns: NodeSet, env: NodeSetEnv)
    ensures var (cs, ok) := InputFlow(ns, env);
            && cs.Keys == InitialConditions(ns).Keys
            && Get(cs, ReadyCondition).Unknown? && Get(cs, DeploymentReadyCondition).Unknown?
               && Get(cs, SetupReadyCondition).False?
            && (ok <==>
                  env.configHashed && env.servicesEnsured && env.ips.StepDone? && env.dns.StepDone?
                  && env.input.StepDone?)
            && (ok ==>
                  IsTrue(cs, NodeSetIPReservationReadyCondition) && IsTrue(cs, NodeSetDNSDataReadyCondition)
                  && IsTrue(cs, InputReadyCondition))
            && Get(cs, NodeSetBareMetalProvisionReadyCondition).Unknown?
  {
  }

  lemma ProvisionFlowFacts(ns: NodeSet, env: NodeSetEnv, cs: Conditions)
    requires Get(cs, NodeSetBareMetalProvisionReadyCondition).Unknown?
    ensures var (cs', ok) := ProvisionFlow(ns, env, cs);
            && (forall t | t != ServiceAccountReadyCondition
               && t != NodeSetBareMetalProvisionReadyCondition :: Get(cs', t) == Get(cs, t))
            && (ok <==> env.serviceAccount.StepDone? && env.roleBinding.StepDone? && env.versionRead
                        && (!ns.preProvisioned ==> ns.baremetalHosts > 0 && env.baremetal.StepDone?))
            && (ok ==> IsTrue(cs', ServiceAccountReadyCondition))
            && (ok ==> (IsTrue(cs', NodeSetBareMetalProvisionReadyCondition) <==> !ns.preProvisioned))
            && (ok ==> cs'.Keys == cs.Keys + {ServiceAccountReadyCondition}
                                   + if ns.preProvisioned then {} else {NodeSetBareMetalProvisionReadyCondition})
  {
  }

  /** SetupReady ends True if and only if every step of the setup ended well, and then every
      condition it stands for is True. */
  lemma SetupReadyMeansSetUp(ns: NodeSet, env: NodeSetEnv)
    ensures IsTrue(NodeSetFlow(ns, env), SetupReadyCondition) <==> AllStepsDone(ns, env)
    ensures IsTrue(NodeSetFlow(ns, env), SetupReadyCondition) ==> SetUp(ns, NodeSetFlow(ns, env))
  {
    hide InputFlow, ProvisionFlow;
    InputFlowFacts(ns, env);
    ProvisionFlowFacts(ns, env, InputFlow(ns, env).0);
  }

  /** A nodeset is Ready if and only if it is set up and the verdict on its deployments is that it
      is ready, given a mirror that never reports True too early. A pre-provisioned nodeset that
      still has baremetal hosts never gets there: nothing settles their condition. */
  lemma ReadyMeansDeployed(ns: NodeSet, env: NodeSetEnv, mirror: Conditions -> Condition)
    requires MirrorIsSound(mirror)
    ensures IsTrue(Summarize(NodeSetFlow(ns, env), mirror), ReadyCondition)
       <==> AllStepsDone(ns, env) && env.verdict.ready && !(ns.preProvisioned && ns.baremetalHosts > 0)
  {
    hide InputFlow, ProvisionFlow, AllSubConditionsTrue, MirrorIsSound;
    var cs := NodeSetFlow(ns, env);
    AllTrueWhenDeployed(ns, env);
    assert Get(cs, ReadyCondition).Unknown? by {
      InputFlowFacts(ns, env);
      ProvisionFlowFacts(ns, env, InputFlow(ns, env).0);
    }
    SoundMirrorDecides(cs, mirror);
  }

  lemma AllTrueWhenDeployed(ns: NodeSet, env: NodeSetEnv)
    ensures AllSubConditionsTrue(NodeSetFlow(ns, env))
       <==> AllStepsDone(ns, env) && env.verdict.ready && !(ns.preProvisioned && ns.baremetalHosts > 0)
  {
    hide InputFlow, ProvisionFlow;
    InputFlowFacts(ns, env);
    ProvisionFlowFacts(ns, env, InputFlow(ns, env).0);
    var cs := NodeSetFlow(ns, env);
    assert SetupReadyCondition in cs;
    if AllStepsDone(ns, env) {
      assert Get(cs, DeploymentReadyCondition).True? <==> env.verdict.ready;
      assert NodeSetBareMetalProvisionReadyCondition in cs <==> !ns.preProvisioned || ns.baremetalHosts > 0;
    } else {
      assert !cs[SetupReadyCondition].True?;
    }
  }
}
