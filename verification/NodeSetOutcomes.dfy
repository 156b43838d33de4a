/**
 Each condition of a nodeset at the end of a reconcile, from how its steps ended.
 */
module NodeSetOutcomes {
  import opened Conditions
  import opened NodeSetControllers
  import IPReservations

  // ---------- how far a reconcile gets ----------

  ghost predicate ServicesEnsured(env: NodeSetEnv) {
    env.configHashed && env.servicesEnsured
  }

  ghost predicate IPsReserved(env: NodeSetEnv) {
    ServicesEnsured(env) && env.ips == StepDone
  }

  ghost predicate DNSWritten(env: NodeSetEnv) {
    IPsReserved(env) && env.dns == StepDone
  }

  ghost predicate InputsThere(env: NodeSetEnv) {
    DNSWritten(env) && env.input == StepDone
  }

  ghost predicate AccountsThere(env: NodeSetEnv) {
    InputsThere(env) && env.serviceAccount == StepDone && env.roleBinding == StepDone && env.versionRead
  }

  ghost predicate NodesProvisioned(ns: NodeSet, env: NodeSetEnv) {
    AccountsThere(env) && (ns.preProvisioned || (ns.baremetalHosts > 0 && env.baremetal == StepDone))
  }

  /** The inventory is written unless a deployment is running or has failed. */
  ghost predicate InventoryThere(env: NodeSetEnv) {
    env.verdict.running || env.verdict.failed || env.inventoryWritten
  }

  /** A step ends well, is waited for, or ends with the given error. */
  ghost predicate Shows(e: Ensure, error: Condition, c: Condition) {
    match e
    case StepDone => c == True
    case StepPending => c == False(Requested, Info)
    case StepFailed => c == error
  }

  const ERROR := False(ErrorOccurred, Error)

  // ---------- the conditions ----------

  /** The conditions of the steps up to the inputs. */
  lemma InputConditions(ns: NodeSet, env: NodeSetEnv)
    ensures var (cs, ok) := InputFlow(ns, env);
            && (ok <==> InputsThere(env))
            && (if ServicesEnsured(env) then Shows(env.ips, ERROR, Get(cs, NodeSetIPReservationReadyCondition))
                else Get(cs, NodeSetIPReservationReadyCondition) == Unknown)
            && (if IPsReserved(env) then Shows(env.dns, ERROR, Get(cs, NodeSetDNSDataReadyCondition))
                else Get(cs, NodeSetDNSDataReadyCondition) == Unknown)
            && (if DNSWritten(env) then Shows(env.input, False(Requested, Error), Get(cs, InputReadyCondition))
                else Get(cs, InputReadyCondition) == Unknown)
            && Get(cs, SetupReadyCondition)
               == (if env.configHashed && !env.servicesEnsured then ERROR else False(Requested, Info))
            && Get(cs, ServiceAccountReadyCondition) == Unknown && Get(cs, DeploymentReadyCondition) == Unknown
            && Get(cs, NodeSetBareMetalProvisionReadyCondition) == Unknown
  {
  }

  /** The conditions of the accounts and of the baremetal nodes; the others stay. */
  lemma ProvisionConditions(ns: NodeSet, env: NodeSetEnv, cs: Conditions)
    requires Get(cs, NodeSetBareMetalProvisionReadyCondition) == Unknown
    ensures var (cs', ok) := ProvisionFlow(ns, env, cs);
            var accounts := env.serviceAccount == StepDone && env.roleBinding == StepDone && env.versionRead;
            && (ok <==> accounts && (ns.preProvisioned || (ns.baremetalHosts > 0 && env.baremetal == StepDone)))
            && Shows(if env.serviceAccount == StepDone then env.roleBinding else env.serviceAccount,
                 False(ErrorOccurred, Warning), Get(cs', ServiceAccountReadyCondition))
            && (if accounts && !ns.preProvisioned && ns.baremetalHosts > 0
                then Shows(env.baremetal, ERROR, Get(cs', NodeSetBareMetalProvisionReadyCondition))
                else Get(cs', NodeSetBareMetalProvisionReadyCondition) == Unknown)
            && (forall t | t != ServiceAccountReadyCondition && t != NodeSetBareMetalProvisionReadyCondition ::
                  Get(cs', t) == Get(cs, t))
  {
  }

  /** What the deployments and the inventory make of the last two conditions; the others stay. */
  lemma DeploymentConditions(env: NodeSetEnv, cs: Conditions)
    requires Get(cs, DeploymentReadyCondition) == Unknown
    ensures var cs' := DeploymentFlow(env, cs);
            && Get(cs', SetupReadyCondition)
               == (if !env.deploymentsListed then Get(cs, SetupReadyCondition)
                   else if InventoryThere(env) then True else ERROR)
            && Get(cs', DeploymentReadyCondition)
               == (if !env.deploymentsListed then ERROR
                   else if !InventoryThere(env) then Unknown
                   else if env.verdict.ready then True
                   else if env.verdict.running then False(Requested, Info)
                   else if env.verdict.failed then ERROR
                   else False(Requested, Info))
            && (forall t | t != SetupReadyCondition && t != DeploymentReadyCondition :: Get(cs', t) == Get(cs, t))
  {
  }

  /** Every condition at the end of the flow, from how far it got and how the step ended. */
  lemma ConditionsAtTheEnd(ns: NodeSet, env: NodeSetEnv)
    ensures var cs := NodeSetFlow(ns, env);
            && (if ServicesEnsured(env) then Shows(env.ips, ERROR, Get(cs, NodeSetIPReservationReadyCondition))
                else Get(cs, NodeSetIPReservationReadyCondition) == Unknown)
            && (if IPsReserved(env) then Shows(env.dns, ERROR, Get(cs, NodeSetDNSDataReadyCondition))
                else Get(cs, NodeSetDNSDataReadyCondition) == Unknown)
            && (if DNSWritten(env) then Shows(env.input, False(Requested, Error), Get(cs, InputReadyCondition))
                else Get(cs, InputReadyCondition) == Unknown)
            && (if InputsThere(env)
                then Shows(if env.serviceAccount == StepDone then env.roleBinding else env.serviceAccount,
                       False(ErrorOccurred, Warning), Get(cs, ServiceAccountReadyCondition))
                else Get(cs, ServiceAccountReadyCondition) == Unknown)
            && (if AccountsThere(env) && !ns.preProvisioned && ns.baremetalHosts > 0
                then Shows(env.baremetal, ERROR, Get(cs, NodeSetBareMetalProvisionReadyCondition))
                else Get(cs, NodeSetBareMetalProvisionReadyCondition) == Unknown)
            && Get(cs, SetupReadyCondition)
               == (if env.configHashed && !env.servicesEnsured then ERROR
                   else if !NodesProvisioned(ns, env) || !env.deploymentsListed then False(Requested, Info)
                   else if InventoryThere(env) then True else ERROR)
            && Get(cs, DeploymentReadyCondition)
               == (if !NodesProvisioned(ns, env) then Unknown
                   else if !env.deploymentsListed then ERROR
                   else if !InventoryThere(env) then Unknown
                   else if env.verdict.ready then True
                   else if env.verdict.running then False(Requested, Info)
                   else if env.verdict.failed then ERROR
                   else False(Requested, Info))
  {
    hide InputFlow, ProvisionFlow, DeploymentFlow;
    var (cs, ok) := InputFlow(ns, env);
    InputConditions(ns, env);
    if ok {
      var (cs', ok') := ProvisionFlow(ns, env, cs);
      ProvisionConditions(ns, env, cs);
      if ok' {
        DeploymentConditions(env, cs');
      }
    }
  }

  /** The summary: Ready when everything else is True, else what the conditions mirror. */
  lemma ReadyAtTheEnd(cs: Conditions, mirror: Conditions -> Condition)
    requires Get(cs, ReadyCondition) == Unknown
    ensures Get(Summarize(cs, mirror), ReadyCondition)
         == if forall t | t in cs && t != ReadyCondition :: cs[t] == True then True else mirror(cs)
    ensures forall t | t != ReadyCondition :: Get(Summarize(cs, mirror), t) == Get(cs, t)
  {
  }

  /** The reservation ends in an error when a node has no networks, or its IP set cannot have the name of
      the host or belongs to another nodeset; else it ends as its calls do. */
  lemma ReservationEnds(name: string, ns: NodeSet, owners: Owners, objectName: string -> bool, env: NodeSetEnv)
    ensures var impossible := exists n | n in ns.nodes ::
                (ns.nodes[n].networks == [] && ns.template == [])
                || !objectName(ns.nodes[n].hostName)
                || (ns.nodes[n].hostName in owners && owners[ns.nodes[n].hostName] != name);
            Actual(name, ns, owners, objectName, env).ips == if impossible then StepFailed else env.ips
  {
    if n :| n in ns.nodes && ((ns.nodes[n].networks == [] && ns.template == [])
                              || !objectName(ns.nodes[n].hostName)
                              || (ns.nodes[n].hostName in owners && owners[ns.nodes[n].hostName] != name)) {
      assert !IPReservations.CanReserve(ns.nodes[n], ns.template, RefusedFor(name, owners, objectName));
    }
  }

  /** The owner of an IP set after the reservation: it stays, and a nodeset that reaches a host that no one
      owns gets it. */
  lemma OwnerAfter(name: string, ns: NodeSet, owners: Owners, objectName: string -> bool, env: NodeSetEnv, h: string)
    ensures var owners' := OwnersAfter(name, ns, owners, objectName, env);
            var writes := ServicesEnsured(env) && objectName(h)
                && (exists n | n in ns.nodes :: ns.nodes[n].hostName == h)
                          && (Actual(name, ns, owners, objectName, env).ips != StepFailed || env.reached(h));
            && (h in owners' <==> h in owners || writes)
            && (h in owners' ==> owners'[h] == if h in owners then owners[h] else name)
  {
    hide CanReserveAll;
  }
}
