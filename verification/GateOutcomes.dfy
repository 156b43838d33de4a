/**
 Where the gates of a reconcile stop, and with which conditions; and when they open, in the fields
 of deployments, nodesets and services.
 */
module GateOutcomes {
  import opened Conditions
  import opened Services
  import opened Deployers
  import opened NodeSetControllers
  import opened DeploymentControllers
  import opened ReconcileOrder
  import DNSData

  // ---------- where the gates stop ----------

  /** The nodesets before `n` are read, and are there. */
  ghost predicate FetchedBefore(spec: DeploymentSpec, nodeSets: NodeSets, env: Env, n: int) {
    forall k | 0 <= k < n && k < |spec.nodeSets| :: env.read(k) == Got && spec.nodeSets[k] in nodeSets
  }

  ghost predicate AllReady(spec: DeploymentSpec, nodeSets: NodeSets) {
    forall k | Known(spec, nodeSets, k) :: Get(nodeSets[spec.nodeSets[k]].conditions, SetupReadyCondition) == True
  }

  /** Nothing is known yet of a deployment on these nodesets. */
  ghost predicate NothingKnown(spec: DeploymentSpec, st: Status) {
    && st.conditions == map[ReadyCondition := Unknown, DeploymentReadyCondition := Unknown,
                            InputReadyCondition := Unknown]
    && (forall n | n in spec.nodeSets ::
          n in st.nodeSetConditions && st.nodeSetConditions[n] == map[NodeSetDeploymentReadyCondition := Unknown])
    && !st.deployed
  }

  lemma {:induction false} FetchStopsAt(names: seq<string>, nodeSets: NodeSets, env: Env, i: nat, m: nat, st: Status)
    requires i <= m < |names| && forall k | i <= k < m :: env.read(k) == Got && names[k] in nodeSets
    requires env.read(m) != Got || names[m] !in nodeSets
    ensures FetchFrom(names, nodeSets, env, i, st)
         == Shut(if env.read(m) == ReadError
                 then st.(conditions := st.conditions[SetupReadyCondition := False(ErrorOccurred, Error)]) else st)
    decreases m - i
  {
    if i < m {
      FetchStopsAt(names, nodeSets, env, i + 1, m, st);
    }
  }

  /** The first nodeset that is not read ends the reconcile: an error of the read marks SetupReady, and a
      nodeset that is missing is waited for. */
  lemma UnreadNodeSetStops(cat: Catalogue, spec: DeploymentSpec, nodeSets: NodeSets, env: Env, m: nat)
    requires m < |spec.nodeSets| && FetchedBefore(spec, nodeSets, env, m)
    requires env.read(m) != Got || spec.nodeSets[m] !in nodeSets
    ensures var g := Gates(cat, spec, nodeSets, env);
            && g.Shut?
            && (env.read(m) == ReadError ==>
                  Get(g.status.conditions, SetupReadyCondition) == False(ErrorOccurred, Error)
                  && NothingKnown(spec, g.status.(conditions := g.status.conditions - {SetupReadyCondition})))
            && (env.read(m) != ReadError ==> NothingKnown(spec, g.status))
  {
    FetchStopsAt(spec.nodeSets, nodeSets, env, 0, m, InitialStatus(spec.nodeSets));
    hide FetchFrom;
    var conditions := InitialStatus(spec.nodeSets).conditions;
    assert conditions[SetupReadyCondition := False(ErrorOccurred, Error)] - {SetupReadyCondition} == conditions;
  }

  lemma AllFetched(cat: Catalogue, spec: DeploymentSpec, nodeSets: NodeSets, env: Env)
    requires FetchedBefore(spec, nodeSets, env, |spec.nodeSets|)
    ensures FetchFrom(spec.nodeSets, nodeSets, env, 0, InitialStatus(spec.nodeSets)).Open? && AllKnown(spec, nodeSets)
  {
    hide FetchFrom;
    FetchIff(spec.nodeSets, nodeSets, env, 0, InitialStatus(spec.nodeSets));
  }

  /** A nodeset that is not set up is waited for. */
  lemma NodeSetNotReadyStops(cat: Catalogue, spec: DeploymentSpec, nodeSets: NodeSets, env: Env)
    requires FetchedBefore(spec, nodeSets, env, |spec.nodeSets|) && !AllReady(spec, nodeSets)
    ensures var g := Gates(cat, spec, nodeSets, env); g.Shut? && NothingKnown(spec, g.status)
  {
    AllFetched(cat, spec, nodeSets, env);
    hide FetchFrom, CertsFrom;
  }

  /** The services of a deployment on a nodeset: those of its override, unless it is empty. */
  ghost predicate Lists(spec: DeploymentSpec, ns: NodeSet, services: seq<string>) {
    match spec.servicesOverride
    case Some(override) => services == if override == [] then ns.services else override
    case None => services == ns.services
  }

  /** Every node requests a network whose name is "ctlplane" in lower case. */
  ghost predicate OnControlPlane(ns: NodeSet) {
    forall n | n in ns.nodes ::
      HasControlPlane(if ns.nodes[n].networks == [] then ns.template else ns.nodes[n].networks)
  }

  ghost predicate HasControlPlane(networks: seq<string>) {
    exists i | 0 <= i < |networks| :: DNSData.Lower(networks[i]) == "ctlplane"
  }

  /** The certificates of a nodeset are ready, or it needs none. */
  ghost predicate CertsAreReady(cat: Catalogue, spec: DeploymentSpec, ns: NodeSet, outcome: Tls) {
    !ns.tlsEnabled
    || (outcome == CertsReady
        && forall services | Lists(spec, ns, services) :: forall s | s in services ::
           s in cat.services && (cat.services[s].tlsCerts ==> OnControlPlane(ns)))
  }

  lemma CertsDoneMeans(cat: Catalogue, spec: DeploymentSpec, ns: NodeSet, outcome: Tls)
    ensures CertsDone(cat, spec, ns, outcome) <==> CertsAreReady(cat, spec, ns, outcome)
  {
    assert Lists(spec, ns, ServicesFor(spec, ns));
    assert forall services | Lists(spec, ns, services) :: services == ServicesFor(spec, ns);
    assert forall networks :: OnCtlplane(networks) <==> HasControlPlane(networks);
    hide OnCtlplane, HasControlPlane;
    assert EveryNodeOnCtlplane(ns) <==> OnControlPlane(ns);
    hide EveryNodeOnCtlplane, OnControlPlane, Lists;
  }

  lemma {:induction false} CertsStopAt(cat: Catalogue, spec: DeploymentSpec, nodeSets: NodeSets, env: Env, i: nat,
                                       m: nat, st: Status)
    requires forall k | 0 <= k < |spec.nodeSets| ::
        spec.nodeSets[k] in nodeSets && spec.nodeSets[k] in st.nodeSetConditions
    requires i <= m < |spec.nodeSets|
    requires forall k | i <= k < m :: CertsAreReady(cat, spec, nodeSets[spec.nodeSets[k]], env.tls(k))
    requires !CertsAreReady(cat, spec, nodeSets[spec.nodeSets[m]], env.tls(m))
    ensures var failed := False(ErrorOccurred, Error);
            var n := spec.nodeSets[m];
            CertsFrom(cat, spec, nodeSets, env, i, st)
            == Shut(if env.tls(m) == CertsPending then st
                    else st.(conditions := st.conditions[InputReadyCondition := failed],
                             nodeSetConditions := st.nodeSetConditions[n :=
                               st.nodeSetConditions[n][NodeSetDeploymentReadyCondition := failed]]))
    decreases m - i
  {
    hide CertsDone, CertsAreReady, CertsPossible, ServicesFor;
    CertsDoneMeans(cat, spec, nodeSets[spec.nodeSets[i]], env.tls(i));
    if i < m {
      CertsStopAt(cat, spec, nodeSets, env, i + 1, m, st);
    } else {
      NotReadyOutcome(cat, spec, nodeSets[spec.nodeSets[m]], env.tls(m));
    }
  }

  lemma NotReadyOutcome(cat: Catalogue, spec: DeploymentSpec, ns: NodeSet, outcome: Tls)
    requires !CertsDone(cat, spec, ns, outcome)
    ensures TlsOutcome(cat, spec, ns, outcome) == if outcome == CertsPending then CertsPending else CertsFailed
  {
    hide CertsPossible, ServicesFor;
  }

  /** The first nodeset whose certificates are not ready ends the reconcile: what is pending is waited for,
      and a failure marks InputReady and this nodeset. */
  lemma CertificatesStop(cat: Catalogue, spec: DeploymentSpec, nodeSets: NodeSets, env: Env, m: nat)
    requires FetchedBefore(spec, nodeSets, env, |spec.nodeSets|) && AllReady(spec, nodeSets)
    requires m < |spec.nodeSets| && spec.nodeSets[m] in nodeSets
    requires forall k | 0 <= k < m && Known(spec, nodeSets, k) ::
        CertsAreReady(cat, spec, nodeSets[spec.nodeSets[k]], env.tls(k))
    requires !CertsAreReady(cat, spec, nodeSets[spec.nodeSets[m]], env.tls(m))
    ensures var g := Gates(cat, spec, nodeSets, env);
            && g.Shut? && !g.status.deployed && spec.nodeSets[m] in g.status.nodeSetConditions
            && (env.tls(m) == CertsPending ==> NothingKnown(spec, g.status))
            && (env.tls(m) != CertsPending ==>
                  && Get(g.status.conditions, InputReadyCondition) == False(ErrorOccurred, Error)
                  && Get(g.status.conditions, DeploymentReadyCondition) == Unknown
                  && Get(g.status.nodeSetConditions[spec.nodeSets[m]], NodeSetDeploymentReadyCondition)
                     == False(ErrorOccurred, Error))
  {
    AllFetched(cat, spec, nodeSets, env);
    hide FetchFrom, CertsAreReady, Consistent, Flatten, ServiceLists;
    CertsStopAt(cat, spec, nodeSets, env, 0, m, InitialStatus(spec.nodeSets));
    hide CertsFrom;
  }

  ghost predicate AllCertsReady(cat: Catalogue, spec: DeploymentSpec, nodeSets: NodeSets, env: Env) {
    forall k | Known(spec, nodeSets, k) :: CertsAreReady(cat, spec, nodeSets[spec.nodeSets[k]], env.tls(k))
  }

  /** No service that is deployed on all nodesets is listed twice, and every listed one can be read. */
  ghost predicate GlobalsListedOnce(services: ServiceStore, listed: seq<string>, readable: nat -> bool) {
    && (forall i: nat | i < |listed| :: readable(i) && listed[i] in services)
    && (forall i, j | 0 <= i < j < |listed| && listed[i] == listed[j] && listed[i] in services ::
          !services[listed[i]].deployOnAllNodeSets)
  }

  /** The lists of the nodesets, one after the other. */
  ghost predicate ListsInOrder(spec: DeploymentSpec, nodeSets: NodeSets, listed: seq<string>)
    decreases |spec.nodeSets|
  {
    if spec.nodeSets == [] then listed == []
    else
      var n := |spec.nodeSets| - 1;
      && spec.nodeSets[n] in nodeSets
      && var own := nodeSets[spec.nodeSets[n]].services;
         && |own| <= |listed| && listed[|listed| - |own|..] == own
         && ListsInOrder(spec.(nodeSets := spec.nodeSets[..n]), nodeSets, listed[..|listed| - |own|])
  }

  lemma {:induction false} FlattenedLists(spec: DeploymentSpec, nodeSets: NodeSets)
    requires AllKnown(spec, nodeSets)
    ensures ListsInOrder(spec, nodeSets, Flatten(ServiceLists(spec.nodeSets, nodeSets)))
    decreases |spec.nodeSets|
  {
    if spec.nodeSets != [] {
      var n := |spec.nodeSets| - 1;
      var rest := spec.(nodeSets := spec.nodeSets[..n]);
      FlattenedLists(rest, nodeSets);
      assert ServiceLists(spec.nodeSets, nodeSets)[..n] == ServiceLists(rest.nodeSets, nodeSets);
      var init, own := Flatten(ServiceLists(rest.nodeSets, nodeSets)), nodeSets[spec.nodeSets[n]].services;
      assert Flatten(ServiceLists(spec.nodeSets, nodeSets)) == init + own;
      assert (init + own)[..|init|] == init && (init + own)[|init|..] == own;
    }
  }

  lemma ConsistentMeans(services: ServiceStore, listed: seq<string>, readable: nat -> bool)
    ensures Consistent(services, listed, readable) <==> GlobalsListedOnce(services, listed, readable)
  {
  }

  /** With the inputs in place, a service that is deployed on all nodesets but listed twice, or that
      cannot be read, is an error of the deployment; and without the version the reconcile waits. */
  lemma InputsThenServices(cat: Catalogue, spec: DeploymentSpec, nodeSets: NodeSets,
                           env: Env) returns (listed: seq<string>)
    requires FetchedBefore(spec, nodeSets, env, |spec.nodeSets|) && AllReady(spec, nodeSets)
             && AllCertsReady(cat, spec, nodeSets, env)
    ensures ListsInOrder(spec, nodeSets, listed)
    ensures var g := Gates(cat, spec, nodeSets, env);
            var bad := spec.servicesOverride == None && !GlobalsListedOnce(cat.services, listed, env.serviceRead);
            && (g == Open <==> !bad && env.versionRead)
            && (g != Open ==>
                  && Get(g.status.conditions, InputReadyCondition) == True && !g.status.deployed
                  && Get(g.status.conditions, DeploymentReadyCondition)
                     == if bad then False(ErrorOccurred, Error) else Unknown)
  {
    AllFetched(cat, spec, nodeSets, env);
    hide FetchFrom, CertsAreReady;
    forall k | 0 <= k < |spec.nodeSets|
      ensures CertsDone(cat, spec, nodeSets[spec.nodeSets[k]], env.tls(k))
    {
      assert Known(spec, nodeSets, k);
      CertsDoneMeans(cat, spec, nodeSets[spec.nodeSets[k]], env.tls(k));
    }
    FlattenedLists(spec, nodeSets);
    listed := Flatten(ServiceLists(spec.nodeSets, nodeSets));
    ConsistentMeans(cat.services, listed, env.serviceRead);
    hide CertsFrom, Consistent, GlobalsListedOnce, ListsInOrder, Flatten, CertsDone;
  }
}
