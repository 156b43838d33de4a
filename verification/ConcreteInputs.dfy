/**
 Single inputs behind the general results: deployments that the API server takes and that are
 never Deployed, one for each way to miss the condition, and a reconcile that panics.
 */
module ConcreteInputs {
  import opened Conditions
  import opened AnsibleExecutions
  import opened Services
  import opened ObjectNames
  import opened HostNames
  import opened Deployers
  import opened NodeSetControllers
  import opened DeploymentControllers
  import opened ServiceOrder
  import opened ServiceProgress
  import opened ReconcileOrder
  import opened Protocol
  import opened Liveness
  import opened SetUps
  import opened Deployability
  import DNSData

  // ---------- one deployment of one service on one nodeset ----------

  const PLAIN := ServiceSpec(false, false, false, false, None)
  const ONE_NODE := map["node" := DNSData.Node("node", ["ctlplane"])]
  const NODESET := NodeSet(["service"], false, true, 0, ONE_NODE, [], map[])
  const FRESH := Status(map[], map[], false)

  function OneNodeSet(d: string, ns: NodeSet): System {
    System(map[], map[d := Deployment(PLAIN_SPEC, FRESH)], map["nodeset" := ns], map[])
  }

  /** A catalogue with one service of the given name. */
  function WithService(name: string, spec: ServiceSpec, camel: string -> string,
                       mirror: Conditions -> Condition): Catalogue
  {
    StandardCatalogue(map[name := spec], camel, mirror)
  }

  ghost predicate Never(cat: Catalogue, s: System, d: string) {
    forall events :: !DeployedAfter(cat, s, events, d)
  }

  /** Missing any part of the condition is enough. */
  lemma NotDeployable(cat: Catalogue, s: System, d: string)
    requires Initial(s) && MirrorIsSound(cat.mirror) && d in s.deployments
    requires !Deployable(cat, d, s.deployments[d].spec, s.nodeSets)
    ensures Never(cat, s, d)
  {
    hide Deployable, Initial, MirrorIsSound, DeployedAfter;
    forall events
      ensures !DeployedAfter(cat, s, events, d)
    {
      if DeployedAfter(cat, s, events, d) {
        DoneOnlyIfDeployable(cat, s, events, d);
      }
    }
  }

  /** Lower-case letters with dashes in between. */
  predicate Dashed(s: string) {
    && s != [] && 'a' <= s[0] <= 'z' && 'a' <= s[|s| - 1] <= 'z'
    && forall i | 0 <= i < |s| :: 'a' <= s[i] <= 'z' || s[i] == '-'
  }

  lemma DashedIsName(s: string)
    requires Dashed(s) && |s| <= LABEL_LEN
    ensures IsRFC1123HostName(s) && IsObjectName(s) && IsLabelValue(s)
  {
    NoDotNoSplit(s);
  }

  lemma PlainNames()
    ensures IsRFC1123HostName("deploy") && IsObjectName("node") && IsObjectName("service-deploy-nodeset")
    ensures IsLabelValue("service") && IsLabelValue("deploy") && IsLabelValue("nodeset")
  {
    hide IsRFC1123HostName, IsObjectName, IsLabelValue;
    DashedIsName("deploy");
    DashedIsName("node");
    DashedIsName("service");
    DashedIsName("nodeset");
    DashedIsName("service-deploy-nodeset");
  }

  const PLAIN_SPEC := DeploymentSpec(["nodeset"], None)
  const PLAIN_JOB := Labels("service", "deploy", "nodeset")

  lemma PlainJobAccepted(camel: string -> string, mirror: Conditions -> Condition)
    ensures WithService("service", PLAIN, camel, mirror).admissible(PLAIN_JOB)
  {
    PlainNames();
    hide IsObjectName, IsLabelValue;
    assert JoinedName(PLAIN_JOB, false) == "service-deploy-nodeset";
  }

  lemma OneOwnLabel(cat: Catalogue, d: string, ns: NodeSet, l: Labels)
    requires ns.services == ["service"] && OwnLabels(cat, d, PLAIN_SPEC, map["nodeset" := ns], l)
    ensures l == Labels("service", d, "nodeset")
  {
    hide First;
    var k :| Known(PLAIN_SPEC, map["nodeset" := ns], k) && PLAIN_SPEC.nodeSets[k] == l.nodeSet
        && Listed(cat, ServicesAt(PLAIN_SPEC, map["nodeset" := ns], k), l.service);
  }

  lemma OneListConsistent(services: ServiceStore, ns: NodeSet)
    requires ns.services == ["service"] && "service" in services
    ensures Consistent(services, Flatten(ServiceLists(["nodeset"], map["nodeset" := ns])), ALL_READABLE)
  {
    assert ServiceLists(["nodeset"], map["nodeset" := ns]) == [["service"]];
    assert Flatten([["service"]]) == ["service"] by { assert [["service"]][..0] == []; }
  }

  /** Nothing stands in the way of the plain deployment. */
  lemma PlainIsDeployable(camel: string -> string, mirror: Conditions -> Condition)
    ensures Deployable(WithService("service", PLAIN, camel, mirror), "deploy", PLAIN_SPEC, map["nodeset" := NODESET])
  {
    var cat := WithService("service", PLAIN, camel, mirror);
    PlainNames();
    PlainJobAccepted(camel, mirror);
    OneListConsistent(cat.services, NODESET);
    hide IsRFC1123HostName, IsObjectName, IsLabelValue, OwnLabels, Consistent, JobAccepted, ServiceLists;
    forall l | OwnLabels(cat, "deploy", PLAIN_SPEC, map["nodeset" := NODESET], l)
      ensures l == PLAIN_JOB
    {
      OneOwnLabel(cat, "deploy", NODESET, l);
    }
  }

  /** So some run ends with Deployed. */
  lemma PlainGetsDeployed(camel: string -> string, mirror: Conditions -> Condition)
    requires MirrorIsSound(mirror)
    ensures exists events ::
        DeployedAfter(WithService("service", PLAIN, camel, mirror), OneNodeSet("deploy", NODESET), events, "deploy")
  {
    hide Deployable, MirrorIsSound, DeployedAfter;
    PlainIsDeployable(camel, mirror);
    DeployableIff(WithService("service", PLAIN, camel, mirror), OneNodeSet("deploy", NODESET), "deploy");
  }

  // ---------- deployments that are never done ----------

  /** A name of 64 letters is fine for the API server, but every reconcile turns it away. */
  lemma LongNameNeverDeploys(camel: string -> string, mirror: Conditions -> Condition)
    requires MirrorIsSound(mirror)
    ensures var d := seq(64, _ => 'd');
            IsObjectName(d) && Never(WithService("service", PLAIN, camel, mirror), OneNodeSet(d, NODESET), d)
  {
    var d := seq(64, _ => 'd');
    NoDotNoSplit(d);
    assert !IsHostLabel(Split(d)[0]);
    var cat := WithService("service", PLAIN, camel, mirror);
    assert !cat.validName(d);
    NotDeployable(cat, OneNodeSet(d, NODESET), d);
  }

  lemma NodeSetNeverSetUp(ns: NodeSet, camel: string -> string, mirror: Conditions -> Condition)
    requires MirrorIsSound(mirror) && ns.conditions == map[]
    requires !CanBeSetUp(ns, WithService("service", PLAIN, camel, mirror).objectName)
    ensures Never(WithService("service", PLAIN, camel, mirror), OneNodeSet("deploy", ns), "deploy")
  {
    var cat, s := WithService("service", PLAIN, camel, mirror), OneNodeSet("deploy", ns);
    hide IsObjectName, CanBeSetUp;
    assert Known(PLAIN_SPEC, s.nodeSets, 0);
    assert !GatePassable(cat, PLAIN_SPEC, s.nodeSets, 0);
    NotDeployable(cat, s, "deploy");
  }

  /** Nodes that are still to be provisioned, but no hosts to provision. */
  lemma NoHostsNeverDeploys(camel: string -> string, mirror: Conditions -> Condition)
    requires MirrorIsSound(mirror)
    ensures Never(WithService("service", PLAIN, camel, mirror),
            OneNodeSet("deploy", NODESET.(preProvisioned := false, nodes := map[])), "deploy")
  {
    NodeSetNeverSetUp(NODESET.(preProvisioned := false, nodes := map[]), camel, mirror);
  }

  /** A node without networks, of its own or from the template. */
  lemma NoNetworksNeverDeploys(camel: string -> string, mirror: Conditions -> Condition)
    requires MirrorIsSound(mirror)
    ensures Never(WithService("service", PLAIN, camel, mirror),
            OneNodeSet("deploy", NODESET.(nodes := map["node" := DNSData.Node("node", [])])), "deploy")
  {
    var ns := NODESET.(nodes := map["node" := DNSData.Node("node", [])]);
    assert "node" in ns.nodes;
    NodeSetNeverSetUp(ns, camel, mirror);
  }

  /** A host name with a capital, which no IP set can have as its name. */
  lemma CapitalHostNeverDeploys(camel: string -> string, mirror: Conditions -> Condition)
    requires MirrorIsSound(mirror)
    ensures Never(WithService("service", PLAIN, camel, mirror),
            OneNodeSet("deploy", NODESET.(nodes := map["Node" := DNSData.Node("Node", ["ctlplane"])])), "deploy")
  {
    var ns := NODESET.(nodes := map["Node" := DNSData.Node("Node", ["ctlplane"])]);
    NoDotNoSplit("Node");
    assert !Bounded(Split("Node")[0], LOWER_OR_DIGIT);
    assert "Node" in ns.nodes;
    NodeSetNeverSetUp(ns, camel, mirror);
  }

  /** Certificates for a node that is not on the control plane. */
  lemma OffCtlplaneNeverDeploys(camel: string -> string, mirror: Conditions -> Condition)
    requires MirrorIsSound(mirror)
    ensures Never(WithService("service", PLAIN.(tlsCerts := true), camel, mirror),
            OneNodeSet("deploy", NODESET.(tlsEnabled := true,
              nodes := map["node" := DNSData.Node("node", ["storage"])])), "deploy")
  {
    var ns := NODESET.(tlsEnabled := true, nodes := map["node" := DNSData.Node("node", ["storage"])]);
    var cat, s := WithService("service", PLAIN.(tlsCerts := true), camel, mirror), OneNodeSet("deploy", ns);
    assert DNSData.Lower("storage")[0] == 's';
    assert !EveryNodeOnCtlplane(ns) by { assert "node" in ns.nodes; }
    assert "service" in ServicesFor(PLAIN_SPEC, ns);
    assert Known(PLAIN_SPEC, s.nodeSets, 0);
    assert !GatePassable(cat, PLAIN_SPEC, s.nodeSets, 0);
    NotDeployable(cat, s, "deploy");
  }

  /** Certificate mounts from a service that is not there. */
  lemma NoSourceNeverDeploys(camel: string -> string, mirror: Conditions -> Condition)
    requires MirrorIsSound(mirror)
    ensures Never(WithService("service", PLAIN.(addCertMounts := true, certsFrom := Some("other")), camel, mirror),
            OneNodeSet("deploy", NODESET.(tlsEnabled := true)), "deploy")
  {
    var ns := NODESET.(tlsEnabled := true);
    var cat := WithService("service", PLAIN.(addCertMounts := true, certsFrom := Some("other")), camel, mirror);
    var s := OneNodeSet("deploy", ns);
    assert Known(PLAIN_SPEC, s.nodeSets, 0);
    assert "service" in ServicesAt(PLAIN_SPEC, s.nodeSets, 0) && "other" !in cat.services;
    assert !Usable(cat, TargetAt(cat, "deploy", PLAIN_SPEC, s.nodeSets, 0), "service");
    NotDeployable(cat, s, "deploy");
  }

  /** Certificate mounts for a nodeset that has no nodes, and so no certificates. */
  lemma NoNodesNeverDeploys(camel: string -> string, mirror: Conditions -> Condition)
    requires MirrorIsSound(mirror)
    ensures Never(WithService("service", PLAIN.(addCertMounts := true, tlsCerts := true), camel, mirror),
            OneNodeSet("deploy", NODESET.(tlsEnabled := true, nodes := map[])), "deploy")
  {
    var ns := NODESET.(tlsEnabled := true, nodes := map[]);
    var cat := WithService("service", PLAIN.(addCertMounts := true, tlsCerts := true), camel, mirror);
    var s := OneNodeSet("deploy", ns);
    assert Known(PLAIN_SPEC, s.nodeSets, 0);
    assert "service" in ServicesAt(PLAIN_SPEC, s.nodeSets, 0);
    assert !Usable(cat, TargetAt(cat, "deploy", PLAIN_SPEC, s.nodeSets, 0), "service");
    NotDeployable(cat, s, "deploy");
  }

  const OTHER_NODESET := NODESET.(services := [])

  /** The IP set of a host that two nodesets share belongs to one of them. */
  lemma SharedHostNeverDeploys(camel: string -> string, mirror: Conditions -> Condition)
    requires MirrorIsSound(mirror)
    ensures var s := OneNodeSet("deploy", NODESET).(
              deployments := map["deploy" := Deployment(DeploymentSpec(["nodeset", "other"], None), FRESH)],
              nodeSets := map["nodeset" := NODESET, "other" := OTHER_NODESET]);
            Never(WithService("service", PLAIN, camel, mirror), s, "deploy")
  {
    var spec := DeploymentSpec(["nodeset", "other"], None);
    var nodeSets := map["nodeset" := NODESET, "other" := OTHER_NODESET];
    var s := OneNodeSet("deploy", NODESET).(deployments := map["deploy" := Deployment(spec, FRESH)],
                                            nodeSets := nodeSets);
    assert "node" in NODESET.nodes && "node" in OTHER_NODESET.nodes;
    assert "node" in HostsOf(NODESET) && "node" in HostsOf(OTHER_NODESET);
    assert Known(spec, nodeSets, 0) && Known(spec, nodeSets, 1);
    assert !HostsApart(spec, nodeSets);
    NotDeployable(WithService("service", PLAIN, camel, mirror), s, "deploy");
  }

  // ---------- a name cut at a dash ----------

  const LONG_SERVICE := seq(53, _ => 's')
  const CUT_JOB := Labels(LONG_SERVICE, "computes", "nodeset")

  /** The execution name of this job is cut behind its second dash, so the API server refuses it. */
  lemma CutNameRefused(camel: string -> string, mirror: Conditions -> Condition)
    ensures !WithService(LONG_SERVICE, PLAIN, camel, mirror).admissible(CUT_JOB)
  {
    var name := ExecutionName(CUT_JOB, false);
    assert JoinedName(CUT_JOB, false) == LONG_SERVICE + "-" + "computes" + "-" + "nodeset";
    assert |name| == 63 && name[62] == '-';
    assert '.' !in name;
    NoDotNoSplit(name);
    assert !Bounded(Split(name)[0], LOWER_OR_DIGIT);
  }

  lemma CutNameNeverDeploys(camel: string -> string, mirror: Conditions -> Condition)
    requires MirrorIsSound(mirror)
    ensures Never(WithService(LONG_SERVICE, PLAIN, camel, mirror),
            OneNodeSet("computes", NODESET.(services := [LONG_SERVICE])), "computes")
  {
    var cat, s := WithService(LONG_SERVICE, PLAIN, camel, mirror),
        OneNodeSet("computes", NODESET.(services := [LONG_SERVICE]));
    CutNameRefused(camel, mirror);
    hide JobAccepted;
    assert Known(PLAIN_SPEC, s.nodeSets, 0);
    assert First(cat, [LONG_SERVICE], 0) && Listed(cat, [LONG_SERVICE], LONG_SERVICE);
    assert OwnLabels(cat, "computes", PLAIN_SPEC, s.nodeSets, CUT_JOB);
    NotDeployable(cat, s, "computes");
  }

  // ---------- two services that meet in one name ----------

  const FIRST_JOB := Labels("x", "d", "d-y")
  const SECOND_JOB := Labels("x-d", "d", "y")

  lemma MeetingNamesNeverDeploy(camel: string -> string, mirror: Conditions -> Condition)
    requires MirrorIsSound(mirror)
    ensures var cat := StandardCatalogue(map["x" := PLAIN, "x-d" := PLAIN], camel, mirror);
            var s := System(map[], map["d" := Deployment(DeploymentSpec(["d-y", "y"], None), FRESH)],
              map["d-y" := NODESET.(services := ["x"], nodes := map[]),
                  "y" := NODESET.(services := ["x-d"], nodes := map[])], map[]);
            Never(cat, s, "d")
  {
    var cat := StandardCatalogue(map["x" := PLAIN, "x-d" := PLAIN], camel, mirror);
    var spec := DeploymentSpec(["d-y", "y"], None);
    var nodeSets := map["d-y" := NODESET.(services := ["x"], nodes := map[]),
                        "y" := NODESET.(services := ["x-d"], nodes := map[])];
    var s := System(map[], map["d" := Deployment(spec, FRESH)], nodeSets, map[]);
    NamesCanCollide();
    assert cat.executionName(FIRST_JOB) == cat.executionName(SECOND_JOB);
    assert Known(spec, nodeSets, 0) && Known(spec, nodeSets, 1);
    hide ExecutionName, JobAccepted;
    assert First(cat, ["x"], 0) && Listed(cat, ["x"], "x");
    assert First(cat, ["x-d"], 0) && Listed(cat, ["x-d"], "x-d");
    assert OwnLabels(cat, "d", spec, nodeSets, FIRST_JOB) && OwnLabels(cat, "d", spec, nodeSets, SECOND_JOB);
    NotDeployable(cat, s, "d");
  }

  // ---------- a reconcile that panics ----------

  /** Every call is good, except the second lookup of each job. */
  const LOST_LOOKUP := GOOD_ENV.(calls := (i: nat) => (j: nat) => GOOD_CALL.(listedAfter := ListError))

  /** The replay writes the job and then fails to find it. */
  lemma ReplayPanics(cat: Catalogue, t: Target, conds: Conditions)
    requires cat.admissible(PLAIN_JOB) && t.LabelsOf("service") == PLAIN_JOB && Usable(cat, t, "service")
    requires Get(conds, cat.ConditionTypeOf("service")).Unknown?
    ensures var s := DeployFrom(cat, t, ["service"], 0, map[], conds, LOST_LOOKUP.calls(0));
            s.outcome.Panic? && HasJob(cat.executionName, s.jobs, PLAIN_JOB)
  {
    hide Settle, GetAnsibleExecution;
    var jobs: JobStore := map[];
    assert GetAnsibleExecution(jobs, PLAIN_JOB) == NotFound by { NoJobNotFound(jobs, PLAIN_JOB); }
    var s := DeployOne(cat, t, "service", jobs, conds, GOOD_CALL.(listedAfter := ListError));
    assert s == Settle(cat, t, "service", s.jobs, conds, REQUESTED, ListError);
    LostLookupPanics(cat, t, "service", s.jobs, conds);
  }

  lemma NoJobNotFound(jobs: JobStore, l: Labels)
    requires jobs == map[]
    ensures GetAnsibleExecution(jobs, l) == NotFound
  {
    assert Matching(jobs, l) == {};
  }

  lemma LostLookupPanics(cat: Catalogue, t: Target, service: string, jobs: JobStore, conds: Conditions)
    ensures Settle(cat, t, service, jobs, conds, REQUESTED, ListError).outcome.Panic?
  {
  }

  lemma LoopPanics(cat: Catalogue, nodeSets: NodeSets)
    requires cat.admissible(PLAIN_JOB) && "nodeset" in nodeSets && nodeSets["nodeset"].services == ["service"]
    requires Usable(cat, TargetFor(cat, "deploy", PLAIN_SPEC, "nodeset", nodeSets["nodeset"]), "service")
    ensures var p := DeployNodeSetsFrom(cat, "deploy", PLAIN_SPEC, nodeSets, 0, StartOf(PLAIN_SPEC, map[]),
            LOST_LOOKUP);
            p.panicked && HasJob(cat.executionName, p.jobs, PLAIN_JOB)
  {
    hide DeployFrom, HasJob, Usable;
    var t := TargetFor(cat, "deploy", PLAIN_SPEC, "nodeset", nodeSets["nodeset"]);
    ReplayPanics(cat, t, map[NodeSetDeploymentReadyCondition := Unknown]);
    var start := StartOf(PLAIN_SPEC, map[]);
    assert start.status.nodeSetConditions["nodeset"] == map[NodeSetDeploymentReadyCondition := Unknown];
    assert DeployNodeSet(cat, "deploy", PLAIN_SPEC, nodeSets, 0, start, LOST_LOOKUP).panicked;
  }

  lemma PlainSetsUp(cat: Catalogue)
    requires cat.objectName("node")
    ensures var s0 := OneNodeSet("deploy", NODESET);
            var s := Run(cat, s0, SetUpEvents(["nodeset"]));
            && s.jobs == map[] && s.deployments == s0.deployments && SetupReadyIn(s, "nodeset")
            && s.nodeSets == map["nodeset" := NODESET.(conditions := s.nodeSets["nodeset"].conditions)]
  {
    hide Run, ReconcileNodeSet, SetupReadyIn;
    var s0 := OneNodeSet("deploy", NODESET);
    assert CanSetUpAll(cat, s0, ["nodeset"]);
    SetUpEventsSetUp(cat, s0, ["nodeset"]);
    RunKeepsObjects(cat, s0, SetUpEvents(["nodeset"]));
    var s := Run(cat, s0, SetUpEvents(["nodeset"]));
    assert SetupReadyIn(s, "nodeset");
  }

  lemma PlainGatesOpen(cat: Catalogue, nodeSets: NodeSets)
    requires "nodeset" in nodeSets && IsTrue(nodeSets["nodeset"].conditions, SetupReadyCondition)
    requires nodeSets == map["nodeset" := NODESET.(conditions := nodeSets["nodeset"].conditions)]
    requires "service" in cat.services
    ensures Gates(cat, PLAIN_SPEC, nodeSets, LOST_LOOKUP).Open?
  {
    hide Gates, Consistent, Flatten, ServiceLists, CertsPossible;
    OneListConsistent(cat.services, nodeSets["nodeset"]);
    assert map["nodeset" := nodeSets["nodeset"]] == nodeSets;
    GatesOpenIff(cat, PLAIN_SPEC, nodeSets, LOST_LOOKUP);
  }

  /** Once its nodeset is set up, the plain deployment is reconciled with lookups that fail after the
      job is written: the job is there, and the reconcile goes on without it and panics. */
  lemma PanicHappens(camel: string -> string, mirror: Conditions -> Condition)
    ensures var cat := WithService("service", PLAIN, camel, mirror);
            var s := Run(cat, OneNodeSet("deploy", NODESET), SetUpEvents(["nodeset"]));
            && "deploy" in s.deployments
            && var r := Reconcile(cat, "deploy", s.deployments["deploy"], s.nodeSets, s.jobs, LOST_LOOKUP);
               r.panicked && HasJob(cat.executionName, r.jobs, PLAIN_JOB)
  {
    var cat := WithService("service", PLAIN, camel, mirror);
    PlainNames();
    PlainJobAccepted(camel, mirror);
    hide Run, Gates, DeployNodeSetsFrom, HasJob, IsObjectName, IsRFC1123HostName, JobAccepted, IsLabelValue;
    PlainSetsUp(cat);
    var s := Run(cat, OneNodeSet("deploy", NODESET), SetUpEvents(["nodeset"]));
    PlainGatesOpen(cat, s.nodeSets);
    LoopPanics(cat, s.nodeSets);
  }
}
