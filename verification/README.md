# Verification of the dataplane operator

This project models the parts of the dataplane operator in which state, order and naming
interact, and proves what they keep.

**The deployment protocol.** A reconcile of an OpenStackDataPlaneDeployment may be interrupted
anywhere: it resets all conditions, passes its gates, replays every service of every nodeset
from the start, creates or patches one AnsibleEE job per service, and stops a nodeset at the
first service whose job has not succeeded. `Protocol.dfy` is a transition system over the job
store, the persisted deployment statuses and the nodesets. Its events are deployment reconciles
with any outcome of every call, among them stale and failed lists, writes that were applied but
not acknowledged, lookups that cut the reconcile short, and lost status writes, nodeset
reconciles with any outcome of their steps, and changes of job statuses. Safety holds over all
runs (`ProtocolTheorems.dfy`, `SetUps.dfy`). Progress has a bound and a termination measure
(`DeploymentProgress.dfy`), also among arbitrary other events (`FairProgress.dfy`), and whether a
deployment can ever be done has an exact condition (`Deployability.dfy`), with an input for each
way to miss it (`ConcreteInputs.dfy`).

**Around it.** `FailedLookups.dfy`: when a reconcile is cut short. `NodeSetIndependence.dfy`:
nodesets do not hold each other back. `NodeSetVerdict.dfy`: what deployments and nodesets say to
each other is true. `AeeSpec.dfy`: the contents of jobs, on a heap with shared slices and a
shared map. `CheckDeployment.dfy` and `NodeSetController.dfy`: what a nodeset makes of its
deployments and of its setup steps. `CertPacking.dfy`, `CertPackingTheorems.dfy`,
`CertAlignment.dfy`, `CertPublication.dfy`, `CertConvergence.dfy`, `CertNames.dfy`,
`GateCertificates.dfy`: packing certificates into secrets, publishing them, reading them back, the
names they are stored under, and the gate in front of the jobs. `HostNames.dfy`, `DnsData.dfy`,
`IPReservations.dfy`: host names, DNS data and reservations. `Admission.dfy`, `AdmissionRuns.dfy`:
defaults and the duplicate check. `ObjectNames.dfy`: which names are accepted.

**Case by case.** `DeploymentOutcomes.dfy`, `GateOutcomes.dfy`, `ListedServices.dfy`,
`ServiceOutcomes.dfy`, `NodeSetOutcomes.dfy`, `CheckVerdicts.dfy`, `CertOutcomes.dfy`,
`JobVariables.dfy`, `DnsNames.dfy` and `AdmissionDefaults.dfy` say what each condition, verdict,
variable, name and default is, in the fields of the objects and in literals: which event leads to
which condition, with its reason and severity, and when two results are the same.

Where the source changes fields in place the model has classes with methods, each proved equal
to a specification function; the properties are lemmas about these functions.

## Assumptions

- The condition library (lib-common) is not part of this model. An absent condition reads as
  Unknown; an error is False with severity Error; "all sub-conditions" means every condition but
  Ready. How conditions are mirrored is a parameter; where it matters it is required that a
  mirror never reports True while some condition is not (`MirrorIsSound`).
- The protocol theorems hold for every naming of jobs and every naming of service conditions.
  `StandardCatalogue` is the operator's own, with camel-casing as a parameter. A service whose
  condition type repeats an earlier one is passed over, as in the code, and the theorems speak of
  the list without such repetitions.
- Which names are accepted is a parameter of the protocol. `StandardCatalogue` takes the rules of
  `ObjectNames.dfy`: "hostname_rfc1123" of the validation library for deployments, and the API
  server's rules for the names of jobs and IP sets and for the labels of jobs. Both are stated
  from their definitions; neither library is part of this model.
- Specifications of deployments, nodesets and services stay fixed, and nothing is deleted; a job
  that has succeeded stays so, and a failed job has its own Ready condition. An IP set that one
  nodeset has written belongs to it, and the operator cannot take it over for another one.
- Defaulting stores an empty map of baremetal hosts, or of certificates, as none.
- What else a step needs is an outcome of its calls, which any run may choose: reservations (on
  requested networks only), DNS data, the ssh secret, service accounts, provisioning, the
  operator's own service files, config maps and secrets of data sources, and the certificates
  themselves, including those that a service outside the list got through another deployment. A
  certificate secret comes only from the nodeset it is named after. So `DeployableIff` says what
  names and specifications decide, with everything else going well.
- A reconcile reads the deployment and its nodesets as they are, not an older copy from a cache,
  and no job changes its status while a reconcile runs; what may be stale are the lists of jobs.
- A failed lookup ends a reconcile where it happens, with the status as it then is; the deferred
  write of the status still takes place.
- The order of map iteration, the capacity that append chooses and the outcome of calls are
  parameters of the methods, and everything holds for all of them.
- Sorting of strings is byte order on characters; names are taken as ASCII, so that a length in
  characters is a length in bytes.

## Findings

- Whether a deployment can ever be Deployed has an exact condition (`Deployability.DeployableIff`).
  Inputs that nothing refuses beforehand and that miss it: a deployment name with a label of more
  than 63 characters; nodes still to be provisioned but no hosts; a node without networks; two
  nodesets with a host of one name, as its IP set belongs to one of them; certificates for a node
  off the control plane; certificate mounts from a service that does not exist, or for a nodeset
  without nodes; an execution name that is cut behind a dash; two services that meet in one
  execution name. `ConcreteInputs.dfy` has an input for each.
- An override that lists a service deployed on all nodesets keeps a deployment of two nodesets from
  ever being Deployed, since the consistency check is skipped then
  (`Deployability.OverriddenGlobalServiceNeverDeploys`).
- A second lookup of a job that fails with an error other than "not found" makes the reconcile
  panic, exactly under `FailedLookups.ReconcilePanicIff`, and `ConcreteInputs.PanicHappens` is a
  reconcile that does; no invariant is lost by it.
- A pre-provisioned nodeset that has baremetal hosts is never Ready: nothing settles their
  condition (`NodeSetVerdict.ReadyIffNewestDone`).
- Two hosts with one short name in different domains, such as "node.aa" and "node.aa-edpm.com", can
  break the triples of their certificates (`CertNames.StraddlingHappens`); hosts with distinct
  short names never do (`CertNames.DNSNamesNeverStraddle`).
- Two reservations of a host whose networks agree in lower case keep the address and the name of
  only one of them (`DNSData.MapsFollowReservationsIff`).
- The packing reads beyond its keys when two are over and drops one that is over; the operator
  never hands it such a number (`CertPublication.CertificatesPackWhole`).
- Two pairs of service and certificate key can share their secret names
  (`CertPublication.PrefixesCanCoincide`). Publishing then ends if and only if they publish the same
  secrets (`CertConvergence.LoopEndsIff`).
- `CtlplaneSearchDomain` keeps the last control plane domain: the variable that should remember
  the first one is never set; it is the first exactly when first and last agree
  (`DNSData.SearchDomainIsFirstIff`).
- A new IP set without conditions counts as ready (`IPReservations.ReservedHostsHaveIPSets`).
- A short host name given for a provisioned node is lost: its replacement starts from the name of the
  node (`Admission.GivenHostNameKeptIff`).
- Nodes without host names can end with the same one, exactly under `AdmissionDefaults.UnnamedNodesMeetIff`,
  as "x" and "x.example.org" do in the domain "example.org" (`AdmissionDefaults.UnnamedNodesMeet`).
- A host like "node.c1" in the control plane domain "c1" has no control plane name in the DNS data
  (`DnsNames.NoControlPlaneName`); the exact condition is `DnsNames.ControlPlaneNameIff`.
- The jobs of a nodeset that is named "all" are played on "all", as those of global services are
  (`JobVariables.RunsOnAllIff`).
- A node without Ansible host matches a stored empty host name in the duplicate check
  (`Admission.DuplicateNodeCheck`); defaulting rules that out for named nodes.

## Model

| member | source | states |
|---|---|---|
| ProtocolTheorems.JobsFormPrefix | pkg/deployment/deployment.go:73-162 | In every state any run can reach, the services of a nodeset that have a job are the first ones of its list without repeated condition types, all of them but the last have succeeded, and no other service has a job |
| ProtocolTheorems.OneJobPerService | pkg/util/ansible_execution.go:62-77 | In every reachable state a label triple has at most one job, the lookup never finds several, and without an override a service deployed on all nodesets has at most one job per deployment |
| ProtocolTheorems.DeployedMeansDone | controllers/openstackdataplanedeployment_controller.go:120-143 | In every persisted status Deployed holds if and only if Ready is True, and then every service of every nodeset has succeeded |
| ProtocolTheorems.DeployedIsFinal | controllers/openstackdataplanedeployment_controller.go:101-105 | Once Deployed, no later event of the system changes the status of the deployment or creates, patches or changes one of its jobs, reconciles reading current objects |
| NodeSetVerdict.NodeSetSaysDoneRightly | controllers/openstackdataplanedeployment_controller.go:337-362 | In every persisted status a nodeset whose deployment condition is True has all its services succeeded, whether or not the deployment is done elsewhere |
| NodeSetVerdict.ReadyNodeSetIsDeployed | controllers/openstackdataplanenodeset_controller.go:388-447 | In every reachable state, when a nodeset checks the deployments there are and ends Ready, all services of the newest deployment that names it have succeeded on it |
| NodeSetVerdict.ReadyIffNewestDone | controllers/openstackdataplanenodeset_controller.go:178-196 | A nodeset whose verdict comes from the check is Ready if and only if it is set up, is not pre-provisioned with baremetal hosts, no live deployment naming it is in error, and the newest one says it is deployed |
| ProtocolTheorems.JobsOnlyOnSetUpNodeSets | controllers/openstackdataplanedeployment_controller.go:189-250 | A reconcile writes a job only when every nodeset of the deployment has its addresses, DNS data, inputs, service account and, unless pre-provisioned, its baremetal nodes in place, and its certificate step was ready if TLS is enabled |
| GateCertificates.JobsOnlyWithCertificates | controllers/openstackdataplanedeployment_controller.go:197-247 | When the TLS gate follows the certificates and a reconcile writes a job, every certificate volume of all its TLS nodesets reads back exactly its certificates |
| ProtocolTheorems.ReachableInvariant | controllers/openstackdataplanedeployment_controller.go:68-398 | Every run from an untouched system keeps the order of jobs, the meaning of statuses, the global-service check and the meaning of SetupReady |
| Protocol.StepKeeps | controllers/openstackdataplanedeployment_controller.go:68-398 | Each single event, a reconcile with any outcomes of its calls (stale and failed lists, lost acknowledgements, lost status writes and lookups that cut it short included), a nodeset reconcile or a change of job statuses, keeps the invariant |
| Deployability.DeployableIff | controllers/openstackdataplanedeployment_controller.go:68-398 | From a system nothing has touched, some run ends with Deployed if and only if the name of the deployment is valid, its nodesets exist, can be set up (networks for every node, host names that IP sets can have, baremetal hosts unless pre-provisioned), share no host, and can have the certificates they need, its services and the sources of their certificate mounts exist, its jobs are accepted under execution names that stay apart and, unless services are overridden, no global service is listed twice |
| Deployability.DoneOnlyIfDeployable | controllers/openstackdataplanedeployment_controller.go:68-398 | No run reaches Deployed when any part of that condition is missing |
| Deployability.OverriddenGlobalServiceNeverDeploys | controllers/openstackdataplanedeployment_controller.go:270-282 | With the operator's own naming, an override that lists a service deployed on all nodesets keeps a deployment of two nodesets from ever being Deployed |
| SetUps.SetUpNodeSetsOwnTheirHosts | pkg/deployment/ipam.go:284-315 | In every reachable state a nodeset that is SetupReady has networks for every node and baremetal hosts unless pre-provisioned, owns the IP sets of all its hosts, and shares no host with another one that is SetupReady |
| SetUps.DonePassedGates | controllers/openstackdataplanedeployment_controller.go:73-247 | In every reachable state a deployment that is Deployed has a valid name, nodesets that could be set up next to each other, and certificates that could be had |
| ConcreteInputs.PlainGetsDeployed | controllers/openstackdataplanedeployment_controller.go:68-398 | One pre-provisioned node on the control plane, one service: some run ends with Deployed |
| ConcreteInputs.LongNameNeverDeploys | controllers/openstackdataplanedeployment_controller.go:73-78 | A deployment named by 64 letters, which the API server takes, is never Deployed: every reconcile turns the name away |
| ConcreteInputs.NoHostsNeverDeploys | pkg/deployment/baremetal.go:49-51 | A nodeset without nodes that is not pre-provisioned has no hosts, and its deployment is never Deployed |
| ConcreteInputs.NoNetworksNeverDeploys | pkg/deployment/ipam.go:310-314 | A node with networks neither of its own nor from the template keeps its deployment from ever being Deployed |
| ConcreteInputs.SharedHostNeverDeploys | pkg/deployment/ipam.go:295-308 | Two nodesets with a host of one name are never both set up, as its IP set belongs to one of them, so a deployment of both is never Deployed |
| ConcreteInputs.OffCtlplaneNeverDeploys | pkg/deployment/cert.go:162-170 | A certificate for a node that is not on the control plane network keeps a deployment from ever being Deployed |
| ConcreteInputs.NoSourceNeverDeploys | pkg/deployment/deployment.go:261-273 | Certificate mounts that come from a service that does not exist keep a deployment from ever being Deployed |
| ConcreteInputs.NoNodesNeverDeploys | pkg/deployment/deployment.go:286-293 | Certificate mounts for a nodeset without nodes, which has published no certificates, keep a deployment from ever being Deployed |
| ConcreteInputs.CutNameNeverDeploys | pkg/util/ansible_execution.go:291-302 | A service name of 53 characters and a deployment name of 8 give an execution name that is cut behind a dash, which the API server refuses, so the deployment is never Deployed |
| ConcreteInputs.MeetingNamesNeverDeploy | pkg/util/ansible_execution.go:291-302 | Services "x" and "x-d" on nodesets "d-y" and "y" meet in one execution name, and their deployment "d" is never Deployed |
| DeploymentProgress.DeployedWithinBound | controllers/openstackdataplanedeployment_controller.go:68-398 | When the deployment is deployable, its nodesets are set up and its names are its own, with no more than n distinct services per nodeset, n rounds of one good reconcile and every job succeeding, and one more reconcile, end with Deployed; a nodeset may be listed twice |
| FairProgress.FairLegsReachDeployed | controllers/openstackdataplanedeployment_controller.go:68-398 | With any other events in between, more good reconciles than any nodeset has unfinished services end with Deployed, if each finds the deployment done or able to make progress (deployable, set up, its names its own) and the jobs it leaves succeed before the next |
| FairProgress.UnfinishedNeverRises | pkg/deployment/deployment.go:135-148 | No event that keeps the objects and what has succeeded, as every event does, raises the number of unfinished services |
| DeploymentProgress.RoundProgress | pkg/deployment/deployment.go:135-148 | One round strictly lowers the number of unfinished services of every unfinished nodeset, and its reconcile ends with Deployed exactly when nothing was unfinished |
| DeploymentProgress.RoundsReachDeployed | controllers/openstackdataplanedeployment_controller.go:68-398 | The termination measure, under the same premises: as many rounds as the largest number of unfinished services, and one reconcile, reach Deployed |
| DeploymentProgress.GoodReconcile | controllers/openstackdataplanedeployment_controller.go:68-398 | When all calls succeed, the reconcile of a deployable deployment on set-up nodesets ends with Deployed if and only if all services had succeeded, and otherwise leaves an outstanding job on every unfinished nodeset |
| ReconcileOrder.GatesOpenIff | controllers/openstackdataplanedeployment_controller.go:166-287 | The gates open if and only if every nodeset was read and is SetupReady, with TLS its services exist, its nodes are on the control plane if a service needs certificates, and these are ready, the services are consistent unless an override is given, and the version was read |
| ReconcileOrder.ReconcileKeeps | controllers/openstackdataplanedeployment_controller.go:68-398 | One reconcile, with any outcomes of its calls, keeps the order of its jobs and the meaning of its status, writes only jobs of its own deployment and changes no job status |
| FailedLookups.ReconcilePanicIff | pkg/deployment/deployment.go:196-216 | A reconcile goes on with a job it does not have, and so panics, if and only if the name of the deployment is valid, it is not done, its gates open and its loop comes to a service whose second lookup fails with an error other than "not found" |
| FailedLookups.ReplayPanicIff | pkg/deployment/deployment.go:196-216 | A replay is cut short if and only if it gets through all services before one whose second lookup fails; several jobs with the same labels never do it |
| ConcreteInputs.PanicHappens | pkg/deployment/deployment.go:196-216 | One nodeset that is set up, one service, good calls and a second lookup that fails: the reconcile panics, and the job it created is in the store |
| NodeSetIndependence.NodeSetsAreIndependent | controllers/openstackdataplanedeployment_controller.go:289-363 | Unless a failed lookup cuts the loop short at or before its turn, a nodeset that shares no name with the others ends with the conditions and the jobs of a replay of this nodeset alone, whatever happens to them |
| ReconcileOrder.ConcludeMeaning | controllers/openstackdataplanedeployment_controller.go:365-398 | The loop concludes with Deployed exactly when it was not cut short, nothing failed and nothing is left, and Ready goes with it; DeploymentOutcomes.VerdictOfReplays has its other conclusions |
| ReconcileOrder.JobsOnlyBehindGates | controllers/openstackdataplanedeployment_controller.go:155-287 | If a reconcile changed any job, every gate was open |
| DeploymentControllers.DeploymentReconciler.ReconcileDeployment | controllers/openstackdataplanedeployment_controller.go:68-398 | A name that is not valid is turned away; otherwise the reconcile leaves the jobs, the status and the outcome that its specification gives for the stored deployment |
| DeploymentControllers.DeploymentReconciler.PassGates | controllers/openstackdataplanedeployment_controller.go:155-287 | The gates, one after the other, stop with exactly the status that the specification gives, or leave InputReady True |
| DeploymentControllers.DeploymentReconciler.FetchNodeSets | controllers/openstackdataplanedeployment_controller.go:155-181 | A nodeset that is missing or unreadable ends the reconcile; the status is marked only for a read error |
| DeploymentControllers.DeploymentReconciler.EnsureCerts | controllers/openstackdataplanedeployment_controller.go:197-247 | The certificate step of each TLS nodeset is taken in order, and the first that failed, or has a service missing or a node off the control plane where certificates are needed, marks InputReady and the nodeset |
| DeploymentControllers.DeploymentReconciler.DeployNextNodeSet | controllers/openstackdataplanedeployment_controller.go:293-363 | One pass of the loop updates jobs, conditions and the three flags as its specification says |
| DeploymentControllers.DeploymentReconciler.DeployNodeSets | controllers/openstackdataplanedeployment_controller.go:289-391 | The loop over the nodesets and its conclusion leave what the specification gives |
| Deployers.DeploymentStatus.InitConditions | api/v1beta1/openstackdataplanedeployment_types.go:136-156 | Every reconcile starts with all conditions Unknown, no service condition, and Deployed false |
| Deployers.Deployer.Deploy | pkg/deployment/deployment.go:59-164 | The replay of the services in order, which stops at the first that is not True, matches its specification on jobs, conditions and outcome |
| Deployers.Deployer.ConditionalDeploy | pkg/deployment/deployment.go:169-251 | An Unknown condition starts the job, a False one is settled by the status of the job that a second lookup finds, a True one is passed over; a lookup that fails leaves no job to look at |
| Deployers.Deployer.AddCertMounts | pkg/deployment/deployment.go:254-293 | The loop over the listed services passes if and only if each is there and has its certificates from itself, from another listed service, or from one that exists, on a nodeset with nodes |
| ServiceOrder.DeployKeepsOrder | pkg/deployment/deployment.go:73-162 | A replay gives a service its job only after all services before it have succeeded, keeps every True condition backed by a succeeded job, and writes only jobs of its target |
| ServiceOrder.DeployOneConditions | pkg/deployment/deployment.go:169-251 | One service writes only its own condition, and the replay goes on if and only if that is True, which takes a succeeded job |
| ServiceProgress.GoodReplay | pkg/deployment/deployment.go:73-162 | With good calls, free names and conditions that say no more than the jobs, as at the start of a reconcile or after an earlier replay in it, a replay finishes if and only if every service has succeeded, and otherwise leaves an outstanding job |
| ServiceProgress.ReplayWritesOwnNames | pkg/deployment/deployment.go:73-162 | A replay leaves the job under every execution name but its own alone |
| ServiceProgress.ReplayReadsOwnNames | pkg/deployment/deployment.go:73-162 | Two stores that agree at the execution names of a nodeset give the same conditions, outcome and jobs |
| Liveness.DoneWasDeployable | pkg/util/ansible_execution.go:249-309 | Two services with one execution name cannot both have succeeded, so a finished deployment behind its gates had its names apart and its jobs accepted |
| Liveness.UnfinishedAtMostAll | pkg/deployment/deployment.go:73-162 | The measure starts at no more than the number of distinct services |
| AnsibleExecutions.LookupIsExact | pkg/util/ansible_execution.go:249-277 | In a store keyed by execution names the lookup by labels finds exactly the job of these labels or nothing, never several |
| AnsibleExecutions.ExecuteEffect | pkg/util/ansible_execution.go:62-77 | A request writes at most the one job it is for, keeps labels and statuses, and keeps the store keyed |
| AnsibleExecutions.ExecuteCreatesUnlessTaken | pkg/util/ansible_execution.go:62-77 | A request ends with its job in the store if and only if its execution name is free or held by this very job |
| AnsibleExecutions.NamesDistinctWhenUncut | pkg/util/ansible_execution.go:280-309 | On one nodeset of one deployment, different services have different names as long as nothing is cut |
| AnsibleExecutions.NamesCanCollide | pkg/util/ansible_execution.go:291-309 | The dashes do not delimit: two different label triples, and a global service on any two nodesets, share a name |
| AnsibleExecutions.Cluster.AnsibleExecution | pkg/util/ansible_execution.go:41-245 | The request leaves the store, and reports the success, that its specification gives |
| Services.CheckGlobalServiceExecutionConsistency | pkg/deployment/service.go:164-187 | The check passes if and only if every listed service can be read and no service deployed on all nodesets is listed twice |
| Services.ServiceInList | pkg/deployment/service.go:190-197 | The search finds a service if and only if it is in the list |
| Services.GlobalServiceInOneList | pkg/deployment/service.go:164-187 | After a check that passed, a global service is listed for at most one nodeset |
| AeeSpecs.JobHasItsOwnContents | pkg/deployment/deployment.go:68-133 | Although the map of variables and the mount slices are shared, a job holds its nodeset's mounts, its service's, the certificates if flagged and its own secrets, and the deployment's variables overlaid with its own |
| AeeSpecs.JobContents.DeployNodeSets | controllers/openstackdataplanedeployment_controller.go:293-335 | All nodesets share one map of variables by reference; the jobs are those of independent specifications, and the mounts of the nodesets are never written |
| AeeSpecs.JobContents.Deploy | pkg/deployment/deployment.go:68-133 | The reset and the appends to the shared slice give each job the mounts of a fresh copy; the shared map changes only under the override keys |
| AeeSpecs.JobContents.AnsibleExecution | pkg/util/ansible_execution.go:77-245 | One job is filled in with what the specification holds at that moment and written unless it is refused; the shared map has its override keys either way |
| AeeSpecs.WrittenIff | pkg/util/ansible_execution.go:62-80 | A request writes its job, acknowledged or not, if and only if no call is refused and the execution name is free or held by the same deployment |
| AeeSpecs.JobContents.JobVars | pkg/util/ansible_execution.go:85-134 | The shared map is used when it has entries, else the variables of the job itself; both get the override keys |
| AeeSpecs.AgreementIsEnough | pkg/util/ansible_execution.go:112-134 | What earlier services left under the override keys never reaches a later job |
| AeeSpecs.WriteNodeSetsKeepClean | pkg/util/ansible_execution.go:85-117 | A deployment without variables keeps each of its jobs free of anything but override keys, from one reconcile to the next |
| AeeSpecs.Append | pkg/deployment/deployment.go:453 | Go's append: the result is the old view and one element, in place when there is room and in a fresh array otherwise, and the old view is unchanged |
| AeeSpecs.JobContents.MountSecrets | pkg/util/ansible_execution.go:136-223 | The loops over the sorted ssh keys and inventories give the mounts of the specification |
| AeeSpecs.JobOfOneNodeSetMountsItsOwn | pkg/util/ansible_execution.go:143-223 | A job for one nodeset mounts the ssh key and the inventory of this nodeset and of no other |
| AeeSpecs.JobOfAllNodeSetsMountsAll | pkg/util/ansible_execution.go:143-223 | A job for all nodesets mounts the ssh key and the inventory of each of them |
| AeeSpecs.SecretsHaveTheirOwnPaths | pkg/util/ansible_execution.go:143-223 | No two secrets of a job for all nodesets are mounted on the same path |
| NodeSetControllers.SetupReadyMeansSetUp | controllers/openstackdataplanenodeset_controller.go:173-417 | SetupReady ends True if and only if every setup step ended well, and then every condition it stands for is True |
| NodeSetControllers.NodeSetReconciler.Reconcile | controllers/openstackdataplanenodeset_controller.go:132-450 | The reconcile leaves the conditions that the flow of its steps gives, if the status is written, and the owners of IP sets; the reservation fails where a node lacks networks or its IP set is refused or belongs to another nodeset, and the baremetal step where there are no hosts |
| NodeSetControllers.ReservationDecides | pkg/deployment/ipam.go:284-315 | The loop over the nodes succeeds, in any order, exactly when every node has networks and an IP set that is neither refused nor owned by another nodeset |
| CheckDeployments.NodeSetStatus.CheckDeployment | controllers/openstackdataplanenodeset_controller.go:452-527 | The sort and the loop with its early exit give the flags and the record of the specification |
| CheckDeployments.VerdictOfNewest | controllers/openstackdataplanenodeset_controller.go:466-507 | At most one flag is set; failed if and only if some live deployment naming the nodeset is in error; otherwise the flags are those of the newest one |
| CheckDeployments.RecordIsOverlay | controllers/openstackdataplanenodeset_controller.go:509-521 | The recorded maps are the old ones overlaid, oldest to newest, by each finished deployment before the first error; no key is lost |
| CheckDeployments.CheckIsIdempotent | controllers/openstackdataplanenodeset_controller.go:483-521 | Checking the same deployments again gives the same flags and changes nothing |
| CheckDeployments.CheckIgnoresListOrder | controllers/openstackdataplanenodeset_controller.go:466-481 | With distinct transition times neither the flags nor the record depend on the order of the list |
| CertPacking.CreateSecretsDataStructure | pkg/deployment/cert.go:43-75 | The stride-3 loop packs greedily from its sentinel start and never writes through a nil pointer; it reads beyond the keys if and only if two are over |
| CertPackingTheorems.PackingIsPartition | pkg/deployment/cert.go:49-74 | The secrets are pairwise disjoint, hold exactly the kept entries, are never empty, and exceed the limit only for one oversized triple |
| CertPackingTheorems.KeptIff | pkg/deployment/cert.go:54 | Nothing is lost if and only if the number of keys divides by three; one key over is the last one, and it is dropped |
| CertPackingTheorems.PackingIsOptimalCut | pkg/deployment/cert.go:52-72 | No cut of the sorted triples into consecutive runs that fit uses fewer secrets |
| CertPackingTheorems.PackingIsWithinTwice | pkg/deployment/cert.go:52-72 | The packing uses fewer than twice as many secrets as any secrets within the limit that together hold the kept entries, however they split the triples |
| CertPackingTheorems.GreedyCuts | pkg/deployment/cert.go:52-72 | The runs put together are the triples in order, and each was closed because the next triple did not fit |
| CertAlignment.AlignedIff | pkg/deployment/cert.go:49-55 | Sorting keeps the three keys of every node in one triple if and only if no base name extends another by a dash and a rest between "ca.crt" and "tls.key" |
| CertAlignment.NoExtensionNoStraddling | pkg/deployment/cert.go:184-187 | Base names none of which extends another by a dash are always aligned |
| CertAlignment.NeverSplitIff | pkg/deployment/cert.go:49-72 | No node is split over two secrets, whatever the certificates and the size limit, if and only if no base name straddles another |
| CertNames.DNSNamesNeverStraddle | pkg/deployment/cert.go:162-170 | Base names that come from the DNS data never straddle each other when the nodes have distinct short names |
| CertNames.NodesOfDNSInOneSecret | pkg/deployment/cert.go:54-72 | So the three parts of the certificate of each such node are in one published secret, for every size limit |
| CertNames.StraddlingHappens | pkg/deployment/cert.go:184-187 | Two hosts with one short name can straddle: the keys of "node.aa-edpm.com" fall between those of "node.aa" |
| CertPublication.SecretStore.EnsureTLSCerts | pkg/deployment/cert.go:79-217 | The call collects the certificates, stops at the first node without one, and publishes one changed secret before it asks to be called again |
| CertPublication.SecretStore.Publish | pkg/deployment/cert.go:189-217 | The packing of collected certificates never stops on an index, and each secret is written with its number and the count |
| CertPublication.SecretStore.CertSources | pkg/deployment/deployment.go:288-313 | The sources of a volume are as many secrets as the first one counts, or none if one is missing |
| CertPublication.RoundTrip | pkg/deployment/deployment.go:288-313 | Once the certificates of a nodeset with nodes are ready, the sources are exactly the published secrets in order, and their data merged are exactly the certificates |
| CertPublication.PublishReadyIff | pkg/deployment/cert.go:196-216 | A publication is ready if and only if no call is refused and the store already holds every secret; it then changes nothing |
| CertPublication.PublishingEnds | pkg/deployment/cert.go:196-216 | From any store, as many calls as there are secrets make the next one ready |
| CertConvergence.LoopEndsIff | controllers/openstackdataplanedeployment_controller.go:209-244 | With good calls, repeating the loop over all requests of a nodeset ends Ready if and only if requests with the same secret names publish the same secrets, or one of them none |
| CertPublication.SecretStore.EnsureNodeSetCerts | controllers/openstackdataplanedeployment_controller.go:209-244 | The loop over the services and certificate keys of a nodeset stops at the first that is not ready |
| CertPublication.AllReadyTogether | controllers/openstackdataplanedeployment_controller.go:209-244 | When it comes through, all its requests are ready in one and the same store, which it has not changed |
| CertPublication.EveryVolumeReadsBack | pkg/deployment/deployment.go:288-313 | Then every certificate volume of the nodeset reads back exactly its certificates, even where secret names could meet |
| CertPublication.CertificatesPackWhole | pkg/deployment/cert.go:54-58 | The number of collected keys divides by three, so the packing neither reads beyond them nor loses one |
| CertPublication.CollectHoldsEach | pkg/deployment/cert.go:89-188 | With distinct base names each node finds its own certificate under its own keys, whatever the order of the map |
| CertPublication.SecretNamesApart | pkg/deployment/cert.go:283-286 | Two secret names agree if and only if their joined prefixes and their numbers do |
| CertPublication.PrefixesCanCoincide | pkg/deployment/cert.go:283-286 | The joined prefix does not separate service and key: two different pairs share it |
| CertPublication.NothingToPublish | pkg/deployment/deployment.go:288-293 | A nodeset without nodes publishes nothing, and reading its sources from an empty store fails |
| SortedKeys.AtoiOfItoa | pkg/deployment/deployment.go:294 | The count written as a decimal numeral is read back as the same number |
| SortedKeys.SortedUnique | pkg/deployment/cert.go:46-50 | Any correct sort of the keys gives this sequence, so the order of map iteration never shows |
| HostNames.RegexAcceptsFQDNs | api/v1beta1/openstackdataplanenodeset.go:24-31 | The regular expression accepts exactly two or more labels, the last of two letters or more, the others non-empty of letters, digits and hyphens |
| HostNames.FQDNSplits | pkg/deployment/inventory.go:194-205 | For a fully qualified name the second part of the split exists, and short name, dot and domain rebuild the name |
| DNSData.DNSDetails.CreateOrPatchDNSData | pkg/deployment/ipam.go:85-167 | The nested loops give the records, both maps and the search domain of the specification, which does not see the order of the map of nodes |
| DNSData.RecordsFollowReservations | pkg/deployment/ipam.go:106-146 | The list has one record per reservation, host after host in sorted order, each with the address and the names of that reservation |
| DNSData.MapsFollowReservationsIff | pkg/deployment/ipam.go:111-138 | For every host AllIPs gives the address of each of its reservations if and only if those whose networks agree in lower case have one address, and Hostnames gives the last name of each record, and none where it has none, if and only if those agree on it |
| DNSData.DistinctNetworksAgree | pkg/deployment/ipam.go:124-137 | In particular nothing is lost when the lower-cased networks of each host differ |
| DNSData.NetworksMakeSharedHostsAgree | pkg/deployment/ipam.go:113-119 | Nodes that share a host name have the same reservations as long as every node has networks |
| DNSData.CaseCollision | pkg/deployment/ipam.go:124-137 | Two networks that differ only in case share their entry, and the first address is lost |
| DNSData.SearchDomainIsLast | pkg/deployment/ipam.go:140-144 | The search domain is that of the last control plane reservation over all nodes: the guard that was to keep the first is always open |
| DNSData.SearchDomainIsFirstIff | pkg/deployment/ipam.go:140-144 | It is the first one if and only if the first and the last control plane reservation are in the same domain |
| DNSData.SearchDomainOfSecondNode | pkg/deployment/ipam.go:140-144 | Two nodes in different control plane domains: the second one is kept |
| DNSData.PopulateInventoryFromIPAM | pkg/deployment/inventory.go:174-208 | The loop gives the addresses, the canonical name and the search domains of the specification, without an index out of range |
| DNSData.NamesAreSearched | pkg/deployment/inventory.go:194-207 | Every name the DNS has for a host is its short name in a domain the inventory searches |
| DNSData.InventoryHasTheSameIPs | pkg/deployment/inventory.go:180-184 | The inventory and the DNS data have the same addresses for a host |
| IPReservations.IPSetStore.ReserveIPs | pkg/deployment/ipam.go:265-318 | The loop writes one IP set per visited node and stops at the first that has no networks or is refused |
| IPReservations.ReservingIgnoresOrder | pkg/deployment/ipam.go:284-315 | With distinct host names the order of the map does not matter: reserving succeeds if and only if every node has networks and no call is refused, and then every host has its IP set |
| IPReservations.CheckIPSets | pkg/deployment/ipam.go:240-262 | Only an IP set whose Ready condition is explicitly False is waited for |
| IPReservations.ReservedHostsHaveIPSets | pkg/deployment/ipam.go:117-120 | Afterwards the DNS data finds an IP set for every host; a new one has no reservations and counts as ready |
| DeploymentOutcomes.VerdictOfJobs | controllers/openstackdataplanedeployment_controller.go:289-391 | When all calls succeed, the reconcile of a deployable deployment on set-up nodesets ends with DeploymentReady in error if and only if a job of the deployment has failed, True (with Deployed) if and only if all services had succeeded, and requested otherwise; so a job that is read as failed never ends as requested |
| DeploymentOutcomes.VerdictOfReplays | controllers/openstackdataplanedeployment_controller.go:289-391 | With any outcomes of its calls, a reconcile that passes its gates and is not cut short ends with DeploymentReady in error if and only if the replay of some nodeset failed, for BackoffLimitExceeded exactly when the last of these mirrors it; True (with Deployed) if and only if every replay went through; requested otherwise |
| DeploymentOutcomes.StepFlags | controllers/openstackdataplanedeployment_controller.go:337-362 | What one replay makes of the three flags, of DeploymentReady and of the condition of its nodeset |
| DeploymentOutcomes.LeftAlone | controllers/openstackdataplanedeployment_controller.go:73-143 | A reconcile changes nothing when the name is not valid or the deployment is done, no job when a gate is shut, and no status when it cannot be written |
| GateOutcomes.UnreadNodeSetStops | controllers/openstackdataplanedeployment_controller.go:155-181 | The first nodeset that cannot be read ends the reconcile, with SetupReady in error only if reading failed, and nothing else known |
| GateOutcomes.NodeSetNotReadyStops | controllers/openstackdataplanedeployment_controller.go:189-194 | When all were read, a nodeset that is not SetupReady ends the reconcile with nothing known |
| GateOutcomes.CertificatesStop | controllers/openstackdataplanedeployment_controller.go:197-247 | The first nodeset whose certificates are not ready ends the reconcile: InputReady and the condition of this nodeset are in error, and nothing is known when they are only waited for |
| GateOutcomes.InputsThenServices | controllers/openstackdataplanedeployment_controller.go:249-287 | With certificates ready, InputReady is True, and the gates are open unless a global service is listed twice or a listed one cannot be read, which is an error of DeploymentReady and which an override skips, or the version was not read |
| ListedServices.JobsAreForListedServices | controllers/openstackdataplanedeployment_controller.go:327-335 | In every reachable state a job is for a service of the override of its deployment, or of its nodeset when the override is empty or not given |
| ListedServices.DeployedRanItsServices | controllers/openstackdataplanedeployment_controller.go:327-335 | In every reachable state all these services of a Deployed deployment have succeeded, save those passed over for an earlier one with the same condition |
| ServiceOutcomes.BlockedFails | pkg/deployment/deployment.go:82-133 | A service that cannot be read, or whose mounts or needed certificates cannot be had, ends with an error whatever its condition was, and writes no job |
| ServiceOutcomes.RequestFails | pkg/deployment/deployment.go:181-188 | A request whose lookup, write or acknowledgement fails, whose name is taken by another deployment, or whose new job is refused, ends with an error and leaves the condition Unknown |
| ServiceOutcomes.LookupDecides | pkg/deployment/deployment.go:197-251 | A service that gets to its second lookup is True, requested, as the Ready condition of its job says, or as it was, by the status of the job found; without one nothing is noted, and a failed lookup cuts the reconcile short |
| ServiceOutcomes.SeveralJobsCutShort | pkg/util/ansible_execution.go:266-274 | Several jobs with the labels of a service cut the reconcile short as well |
| ServiceOutcomes.TruePasses | pkg/deployment/deployment.go:181-251 | A service that is True is passed over |
| ServiceOutcomes.StandardRules | pkg/util/ansible_execution.go:280-309 | The operator's own catalogue: execution names, global services, which deployment and host names and which jobs are accepted |
| ServiceOutcomes.ServiceConditionName | pkg/deployment/deployment.go:75-78 | The condition of a service is named "Service", its name in camel case, and "DeploymentReady" |
| NodeSetOutcomes.ConditionsAtTheEnd | controllers/openstackdataplanenodeset_controller.go:173-447 | Each of the seven conditions at the end of a nodeset reconcile, as a function of how far it got and how that step ended |
| NodeSetOutcomes.ReadyAtTheEnd | controllers/openstackdataplanenodeset_controller.go:178-196 | Ready is True when every other condition is, else what they mirror, and no other condition changes |
| NodeSetOutcomes.ReservationEnds | pkg/deployment/ipam.go:284-315 | The reservation is in error when a node has no networks, or its host name cannot name an IP set or names one of another nodeset; else it ends as its calls do |
| NodeSetOutcomes.OwnerAfter | pkg/deployment/ipam.go:284-315 | An IP set keeps its owner, and one that nobody owns belongs to the nodeset that writes it |
| CheckVerdicts.CheckIgnoresOthers | controllers/openstackdataplanenodeset_controller.go:483-488 | Flags and record stay the same when every deployment that is being deleted, or does not name the nodeset, is taken out of the list, for distinct transition times |
| CheckVerdicts.FailedIff | controllers/openstackdataplanenodeset_controller.go:483-500 | The nodeset has failed if and only if a deployment that names it and is not being deleted is in error, whatever their times, and no flag is set when no deployment names it |
| CheckVerdicts.FlagsInFields | controllers/openstackdataplanenodeset_controller.go:483-507 | When it has not failed, the one with the last transition decides: ready for True, running for False |
| CheckVerdicts.RecordInFields | controllers/openstackdataplanenodeset_controller.go:489-521 | In transition order and up to the first error, config hash and version are those of the last deployment that says True, each deployment that names the nodeset is recorded with its conditions, and without such a one they stay |
| JobVariables.JobVariablesAre | pkg/util/ansible_execution.go:112-134 | On the jobs that the loops leave: "edpm_override_hosts" is "all" in quotes for a service deployed on all nodesets and the nodeset in quotes for another one, "edpm_service_type" the quoted type, or the quoted name without one, and "edpm_services_override" is there if and only if the override is not empty |
| JobVariables.RunsOnAllIff | pkg/util/ansible_execution.go:118-123 | A job is played on "all" if and only if its service is deployed on all nodesets or its nodeset is itself named "all" |
| JobVariables.OtherVariablesStay | pkg/util/ansible_execution.go:85-117 | When the deployment has no variables, a variable that the operator does not set stays in a job once it is there, whatever is written later |
| JobVariables.SecretsOfOneNodeSet | pkg/util/ansible_execution.go:143-223 | A job of one nodeset mounts its ssh key and its inventory at the fixed paths, field by field |
| JobVariables.SecretsOfAllNodeSets | pkg/util/ansible_execution.go:143-223 | A job of all nodesets mounts one ssh key per nodeset under the name of the nodeset and one inventory per nodeset under its number, field by field |
| DnsNames.RecordsInFields | pkg/deployment/ipam.go:106-146 | In the list of records of a call the names of each record are the short name in the domain of its reservation, unless that is the host name itself, followed by the host name if and only if it is fully qualified and the network is the control plane |
| DnsNames.HostnamesInFields | pkg/deployment/ipam.go:126-136 | Every entry of Hostnames is such a name of one of the reservations of its host, and a network has an entry if and only if one of them gives a name |
| DnsNames.ControlPlaneNameIff | pkg/deployment/ipam.go:126-136 | A host has a control plane entry in Hostnames if and only if it has a reservation there and is fully qualified or is not its own short name in the domain of every such reservation |
| DnsNames.OneLabelHasControlPlaneName | pkg/deployment/ipam.go:126-136 | In particular a host named by one label has one as soon as it has a control plane reservation |
| DnsNames.NoControlPlaneName | pkg/deployment/ipam.go:126-136 | The host "node.c1" with a control plane reservation in the domain "c1" has none |
| DnsNames.CanonicalNameIs | pkg/deployment/inventory.go:194-207 | The canonical name is the host name if that is fully qualified, else the host name in the domain of its last control plane reservation, and none without one |
| DnsNames.SearchDomainsAre | pkg/deployment/inventory.go:194-207 | Each reservation adds its domain to those searched, on the control plane behind the domain of a fully qualified host name if that is another one |
| CertOutcomes.NodeStopsCall | pkg/deployment/cert.go:162-188 | The first node without a control plane name, or whose certificate failed, fails the call, and the first one whose certificate is not issued yet is waited for; nothing is published |
| CertOutcomes.FirstSecretDecides | pkg/deployment/cert.go:196-214 | Publishing goes through the secrets by number; the first that is refused fails the call, and the first that is not as it should be is written and ends it |
| CertOutcomes.SecretNameIs | pkg/deployment/cert.go:279-286 | A secret is named by nodeset, service, key and number |
| CertOutcomes.CertificateOf | pkg/deployment/cert.go:184-187 | The three parts of a certificate are under the keys of their node |
| CertOutcomes.SourcesIff | pkg/deployment/deployment.go:286-312 | A volume has as many numbered secrets as the first one counts, in order, and is an error if and only if the first or one of these is missing |
| CertOutcomes.NoNumberNoSources | pkg/deployment/deployment.go:294-298 | A count that is not a number gives a volume without sources, as the error of reading it is dropped |
| CertOutcomes.FirstRequestDecides | controllers/openstackdataplanedeployment_controller.go:209-244 | The first certificate request of a nodeset that is not ready decides, and fails when its service cannot be read |
| CertOutcomes.GateFollows | controllers/openstackdataplanedeployment_controller.go:223-244 | The gate of a nodeset is ready, waiting or failed as its certificates are |
| IPReservations.ReservedInFields | pkg/deployment/ipam.go:284-315 | A node gets its IP set with its own networks or, if it has none, those of the template; an IP set that exists keeps its reservations and its condition |
| AnsibleExecutions.RequestOutcome | pkg/util/ansible_execution.go:62-80 | What one request leaves under its name and whether it is seen to succeed, case by case |
| AnsibleExecutions.SeveralMatches | pkg/util/ansible_execution.go:266-274 | Several jobs with the labels are an error and nothing is written |
| AnsibleExecutions.ExecutionNameIs | pkg/util/ansible_execution.go:280-302 | An execution name is the first 53 characters of the service, the deployment and, unless the service is global, the nodeset, joined by dashes and cut at 63 |
| Services.CertSourcesInFields | pkg/deployment/deployment.go:254-273 | A service without certificates of its own that names another one takes those of this one, which is listed or else exists, and certificates need nodes |
| ListedServices.TargetIs | pkg/deployment/deployment.go:119-133 | The certificates that mounts are made from are looked up among the services that the deployment runs on the nodeset, the override included |
| AeeSpecs.SeveralJobsGiveUp | pkg/util/ansible_execution.go:266-274 | A request that finds several jobs is given up before any of its variables are set |
| Admission.NodeSetSpec.Default | api/v1beta1/openstackdataplanenodeset_webhook.go:70-101 | The two walks over the nodes rewrite the specification as given, for any orders of the map |
| Admission.NodeSetSpec.DefaultHostNames | api/v1beta1/openstackdataplanenodeset_webhook.go:72-82 | The walk that overwrites the map it walks fills in every host name once |
| Admission.DefaultIsIdempotent | api/v1beta1/openstackdataplanenodeset_webhook.go:70-101 | Defaulting twice is defaulting once, for any orders, unless two nodes end with one host name and different provisioning |
| Admission.HostMapOrderIff | api/v1beta1/openstackdataplanenodeset_webhook.go:89-96 | The map of baremetal hosts is the same for every order if and only if no two nodes share a host name and differ in their provisioning |
| Admission.GivenHostNameKeptIff | api/v1beta1/openstackdataplanenodeset_webhook.go:73-80 | A given host name is kept if and only if nothing is provisioned, it is fully qualified, there is no domain, or it is the name of the node in the domain |
| Admission.ProvisionedHostsAreQualified | api/v1beta1/openstackdataplanenodeset_webhook.go:77-81 | Provisioned nodes that are named by labels in a proper domain all end with fully qualified host names |
| Admission.DuplicateNodeCheck | api/v1beta1/openstackdataplanenodeset_types.go:271-292 | The check reports an error if and only if a node shares an address with a stored one, or a node without Ansible host meets a stored empty host name |
| AdmissionDefaults.HostNameAfter | api/v1beta1/openstackdataplanenodeset_webhook.go:71-82 | A node without a host name takes its own name; a node to be provisioned whose name is not fully qualified takes its own name in the domain if there is one; nothing else of a node changes |
| AdmissionDefaults.OtherFieldsAfter | api/v1beta1/openstackdataplanenodeset_webhook.go:84-100 | A pre-provisioned nodeset gets the user "cloud-admin" if it has none; another one gets the user of its template, the ssh secret of its nodes if it has none for deployment, and exactly one host per host name with the data of such a node |
| AdmissionDefaults.UnnamedNodesMeetIff | api/v1beta1/openstackdataplanenodeset_webhook.go:73-80 | Two nodes without host names end with the same one if and only if they are to be provisioned, there is a domain, and one of them is named as the other one ends up in the domain |
| AdmissionDefaults.LabelledNodesKeepApart | api/v1beta1/openstackdataplanenodeset_webhook.go:73-80 | In particular nodes that are named by labels and have no host names end with different ones |
| AdmissionDefaults.UnnamedNodesMeet | api/v1beta1/openstackdataplanenodeset_webhook.go:73-80 | The nodes "x" and "x.example.org" in the domain "example.org" meet |
| AdmissionRuns.RequestInFields | api/v1beta1/openstackdataplanenodeset_webhook.go:109-158 | What each creation and deletion makes of the store, and when a creation is refused, in the host names and Ansible hosts of the nodes |
| ConcreteInputs.CapitalHostNeverDeploys | pkg/deployment/ipam.go:295-308 | A host name with a capital letter cannot name an IP set, so its deployment is never Deployed |
| ObjectNames.DotRules | controllers/openstackdataplanedeployment_controller.go:73-78 | A dot joins two names, both of which have to be accepted, for deployments as for objects |
| AdmissionRuns.Namespace.ValidateCreate | api/v1beta1/openstackdataplanenodeset_webhook.go:109-158 | A creation passes if and only if the name is valid and, for a pre-provisioned nodeset, the duplicate check finds nothing |
| AdmissionRuns.Namespace.CreateNodeSet | api/v1beta1/openstackdataplanenodeset_webhook.go:64-158 | Defaults, check and storing together are one step of the specification |
| AdmissionRuns.NoAddressIsClaimedTwice | api/v1beta1/openstackdataplanenodeset_webhook.go:146-158 | No sequence of creations and deletions leaves two pre-provisioned nodesets that share a host name or Ansible host, or have the one as the other |
| AdmissionRuns.RefusedIffOverlapping | api/v1beta1/openstackdataplanenodeset_webhook.go:146-158 | After any such sequence with named nodes, a pre-provisioned nodeset is refused by the check if and only if it shares an address with a stored one |

## Left out

- Kubernetes client, watches, logging, RBAC, field indexers, finalizers and pod listing: plumbing; the API is a map with atomic create-or-patch.
- cert-manager, issuers, host and IP lists of certificates, CIDR parsing, YAML and hashing: calls into code that is not shown; their results are parameters.
- Deletion of jobs, nodesets and services, and updates of specifications, while deployments run: the protocol keeps them fixed.
- Aliasing of condition lists: conditions are maps from types to values, so sorting and updating a shared list in place is not captured.
- DeploymentControllers.DeploymentReconciler.EnsureCerts: takes one outcome for all the certificate calls of a nodeset, because secrets are not part of the protocol's state; GateCertificates ties that outcome to the calls behind it.
- ProtocolTheorems.DeployedIsFinal: does not cover a reconcile that starts from an older copy of the deployment, because the source then replays it and may write its old status back.
- ProtocolTheorems.JobsOnlyOnSetUpNodeSets: is about nodesets as they are read, because an older copy may still say SetupReady.
- What the certificate mounts and the mounts of data sources hold: sequences that the model takes as given; which services the certificate mounts are read from is modelled.
- Container images, versions and hashes that a deployment collects, and the runner image: copied values without a property of their own.
- Other fields of a job (command line, play, DNS configuration, environment): set from the specification on every write.
- CertPublication.SecretStore.CreateOrPatchSecret: replaces data and the two labels, and keeps no labels or data that someone else added, because the library behind it is not shown.
- CheckDeployments.CheckIgnoresListOrder: needs distinct transition times, because the comparator of the source is no order on equal or missing times.
- CheckVerdicts.CheckIgnoresOthers: needs distinct transition times for the same reason; CheckVerdicts.FailedIff holds without.
- DeploymentProgress.DeployedWithinBound: is about rounds of this deployment alone; FairProgress.FairLegsReachDeployed lets other events happen in between.
- NodeSetIndependence.NodeSetsAreIndependent: supposes that the nodeset shares no execution name with another one, because the job under a shared name belongs to both.
- AdmissionRuns.NoAddressIsClaimedTwice: covers creations and deletions, because an update does not run the duplicate check again.
- DNSData.PopulateInventoryFromIPAM: models addresses, canonical name and search domains; prefix lengths, VLANs, MTUs, gateways and routes are left out.
- Duplicates within one nodeset, which the source does not look for.
