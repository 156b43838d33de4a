/**
 What goes into a job: mounts and variables. The specification a deployer hands from service
 to service is shared, a Go slice with spare capacity and a map passed by reference; each job
 still gets exactly the contents meant for it
 (pkg/deployment/deployment.go, pkg/util/ansible_execution.go).
 */
module AeeSpecs {
  import opened AnsibleExecutions
  import opened SortedKeys

  datatype Mount = Mount(name: string, path: string, subPath: string, secret: string, item: string)

  /** The mounts of one source, each with its volume. */
  type VolMounts = seq<Mount>

  type Vars = map<string, string>

  datatype Contents = Contents(mounts: seq<VolMounts>, vars: Vars)

  // ---------- slices ----------

  /** A Go slice: the first `len` elements of an array that other slices may share. */
  datatype Slice = Slice(data: array<VolMounts>, len: nat)

  ghost predicate ValidSlice(s: Slice) {
    s.len <= s.data.Length
  }

  ghost function View(s: Slice): seq<VolMounts>
    requires ValidSlice(s)
    reads s.data
  {
    s.data[..s.len]
  }

  method CopySlice(s: Slice) returns (r: Slice)
    requires ValidSlice(s)
    ensures ValidSlice(r) && fresh(r.data) && View(r) == View(s)
  {
    var data := new VolMounts[s.len](i requires 0 <= i < s.len && s.len <= s.data.Length reads s.data => s.data[i]);
    r := Slice(data, s.len);
    assert View(r) == View(s);
  }

  /** Go's append: in place when the array has room, else into a new array whose capacity is
      the runtime's choice. */
  method Append(s: Slice, x: VolMounts, growth: nat -> nat) returns (r: Slice)
    requires ValidSlice(s)
    modifies s.data
    ensures ValidSlice(r) && View(r) == old(View(s)) + [x]
    ensures View(s) == old(View(s))
    ensures if s.len < s.data.Length then r.data == s.data else fresh(r.data)
  {
    if s.len < s.data.Length {
      s.data[s.len] := x;
      r := Slice(s.data, s.len + 1);
    } else {
      var data := new VolMounts[s.len + 1 + growth(s.len)](
        i requires 0 <= i && s.len <= s.data.Length reads s.data => if i < s.len then s.data[i] else x);
      r := Slice(data, s.len + 1);
      assert View(r) == View(s) + [x];
    }
  }

  method AppendAll(s: Slice, xs: seq<VolMounts>, growth: nat -> nat) returns (r: Slice)
    requires ValidSlice(s)
    modifies s.data
    ensures ValidSlice(r) && View(r) == old(View(s)) + xs
    ensures r.data == s.data || fresh(r.data)
  {
    r := s;
    for i := 0 to |xs|
      invariant ValidSlice(r) && View(r) == old(View(s)) + xs[..i]
      invariant r.data == s.data || fresh(r.data)
    {
      r := Append(r, xs[i], growth);
    }
    assert xs[..|xs|] == xs;
  }

  // ---------- the mounts and the variables of one job ----------

  /** How far a request gets: it is given up before the job is filled in (its service is already
      done, or a lookup failed), the job is filled in and then refused, or the job is written. */
  datatype Attempt = GivenUp | FilledIn | Written

  /** How far one execution request gets: a job is written when the store of jobs changes. */
  function AttemptOf(name: Naming, jobs: JobStore, l: Labels, listing: Listing, w: Write): Attempt {
    var found := Find(jobs, l, listing);
    if found.Multiple? || found.LookupFailed? then GivenUp
    else if Execute(name, jobs, l, listing, w).0 == jobs then FilledIn
    else Written
  }

  /** A request writes its job, whether or not this is acknowledged, exactly when no call is refused
      and its name is free or held by the deployment itself. */
  lemma WrittenIff(name: Naming, jobs: JobStore, l: Labels, listing: Listing, w: Write)
    requires WellKeyed(name, jobs)
    ensures AttemptOf(name, jobs, l, listing, w).Written? <==>
              && !listing.ListError? && !w.Refused?
              && (name(l) in jobs ==> jobs[name(l)].labels.deployment == l.deployment)
    ensures AttemptOf(name, jobs, l, listing, w).GivenUp? <==> listing.ListError?
  {
    LookupIsExact(name, jobs, l);
    var n := name(l);
    if n in jobs {
      assert jobs[n := jobs[n].(writes := jobs[n].writes + 1)][n].writes != jobs[n].writes;
    }
  }

  /** Several jobs with the labels: the request is given up. */
  lemma SeveralJobsGiveUp(name: Naming, jobs: JobStore, l: Labels, n: string, m: string, w: Write)
    requires n in jobs && m in jobs && n != m && jobs[n].labels == l && jobs[m].labels == l
    ensures AttemptOf(name, jobs, l, Shown, w) == GivenUp
  {
    SeveralMatches(name, jobs, l, n, m, w);
  }

  /** The service a job runs, with what its data sources and certificates add to the mounts. */
  datatype Request = Request(name: string, nodeSet: string, service: string, deployOnAllNodeSets: bool,
                             edpmServiceType: string, addCertMounts: bool, serviceMounts: seq<VolMounts>,
                             certMounts: seq<VolMounts>, attempt: Attempt)

  const HOSTS_KEY := "edpm_override_hosts"
  const TYPE_KEY := "edpm_service_type"
  const SERVICES_KEY := "edpm_services_override"

  /** What all jobs of a deployment have in common. */
  datatype Shared = Shared(servicesOverride: seq<string>, sshKeys: map<string, string>, inventories: map<string,
                           string>, growth: nat -> nat)

  function Joined(words: seq<string>): string {
    if words == [] then "" else if |words| == 1 then words[0] else words[0] + " " + Joined(words[1..])
  }

  function OverrideKeys(shared: Shared): set<string> {
    {HOSTS_KEY, TYPE_KEY} + if shared.servicesOverride == [] then {} else {SERVICES_KEY}
  }

  /** The value under the key for the hosts, and under the key for the service type. */
  function HostsVar(r: Request): string {
    if r.deployOnAllNodeSets then "\"all\"" else "\"" + r.nodeSet + "\""
  }

  function TypeVar(r: Request): string {
    "\"" + (if r.edpmServiceType != "" then r.edpmServiceType else r.service) + "\""
  }

  function ServicesVar(shared: Shared): string {
    "\"[" + Joined(shared.servicesOverride) + "]\""
  }

  function OverrideVars(r: Request, shared: Shared): (vars: Vars)
    ensures vars.Keys == OverrideKeys(shared)
  {
    var vars := map[HOSTS_KEY := HostsVar(r), TYPE_KEY := TypeVar(r)];
    if shared.servicesOverride == [] then vars else vars[SERVICES_KEY := ServicesVar(shared)]
  }

  lemma OverlayInSteps(base: Vars, r: Request, shared: Shared)
    ensures var steps := base[HOSTS_KEY := HostsVar(r)][TYPE_KEY := TypeVar(r)];
            base + OverrideVars(r, shared) == if shared.servicesOverride == [] then steps
                                else steps[SERVICES_KEY := ServicesVar(shared)]
  {
    hide HOSTS_KEY, TYPE_KEY, SERVICES_KEY, HostsVar, TypeVar, ServicesVar;
    if shared.servicesOverride != [] {
      var vars := map[HOSTS_KEY := HostsVar(r), TYPE_KEY := TypeVar(r)];
      assert (base + vars)[SERVICES_KEY := ServicesVar(shared)] == base + vars[SERVICES_KEY := ServicesVar(shared)];
    }
  }

  function SshMount(node: string, secret: string, all: bool): Mount {
    if all then Mount("ssh-key-" + node, "/runner/env/ssh_key/ssh_key_" + node, "ssh_key_" + node, secret,
                      "ssh-privatekey")
    else Mount("ssh-key", "/runner/env/ssh_key", "ssh_key", secret, "ssh-privatekey")
  }

  function InventoryMount(index: nat, secret: string, all: bool): Mount {
    if all then
      var name := "inventory-" + Itoa(index);
      Mount(name, "/runner/inventory/" + name, name, secret, "inventory")
    else Mount("inventory", "/runner/inventory/hosts", "inventory", secret, "inventory")
  }

  /** The mounts for the first `n` of the sorted keys: all of them for a service that is
      deployed on all nodesets, else only the one of its own nodeset. */
  function SshMounts(keys: seq<string>, secrets: map<string, string>, r: Request, n: nat): VolMounts
    requires n <= |keys| && forall k | k in keys :: k in secrets
  {
    if n == 0 then []
    else
      var key := keys[n - 1];
      SshMounts(keys, secrets, r, n - 1)
      + if r.deployOnAllNodeSets || key == r.nodeSet then [SshMount(key, secrets[key], r.deployOnAllNodeSets)] else []
  }

  function InventoryMounts(keys: seq<string>, secrets: map<string, string>, r: Request, n: nat): VolMounts
    requires n <= |keys| && forall k | k in keys :: k in secrets
  {
    if n == 0 then []
    else
      var key := keys[n - 1];
      InventoryMounts(keys, secrets, r, n - 1)
      + if r.deployOnAllNodeSets || key == r.nodeSet then [InventoryMount(n - 1, secrets[key], r.deployOnAllNodeSets)]
        else []
  }

  function OwnMounts(r: Request, shared: Shared): VolMounts {
    var sshKeys, invKeys := Sorted(shared.sshKeys.Keys), Sorted(shared.inventories.Keys);
    SshMounts(sshKeys, shared.sshKeys, r, |sshKeys|) + InventoryMounts(invKeys, shared.inventories, r, |invKeys|)
  }

  /** What the variables of a job start from: the deployment's, or the job's own when the
      deployment has none. */
  function BaseVars(vars: Vars, jobs: map<string, Contents>, r: Request): Vars {
    if vars != map[] then vars else if r.name in jobs then jobs[r.name].vars else map[]
  }

  /** A job holds the mounts of its nodeset, those of its service, the certificates if its
      service asks for them, and its own ssh keys and inventories; its variables are those it
      starts from, overlaid with its own. */
  function Expected(vars: Vars, nodeSetMounts: seq<VolMounts>, tlsEnabled: bool, r: Request, shared: Shared): Contents {
    Contents(nodeSetMounts + r.serviceMounts + (if tlsEnabled && r.addCertMounts then r.certMounts else [])
      + [OwnMounts(r, shared)],
             vars + OverrideVars(r, shared))
  }

  /** The jobs once the requests of one nodeset have been served in order. */
  function WriteAll(jobs: map<string, Contents>, vars: Vars, mounts: seq<VolMounts>, tlsEnabled: bool,
                    requests: seq<Request>, shared: Shared): map<string, Contents>
  {
    if requests == [] then jobs
    else
      var n := |requests| - 1;
      var before := WriteAll(jobs, vars, mounts, tlsEnabled, requests[..n], shared);
      if requests[n].attempt.Written? then
        before[requests[n].name := Expected(BaseVars(vars, before, requests[n]), mounts, tlsEnabled, requests[n],
          shared)]
      else before
  }

  /** What one nodeset asks for, on values and on slices. */
  datatype Plan = Plan(mounts: seq<VolMounts>, tlsEnabled: bool, requests: seq<Request>)

  datatype Work = Work(mounts: Slice, tlsEnabled: bool, requests: seq<Request>)

  function WriteNodeSets(jobs: map<string, Contents>, vars: Vars, plans: seq<Plan>, shared: Shared): map<string,
                         Contents> {
    if plans == [] then jobs
    else
      var last := plans[|plans| - 1];
      WriteAll(WriteNodeSets(jobs, vars, plans[..|plans| - 1], shared), vars, last.mounts, last.tlsEnabled,
        last.requests, shared)
  }

  // ---------- variables that are shared ----------

  /** The two maps agree outside the override keys, so an overlay hides all difference. */
  ghost predicate Agree(a: Vars, b: Vars, shared: Shared) {
    forall k | k !in OverrideKeys(shared) :: (k in a <==> k in b) && (k in a ==> a[k] == b[k])
  }

  lemma OverlayHidesDifference(a: Vars, b: Vars, r: Request, shared: Shared)
    requires Agree(a, b, shared)
    ensures a + OverrideVars(r, shared) == b + OverrideVars(r, shared)
    ensures Agree(a + OverrideVars(r, shared), b, shared)
  {
    hide OverrideKeys;
    var o := OverrideVars(r, shared);
    hide OverrideVars;
    assert (a + o).Keys == (b + o).Keys;
  }

  /** The job under this name, if there is one, holds nothing but override keys. */
  ghost predicate CleanAt(jobs: map<string, Contents>, n: string, shared: Shared) {
    n in jobs ==> Agree(jobs[n].vars, map[], shared)
  }

  /** A deployment without variables keeps its jobs clean. */
  lemma {:induction false} WriteAllKeepsClean(jobs: map<string, Contents>, mounts: seq<VolMounts>, tlsEnabled: bool,
                                             requests: seq<Request>, n: string, shared: Shared)
    requires CleanAt(jobs, n, shared)
    ensures CleanAt(WriteAll(jobs, map[], mounts, tlsEnabled, requests, shared), n, shared)
  {
    if requests != [] {
      hide Agree, OverrideVars, OwnMounts;
      var r := requests[|requests| - 1];
      WriteAllKeepsClean(jobs, mounts, tlsEnabled, requests[..|requests| - 1], n, shared);
      var before := WriteAll(jobs, map[], mounts, tlsEnabled, requests[..|requests| - 1], shared);
      AgreesWithItself(map[], shared);
      if r.name == n { OverlayHidesDifference(BaseVars(map[], before, r), map[], r, shared); }
    }
  }

  /** Whatever the services before it left in the shared map, a service ends with what it would
      have had without them. */
  lemma BaseIsAsGood(jobs: map<string, Contents>, now: Vars, vars: Vars, r: Request, shared: Shared)
    requires Agree(now, vars, shared) && (now == map[] <==> vars == map[])
    ensures BaseVars(now, jobs, r) + OverrideVars(r, shared) == BaseVars(vars, jobs, r) + OverrideVars(r, shared)
    ensures Agree(now + OverrideVars(r, shared), vars, shared) && now + OverrideVars(r, shared) != map[]
  {
    hide Agree;
    OverlayHidesDifference(now, vars, r, shared);
    assert HOSTS_KEY in now + OverrideVars(r, shared);
  }

  lemma AgreesWithItself(vars: Vars, shared: Shared)
    ensures Agree(vars, vars, shared)
  {
  }

  lemma AgreesTransitively(a: Vars, b: Vars, c: Vars, shared: Shared)
    requires Agree(a, b, shared) && Agree(b, c, shared)
    ensures Agree(a, c, shared)
  {
  }

  lemma {:induction false} WriteNodeSetsKeepClean(jobs: map<string, Contents>, plans: seq<Plan>, n: string,
      shared: Shared)
    requires CleanAt(jobs, n, shared)
    ensures CleanAt(WriteNodeSets(jobs, map[], plans, shared), n, shared)
  {
    hide CleanAt, WriteAll;
    if plans != [] {
      var init, last := plans[..|plans| - 1], plans[|plans| - 1];
      WriteNodeSetsKeepClean(jobs, init, n, shared);
      WriteAllKeepsClean(WriteNodeSets(jobs, map[], init, shared), last.mounts, last.tlsEnabled, last.requests, n,
        shared);
    }
  }

  /** What the shared map holds under the override keys does not matter to the jobs. */
  lemma {:induction false} AgreementIsEnough(jobs: map<string, Contents>, a: Vars, b: Vars, plan: Plan, shared: Shared)
    requires Agree(a, b, shared) && (a == map[] <==> b == map[])
    ensures WriteAll(jobs, a, plan.mounts, plan.tlsEnabled, plan.requests, shared)
         == WriteAll(jobs, b, plan.mounts, plan.tlsEnabled, plan.requests, shared)
    decreases |plan.requests|
  {
    hide Agree, OverrideVars, OwnMounts;
    if plan.requests != [] {
      var n := |plan.requests| - 1;
      AgreementIsEnough(jobs, a, b, plan.(requests := plan.requests[..n]), shared);
      BaseIsAsGood(WriteAll(jobs, b, plan.mounts, plan.tlsEnabled, plan.requests[..n], shared), a, b, plan.requests[n],
        shared);
    }
  }

  // ---------- the code ----------

  class VarMap {
    var entries: Vars

    constructor (entries: Vars)
      ensures this.entries == entries
    {
      this.entries := entries;
    }
  }

  class AnsibleEESpec {
    var extraMounts: Slice
    const extraVars: VarMap?

    constructor (extraMounts: Slice, extraVars: VarMap?)
      ensures this.extraMounts == extraMounts && this.extraVars == extraVars
    {
      this.extraMounts, this.extraVars := extraMounts, extraVars;
    }
  }

  ghost function VarsOf(m: VarMap?): Vars
    reads m
  {
    if m == null then map[] else m.entries
  }

  /** The contents of the jobs at the API server, by name. Writing sends a copy. */
  class JobContents {
    var jobs: map<string, Contents>

    constructor (jobs: map<string, Contents>)
      ensures this.jobs == jobs
    {
      this.jobs := jobs;
    }

    static method MountSshKeys(r: Request, shared: Shared) returns (own: VolMounts)
      ensures var keys := Sorted(shared.sshKeys.Keys); own == SshMounts(keys, shared.sshKeys, r, |keys|)
    {
      hide SshMount;
      own := [];
      var sshKeys := Sorted(shared.sshKeys.Keys);
      hide Sorted;
      for i := 0 to |sshKeys|
        invariant own == SshMounts(sshKeys, shared.sshKeys, r, i)
      {
        var key := sshKeys[i];
        if !r.deployOnAllNodeSets && key != r.nodeSet {
          continue;
        }
        own := own + [SshMount(key, shared.sshKeys[key], r.deployOnAllNodeSets)];
      }
    }

    static method MountInventories(r: Request, shared: Shared) returns (own: VolMounts)
      ensures var keys := Sorted(shared.inventories.Keys); own == InventoryMounts(keys, shared.inventories, r, |keys|)
    {
      hide InventoryMount;
      own := [];
      var invKeys := Sorted(shared.inventories.Keys);
      hide Sorted;
      for i := 0 to |invKeys|
        invariant own == InventoryMounts(invKeys, shared.inventories, r, i)
      {
        var key := invKeys[i];
        if !r.deployOnAllNodeSets && key != r.nodeSet {
          continue;
        }
        own := own + [InventoryMount(i, shared.inventories[key], r.deployOnAllNodeSets)];
      }
    }

    static method MountSecrets(r: Request, shared: Shared) returns (own: VolMounts)
      ensures own == OwnMounts(r, shared)
    {
      hide Sorted, SshMounts, InventoryMounts;
      var ssh := MountSshKeys(r, shared);
      var inventories := MountInventories(r, shared);
      own := ssh + inventories;
    }

    /** Sets the override keys in the map, whoever shares it. */
    static method Override(vars: VarMap, r: Request, shared: Shared)
      modifies vars
      ensures vars.entries == old(vars.entries) + OverrideVars(r, shared)
    {
      hide HOSTS_KEY, TYPE_KEY, SERVICES_KEY;
      ghost var base := vars.entries;
      if r.deployOnAllNodeSets {
        vars.entries := vars.entries[HOSTS_KEY := "\"all\""];
      } else {
        vars.entries := vars.entries[HOSTS_KEY := "\"" + r.nodeSet + "\""];
      }
      assert vars.entries == base[HOSTS_KEY := HostsVar(r)];
      if r.edpmServiceType != "" {
        vars.entries := vars.entries[TYPE_KEY := "\"" + r.edpmServiceType + "\""];
      } else {
        vars.entries := vars.entries[TYPE_KEY := "\"" + r.service + "\""];
      }
      assert vars.entries == base[HOSTS_KEY := HostsVar(r)][TYPE_KEY := TypeVar(r)];
      hide HostsVar, TypeVar, ServicesVar;
      if shared.servicesOverride != [] {
        vars.entries := vars.entries[SERVICES_KEY := ServicesVar(shared)];
      }
      OverlayInSteps(base, r, shared);
    }

    /** The variables of the job: the shared map when it has any, else the job's own. */
    static method JobVars(own: Vars, r: Request, spec: AnsibleEESpec, shared: Shared) returns (entries: Vars)
      modifies spec.extraVars
      ensures entries == (if old(VarsOf(spec.extraVars)) == map[] then own else old(VarsOf(spec.extraVars)))
              + OverrideVars(r, shared)
      ensures VarsOf(spec.extraVars) == if old(VarsOf(spec.extraVars)) == map[] then map[]
              else old(VarsOf(spec.extraVars)) + OverrideVars(r, shared)
    {
      hide OverrideVars, OverrideKeys;
      var vars: VarMap;
      if spec.extraVars != null && spec.extraVars.entries != map[] {
        vars := spec.extraVars;
      } else {
        vars := new VarMap(own);
      }
      Override(vars, r, shared);
      entries := vars.entries;
    }

    /** Fills in one job, with what the specification holds at this moment, and sends it. The shared
        map has the override keys of the job even if it is refused in the end. */
    method AnsibleExecution(r: Request, spec: AnsibleEESpec, shared: Shared)
      requires ValidSlice(spec.extraMounts)
      modifies this, spec.extraMounts.data, spec.extraVars
      ensures var contents := Contents(old(View(spec.extraMounts)) + [OwnMounts(r, shared)],
                                       BaseVars(old(VarsOf(spec.extraVars)), old(jobs), r) + OverrideVars(r, shared));
              jobs == if r.attempt.Written? then old(jobs)[r.name := contents] else old(jobs)
      ensures VarsOf(spec.extraVars) == if old(VarsOf(spec.extraVars)) == map[] then map[]
              else old(VarsOf(spec.extraVars)) + OverrideVars(r, shared)
    {
      hide OwnMounts, OverrideVars, OverrideKeys;
      var own := if r.name in jobs then jobs[r.name].vars else map[];
      var vars := JobVars(own, r, spec, shared);
      var secrets := MountSecrets(r, shared);
      var mounts := Append(spec.extraMounts, secrets, shared.growth);
      if r.attempt.Written? {
        jobs := jobs[r.name := Contents(mounts.data[..mounts.len], vars)];
      }
    }

    /** The mounts for one service, built on a fresh copy of the nodeset's. */
    static method AddMounts(aeeSpecMounts: Slice, r: Request, tlsEnabled: bool,
                            growth: nat -> nat) returns (mounts: Slice)
      requires ValidSlice(aeeSpecMounts)
      ensures ValidSlice(mounts) && fresh(mounts.data)
      ensures View(mounts) == View(aeeSpecMounts) + r.serviceMounts + if tlsEnabled
              && r.addCertMounts then r.certMounts else []
    {
      mounts := CopySlice(aeeSpecMounts);
      mounts := AppendAll(mounts, r.serviceMounts, growth);
      if tlsEnabled && r.addCertMounts {
        mounts := AppendAll(mounts, r.certMounts, growth);
      }
    }

    /** The replay of one nodeset's services. The nodeset's own mounts are copied before
        anything is appended, so they are never written. */
    method Deploy(requests: seq<Request>, tlsEnabled: bool, spec: AnsibleEESpec, shared: Shared)
      requires ValidSlice(spec.extraMounts)
      modifies this, spec, spec.extraVars
      ensures jobs == WriteAll(old(jobs), old(VarsOf(spec.extraVars)), old(View(spec.extraMounts)), tlsEnabled,
              requests, shared)
      ensures Agree(VarsOf(spec.extraVars), old(VarsOf(spec.extraVars)), shared)
      ensures VarsOf(spec.extraVars) == map[] <==> old(VarsOf(spec.extraVars)) == map[]
    {
      hide OwnMounts, OverrideVars, OverrideKeys, Agree;
      ghost var vars, view := VarsOf(spec.extraVars), View(spec.extraMounts);
      AgreesWithItself(vars, shared);
      var aeeSpecMounts := CopySlice(spec.extraMounts);
      for i := 0 to |requests|
        invariant ValidSlice(aeeSpecMounts) && fresh(aeeSpecMounts.data) && View(aeeSpecMounts) == view
        invariant Agree(VarsOf(spec.extraVars), vars, shared)
        invariant VarsOf(spec.extraVars) == map[] <==> vars == map[]
        invariant jobs == WriteAll(old(jobs), vars, view, tlsEnabled, requests[..i], shared)
      {
        var r := requests[i];
        spec.extraMounts := AddMounts(aeeSpecMounts, r, tlsEnabled, shared.growth);
        BaseIsAsGood(jobs, VarsOf(spec.extraVars), vars, r, shared);
        assert requests[..i + 1][..i] == requests[..i];
        if !r.attempt.GivenUp? {
          AnsibleExecution(r, spec, shared);
        }
      }
      assert requests[..|requests|] == requests;
    }

    /** The nodesets one after the other, each with a specification of its own whose mounts
        are the nodeset's and whose variables are the deployment's. `plans` is what they ask for. */
    method DeployNodeSets(work: seq<Work>, extraVars: VarMap?, shared: Shared, ghost plans: seq<Plan>)
      requires |plans| == |work|
      requires forall i | 0 <= i < |work| ::
          ValidSlice(work[i].mounts) && plans[i] == Plan(View(work[i].mounts), work[i].tlsEnabled, work[i].requests)
      modifies this, extraVars
      ensures jobs == WriteNodeSets(old(jobs), old(VarsOf(extraVars)), plans, shared)
      ensures Agree(VarsOf(extraVars), old(VarsOf(extraVars)), shared)
    {
      hide OverrideKeys, Agree, WriteAll;
      ghost var vars := VarsOf(extraVars);
      AgreesWithItself(vars, shared);
      for i := 0 to |work|
        invariant Agree(VarsOf(extraVars), vars, shared) && (VarsOf(extraVars) == map[] <==> vars == map[])
        invariant jobs == WriteNodeSets(old(jobs), vars, plans[..i], shared)
      {
        var spec := new AnsibleEESpec(work[i].mounts, extraVars);
        ghost var now, before := VarsOf(extraVars), jobs;
        Deploy(work[i].requests, work[i].tlsEnabled, spec, shared);
        AgreementIsEnough(before, now, vars, plans[i], shared);
        AgreesTransitively(VarsOf(extraVars), now, vars, shared);
        assert plans[..i + 1][..i] == plans[..i];
      }
      assert plans[..|plans|] == plans;
    }
  }

  // ---------- what each job ends up with ----------

  lemma {:induction false} WriteAllElsewhere(jobs: map<string, Contents>, vars: Vars, mounts: seq<VolMounts>,
                                             tlsEnabled: bool, requests: seq<Request>, shared: Shared, n: string)
    requires forall r | r in requests && r.attempt.Written? :: r.name != n
    ensures var jobs' := WriteAll(jobs, vars, mounts, tlsEnabled, requests, shared);
            (n in jobs' <==> n in jobs) && (n in jobs ==> jobs'[n] == jobs[n])
  {
    if requests != [] {
      WriteAllElsewhere(jobs, vars, mounts, tlsEnabled, requests[..|requests| - 1], shared, n);
    }
  }

  lemma {:induction false} WriteAllAt(jobs: map<string, Contents>, vars: Vars, mounts: seq<VolMounts>, tlsEnabled: bool,
                                     requests: seq<Request>, shared: Shared, j: nat)
    requires j < |requests| && requests[j].attempt.Written?
    requires forall j' | j < j' < |requests| && requests[j'].attempt.Written? :: requests[j'].name != requests[j].name
    requires vars == map[] ==> CleanAt(jobs, requests[j].name, shared)
    ensures var jobs' := WriteAll(jobs, vars, mounts, tlsEnabled, requests, shared);
            requests[j].name in jobs' && jobs'[requests[j].name]
              == Expected(vars, mounts, tlsEnabled, requests[j], shared)
  {
    hide OwnMounts, OverrideVars, Agree;
    var n := |requests| - 1;
    if j < n {
      WriteAllAt(jobs, vars, mounts, tlsEnabled, requests[..n], shared, j);
    } else if vars == map[] {
      WriteAllKeepsClean(jobs, mounts, tlsEnabled, requests[..n], requests[j].name, shared);
      var before := WriteAll(jobs, vars, mounts, tlsEnabled, requests[..n], shared);
      AgreesWithItself(map[], shared);
      OverlayHidesDifference(BaseVars(map[], before, requests[j]), map[], requests[j], shared);
    }
  }

  /** Sharing is harmless: a job that no later request writes again holds its nodeset's mounts,
      its service's, the certificates if it asks for them and its own secrets, and the
      variables of the deployment overlaid with its own, whatever was served before it. A
      deployment without variables takes this from its jobs being clean, as they are when this
      deployment wrote them. */
  lemma {:induction false} JobHasItsOwnContents(jobs: map<string, Contents>, vars: Vars, plans: seq<Plan>,
                                                shared: Shared, i: nat, j: nat)
    requires i < |plans| && j < |plans[i].requests| && plans[i].requests[j].attempt.Written?
    requires forall j' | j < j' < |plans[i].requests| && plans[i].requests[j'].attempt.Written? ::
             plans[i].requests[j'].name != plans[i].requests[j].name
    requires forall i', r | i < i' < |plans| && r in plans[i'].requests
             && r.attempt.Written? :: r.name != plans[i].requests[j].name
    requires vars == map[] ==> CleanAt(jobs, plans[i].requests[j].name, shared)
    ensures var jobs' := WriteNodeSets(jobs, vars, plans, shared);
            var r := plans[i].requests[j];
            && r.name in jobs'
            && jobs'[r.name].mounts == plans[i].mounts + r.serviceMounts
               + (if plans[i].tlsEnabled && r.addCertMounts then r.certMounts else [])
                                       + [OwnMounts(r, shared)]
            && jobs'[r.name].vars == vars + OverrideVars(r, shared)
  {
    hide OwnMounts, OverrideVars, OverrideKeys;
    var n := |plans| - 1;
    var before := WriteNodeSets(jobs, vars, plans[..n], shared);
    if i < n {
      JobHasItsOwnContents(jobs, vars, plans[..n], shared, i, j);
      WriteAllElsewhere(before, vars, plans[n].mounts, plans[n].tlsEnabled, plans[n].requests, shared,
        plans[i].requests[j].name);
    } else {
      if vars == map[] { WriteNodeSetsKeepClean(jobs, plans[..n], plans[i].requests[j].name, shared); }
      WriteAllAt(before, vars, plans[n].mounts, plans[n].tlsEnabled, plans[n].requests, shared, j);
    }
  }

  // ---------- the secrets of a job ----------

  lemma {:induction false} SshMountsOfOne(keys: seq<string>, secrets: map<string, string>, r: Request, n: nat)
    requires n <= |keys| && (forall k | k in keys :: k in secrets) && Increasing(keys) && !r.deployOnAllNodeSets
    ensures SshMounts(keys, secrets, r, n) == if r.nodeSet in keys[..n]
            then [SshMount(r.nodeSet, secrets[r.nodeSet], false)] else []
  {
    hide Increasing, SshMount;
    if n > 0 {
      SshMountsOfOne(keys, secrets, r, n - 1);
      IncreasingDistinct(keys);
      assert keys[..n] == keys[..n - 1] + [keys[n - 1]];
      assert keys[n - 1] !in keys[..n - 1];
    }
  }

  lemma {:induction false} InventoryMountsOfOne(keys: seq<string>, secrets: map<string, string>, r: Request, n: nat)
    requires n <= |keys| && (forall k | k in keys :: k in secrets) && Increasing(keys) && !r.deployOnAllNodeSets
    ensures InventoryMounts(keys, secrets, r, n) == if r.nodeSet in keys[..n]
            then [InventoryMount(0, secrets[r.nodeSet], false)] else []
  {
    hide Increasing, Itoa;
    assert forall i: nat, s: string :: InventoryMount(i, s, false) == InventoryMount(0, s, false);
    hide InventoryMount;
    if n > 0 {
      InventoryMountsOfOne(keys, secrets, r, n - 1);
      IncreasingDistinct(keys);
      assert keys[..n] == keys[..n - 1] + [keys[n - 1]];
      assert keys[n - 1] !in keys[..n - 1];
    }
  }

  /** A job for one nodeset mounts the ssh key and the inventory of this nodeset and no other. */
  lemma JobOfOneNodeSetMountsItsOwn(r: Request, shared: Shared)
    requires !r.deployOnAllNodeSets
    ensures OwnMounts(r, shared)
         == (if r.nodeSet in shared.sshKeys then [SshMount(r.nodeSet, shared.sshKeys[r.nodeSet], false)] else [])
            + (if r.nodeSet in shared.inventories then [InventoryMount(0, shared.inventories[r.nodeSet], false)]
              else [])
  {
    hide SshMounts, InventoryMounts, SshMount, InventoryMount, Increasing, Sorted;
    var sshKeys, invKeys := Sorted(shared.sshKeys.Keys), Sorted(shared.inventories.Keys);
    SortedIncreasing(shared.sshKeys.Keys);
    SortedIncreasing(shared.inventories.Keys);
    SshMountsOfOne(sshKeys, shared.sshKeys, r, |sshKeys|);
    InventoryMountsOfOne(invKeys, shared.inventories, r, |invKeys|);
    assert sshKeys[..|sshKeys|] == sshKeys && invKeys[..|invKeys|] == invKeys;
  }

  lemma {:induction false} MountsOfAll(keys: seq<string>, secrets: map<string, string>, invKeys: seq<string>,
                                       inventories: map<string, string>, r: Request, n: nat, m: nat)
    requires n <= |keys| && (forall k | k in keys :: k in secrets) && r.deployOnAllNodeSets
    requires m <= |invKeys| && (forall k | k in invKeys :: k in inventories)
    ensures |SshMounts(keys, secrets, r, n)| == n && |InventoryMounts(invKeys, inventories, r, m)| == m
    ensures forall i | 0 <= i < n :: SshMounts(keys, secrets, r, n)[i] == SshMount(keys[i], secrets[keys[i]], true)
    ensures forall i | 0 <= i < m ::
        InventoryMounts(invKeys, inventories, r, m)[i] == InventoryMount(i, inventories[invKeys[i]], true)
    decreases n + m
  {
    hide SshMount, InventoryMount;
    if n > 0 {
      MountsOfAll(keys, secrets, invKeys, inventories, r, n - 1, 0);
    }
    if m > 0 {
      MountsOfAll(keys, secrets, invKeys, inventories, r, 0, m - 1);
    }
  }

  lemma OwnMountsOfAll(r: Request, shared: Shared, own: VolMounts, sshKeys: seq<string>, invKeys: seq<string>)
    requires r.deployOnAllNodeSets && own == OwnMounts(r, shared)
    requires sshKeys == Sorted(shared.sshKeys.Keys) && invKeys == Sorted(shared.inventories.Keys)
    ensures |own| == |sshKeys| + |invKeys|
    ensures forall i | 0 <= i < |sshKeys| :: own[i] == SshMount(sshKeys[i], shared.sshKeys[sshKeys[i]], true)
    ensures forall i | |sshKeys| <= i < |own| ::
        own[i] == InventoryMount(i - |sshKeys|, shared.inventories[invKeys[i - |sshKeys|]], true)
  {
    hide SshMounts, InventoryMounts, SshMount, InventoryMount, Sorted;
    MountsOfAll(sshKeys, shared.sshKeys, invKeys, shared.inventories, r, |sshKeys|, |invKeys|);
  }

  /** A job for all nodesets mounts the ssh key and the inventory of each of them and nothing
      else. */
  lemma JobOfAllNodeSetsMountsAll(r: Request, shared: Shared)
    requires r.deployOnAllNodeSets
    ensures |OwnMounts(r, shared)| == |shared.sshKeys| + |shared.inventories|
    ensures forall k | k in shared.sshKeys :: SshMount(k, shared.sshKeys[k], true) in OwnMounts(r, shared)
    ensures forall k | k in shared.inventories :: exists i: nat ::
            InventoryMount(i, shared.inventories[k], true) in OwnMounts(r, shared)
  {
    var own, sshKeys, invKeys := OwnMounts(r, shared), Sorted(shared.sshKeys.Keys), Sorted(shared.inventories.Keys);
    OwnMountsOfAll(r, shared, own, sshKeys, invKeys);
    hide OwnMounts, SshMount, InventoryMount, Sorted;
    forall k | k in shared.inventories
      ensures exists i: nat :: InventoryMount(i, shared.inventories[k], true) in own
    {
      var i :| 0 <= i < |invKeys| && invKeys[i] == k;
      assert own[|sshKeys| + i] == InventoryMount(i, shared.inventories[k], true);
    }
  }

  lemma AfterPrefix(p: string, a: string, b: string)
    requires p + a == p + b
    ensures a == b
  {
    assert a == (p + a)[|p|..] && b == (p + b)[|p|..];
  }

  lemma SshPathsDiffer(a: string, b: string, s: string, s': string)
    requires a != b
    ensures SshMount(a, s, true).path != SshMount(b, s', true).path
  {
    if SshMount(a, s, true).path == SshMount(b, s', true).path { AfterPrefix("/runner/env/ssh_key/ssh_key_", a, b); }
  }

  lemma InventoryPathsDiffer(i: nat, j: nat, s: string, s': string)
    requires i != j
    ensures InventoryMount(i, s, true).path != InventoryMount(j, s', true).path
  {
    hide Itoa;
    if InventoryMount(i, s, true).path == InventoryMount(j, s', true).path {
      AfterPrefix("/runner/inventory/", "inventory-" + Itoa(i), "inventory-" + Itoa(j));
      AfterPrefix("inventory-", Itoa(i), Itoa(j));
      ItoaInjective(i, j);
    }
  }

  lemma KindsDiffer(a: string, j: nat, s: string, s': string)
    ensures SshMount(a, s, true).path != InventoryMount(j, s', true).path
  {
    hide Itoa;
    assert SshMount(a, s, true).path[8] == 'e' && InventoryMount(j, s', true).path[8] == 'i';
  }

  /** No two of the secrets of a job for all nodesets are mounted on the same path. */
  lemma SecretsHaveTheirOwnPaths(r: Request, shared: Shared, i: nat, j: nat)
    requires r.deployOnAllNodeSets && i < j < |OwnMounts(r, shared)|
    ensures OwnMounts(r, shared)[i].path != OwnMounts(r, shared)[j].path
  {
    var own, sshKeys, invKeys := OwnMounts(r, shared), Sorted(shared.sshKeys.Keys), Sorted(shared.inventories.Keys);
    SortedIncreasing(shared.sshKeys.Keys);
    OwnMountsOfAll(r, shared, own, sshKeys, invKeys);
    hide OwnMounts, SshMount, InventoryMount, Sorted;
    if j < |sshKeys| {
      IncreasingDistinct(sshKeys);
      SshPathsDiffer(sshKeys[i], sshKeys[j], shared.sshKeys[sshKeys[i]], shared.sshKeys[sshKeys[j]]);
    } else if i >= |sshKeys| {
      InventoryPathsDiffer(i - |sshKeys|, j - |sshKeys|, shared.inventories[invKeys[i - |sshKeys|]],
        shared.inventories[invKeys[j - |sshKeys|]]);
    } else {
      KindsDiffer(sshKeys[i], j - |sshKeys|, shared.sshKeys[sshKeys[i]], shared.inventories[invKeys[j - |sshKeys|]]);
    }
  }
}
