/**
 The store of AnsibleEE jobs: jobs are written under an execution name and found again by
 their labels (pkg/util/ansible_execution.go).
 */
module AnsibleExecutions {
  import opened Conditions

  datatype Labels = Labels(service: string, deployment: string, nodeSet: string)

  /** The status the runner reports. A failed job carries the reason and the severity of
      its own Ready condition. */
  datatype JobStatus = NotStarted | Pending | Running | Succeeded | JobFailed(reason: Reason, severity: Severity)

  /** `writes` counts the creation and the patches of a job, so that a patch is visible. */
  datatype Job = Job(labels: Labels, status: JobStatus, writes: nat)

  type JobStore = map<string, Job>

  /** What becomes of one write request: it is refused, it is applied, or it is applied but
      its acknowledgement is lost. */
  datatype Write = Refused | Applied | AppliedUnseen

  const SERVICE_NAME_LEN := 53
  const NAME_LABEL_LEN := 63

  function NamePrefix(service: string): string {
    if |service| > SERVICE_NAME_LEN then service[..SERVICE_NAME_LEN] else service
  }

  function JoinedName(l: Labels, global: bool): string {
    var name := NamePrefix(l.service) + "-" + l.deployment;
    if global then name else name + "-" + l.nodeSet
  }

  /** The execution name: prefix, deployment and, unless the service is global, nodeset,
      joined by dashes and cut at the length of a label. */
  function ExecutionName(l: Labels, global: bool): string {
    var name := JoinedName(l, global);
    if |name| > NAME_LABEL_LEN then name[..NAME_LABEL_LEN] else name
  }

  /** How jobs are named. What follows holds for any naming; the operator's own is
      `StandardNaming`, given the services that are deployed on all nodesets at once. */
  type Naming = Labels -> string

  function StandardNaming(globals: set<string>): Naming {
    (l: Labels) => ExecutionName(l, l.service in globals)
  }

  // ---------- lookup by labels ----------

  /** How a list call turns out: it shows the jobs of the store, it comes from a cache that does
      not show them yet, or it fails. */
  datatype Listing = Shown | Stale | ListError

  datatype Lookup = Found(name: string) | NotFound | Multiple | LookupFailed

  function Matching(jobs: JobStore, l: Labels): set<string> {
    set n | n in jobs && jobs[n].labels == l
  }

  lemma SingletonAll(s: set<string>)
    requires |s| == 1
    ensures forall a, b | a in s && b in s :: a == b
  {
    forall a, b | a in s && b in s
      ensures a == b
    {
      assert |s - {a}| == 0;
      assert b !in s - {a};
    }
  }

  function GetAnsibleExecution(jobs: JobStore, l: Labels): (r: Lookup)
    ensures r.Found? ==> r.name in jobs && jobs[r.name].labels == l
  {
    var names := Matching(jobs, l);
    if |names| == 0 then NotFound
    else if |names| == 1 then
      SingletonAll(names);
      assert names != {};
      var n :| n in names;
      Found(n)
    else Multiple
  }

  function Find(jobs: JobStore, l: Labels, listing: Listing): Lookup {
    match listing
    case Shown => GetAnsibleExecution(jobs, l)
    case Stale => NotFound
    case ListError => LookupFailed
  }

  // ---------- create or patch ----------

  /** The store after one create-or-patch of the job for `l` under the name `n`, and whether the
      caller sees it succeed. A job that exists under that name keeps its labels and its
      status; one that belongs to another deployment is left alone and the call fails. */
  function CreateOrPatch(jobs: JobStore, n: string, l: Labels, w: Write): (JobStore, bool) {
    if w.Refused? then (jobs, false)
    else if n !in jobs then (jobs[n := Job(l, NotStarted, 1)], w.Applied?)
    else if jobs[n].labels.deployment != l.deployment then (jobs, false)
    else (jobs[n := jobs[n].(writes := jobs[n].writes + 1)], w.Applied?)
  }

  /** One execution request, which starts from a list of the jobs. */
  function Execute(name: Naming, jobs: JobStore, l: Labels, listing: Listing, w: Write): (JobStore, bool) {
    match Find(jobs, l, listing)
    case Multiple => (jobs, false)
    case LookupFailed => (jobs, false)
    case Found(n) => CreateOrPatch(jobs, n, l, w)
    case NotFound => CreateOrPatch(jobs, name(l), l, w)
  }

  /** The jobs known to the API server. */
  class Cluster {
    var jobs: JobStore

    constructor (jobs: JobStore)
      ensures this.jobs == jobs
    {
      this.jobs := jobs;
    }

    method AnsibleExecution(name: Naming, l: Labels, listing: Listing, w: Write) returns (ok: bool)
      modifies this
      ensures (jobs, ok) == Execute(name, old(jobs), l, listing, w)
    {
      var executionName := name(l);
      var found := Find(jobs, l, listing);
      if found.LookupFailed? || found.Multiple? {
        return false;
      }
      if found.Found? {
        executionName := found.name;
      }
      if w.Refused? {
        return false;
      }
      if executionName in jobs {
        var job := jobs[executionName];
        if job.labels.deployment != l.deployment {
          return false;
        }
        jobs := jobs[executionName := job.(writes := job.writes + 1)];
      } else {
        jobs := jobs[executionName := Job(l, NotStarted, 1)];
      }
      ok := w.Applied?;
    }
  }

  // ---------- what holds of the store ----------

  /** Every job sits under the execution name of its own labels. */
  ghost predicate WellKeyed(name: Naming, jobs: JobStore) {
    forall n | n in jobs :: n == name(jobs[n].labels)
  }

  ghost predicate HasJob(name: Naming, jobs: JobStore, l: Labels) {
    var n := name(l);
    n in jobs && jobs[n].labels == l
  }

  ghost predicate Done(name: Naming, jobs: JobStore, l: Labels) {
    HasJob(name, jobs, l) && jobs[name(l)].status.Succeeded?
  }

  /** In a well-keyed store a label triple belongs to at most one job, so the lookup finds
      that job or nothing, and "multiple found" cannot occur. */
  lemma LookupIsExact(name: Naming, jobs: JobStore, l: Labels)
    requires WellKeyed(name, jobs)
    ensures GetAnsibleExecution(jobs, l) == if HasJob(name, jobs, l) then Found(name(l)) else NotFound
    ensures forall n, m | n in jobs && m in jobs && jobs[n].labels == jobs[m].labels :: n == m
  {
    var names := Matching(jobs, l);
    if HasJob(name, jobs, l) {
      assert names == {name(l)};
    } else {
      assert names == {};
    }
  }

  /** The jobs of `jobs` are all in `jobs'`, with the labels and the status they had. */
  ghost predicate Preserved(jobs: JobStore, jobs': JobStore) {
    forall n | n in jobs :: n in jobs' && jobs'[n].labels == jobs[n].labels && jobs'[n].status == jobs[n].status
  }

  /** From `jobs` to `jobs'`, at most the job under the execution name of `l` was written: it
      was created with the labels `l`, or it belonged to the same deployment and kept its
      labels and its status. */
  ghost predicate Wrote(name: Naming, l: Labels, jobs: JobStore, jobs': JobStore) {
    && Preserved(jobs, jobs')
    && (forall n | n in jobs' && n !in jobs :: n == name(l) && jobs'[n].labels == l && jobs'[n].status.NotStarted?)
    && (forall n | n in jobs && jobs'[n] != jobs[n] :: n == name(l) && jobs[n].labels.deployment == l.deployment)
  }

  /** One execution request writes at most the one job it is for, and keeps the store well
      keyed. */
  lemma ExecuteEffect(name: Naming, jobs: JobStore, l: Labels, listing: Listing, w: Write)
    requires WellKeyed(name, jobs)
    ensures var jobs' := Execute(name, jobs, l, listing, w).0;
            WellKeyed(name, jobs') && Wrote(name, l, jobs, jobs')
  {
    LookupIsExact(name, jobs, l);
  }

  /** A request whose calls all succeed ends with the requested job in the store if and only
      if its execution name is free or already held by this very job. */
  lemma ExecuteCreatesUnlessTaken(name: Naming, jobs: JobStore, l: Labels, listing: Listing)
    requires WellKeyed(name, jobs) && !listing.ListError?
    ensures var n := name(l);
            HasJob(name, Execute(name, jobs, l, listing, Applied).0, l) <==> n !in jobs || jobs[n].labels == l
    ensures var n := name(l);
            (n !in jobs || jobs[n].labels == l) ==> Execute(name, jobs, l, listing, Applied).1
  {
    LookupIsExact(name, jobs, l);
  }

  /** What one request leaves, and what its caller sees: it goes through unless the list fails, the
      write is refused or the name belongs to another deployment, and it is seen to succeed when
      it goes through and is acknowledged. */
  lemma RequestOutcome(name: Naming, jobs: JobStore, l: Labels, listing: Listing, w: Write)
    requires WellKeyed(name, jobs)
    ensures var (jobs', ok) := Execute(name, jobs, l, listing, w);
            var n := name(l);
            var through := listing != ListError && w != Refused
                           && (n in jobs ==> jobs[n].labels.deployment == l.deployment);
            && (ok <==> through && w == Applied)
            && (!through ==> jobs' == jobs)
            && (through && n !in jobs ==> jobs' == jobs[n := Job(l, NotStarted, 1)])
            && (through && n in jobs ==>
                  jobs' == jobs[n := Job(jobs[n].labels, jobs[n].status, jobs[n].writes + 1)])
  {
    LookupIsExact(name, jobs, l);
  }

  /** Were there several jobs with the same labels, the lookup would say so and the request fail. */
  lemma SeveralMatches(name: Naming, jobs: JobStore, l: Labels, n: string, m: string, w: Write)
    requires n in jobs && m in jobs && n != m && jobs[n].labels == l && jobs[m].labels == l
    ensures GetAnsibleExecution(jobs, l) == Multiple && Execute(name, jobs, l, Shown, w) == (jobs, false)
  {
    assert n in Matching(jobs, l) && m in Matching(jobs, l);
    if |Matching(jobs, l)| == 1 { SingletonAll(Matching(jobs, l)); }
  }

  // ---------- execution names ----------

  /** The name in full: the first 53 characters of the service, the deployment and, unless the service
      is global, the nodeset, of which the first 63 characters count. */
  lemma ExecutionNameIs(l: Labels, global: bool)
    ensures var service := if |l.service| > 53 then l.service[..53] else l.service;
            var full := service + "-" + l.deployment + if global then "" else "-" + l.nodeSet;
            ExecutionName(l, global) == if |full| > 63 then full[..63] else full
  {
    var service := if |l.service| > 53 then l.service[..53] else l.service;
    assert service + "-" + l.deployment + "" == service + "-" + l.deployment;
    assert service + "-" + l.deployment + ("-" + l.nodeSet) == service + "-" + l.deployment + "-" + l.nodeSet;
  }

  /** On one nodeset of one deployment, distinct services get distinct names as long as
      nothing is cut. */
  lemma NamesDistinctWhenUncut(l: Labels, m: Labels, global: bool)
    requires l.deployment == m.deployment && l.nodeSet == m.nodeSet && l.service != m.service
    requires |l.service| <= SERVICE_NAME_LEN && |m.service| <= SERVICE_NAME_LEN
    requires |JoinedName(l, global)| <= NAME_LABEL_LEN && |JoinedName(m, global)| <= NAME_LABEL_LEN
    ensures ExecutionName(l, global) != ExecutionName(m, global)
  {
    var tail := if global then "-" + l.deployment else "-" + l.deployment + "-" + l.nodeSet;
    var a, b := JoinedName(l, global), JoinedName(m, global);
    assert a == l.service + tail && b == m.service + tail;
    assert l.service == a[..|a| - |tail|];
    assert m.service == b[..|b| - |tail|];
  }

  /** The dashes do not delimit: two nodesets of one deployment can meet in one name, and a
      global service has the same name on every nodeset. */
  lemma NamesCanCollide()
    ensures ExecutionName(Labels("x", "d", "d-y"), false) == ExecutionName(Labels("x-d", "d", "y"), false)
    ensures forall s: string, d: string, n: string, n': string ::
              ExecutionName(Labels(s, d, n), true) == ExecutionName(Labels(s, d, n'), true)
  {
    assert JoinedName(Labels("x", "d", "d-y"), false) == "x-d-d-y";
    assert JoinedName(Labels("x-d", "d", "y"), false) == "x-d-d-y";
  }
}
