/**
 What one service makes of its condition, case by case: by the calls before its job, by the
 request, and by the status of the job that the second lookup finds.
 */
module ServiceOutcomes {
  import opened Conditions
  import opened AnsibleExecutions
  import opened Services
  import opened ObjectNames
  import opened Deployers
  import opened ServiceOrder

  /** Something the service needs before its job cannot be had. */
  ghost predicate Blocked(cat: Catalogue, t: Target, service: string, call: Call) {
    || !call.serviceRead || service !in cat.services || !call.mountsBuilt
    || (t.tlsEnabled && cat.services[service].addCertMounts && !(t.certSources && call.certMountsBuilt))
  }

  /** The condition of a service by its name. */
  ghost function ServiceIs(cat: Catalogue, conds: Conditions, service: string): Condition {
    Get(conds, ServiceCondition(cat.serviceCondition(service)))
  }

  /** A service that is blocked ends with an error, whatever its condition was. */
  lemma BlockedFails(cat: Catalogue, t: Target, service: string, jobs: JobStore, conds: Conditions, call: Call)
    requires Blocked(cat, t, service, call)
    ensures var s := DeployOne(cat, t, service, jobs, conds, call);
            s.outcome == Fail && s.jobs == jobs && ServiceIs(cat, s.conds, service) == False(ErrorOccurred, Error)
  {
  }

  /** A request that is not seen to succeed ends with an error and leaves the condition Unknown. */
  lemma RequestFails(cat: Catalogue, t: Target, service: string, jobs: JobStore, conds: Conditions, call: Call)
    requires Keyed(cat, jobs) && !Blocked(cat, t, service, call) && ServiceIs(cat, conds, service) == Unknown
    requires var l := t.LabelsOf(service);
             var n := cat.executionName(l);
             || call.listed == ListError || call.write != Applied
             || (n in jobs && jobs[n].labels.deployment != t.deployment) || (n !in jobs && !cat.admissible(l))
    ensures var s := DeployOne(cat, t, service, jobs, conds, call);
            s.outcome == Fail && s.conds == conds
  {
    hide Settle, Execute;
    RequestOutcome(cat.executionName, jobs, t.LabelsOf(service), call.listed,
      cat.WriteOf(jobs, t.LabelsOf(service), call.write));
  }

  /** The job of a service, if the second lookup shows it. */
  ghost function JobShown(cat: Catalogue, t: Target, service: string, jobs: JobStore, call: Call): Option<JobStatus> {
    if call.listedAfter == Shown && HasJobFor(cat, t, jobs, service)
      then Some(jobs[cat.executionName(t.LabelsOf(service))].status) else None
  }

  /** What a job that is looked up makes of the service. */
  ghost predicate Judged(before: Condition, status: JobStatus, after: Condition, outcome: Outcome) {
    match status
    case Succeeded => after == True && outcome == Proceed
    case Running => after == False(Requested, Info) && outcome == Wait
    case Pending => after == False(Requested, Info) && outcome == Wait
    case JobFailed(reason, severity) => after == False(reason, severity) && outcome == Fail
    case NotStarted => after == (if before == Unknown then False(Requested, Info) else before) && outcome == Wait
  }

  /** The service gets as far as the second lookup of its job, with these jobs. */
  ghost predicate GetsToLookup(cat: Catalogue, t: Target, service: string, conds: Conditions, call: Call, s: Step) {
    && !Blocked(cat, t, service, call) && ServiceIs(cat, conds, service) != True
    && (ServiceIs(cat, conds, service) == Unknown ==> call.listed != ListError && call.write == Applied)
    && (ServiceIs(cat, conds, service) == Unknown ==>
          var n := cat.executionName(t.LabelsOf(service)); n in s.jobs && s.jobs[n].labels.deployment == t.deployment)
  }

  /** A service that gets to the second lookup is judged by the job it shows; when it shows none,
      nothing is noted, and an error of the lookup is passed over. */
  lemma LookupDecides(cat: Catalogue, t: Target, service: string, jobs: JobStore, conds: Conditions, call: Call)
    requires Keyed(cat, jobs)
    requires GetsToLookup(cat, t, service, conds, call, DeployOne(cat, t, service, jobs, conds, call))
    ensures var s := DeployOne(cat, t, service, jobs, conds, call);
            var shown := JobShown(cat, t, service, s.jobs, call);
            && (call.listedAfter == ListError ==> s.outcome == Panic && s.conds == conds)
            && (call.listedAfter != ListError && shown.None? ==> s.outcome == Wait && s.conds == conds)
            && (call.listedAfter != ListError && shown.Some? ==>
                  Judged(ServiceIs(cat, conds, service), shown.value, ServiceIs(cat, s.conds, service), s.outcome))
  {
    hide Execute;
    var l := t.LabelsOf(service);
    DeployOneJobs(cat, t, service, jobs, conds, call);
    RequestOutcome(cat.executionName, jobs, l, call.listed, cat.WriteOf(jobs, l, call.write));
    LookupIsExact(cat.executionName, DeployOne(cat, t, service, jobs, conds, call).jobs, l);
  }

  /** Several jobs with the labels of a service cut the reconcile short, as a lookup that fails does. */
  lemma SeveralJobsCutShort(cat: Catalogue, t: Target, service: string, jobs: JobStore, conds: Conditions, call: Call,
                            n: string, m: string)
    requires !Blocked(cat, t, service, call) && ServiceIs(cat, conds, service).False? && call.listedAfter == Shown
    requires n in jobs && m in jobs && n != m
             && jobs[n].labels == jobs[m].labels == t.LabelsOf(service)
    ensures DeployOne(cat, t, service, jobs, conds, call) == Step(jobs, conds, Panic)
  {
    SeveralMatches(cat.executionName, jobs, t.LabelsOf(service), n, m, Applied);
  }

  /** A service whose condition is True is passed over. */
  lemma TruePasses(cat: Catalogue, t: Target, service: string, jobs: JobStore, conds: Conditions, call: Call)
    requires !Blocked(cat, t, service, call) && ServiceIs(cat, conds, service) == True
    ensures DeployOne(cat, t, service, jobs, conds, call) == Step(jobs, conds, Proceed)
  {
  }

  /** The operator's rules: which deployments it reconciles, which hosts can have IP sets, and which jobs the
      API server takes. */
  lemma StandardRules(services: ServiceStore, camel: string -> string, mirror: Conditions -> Condition, s: string,
                      l: Labels)
    ensures var cat := StandardCatalogue(services, camel, mirror);
            var global := l.service in services && services[l.service].deployOnAllNodeSets;
            && cat.services == services && cat.mirror == mirror
            && cat.executionName(l) == ExecutionName(l, global)
            && (cat.validName(s) <==> IsRFC1123HostName(s)) && (cat.objectName(s) <==> IsObjectName(s))
            && (cat.admissible(l) <==>
                  && IsObjectName(ExecutionName(l, global))
                  && IsLabelValue(l.service) && IsLabelValue(l.deployment) && IsLabelValue(l.nodeSet))
  {
    hide IsObjectName, IsLabelValue, IsRFC1123HostName, ExecutionName;
  }

  /** The operator's names for the conditions of services. */
  lemma ServiceConditionName(services: ServiceStore, camel: string -> string, mirror: Conditions -> Condition,
                             service: string)
    ensures StandardCatalogue(services, camel, mirror).ConditionTypeOf(service)
         == ServiceCondition("Service" + camel(service) + "DeploymentReady")
  {
  }
}
