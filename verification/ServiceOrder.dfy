/**
 What the replay of one nodeset's services keeps: jobs appear in list order, a service gets
 its job only after every service before it has succeeded, and nothing outside the
 nodeset's own execution names is read or written.
 */
module ServiceOrder {
  import opened Conditions
  import opened AnsibleExecutions
  import opened Deployers

  /** The service at `i` is the first of the list with its condition type. A later one with
      the same type finds its condition already True and is passed over. */
  ghost predicate First(cat: Catalogue, services: seq<string>, i: int)
    requires 0 <= i < |services|
  {
    forall j | 0 <= j < i :: cat.ConditionTypeOf(services[j]) != cat.ConditionTypeOf(services[i])
  }

  ghost predicate HasJobFor(cat: Catalogue, t: Target, jobs: JobStore, service: string) {
    HasJob(cat.executionName, jobs, t.LabelsOf(service))
  }

  ghost predicate DoneFor(cat: Catalogue, t: Target, jobs: JobStore, service: string) {
    Done(cat.executionName, jobs, t.LabelsOf(service))
  }

  /** Every job sits under the name that follows from its labels, and these were accepted. */
  ghost predicate Keyed(cat: Catalogue, jobs: JobStore) {
    && WellKeyed(cat.executionName, jobs)
    && forall n | n in jobs :: cat.admissible(jobs[n].labels)
  }

  /** A condition that is True belongs to a service whose job has succeeded. */
  ghost predicate Sound(cat: Catalogue, t: Target, services: seq<string>, jobs: JobStore, conds: Conditions) {
    forall i | 0 <= i < |services| && First(cat, services, i) && IsTrue(conds, cat.ConditionTypeOf(services[i])) ::
      DoneFor(cat, t, jobs, services[i])
  }

  /** A service has a job only when all the services before it have succeeded. */
  ghost predicate InOrder(cat: Catalogue, t: Target, services: seq<string>, jobs: JobStore) {
    forall i, j | 0 <= j < i < |services| && First(cat, services, i) && First(cat, services, j)
                  && HasJobFor(cat, t, jobs, services[i]) ::
      DoneFor(cat, t, jobs, services[j])
  }

  ghost predicate Listed(cat: Catalogue, services: seq<string>, service: string) {
    exists i | 0 <= i < |services| :: First(cat, services, i) && services[i] == service
  }

  /** Every job of this nodeset in this deployment is for one of the listed services. */
  ghost predicate OnlyListed(cat: Catalogue, t: Target, services: seq<string>, jobs: JobStore) {
    forall n | n in jobs && jobs[n].labels == t.LabelsOf(jobs[n].labels.service) ::
                                  Listed(cat, services, jobs[n].labels.service)
  }

  /** Jobs and statuses are kept, new jobs carry the labels of `t`, and jobs of other
      deployments are untouched. */
  ghost predicate WroteOnlyOwn(t: Target, jobs: JobStore, jobs': JobStore) {
    && Preserved(jobs, jobs')
    && (forall n | n in jobs' && n !in jobs ::
          jobs'[n].labels == t.LabelsOf(jobs'[n].labels.service) && jobs'[n].status.NotStarted?)
    && (forall n | n in jobs && jobs[n].labels.deployment != t.deployment :: jobs'[n] == jobs[n])
  }

  ghost predicate AllTrue(cat: Catalogue, services: seq<string>, upTo: nat, conds: Conditions)
    requires upTo <= |services|
  {
    forall j | 0 <= j < upTo :: IsTrue(conds, cat.ConditionTypeOf(services[j]))
  }

  /** One request writes at most its own job, and a new one only if it is accepted. */
  lemma ExecuteAccepted(cat: Catalogue, jobs: JobStore, l: Labels, listing: Listing, w: Write)
    requires Keyed(cat, jobs)
    ensures var jobs' := Execute(cat.executionName, jobs, l, listing, cat.WriteOf(jobs, l, w)).0;
            Keyed(cat, jobs') && Wrote(cat.executionName, l, jobs, jobs')
  {
    ExecuteEffect(cat.executionName, jobs, l, listing, cat.WriteOf(jobs, l, w));
    LookupIsExact(cat.executionName, jobs, l);
  }

  /** One service writes at most its own job, and none when its condition is already True. */
  lemma DeployOneJobs(cat: Catalogue, t: Target, service: string, jobs: JobStore, conds: Conditions, call: Call)
    requires Keyed(cat, jobs)
    ensures var jobs' := DeployOne(cat, t, service, jobs, conds, call).jobs;
            && Keyed(cat, jobs') && Wrote(cat.executionName, t.LabelsOf(service), jobs, jobs')
            && (IsTrue(conds, cat.ConditionTypeOf(service)) ==> jobs' == jobs)
  {
    hide Execute, Settle;
    ExecuteAccepted(cat, jobs, t.LabelsOf(service), call.listed, call.write);
  }

  lemma SettleConditions(cat: Catalogue, t: Target, service: string, jobs: JobStore, conds: Conditions, c: Condition,
                         listing: Listing)
    requires Keyed(cat, jobs) && !IsTrue(conds, cat.ConditionTypeOf(service)) && c.False?
    ensures var s := Settle(cat, t, service, jobs, conds, c, listing);
            var ct := cat.ConditionTypeOf(service);
            && (forall k | k != ct :: Get(s.conds, k) == Get(conds, k)) && conds.Keys <= s.conds.Keys
            && (s.outcome.Panic? <==> listing.ListError?)
            && (s.outcome.Proceed? <==> IsTrue(s.conds, ct))
            && (IsTrue(s.conds, ct) ==> DoneFor(cat, t, jobs, service))
  {
    LookupIsExact(cat.executionName, jobs, t.LabelsOf(service));
  }

  /** One service writes only its own condition; the replay goes on exactly when that
      condition is True, which takes a succeeded job unless it was True before. */
  lemma DeployOneConditions(cat: Catalogue, t: Target, service: string, jobs: JobStore, conds: Conditions, call: Call)
    requires Keyed(cat, jobs)
    ensures var s := DeployOne(cat, t, service, jobs, conds, call);
            var ct := cat.ConditionTypeOf(service);
            && (forall c | c != ct :: Get(s.conds, c) == Get(conds, c)) && conds.Keys <= s.conds.Keys
            && (s.outcome.Proceed? <==> IsTrue(s.conds, ct))
            && (IsTrue(s.conds, ct) ==> IsTrue(conds, ct) || DoneFor(cat, t, s.jobs, service))
  {
    hide Execute, Settle;
    DeployOneJobs(cat, t, service, jobs, conds, call);
    var jobs' := DeployOne(cat, t, service, jobs, conds, call).jobs;
    match Get(conds, cat.ConditionTypeOf(service))
    case True =>
    case False(_, _) =>
      SettleConditions(cat, t, service, jobs', conds, Get(conds, cat.ConditionTypeOf(service)), call.listedAfter);
    case Unknown =>
      SettleConditions(cat, t, service, jobs', conds, REQUESTED, call.listedAfter);
  }

  /** One service keeps the order of the jobs, provided all the conditions before it are True. */
  lemma DeployOneKeepsOrder(cat: Catalogue, t: Target, services: seq<string>, i: nat, jobs: JobStore,
                            conds: Conditions, call: Call)
    requires i < |services| && Keyed(cat, jobs) && AllTrue(cat, services, i, conds)
    requires Sound(cat, t, services, jobs, conds)
    requires InOrder(cat, t, services, jobs) && OnlyListed(cat, t, services, jobs)
    ensures var s := DeployOne(cat, t, services[i], jobs, conds, call);
            && Sound(cat, t, services, s.jobs, s.conds)
            && InOrder(cat, t, services, s.jobs) && OnlyListed(cat, t, services, s.jobs)
  {
    hide DeployOne, Keyed;
    DeployOneJobs(cat, t, services[i], jobs, conds, call);
    DeployOneConditions(cat, t, services[i], jobs, conds, call);
    var s := DeployOne(cat, t, services[i], jobs, conds, call);
    if First(cat, services, i) {
      assert Listed(cat, services, services[i]);
    } else {
      assert s.jobs == jobs;
    }
    forall k | 0 <= k < |services| && First(cat, services, k) && IsTrue(s.conds, cat.ConditionTypeOf(services[k]))
      ensures DoneFor(cat, t, s.jobs, services[k])
    {
      if k > i {
        assert cat.ConditionTypeOf(services[k]) != cat.ConditionTypeOf(services[i]);
      }
    }
  }

  lemma OneMoreTrue(cat: Catalogue, services: seq<string>, i: nat, conds: Conditions, conds': Conditions)
    requires i < |services| && AllTrue(cat, services, i, conds) && IsTrue(conds', cat.ConditionTypeOf(services[i]))
    requires forall c | c != cat.ConditionTypeOf(services[i]) :: Get(conds', c) == Get(conds, c)
    ensures AllTrue(cat, services, i + 1, conds')
  {
  }

  lemma NothingWritten(t: Target, jobs: JobStore)
    ensures WroteOnlyOwn(t, jobs, jobs)
  {
  }

  /** Writing the job of one service, and then jobs of the target or nothing, is writing jobs of
      the target. */
  lemma WroteThenOwn(cat: Catalogue, t: Target, service: string, jobs: JobStore, jobs': JobStore, jobs'': JobStore)
    requires Wrote(cat.executionName, t.LabelsOf(service), jobs, jobs')
    requires jobs'' == jobs' || WroteOnlyOwn(t, jobs', jobs'')
    ensures WroteOnlyOwn(t, jobs, jobs'')
  {
  }

  /** The whole replay keeps the order, and when it finishes every listed service has
      succeeded. It leaves the conditions of other types alone. */
  lemma {:induction false} DeployKeepsOrder(cat: Catalogue, t: Target, services: seq<string>, i: nat, jobs: JobStore,
                                            conds: Conditions, calls: nat -> Call)
    requires i <= |services| && Keyed(cat, jobs) && AllTrue(cat, services, i, conds)
    requires Sound(cat, t, services, jobs, conds)
    requires InOrder(cat, t, services, jobs) && OnlyListed(cat, t, services, jobs)
    ensures var s := DeployFrom(cat, t, services, i, jobs, conds, calls);
            && Keyed(cat, s.jobs) && WroteOnlyOwn(t, jobs, s.jobs)
            && Sound(cat, t, services, s.jobs, s.conds)
            && InOrder(cat, t, services, s.jobs) && OnlyListed(cat, t, services, s.jobs)
            && (forall c: ConditionType | !c.ServiceCondition? :: Get(s.conds, c) == Get(conds, c))
               && conds.Keys <= s.conds.Keys
            && (s.outcome.Proceed? ==> AllTrue(cat, services, |services|, s.conds))
    decreases |services| - i
  {
    hide DeployOne, Keyed, Wrote, WroteOnlyOwn, Sound, InOrder, OnlyListed, AllTrue;
    NothingWritten(t, jobs);
    if i < |services| {
      var s := DeployOne(cat, t, services[i], jobs, conds, calls(i));
      DeployOneJobs(cat, t, services[i], jobs, conds, calls(i));
      DeployOneConditions(cat, t, services[i], jobs, conds, calls(i));
      DeployOneKeepsOrder(cat, t, services, i, jobs, conds, calls(i));
      WroteThenOwn(cat, t, services[i], jobs, s.jobs, s.jobs);
      if s.outcome.Proceed? {
        OneMoreTrue(cat, services, i, conds, s.conds);
        DeployKeepsOrder(cat, t, services, i + 1, s.jobs, s.conds, calls);
        WroteThenOwn(cat, t, services[i], jobs, s.jobs,
          DeployFrom(cat, t, services, i + 1, s.jobs, s.conds, calls).jobs);
      }
    }
  }
}
