/**
 How far one replay gets, and what it depends on: when all calls succeed and the nodeset's
 execution names are its own, the replay finishes if every service has succeeded and
 otherwise leaves one outstanding job; it reads and writes nothing but the jobs under the
 nodeset's own execution names.
 */
module ServiceProgress {
  import opened Conditions
  import opened AnsibleExecutions
  import opened Deployers
  import opened ServiceOrder

  /** The calls made for a list of services all turn out well. */
  ghost predicate AllGood(calls: nat -> Call) {
    forall i :: calls(i) == GOOD_CALL
  }

  /** The job of the service can be had: it is there, or its name is free and accepted. */
  ghost predicate NameFree(cat: Catalogue, t: Target, jobs: JobStore, service: string) {
    && cat.admissible(t.LabelsOf(service))
    && (cat.executionName(t.LabelsOf(service)) in jobs ==> HasJobFor(cat, t, jobs, service))
  }

  /** Every execution name of the nodeset is free or held by the job it is meant for, and the
      services do not share names. */
  ghost predicate NamesFree(cat: Catalogue, t: Target, services: seq<string>, jobs: JobStore) {
    && (forall i | 0 <= i < |services| && First(cat, services, i) :: NameFree(cat, t, jobs, services[i]))
    && (forall i, j | 0 <= i < j < |services| && First(cat, services, i) && First(cat, services, j) ::
          cat.executionName(t.LabelsOf(services[i])) != cat.executionName(t.LabelsOf(services[j])))
  }

  /** The condition of a service says no more than its jobs: it is Unknown, or True with a job
      that has succeeded, or False with a job. */
  ghost predicate BackedBy(cat: Catalogue, t: Target, jobs: JobStore, conds: Conditions, service: string) {
    match Get(conds, cat.ConditionTypeOf(service))
    case Unknown => true
    case True => DoneFor(cat, t, jobs, service)
    case False(_, _) => HasJobFor(cat, t, jobs, service)
  }

  ghost predicate Backed(cat: Catalogue, t: Target, services: seq<string>, jobs: JobStore, conds: Conditions) {
    forall k | 0 <= k < |services| && First(cat, services, k) :: BackedBy(cat, t, jobs, conds, services[k])
  }

  /** A service that the replay can deploy: it is there, and so are the sources of its mounts. */
  predicate Usable(cat: Catalogue, t: Target, service: string) {
    service in cat.services && (t.tlsEnabled && cat.services[service].addCertMounts ==> t.certSources)
  }

  /** The services from index `i` on that have not succeeded yet. */
  ghost function Unfinished(cat: Catalogue, t: Target, services: seq<string>, i: nat, jobs: JobStore): nat
    requires i <= |services|
    decreases |services| - i
  {
    if i == |services| then 0
    else Unfinished(cat, t, services, i + 1, jobs) + if First(cat, services, i)
                    && !DoneFor(cat, t, jobs, services[i]) then 1 else 0
  }

  ghost predicate Outstanding(cat: Catalogue, t: Target, services: seq<string>, jobs: JobStore, k: nat)
  {
    k < |services| && First(cat, services, k) && HasJobFor(cat, t, jobs, services[k])
                            && !DoneFor(cat, t, jobs, services[k])
  }

  /** The job of the service is there and has failed. */
  ghost predicate FailedFor(cat: Catalogue, t: Target, jobs: JobStore, service: string) {
    HasJobFor(cat, t, jobs, service) && jobs[cat.executionName(t.LabelsOf(service))].status.JobFailed?
  }

  /** A good request for a service whose name is free leaves its job in the store. */
  lemma GoodRequest(cat: Catalogue, t: Target, service: string, jobs: JobStore)
    requires Keyed(cat, jobs) && NameFree(cat, t, jobs, service)
    ensures var l := t.LabelsOf(service);
            var r := Execute(cat.executionName, jobs, l, Shown, cat.WriteOf(jobs, l, Applied));
            r.1 && HasJobFor(cat, t, r.0, service) && Keyed(cat, r.0) && Wrote(cat.executionName, l, jobs, r.0)
  {
    ExecuteAccepted(cat, jobs, t.LabelsOf(service), Shown, Applied);
    ExecuteCreatesUnlessTaken(cat.executionName, jobs, t.LabelsOf(service), Shown);
  }

  /** Settling the condition of a service whose job is there. */
  lemma GoodSettle(cat: Catalogue, t: Target, service: string, jobs: JobStore, conds: Conditions, c: Condition)
    requires Keyed(cat, jobs) && HasJobFor(cat, t, jobs, service) && c.False?
    ensures var s := Settle(cat, t, service, jobs, conds, c, Shown);
            && (s.outcome.Proceed? <==> DoneFor(cat, t, jobs, service)) && !s.outcome.Panic?
            && (s.outcome.Fail? <==> FailedFor(cat, t, jobs, service))
            && BackedBy(cat, t, jobs, s.conds, service)
  {
    LookupIsExact(cat.executionName, jobs, t.LabelsOf(service));
  }

  /** One good call for a service whose condition is backed: its job is there afterwards, its
      condition is backed again, and the replay goes on if and only if the job has succeeded. */
  lemma GoodCallStep(cat: Catalogue, t: Target, service: string, jobs: JobStore, conds: Conditions)
    requires Keyed(cat, jobs) && Usable(cat, t, service) && NameFree(cat, t, jobs, service)
    requires BackedBy(cat, t, jobs, conds, service)
    ensures var s := DeployOne(cat, t, service, jobs, conds, GOOD_CALL);
            && HasJobFor(cat, t, s.jobs, service) && !s.outcome.Panic?
            && (s.outcome.Proceed? <==> DoneFor(cat, t, s.jobs, service))
            && (s.outcome.Fail? <==> FailedFor(cat, t, s.jobs, service))
            && (DoneFor(cat, t, s.jobs, service) <==> DoneFor(cat, t, jobs, service))
            && BackedBy(cat, t, s.jobs, s.conds, service)
  {
    hide Execute, Settle;
    DeployOneJobs(cat, t, service, jobs, conds, GOOD_CALL);
    var c := Get(conds, cat.ConditionTypeOf(service));
    if c.Unknown? {
      GoodRequest(cat, t, service, jobs);
      GoodSettle(cat, t, service, DeployOne(cat, t, service, jobs, conds, GOOD_CALL).jobs, conds, REQUESTED);
    } else if c.False? {
      GoodSettle(cat, t, service, jobs, conds, c);
    }
  }

  lemma PassedOver(cat: Catalogue, t: Target, service: string, jobs: JobStore, conds: Conditions)
    requires Usable(cat, t, service) && IsTrue(conds, cat.ConditionTypeOf(service))
    ensures DeployOne(cat, t, service, jobs, conds, GOOD_CALL) == Step(jobs, conds, Proceed)
  {
  }

  ghost predicate AllDone(cat: Catalogue, t: Target, services: seq<string>, i: nat, jobs: JobStore) {
    forall j | i <= j < |services| && First(cat, services, j) :: DoneFor(cat, t, jobs, services[j])
  }

  /** Writing jobs makes none of them succeed. */
  lemma DoneUnchanged(cat: Catalogue, t: Target, services: seq<string>, i: nat, jobs: JobStore, jobs': JobStore,
                      l: Labels)
    requires Wrote(cat.executionName, l, jobs, jobs')
    ensures AllDone(cat, t, services, i, jobs') <==> AllDone(cat, t, services, i, jobs)
  {
    assert forall s :: DoneFor(cat, t, jobs', s) <==> DoneFor(cat, t, jobs, s);
  }

  /** The good call for the service at `i`, whether it is the first of its type or not. */
  lemma GoodStepAt(cat: Catalogue, t: Target, services: seq<string>, i: nat, jobs: JobStore, conds: Conditions)
    requires i < |services| && Keyed(cat, jobs) && Usable(cat, t, services[i])
    requires AllTrue(cat, services, i, conds) && Backed(cat, t, services, jobs, conds)
    requires NamesFree(cat, t, services, jobs)
    ensures var s := DeployOne(cat, t, services[i], jobs, conds, GOOD_CALL);
            && (s.outcome.Proceed? <==> (First(cat, services, i) ==> DoneFor(cat, t, jobs, services[i])))
            && (!First(cat, services, i) ==> s.jobs == jobs && s.conds == conds)
            && (!s.outcome.Proceed? ==> Outstanding(cat, t, services, s.jobs, i)) && !s.outcome.Panic?
            && (!s.outcome.Proceed? ==> (s.outcome.Fail? <==> FailedFor(cat, t, s.jobs, services[i])))
            && (First(cat, services, i) ==> BackedBy(cat, t, s.jobs, s.conds, services[i]))
  {
    hide DeployOne, BackedBy, Usable, NameFree, FailedFor;
    if First(cat, services, i) {
      GoodCallStep(cat, t, services[i], jobs, conds);
    } else {
      PassedOver(cat, t, services[i], jobs, conds);
    }
  }

  /** The replay finishes if and only if every service has succeeded; otherwise it stops and
      leaves the job of the first unfinished service in the store. */
  lemma {:induction false} GoodReplay(cat: Catalogue, t: Target, services: seq<string>, i: nat, jobs: JobStore,
                                      conds: Conditions, calls: nat -> Call) returns (k: nat)
    requires i <= |services| && Keyed(cat, jobs) && AllGood(calls)
    requires forall s | s in services :: Usable(cat, t, s)
    requires AllTrue(cat, services, i, conds) && Backed(cat, t, services, jobs, conds)
    requires NamesFree(cat, t, services, jobs)
    ensures var s := DeployFrom(cat, t, services, i, jobs, conds, calls);
            && (s.outcome.Proceed? <==> AllDone(cat, t, services, i, jobs))
            && (!s.outcome.Proceed? ==> Outstanding(cat, t, services, s.jobs, k)) && !s.outcome.Panic?
            && (!s.outcome.Proceed? ==> (s.outcome.Fail? <==> FailedFor(cat, t, s.jobs, services[k])))
            && Backed(cat, t, services, s.jobs, s.conds)
    decreases |services| - i
  {
    hide DeployOne, NamesFree, Usable, Backed, First, DoneFor, FailedFor, Keyed, Wrote, AllTrue, Outstanding, BackedBy;
    k := i;
    if i < |services| {
      assert calls(i) == GOOD_CALL;
      var s := DeployOne(cat, t, services[i], jobs, conds, GOOD_CALL);
      GoodStepAt(cat, t, services, i, jobs, conds);
      DeployOneJobs(cat, t, services[i], jobs, conds, GOOD_CALL);
      DeployOneConditions(cat, t, services[i], jobs, conds, GOOD_CALL);
      StillBacked(cat, t, services, i, jobs, conds, s);
      if s.outcome.Proceed? {
        NextStillFree(cat, t, services, i, jobs, conds, s);
        DoneUnchanged(cat, t, services, i + 1, jobs, s.jobs, t.LabelsOf(services[i]));
        k := GoodReplay(cat, t, services, i + 1, s.jobs, s.conds, calls);
      }
    }
  }

  /** The call for one service leaves the others backed. */
  lemma StillBacked(cat: Catalogue, t: Target, services: seq<string>, i: nat, jobs: JobStore, conds: Conditions,
                    s: Step)
    requires i < |services| && Backed(cat, t, services, jobs, conds)
    requires Wrote(cat.executionName, t.LabelsOf(services[i]), jobs, s.jobs)
    requires forall c | c != cat.ConditionTypeOf(services[i]) :: Get(s.conds, c) == Get(conds, c)
    requires if First(cat, services, i) then BackedBy(cat, t, s.jobs, s.conds, services[i])
             else s.jobs == jobs && s.conds == conds
    ensures Backed(cat, t, services, s.jobs, s.conds)
  {
    forall k | 0 <= k < |services| && First(cat, services, k)
      ensures BackedBy(cat, t, s.jobs, s.conds, services[k])
    {
      if k != i && First(cat, services, i) {
        assert cat.ConditionTypeOf(services[k]) != cat.ConditionTypeOf(services[i]);
        BackedKept(cat, t, jobs, s.jobs, conds, s.conds, services[k]);
      }
    }
  }

  /** What is written later leaves a condition backed. */
  lemma BackedKept(cat: Catalogue, t: Target, jobs: JobStore, jobs': JobStore, conds: Conditions, conds': Conditions,
                   service: string)
    requires Preserved(jobs, jobs') && BackedBy(cat, t, jobs, conds, service)
    requires Get(conds', cat.ConditionTypeOf(service)) == Get(conds, cat.ConditionTypeOf(service))
    ensures BackedBy(cat, t, jobs', conds', service)
  {
  }

  lemma NextStillFree(cat: Catalogue, t: Target, services: seq<string>, i: nat, jobs: JobStore, conds: Conditions,
                      s: Step)
    requires i < |services| && Keyed(cat, jobs) && Keyed(cat, s.jobs)
    requires Wrote(cat.executionName, t.LabelsOf(services[i]), jobs, s.jobs)
    requires AllTrue(cat, services, i, conds)
    requires forall c | c != cat.ConditionTypeOf(services[i]) :: Get(s.conds, c) == Get(conds, c)
    requires IsTrue(s.conds, cat.ConditionTypeOf(services[i]))
    requires NamesFree(cat, t, services, jobs)
    requires First(cat, services, i) || s.jobs == jobs
    ensures AllTrue(cat, services, i + 1, s.conds)
    ensures NamesFree(cat, t, services, s.jobs)
  {
  }

  // ---------- locality ----------

  ghost function NamesFor(cat: Catalogue, t: Target, services: seq<string>): set<string> {
    set i | 0 <= i < |services| :: cat.executionName(t.LabelsOf(services[i]))
  }

  ghost predicate SameAt(n: string, jobs: JobStore, jobs': JobStore) {
    (n in jobs <==> n in jobs') && (n in jobs ==> jobs[n] == jobs'[n])
  }

  /** A replay leaves every other execution name alone. */
  lemma {:induction false} ReplayWritesOwnNames(cat: Catalogue, t: Target, services: seq<string>, i: nat,
                                                jobs: JobStore, conds: Conditions, calls: nat -> Call, n: string)
    requires i <= |services| && Keyed(cat, jobs) && n !in NamesFor(cat, t, services)
    ensures SameAt(n, jobs, DeployFrom(cat, t, services, i, jobs, conds, calls).jobs)
    decreases |services| - i
  {
    hide DeployOne;
    if i < |services| {
      DeployOneJobs(cat, t, services[i], jobs, conds, calls(i));
      assert cat.executionName(t.LabelsOf(services[i])) in NamesFor(cat, t, services);
      var s := DeployOne(cat, t, services[i], jobs, conds, calls(i));
      if s.outcome.Proceed? {
        ReplayWritesOwnNames(cat, t, services, i + 1, s.jobs, s.conds, calls, n);
      }
    }
  }

  lemma ExecuteReadsOneName(name: Naming, jobs: JobStore, jobs': JobStore, l: Labels, listing: Listing, w: Write)
    requires WellKeyed(name, jobs) && WellKeyed(name, jobs') && SameAt(name(l), jobs, jobs')
    ensures var r, r' := Execute(name, jobs, l, listing, w), Execute(name, jobs', l, listing, w);
            r.1 == r'.1 && SameAt(name(l), r.0, r'.0)
  {
    LookupIsExact(name, jobs, l);
    LookupIsExact(name, jobs', l);
  }

  lemma SettleReadsOneName(cat: Catalogue, t: Target, service: string, jobs: JobStore, jobs': JobStore,
                           conds: Conditions, c: Condition, listing: Listing)
    requires Keyed(cat, jobs) && Keyed(cat, jobs') && SameAt(cat.executionName(t.LabelsOf(service)), jobs, jobs')
    ensures var s, s' := Settle(cat, t, service, jobs, conds, c, listing),
            Settle(cat, t, service, jobs', conds, c, listing);
            s.conds == s'.conds && s.outcome == s'.outcome
  {
    LookupIsExact(cat.executionName, jobs, t.LabelsOf(service));
    LookupIsExact(cat.executionName, jobs', t.LabelsOf(service));
  }

  /** One service behaves the same on two stores that agree at its execution name. */
  lemma ServiceReadsOneName(cat: Catalogue, t: Target, service: string, jobs: JobStore, jobs': JobStore,
                            conds: Conditions, call: Call)
    requires Keyed(cat, jobs) && Keyed(cat, jobs') && SameAt(cat.executionName(t.LabelsOf(service)), jobs, jobs')
    ensures var s, s' := DeployOne(cat, t, service, jobs, conds, call), DeployOne(cat, t, service, jobs', conds, call);
            s.conds == s'.conds && s.outcome == s'.outcome
                                          && SameAt(cat.executionName(t.LabelsOf(service)), s.jobs, s'.jobs)
  {
    hide Execute, Settle;
    var l := t.LabelsOf(service);
    ExecuteReadsOneName(cat.executionName, jobs, jobs', l, call.listed, cat.WriteOf(jobs, l, call.write));
    assert cat.WriteOf(jobs', l, call.write) == cat.WriteOf(jobs, l, call.write);
    DeployOneJobs(cat, t, service, jobs, conds, call);
    DeployOneJobs(cat, t, service, jobs', conds, call);
    var before := Get(conds, cat.ConditionTypeOf(service));
    SettleReadsOneName(cat, t, service, DeployOne(cat, t, service, jobs, conds, call).jobs,
      DeployOne(cat, t, service, jobs', conds, call).jobs,
                       conds, if before.Unknown? then REQUESTED else before, call.listedAfter);
  }

  /** A replay behaves the same on two stores that agree at the nodeset's execution names. */
  lemma {:induction false} ReplayReadsOwnNames(cat: Catalogue, t: Target, services: seq<string>, i: nat,
                                               jobs: JobStore, jobs': JobStore, conds: Conditions, calls: nat -> Call)
    requires i <= |services| && Keyed(cat, jobs) && Keyed(cat, jobs')
    requires forall n | n in NamesFor(cat, t, services) :: SameAt(n, jobs, jobs')
    ensures var s, s' := DeployFrom(cat, t, services, i, jobs, conds, calls),
            DeployFrom(cat, t, services, i, jobs', conds, calls);
            && s.conds == s'.conds && s.outcome == s'.outcome
            && forall n | n in NamesFor(cat, t, services) :: SameAt(n, s.jobs, s'.jobs)
    decreases |services| - i
  {
    hide DeployOne;
    if i < |services| {
      assert cat.executionName(t.LabelsOf(services[i])) in NamesFor(cat, t, services);
      ServiceReadsOneName(cat, t, services[i], jobs, jobs', conds, calls(i));
      DeployOneJobs(cat, t, services[i], jobs, conds, calls(i));
      DeployOneJobs(cat, t, services[i], jobs', conds, calls(i));
      var s, s' := DeployOne(cat, t, services[i], jobs, conds, calls(i)),
          DeployOne(cat, t, services[i], jobs', conds, calls(i));
      if s.outcome.Proceed? {
        ReplayReadsOwnNames(cat, t, services, i + 1, s.jobs, s'.jobs, s.conds, calls);
      }
    }
  }
}
