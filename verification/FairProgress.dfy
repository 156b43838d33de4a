/**
 Progress among other events: deployments, nodesets and jobs go on changing between the good
 reconciles of a deployment, and it still gets done within the same bound.
 */
module FairProgress {
  import opened Conditions
  import opened AnsibleExecutions
  import opened Deployers
  import opened NodeSetControllers
  import opened DeploymentControllers
  import opened ServiceOrder
  import opened ServiceProgress
  import opened ReconcileOrder
  import opened Protocol
  import opened ProtocolTheorems
  import opened Liveness
  import opened DeploymentProgress
  import opened SetUps

  /** Any events, one good reconcile of the deployment, and any events again. */
  datatype Leg = Leg(before: seq<Event>, after: seq<Event>)

  function EventsOf(d: string, legs: seq<Leg>): seq<Event> {
    if legs == [] then []
    else legs[0].before + ([DeploymentReconciled(d, GOOD_ENV)] + (legs[0].after + EventsOf(d, legs[1..])))
  }

  /** The jobs of the deployment that are there in `s` have all succeeded in `s'`. */
  ghost predicate JobsSucceed(d: string, s: System, s': System) {
    forall n | n in s.jobs && s.jobs[n].labels.deployment == d :: n in s'.jobs && s'.jobs[n].status.Succeeded?
  }

  ghost predicate DeployedIn(s: System, d: string) {
    d in s.deployments && s.deployments[d].status.deployed
  }

  /** Each good reconcile finds the deployment done or able to make progress, and in that case the
      jobs it leaves succeed before the next leg. */
  ghost predicate Fair(cat: Catalogue, s: System, d: string, legs: seq<Leg>)
    decreases |legs|
  {
    legs == []
    || var s1 := Run(cat, s, legs[0].before);
       var s2 := Next(cat, s1, DeploymentReconciled(d, GOOD_ENV));
       var s3 := Run(cat, s2, legs[0].after);
       DeployedIn(s1, d) || (Progressing(cat, s1, d) && JobsSucceed(d, s2, s3) && Fair(cat, s3, d, legs[1..]))
  }

  // ---------- the measure never rises ----------

  /** Jobs stay, with their labels, and what has succeeded stays so. */
  ghost predicate Grows(jobs: JobStore, jobs': JobStore) {
    forall n | n in jobs :: n in jobs' && jobs'[n].labels == jobs[n].labels
                                  && (jobs[n].status.Succeeded? ==> jobs'[n].status.Succeeded?)
  }

  lemma StepGrows(cat: Catalogue, s: System, e: Event)
    requires Invariant(cat, s) && MirrorIsSound(cat.mirror)
    ensures Grows(s.jobs, Next(cat, s, e).jobs)
  {
    hide Reconcile, ReconcileNodeSet, MirrorIsSound, JobsInOrder, StatusMeaning, ServicesChecked, SetUp;
    match e
    case DeploymentReconciled(d, env) =>
      if d in s.deployments {
        assert DeploymentOk(cat, s, d);
        ReconcileKeeps(cat, d, s.deployments[d], s.nodeSets, s.jobs, env);
      }
    case _ =>
  }

  lemma {:induction false} RunGrows(cat: Catalogue, s: System, events: seq<Event>)
    requires Invariant(cat, s) && MirrorIsSound(cat.mirror)
    ensures Grows(s.jobs, Run(cat, s, events).jobs)
    decreases |events|
  {
    hide Invariant, Next, MirrorIsSound;
    if events != [] {
      StepGrows(cat, s, events[0]);
      StepKeeps(cat, s, events[0]);
      RunGrows(cat, Next(cat, s, events[0]), events[1..]);
    }
  }

  lemma DoneGrows(cat: Catalogue, t: Target, jobs: JobStore, jobs': JobStore)
    requires Grows(jobs, jobs')
    ensures forall s :: DoneFor(cat, t, jobs, s) ==> DoneFor(cat, t, jobs', s)
  {
  }

  /** No event raises the number of unfinished services of a nodeset. */
  lemma UnfinishedNeverRises(cat: Catalogue, s: System, s': System, d: string, n: nat)
    requires d in s.deployments && SameObjects(s, s') && Grows(s.jobs, s'.jobs) && AtMostUnfinished(cat, s, d, n)
    ensures AtMostUnfinished(cat, s', d, n)
  {
    hide Grows, Unfinished;
    forall k | Known(s'.deployments[d].spec, s'.nodeSets, k)
      ensures UnfinishedAt(cat, s', d, k) <= n
    {
      assert Known(s.deployments[d].spec, s.nodeSets, k);
      var t, services := TargetAt(cat, d, s.deployments[d].spec, s.nodeSets, k),
          ServicesAt(s.deployments[d].spec, s.nodeSets, k);
      DoneGrows(cat, t, s.jobs, s'.jobs);
      UnfinishedFollowsDone(cat, t, services, 0, s.jobs, s'.jobs);
    }
  }

  lemma RunKeepsBound(cat: Catalogue, s: System, events: seq<Event>, d: string, n: nat)
    requires Invariant(cat, s) && MirrorIsSound(cat.mirror) && d in s.deployments && AtMostUnfinished(cat, s, d, n)
    ensures var s' := Run(cat, s, events);
            Invariant(cat, s') && d in s'.deployments && AtMostUnfinished(cat, s', d, n)
  {
    hide Invariant, MirrorIsSound, Run, AtMostUnfinished, Grows;
    RunKeeps(cat, s, events);
    RunGrows(cat, s, events);
    RunKeepsObjects(cat, s, events);
    UnfinishedNeverRises(cat, s, Run(cat, s, events), d, n);
  }

  // ---------- one leg ----------

  /** An outstanding job that succeeds leaves one service less. */
  lemma OutstandingSucceeds(cat: Catalogue, t: Target, services: seq<string>, jobs: JobStore, jobs': JobStore,
                            after: JobStore)
    requires SameDone(cat, jobs, jobs') && Grows(jobs', after)
    requires forall n | n in jobs' && jobs'[n].labels.deployment == t.deployment ::
        n in after && after[n].status.Succeeded?
    ensures (exists m: nat :: Outstanding(cat, t, services, jobs', m)) ==>
              Unfinished(cat, t, services, 0, after) < Unfinished(cat, t, services, 0, jobs)
  {
    hide First;
    if m: nat :| Outstanding(cat, t, services, jobs', m) {
      DoneGrows(cat, t, jobs', after);
      assert forall s :: DoneFor(cat, t, jobs, s) ==> DoneFor(cat, t, jobs', s);
      assert DoneFor(cat, t, after, services[m]);
      UnfinishedDrops(cat, t, services, 0, jobs, after, m);
    }
  }

  lemma LegAtNodeSet(cat: Catalogue, s1: System, s2: System, s3: System, d: string, k: int, n: nat)
    requires d in s1.deployments && Known(s1.deployments[d].spec, s1.nodeSets, k) && UnfinishedAt(cat, s1, d, k) <= n
             && n > 0
    requires SameDone(cat, s1.jobs, s2.jobs) && Grows(s2.jobs, s3.jobs) && JobsSucceed(d, s2, s3)
    requires LeftOutstanding(cat, d, s1.deployments[d].spec, s1.nodeSets, |s1.deployments[d].spec.nodeSets|, s1.jobs,
             s2.jobs)
    ensures var t, services := TargetAt(cat, d, s1.deployments[d].spec, s1.nodeSets, k),
            ServicesAt(s1.deployments[d].spec, s1.nodeSets, k);
            Unfinished(cat, t, services, 0, s3.jobs) <= n - 1
  {
    hide AllDone, Outstanding, SameDone, Grows;
    var t, services := TargetAt(cat, d, s1.deployments[d].spec, s1.nodeSets, k),
        ServicesAt(s1.deployments[d].spec, s1.nodeSets, k);
    NoneUnfinished(cat, t, services, 0, s1.jobs);
    OutstandingSucceeds(cat, t, services, s1.jobs, s2.jobs, s3.jobs);
    if DoneAt(cat, d, s1.deployments[d].spec, s1.nodeSets, s1.jobs, k) {
      SameDoneThenGrows(cat, t, s1.jobs, s2.jobs, s3.jobs);
      UnfinishedFollowsDone(cat, t, services, 0, s1.jobs, s3.jobs);
    }
  }

  lemma SameDoneThenGrows(cat: Catalogue, t: Target, jobs: JobStore, jobs': JobStore, jobs'': JobStore)
    requires SameDone(cat, jobs, jobs') && Grows(jobs', jobs'')
    ensures forall s :: DoneFor(cat, t, jobs, s) ==> DoneFor(cat, t, jobs'', s)
  {
    DoneGrows(cat, t, jobs', jobs'');
  }

  /** The good reconcile of a leg ends with Deployed, or leaves an outstanding job on each nodeset
      that is not done. */
  lemma LegReconciles(cat: Catalogue, s1: System, d: string) returns (j: int)
    requires Progressing(cat, s1, d) && MirrorIsSound(cat.mirror) && !s1.deployments[d].status.deployed
    ensures var s2 := Next(cat, s1, DeploymentReconciled(d, GOOD_ENV));
            var spec := s1.deployments[d].spec;
            && Invariant(cat, s2) && SameObjects(s1, s2) && SameDone(cat, s1.jobs, s2.jobs)
            && LeftOutstanding(cat, d, spec, s1.nodeSets, |spec.nodeSets|, s1.jobs, s2.jobs)
            && (!s2.deployments[d].status.deployed ==>
                  Known(spec, s1.nodeSets, j) && !DoneAt(cat, d, spec, s1.nodeSets, s1.jobs, j))
  {
    hide JobsInOrder, StatusMeaning, ServicesChecked, SetUp, Deployable, NamesUnclaimed, Reconcile, AllSetupReady,
      OutstandingAt, DoneAt, MirrorIsSound, SameDone, SameSpecs, LeftOutstanding;
    var spec := s1.deployments[d].spec;
    assert DeploymentOk(cat, s1, d);
    GoodReconcile(cat, d, s1.deployments[d], s1.nodeSets, s1.jobs);
    var e := DeploymentReconciled(d, GOOD_ENV);
    StepKeeps(cat, s1, e);
    StepKeepsObjects(cat, s1, e);
    hide Invariant;
    j := 0;
    if !Next(cat, s1, e).deployments[d].status.deployed {
      j :| j < |spec.nodeSets| && Known(spec, s1.nodeSets, j) && !DoneAt(cat, d, spec, s1.nodeSets, s1.jobs, j);
    }
  }

  /** After the good reconcile of a leg the deployment is done, or every bound has dropped by one
      when the leg ends. */
  lemma LegMakesProgress(cat: Catalogue, s1: System, after: seq<Event>, d: string, n: nat)
    requires Progressing(cat, s1, d) && MirrorIsSound(cat.mirror) && AtMostUnfinished(cat, s1, d, n)
             && !s1.deployments[d].status.deployed
    requires var s2 := Next(cat, s1, DeploymentReconciled(d, GOOD_ENV)); JobsSucceed(d, s2, Run(cat, s2, after))
    ensures var s2 := Next(cat, s1, DeploymentReconciled(d, GOOD_ENV));
            var s3 := Run(cat, s2, after);
            && Invariant(cat, s2) && Invariant(cat, s3) && d in s2.deployments && d in s3.deployments
            && (s2.deployments[d].status.deployed || (n > 0 && AtMostUnfinished(cat, s3, d, n - 1)))
  {
    hide Invariant, Deployable, NamesUnclaimed, AllSetupReady, OutstandingAt, DoneAt, MirrorIsSound, Run, Next, Grows,
      JobsSucceed, SameDone, LeftOutstanding;
    var spec := s1.deployments[d].spec;
    var j := LegReconciles(cat, s1, d);
    var s2 := Next(cat, s1, DeploymentReconciled(d, GOOD_ENV));
    var s3 := Run(cat, s2, after);
    RunKeeps(cat, s2, after);
    RunGrows(cat, s2, after);
    RunKeepsObjects(cat, s2, after);
    if !s2.deployments[d].status.deployed {
      NotDoneCounts(cat, s1, d, j);
      forall k | Known(s3.deployments[d].spec, s3.nodeSets, k)
        ensures UnfinishedAt(cat, s3, d, k) <= n - 1
      {
        assert Known(spec, s1.nodeSets, k);
        LegAtNodeSet(cat, s1, s2, s3, d, k, n);
      }
    }
  }

  lemma NotDoneCounts(cat: Catalogue, s: System, d: string, k: int)
    requires d in s.deployments && Known(s.deployments[d].spec, s.nodeSets, k)
    ensures DoneAt(cat, d, s.deployments[d].spec, s.nodeSets, s.jobs, k) <==> UnfinishedAt(cat, s, d, k) == 0
  {
    hide AllDone, Unfinished;
    NoneUnfinished(cat, TargetAt(cat, d, s.deployments[d].spec, s.nodeSets, k),
      ServicesAt(s.deployments[d].spec, s.nodeSets, k), 0, s.jobs);
  }

  // ---------- the bound ----------

  /** Whatever else happens in between, more fair legs than any nodeset has unfinished services
      end with Deployed. */
  lemma {:induction false} FairLegsReachDeployed(cat: Catalogue, s: System, d: string, legs: seq<Leg>, n: nat)
    requires Invariant(cat, s) && MirrorIsSound(cat.mirror) && d in s.deployments && AtMostUnfinished(cat, s, d, n)
    requires Fair(cat, s, d, legs) && |legs| > n
    ensures var s' := Run(cat, s, EventsOf(d, legs));
            DeployedIn(s', d)
    decreases |legs|
  {
    hide Invariant, MirrorIsSound, Progressing, Run, AtMostUnfinished, JobsSucceed, Next;
    var leg, rest := legs[0], EventsOf(d, legs[1..]);
    var e := DeploymentReconciled(d, GOOD_ENV);
    var s1 := Run(cat, s, leg.before);
    var s2 := Next(cat, s1, e);
    var s3 := Run(cat, s2, leg.after);
    RunKeepsBound(cat, s, leg.before, d, n);
    RunAppend(cat, s, leg.before, [e] + (leg.after + rest));
    OneThen(cat, s1, e, leg.after + rest);
    RunAppend(cat, s2, leg.after, rest);
    if DeployedIn(s1, d) {
      DeployedIsFinal(cat, s1, [e] + (leg.after + rest), d);
    } else {
      LegMakesProgress(cat, s1, leg.after, d, n);
      if s2.deployments[d].status.deployed {
        DeployedIsFinal(cat, s2, leg.after + rest, d);
      } else {
        FairLegsReachDeployed(cat, s3, d, legs[1..], n - 1);
      }
    }
  }

  lemma OneThen(cat: Catalogue, s: System, e: Event, events: seq<Event>)
    ensures Run(cat, s, [e] + events) == Run(cat, Next(cat, s, e), events)
  {
    hide Next;
    assert ([e] + events)[1..] == events;
  }
}
