/**
 What a reconcile says about the deployment: the DeploymentReady condition after its loop, from
 the replays of the nodesets and from the statuses of the jobs.
 */
module DeploymentOutcomes {
  import opened Conditions
  import opened AnsibleExecutions
  import opened Services
  import opened Deployers
  import opened NodeSetControllers
  import opened DeploymentControllers
  import opened ServiceOrder
  import opened ServiceProgress
  import opened ReconcileOrder
  import opened FailedLookups
  import opened Liveness
  import opened DeploymentProgress

  // ---------- from the replays ----------

  /** The replay of the nodeset at `k`, where the loop comes to it. */
  ghost function ReplayIn(cat: Catalogue, d: string, spec: DeploymentSpec, nodeSets: NodeSets, k: nat, p: Progress,
                          env: Env): Step
    requires k < |spec.nodeSets| && CanLoop(spec, nodeSets, p)
  {
    var q := LoopUpTo(cat, d, spec, nodeSets, k, p, env);
    ReplayOf(cat, d, spec, nodeSets, k, q.jobs, q.status.nodeSetConditions[spec.nodeSets[k]], env)
  }

  ghost predicate EndsWith(cat: Catalogue, d: string, spec: DeploymentSpec, nodeSets: NodeSets, k: int, p: Progress,
                           env: Env, outcome: Outcome)
    requires CanLoop(spec, nodeSets, p)
  {
    0 <= k < |spec.nodeSets| && ReplayIn(cat, d, spec, nodeSets, k, p, env).outcome == outcome
  }

  /** The nodeset at `k` is the last one whose replay failed before `n`. */
  ghost predicate LastToFail(cat: Catalogue, d: string, spec: DeploymentSpec, nodeSets: NodeSets, k: int, n: int,
                             p: Progress, env: Env): (last: bool)
    requires CanLoop(spec, nodeSets, p)
    ensures last ==> 0 <= k < |spec.nodeSets|
  {
    && k < n && EndsWith(cat, d, spec, nodeSets, k, p, env, Fail)
    && forall j | k < j < n :: !EndsWith(cat, d, spec, nodeSets, j, p, env, Fail)
  }

  /** What the conditions of a nodeset are mirrored into says that the backoff limit was reached. */
  ghost predicate MirrorsBackoff(cat: Catalogue, conds: Conditions) {
    match cat.mirror(conds)
    case False(reason, _) => reason == BackoffLimitExceeded
    case _ => false
  }

  ghost predicate NoneFailedBefore(cat: Catalogue, d: string, spec: DeploymentSpec, nodeSets: NodeSets, n: nat,
                                   p: Progress, env: Env)
    requires CanLoop(spec, nodeSets, p)
  {
    forall k | k < n :: !EndsWith(cat, d, spec, nodeSets, k, p, env, Fail)
  }

  ghost predicate AllWentThroughBefore(cat: Catalogue, d: string, spec: DeploymentSpec, nodeSets: NodeSets, n: nat,
                                       p: Progress, env: Env)
    requires CanLoop(spec, nodeSets, p)
  {
    forall k | 0 <= k < n :: EndsWith(cat, d, spec, nodeSets, k, p, env, Proceed)
  }

  /** What the loop carries along: the flags stand for the replays before `n`. */
  ghost predicate FlagsTell(cat: Catalogue, d: string, spec: DeploymentSpec, nodeSets: NodeSets, n: nat, p: Progress,
                            env: Env, q: Progress)
    requires n <= |spec.nodeSets| && CanLoop(spec, nodeSets, p)
  {
    && (!q.haveError <==> NoneFailedBefore(cat, d, spec, nodeSets, n, p, env))
    && (!q.requeue <==> AllWentThroughBefore(cat, d, spec, nodeSets, n, p, env))
    && (forall k | LastToFail(cat, d, spec, nodeSets, k, n, p, env) ::
          q.backoff <==> MirrorsBackoff(cat, ReplayIn(cat, d, spec, nodeSets, k, p, env).conds))
    && (n > 0 ==> Get(q.status.conditions, DeploymentReadyCondition) == False(Requested, Info))
  }

  lemma OneReplayMore(cat: Catalogue, d: string, spec: DeploymentSpec, nodeSets: NodeSets, n: nat, p: Progress,
                      env: Env)
    requires n < |spec.nodeSets| && CanLoop(spec, nodeSets, p)
    ensures var s := ReplayIn(cat, d, spec, nodeSets, n, p, env);
            && (NoneFailedBefore(cat, d, spec, nodeSets, n + 1, p, env) <==>
                  NoneFailedBefore(cat, d, spec, nodeSets, n, p, env) && s.outcome != Fail)
            && (AllWentThroughBefore(cat, d, spec, nodeSets, n + 1, p, env) <==>
                  AllWentThroughBefore(cat, d, spec, nodeSets, n, p, env) && s.outcome == Proceed)
  {
    hide ReplayIn;
    var s := ReplayIn(cat, d, spec, nodeSets, n, p, env);
    assert EndsWith(cat, d, spec, nodeSets, n, p, env, Fail) <==> s.outcome == Fail;
    assert EndsWith(cat, d, spec, nodeSets, n, p, env, Proceed) <==> s.outcome == Proceed;
    hide EndsWith;
  }

  lemma LastAfterOneMore(cat: Catalogue, d: string, spec: DeploymentSpec, nodeSets: NodeSets, n: nat, k: int,
                         p: Progress, env: Env)
    requires n < |spec.nodeSets| && CanLoop(spec, nodeSets, p)
    ensures LastToFail(cat, d, spec, nodeSets, k, n + 1, p, env) <==>
              if EndsWith(cat, d, spec, nodeSets, n, p, env, Fail) then k == n
              else LastToFail(cat, d, spec, nodeSets, k, n, p, env)
  {
    hide EndsWith;
    if EndsWith(cat, d, spec, nodeSets, n, p, env, Fail) {
      if k == n {
        assert forall j | k < j < n + 1 :: !EndsWith(cat, d, spec, nodeSets, j, p, env, Fail);
      }
    }
  }

  /** What one more replay makes of the flags, of the condition of the deployment, and of that of its
      nodeset. */
  lemma StepFlags(cat: Catalogue, d: string, spec: DeploymentSpec, nodeSets: NodeSets, i: nat, q: Progress, env: Env)
    requires i < |spec.nodeSets| && CanLoop(spec, nodeSets, q)
             && !DeployNodeSet(cat, d, spec, nodeSets, i, q, env).panicked
    ensures var s := ReplayOf(cat, d, spec, nodeSets, i, q.jobs, q.status.nodeSetConditions[spec.nodeSets[i]], env);
            var q' := DeployNodeSet(cat, d, spec, nodeSets, i, q, env);
            && (q'.haveError <==> q.haveError || s.outcome == Fail)
            && (q'.requeue <==> q.requeue || s.outcome != Proceed)
            && (q'.backoff <==> if s.outcome == Fail then MirrorsBackoff(cat, s.conds) else q.backoff)
            && Get(q'.status.conditions, DeploymentReadyCondition) == False(Requested, Info)
            && Get(q'.status.nodeSetConditions[spec.nodeSets[i]], NodeSetDeploymentReadyCondition)
               == (if s.outcome == Proceed then True else cat.mirror(s.conds))
  {
    hide ReplayOf;
  }

  lemma {:induction false} FlagsAt(cat: Catalogue, d: string, spec: DeploymentSpec, nodeSets: NodeSets, n: nat,
                                   p: Progress, env: Env)
    requires n <= |spec.nodeSets| && CanLoop(spec, nodeSets, p)
    requires !p.haveError && !p.requeue && !p.panicked && !LoopUpTo(cat, d, spec, nodeSets, n, p, env).panicked
    ensures FlagsTell(cat, d, spec, nodeSets, n, p, env, LoopUpTo(cat, d, spec, nodeSets, n, p, env))
  {
    hide ReplayOf, DeployNodeSet, EndsWith, NoneFailedBefore, AllWentThroughBefore, LastToFail, MirrorsBackoff;
    if n == 0 {
      NothingBefore(cat, d, spec, nodeSets, p, env);
    } else {
      FlagsAt(cat, d, spec, nodeSets, n - 1, p, env);
      StepFlags(cat, d, spec, nodeSets, n - 1, LoopUpTo(cat, d, spec, nodeSets, n - 1, p, env), env);
      OneReplayMore(cat, d, spec, nodeSets, n - 1, p, env);
      forall k | LastToFail(cat, d, spec, nodeSets, k, n, p, env)
        ensures LoopUpTo(cat, d, spec, nodeSets, n, p, env).backoff <==>
                  MirrorsBackoff(cat, ReplayIn(cat, d, spec, nodeSets, k, p, env).conds)
      {
        LastAfterOneMore(cat, d, spec, nodeSets, n - 1, k, p, env);
        EndsWithIs(cat, d, spec, nodeSets, n - 1, p, env);
      }
    }
  }

  lemma EndsWithIs(cat: Catalogue, d: string, spec: DeploymentSpec, nodeSets: NodeSets, k: nat, p: Progress, env: Env)
    requires k < |spec.nodeSets| && CanLoop(spec, nodeSets, p)
    ensures forall o :: EndsWith(cat, d, spec, nodeSets, k, p, env, o) <==>
              ReplayIn(cat, d, spec, nodeSets, k, p, env).outcome == o
  {
  }

  lemma NothingBefore(cat: Catalogue, d: string, spec: DeploymentSpec, nodeSets: NodeSets, p: Progress, env: Env)
    requires CanLoop(spec, nodeSets, p)
    ensures NoneFailedBefore(cat, d, spec, nodeSets, 0, p, env)
            && AllWentThroughBefore(cat, d, spec, nodeSets, 0, p, env)
    ensures forall k :: !LastToFail(cat, d, spec, nodeSets, k, 0, p, env)
  {
  }

  const BACKOFF := False(BackoffLimitExceeded, Error)
  const ERROR := False(ErrorOccurred, Warning)
  const RUNNING := False(Requested, Info)

  /** After a reconcile that gets through its gates and is not cut short, DeploymentReady is an error if
      and only if the replay of some nodeset failed, with the backoff limit as its reason exactly
      when the last of these mirrors it; it is True if and only if every replay went through, which
      goes with Deployed; and otherwise it is requested. */
  lemma VerdictOfReplays(cat: Catalogue, d: string, dep: Deployment, nodeSets: NodeSets, jobs: JobStore, env: Env)
    requires cat.validName(d) && !dep.status.deployed && Gates(cat, dep.spec, nodeSets, env).Open?
    requires env.statusWritten && !Reconcile(cat, d, dep, nodeSets, jobs, env).panicked
    ensures var spec, p, n := dep.spec, StartOf(dep.spec, jobs), |dep.spec.nodeSets|;
            var st := Reconcile(cat, d, dep, nodeSets, jobs, env).status;
            var c := Get(st.conditions, DeploymentReadyCondition);
            var noneFailed := NoneFailedBefore(cat, d, spec, nodeSets, n, p, env);
            var allThrough := AllWentThroughBefore(cat, d, spec, nodeSets, n, p, env);
            && (!noneFailed <==> c == BACKOFF || c == ERROR)
            && (!noneFailed ==> exists k :: LastToFail(cat, d, spec, nodeSets, k, n, p, env))
            && (forall k | LastToFail(cat, d, spec, nodeSets, k, n, p, env) ::
                  c == if MirrorsBackoff(cat, ReplayIn(cat, d, spec, nodeSets, k, p, env).conds) then BACKOFF
                                         else ERROR)
            && (allThrough && noneFailed <==> c == True) && (c == True <==> st.deployed)
            && (noneFailed && !allThrough <==> c == RUNNING)
  {
    hide Gates, DeployNodeSet, ReplayIn, NoneFailedBefore, AllWentThroughBefore, LastToFail;
    var spec, p, n := dep.spec, StartOf(dep.spec, jobs), |dep.spec.nodeSets|;
    LoopIsLoopUpTo(cat, d, spec, nodeSets, 0, p, env);
    NothingLooped(cat, d, spec, nodeSets, p, env);
    FlagsAt(cat, d, spec, nodeSets, n, p, env);
    NotDeployedInLoop(cat, d, spec, nodeSets, 0, p, env);
    if n == 0 { NothingBefore(cat, d, spec, nodeSets, p, env); }
    SomeLastToFail(cat, d, spec, nodeSets, n, p, env);
    hide MirrorsBackoff, DeployNodeSetsFrom;
    var q := DeployNodeSetsFrom(cat, d, spec, nodeSets, 0, p, env);
    ConclusionTells(cat, q);
    hide Persist, Conclude;
    assert q == LoopUpTo(cat, d, spec, nodeSets, n, p, env);
    assert Reconcile(cat, d, dep, nodeSets, jobs, env).status == Persist(cat, Conclude(q));
    assert FlagsTell(cat, d, spec, nodeSets, n, p, env, q);
    forall k | LastToFail(cat, d, spec, nodeSets, k, n, p, env)
      ensures q.haveError
    {
      OneFailed(cat, d, spec, nodeSets, k, n, p, env);
    }
  }

  lemma OneFailed(cat: Catalogue, d: string, spec: DeploymentSpec, nodeSets: NodeSets, k: int, n: nat, p: Progress,
                  env: Env)
    requires CanLoop(spec, nodeSets, p) && LastToFail(cat, d, spec, nodeSets, k, n, p, env)
    ensures !NoneFailedBefore(cat, d, spec, nodeSets, n, p, env)
  {
    hide ReplayIn;
  }

  lemma {:induction false} SomeLastToFail(cat: Catalogue, d: string, spec: DeploymentSpec, nodeSets: NodeSets, n: nat,
                                          p: Progress, env: Env)
    requires n <= |spec.nodeSets| && CanLoop(spec, nodeSets, p)
    ensures !NoneFailedBefore(cat, d, spec, nodeSets, n, p, env)
            ==> exists k :: LastToFail(cat, d, spec, nodeSets, k, n, p, env)
  {
    hide NoneFailedBefore, ReplayIn, LastToFail, EndsWith;
    if n == 0 {
      NothingBefore(cat, d, spec, nodeSets, p, env);
    } else {
      OneReplayMore(cat, d, spec, nodeSets, n - 1, p, env);
      EndsWithIs(cat, d, spec, nodeSets, n - 1, p, env);
      if ReplayIn(cat, d, spec, nodeSets, n - 1, p, env).outcome == Fail {
        LastAfterOneMore(cat, d, spec, nodeSets, n - 1, n - 1, p, env);
      } else if !NoneFailedBefore(cat, d, spec, nodeSets, n - 1, p, env) {
        SomeLastToFail(cat, d, spec, nodeSets, n - 1, p, env);
        var k :| LastToFail(cat, d, spec, nodeSets, k, n - 1, p, env);
        LastAfterOneMore(cat, d, spec, nodeSets, n - 1, k, p, env);
      }
    }
  }

  /** The end of the loop, and the status that is written. */
  lemma ConclusionTells(cat: Catalogue, p: Progress)
    requires !p.panicked && !p.status.deployed
    ensures var st := Persist(cat, Conclude(p));
            var c := Get(st.conditions, DeploymentReadyCondition);
            && (p.haveError ==> c == (if p.backoff then BACKOFF else ERROR) && !st.deployed)
            && (!p.haveError && p.requeue ==>
                  c == Get(p.status.conditions, DeploymentReadyCondition) && !st.deployed)
            && (!p.haveError && !p.requeue ==> c == True && st.deployed)
  {
  }

  /** What a reconcile leaves alone: everything, when the name is not valid or the deployment is done; the
      jobs, when a gate is shut; and the status, when it cannot be written. */
  lemma LeftAlone(cat: Catalogue, d: string, dep: Deployment, nodeSets: NodeSets, jobs: JobStore, env: Env)
    ensures var r := Reconcile(cat, d, dep, nodeSets, jobs, env);
            && (!cat.validName(d) || dep.status.deployed ==> r == Result(jobs, dep.status, false))
            && (Gates(cat, dep.spec, nodeSets, env) != Open ==> r.jobs == jobs && !r.panicked)
            && (!env.statusWritten ==> r.status == dep.status)
  {
    hide Gates, DeployNodeSetsFrom, Conclude;
  }

  // ---------- from the jobs ----------

  /** Some job of the deployment has failed. */
  ghost predicate SomeJobFailed(d: string, jobs: JobStore) {
    exists n | n in jobs :: jobs[n].labels.deployment == d && jobs[n].status.JobFailed?
  }

  ghost predicate NodeSetJobFailed(t: Target, jobs: JobStore) {
    exists n | n in jobs :: jobs[n].labels == t.LabelsOf(jobs[n].labels.service) && jobs[n].status.JobFailed?
  }

  /** With a job that has failed, the replay stops at this very job. */
  lemma FailedJobIsOutstanding(cat: Catalogue, t: Target, services: seq<string>, jobs: JobStore, n: string, k: nat)
    requires Keyed(cat, jobs) && InOrder(cat, t, services, jobs) && OnlyListed(cat, t, services, jobs)
    requires n in jobs && jobs[n].labels == t.LabelsOf(jobs[n].labels.service) && jobs[n].status.JobFailed?
    requires Outstanding(cat, t, services, jobs, k)
    ensures FailedFor(cat, t, jobs, services[k])
  {
    var service := jobs[n].labels.service;
    var i :| 0 <= i < |services| && First(cat, services, i) && services[i] == service;
    assert HasJobFor(cat, t, jobs, services[i]) && !DoneFor(cat, t, jobs, services[i]);
    assert i == k;
  }

  lemma FailedJobNotDone(cat: Catalogue, t: Target, services: seq<string>, jobs: JobStore, n: string)
    requires Keyed(cat, jobs) && OnlyListed(cat, t, services, jobs)
    requires n in jobs && jobs[n].labels == t.LabelsOf(jobs[n].labels.service) && jobs[n].status.JobFailed?
    ensures !AllDone(cat, t, services, 0, jobs)
  {
    var i :| 0 <= i < |services| && First(cat, services, i) && services[i] == jobs[n].labels.service;
    assert HasJobFor(cat, t, jobs, services[i]) && !DoneFor(cat, t, jobs, services[i]);
  }

  /** Writing jobs makes none of them fail. */
  lemma WritingFailsNone(cat: Catalogue, t: Target, services: seq<string>, jobs: JobStore, jobs': JobStore, k: nat)
    requires WroteOnlyOwn(t, jobs, jobs') && Outstanding(cat, t, services, jobs', k)
    ensures FailedFor(cat, t, jobs', services[k]) ==> NodeSetJobFailed(t, jobs)
  {
    if FailedFor(cat, t, jobs', services[k]) {
      var n := cat.executionName(t.LabelsOf(services[k]));
      assert n in jobs && jobs[n].labels == t.LabelsOf(jobs[n].labels.service) && jobs[n].status.JobFailed?;
    }
  }

  /** With good calls the replay of the nodeset at `i` fails if and only if one of its jobs has. */
  lemma ReplayFailsIff(cat: Catalogue, d: string, spec: DeploymentSpec, nodeSets: NodeSets, i: nat, jobs: JobStore,
                       p: Progress)
    requires i < |spec.nodeSets| && GoodSoFar(cat, d, spec, nodeSets, i, jobs, p)
    requires Deployable(cat, d, spec, nodeSets) && MirrorIsSound(cat.mirror) && Known(spec, nodeSets, i)
    ensures ReplayOf(cat, d, spec, nodeSets, i, p.jobs, p.status.nodeSetConditions[spec.nodeSets[i]],
            GOOD_ENV).outcome.Fail?
       <==> NodeSetJobFailed(TargetAt(cat, d, spec, nodeSets, i), p.jobs)
  {
    hide NamesFree, NamesApart, NamesUnclaimed, DeployFrom, InOrder, OnlyListed, AllSound, GatesPassable, Usable,
      Backed,
      Consistent, OwnLabels, MirrorIsSound, Outstanding, FailedFor, NodeSetJobFailed, SameDone, LeftOutstanding,
      DoneBefore, NodeSetDone, SaysDone;
    var t, services := TargetAt(cat, d, spec, nodeSets, i), ServicesAt(spec, nodeSets, i);
    var conds := p.status.nodeSetConditions[spec.nodeSets[i]];
    assert BackedAt(cat, d, spec, nodeSets, i, p.jobs, conds);
    NamesFreeAt(cat, d, spec, nodeSets, p.jobs, i);
    var k := GoodReplay(cat, t, services, 0, p.jobs, conds, GOOD_ENV.calls(i));
    ReplayAt(cat, d, spec, nodeSets, i, p, GOOD_ENV);
    var s := DeployFrom(cat, t, services, 0, p.jobs, conds, GOOD_ENV.calls(i));
    assert NodeSetInOrder(cat, d, spec, nodeSets, p.jobs, i);
    FailureFollowsJobs(cat, t, services, p.jobs, s, k);
  }

  lemma FailureFollowsJobs(cat: Catalogue, t: Target, services: seq<string>, jobs: JobStore, s: Step, k: nat)
    requires Keyed(cat, jobs) && OnlyListed(cat, t, services, jobs)
    requires Keyed(cat, s.jobs) && WroteOnlyOwn(t, jobs, s.jobs) && InOrder(cat, t, services, s.jobs)
             && OnlyListed(cat, t, services, s.jobs)
    requires s.outcome.Proceed? <==> AllDone(cat, t, services, 0, jobs)
    requires !s.outcome.Proceed? ==> Outstanding(cat, t, services, s.jobs, k)
    requires !s.outcome.Proceed? ==> (s.outcome.Fail? <==> FailedFor(cat, t, s.jobs, services[k]))
    ensures s.outcome.Fail? <==> NodeSetJobFailed(t, jobs)
  {
    hide InOrder, OnlyListed, Outstanding, FailedFor, AllDone, Keyed;
    assert !s.outcome.Proceed? ==> k < |services| by { if !s.outcome.Proceed? { InRange(cat, t, services, s.jobs,
                                  k); } }
    if n :| n in jobs && jobs[n].labels == t.LabelsOf(jobs[n].labels.service) && jobs[n].status.JobFailed? {
      FailedJobNotDone(cat, t, services, jobs, n);
      FailedJobIsOutstanding(cat, t, services, s.jobs, n, k);
    }
    if s.outcome.Fail? {
      WritingFailsNone(cat, t, services, jobs, s.jobs, k);
    }
  }

  lemma InRange(cat: Catalogue, t: Target, services: seq<string>, jobs: JobStore, k: nat)
    requires Outstanding(cat, t, services, jobs, k)
    ensures k < |services|
  {
  }

  /** The states of the loop, with good calls. */
  lemma {:induction false} GoodUpTo(cat: Catalogue, d: string, spec: DeploymentSpec, nodeSets: NodeSets, n: nat,
                                    jobs: JobStore)
    requires n <= |spec.nodeSets| && CanLoop(spec, nodeSets, StartOf(spec, jobs))
    requires JobsInOrder(cat, d, spec, nodeSets, jobs) && MirrorIsSound(cat.mirror)
    requires Deployable(cat, d, spec, nodeSets) && NamesUnclaimed(cat, d, spec, nodeSets, jobs)
    ensures var q := LoopUpTo(cat, d, spec, nodeSets, n, StartOf(spec, jobs), GOOD_ENV);
            && GoodSoFar(cat, d, spec, nodeSets, n, jobs, q) && !q.panicked && WroteOnlyOf(d, jobs, q.jobs)
  {
    hide DeployNodeSet, NamesUnclaimed, Deployable, JobsInOrder, MirrorIsSound, WroteOnlyOf, GoodSoFar;
    if n == 0 {
      DeployableKnows(cat, d, spec, nodeSets);
      GoodStart(cat, d, spec, nodeSets, jobs);
      NothingWrittenOf(d, jobs);
    } else {
      var q := LoopUpTo(cat, d, spec, nodeSets, n - 1, StartOf(spec, jobs), GOOD_ENV);
      GoodUpTo(cat, d, spec, nodeSets, n - 1, jobs);
      GoodOneMore(cat, d, spec, nodeSets, n - 1, jobs, q);
      WritesOfAddUp(d, jobs, q.jobs, DeployNodeSet(cat, d, spec, nodeSets, n - 1, q, GOOD_ENV).jobs);
    }
  }

  lemma GoodOneMore(cat: Catalogue, d: string, spec: DeploymentSpec, nodeSets: NodeSets, i: nat, jobs: JobStore,
                    q: Progress)
    requires i < |spec.nodeSets| && GoodSoFar(cat, d, spec, nodeSets, i, jobs, q) && CanLoop(spec, nodeSets, q)
    requires Deployable(cat, d, spec, nodeSets) && MirrorIsSound(cat.mirror)
    ensures var q' := DeployNodeSet(cat, d, spec, nodeSets, i, q, GOOD_ENV);
            GoodSoFar(cat, d, spec, nodeSets, i + 1, jobs, q') && !q'.panicked && WroteOnlyOf(d, q.jobs, q'.jobs)
  {
    hide DeployNodeSet, NamesUnclaimed, Deployable, MirrorIsSound, WroteOnlyOf, LoopInvariant, AllBacked, SameDone,
      LeftOutstanding, DoneBefore;
    GoodNodeSet(cat, d, spec, nodeSets, i, jobs, q);
    DeployNodeSetKeeps(cat, d, spec, nodeSets, i, q, GOOD_ENV);
  }

  lemma DeployableKnows(cat: Catalogue, d: string, spec: DeploymentSpec, nodeSets: NodeSets)
    requires Deployable(cat, d, spec, nodeSets)
    ensures AllKnown(spec, nodeSets)
  {
  }

  /** The jobs of one nodeset that have failed are the same wherever the loop is. */
  lemma FailuresStay(d: string, t: Target, jobs: JobStore, jobs': JobStore)
    requires WroteOnlyOf(d, jobs, jobs')
    ensures NodeSetJobFailed(t, jobs') <==> NodeSetJobFailed(t, jobs)
  {
    if n :| n in jobs && jobs[n].labels == t.LabelsOf(jobs[n].labels.service) && jobs[n].status.JobFailed? {
      assert jobs'[n].labels == t.LabelsOf(jobs'[n].labels.service) && jobs'[n].status.JobFailed?;
    }
  }

  /** Some replay fails, with good calls, if and only if some job of the deployment has failed. */
  lemma SomeReplayFailsIff(cat: Catalogue, d: string, spec: DeploymentSpec, nodeSets: NodeSets, jobs: JobStore)
    requires CanLoop(spec, nodeSets, StartOf(spec, jobs))
    requires JobsInOrder(cat, d, spec, nodeSets, jobs) && MirrorIsSound(cat.mirror)
    requires Deployable(cat, d, spec, nodeSets) && NamesUnclaimed(cat, d, spec, nodeSets, jobs)
    ensures NoneFailedBefore(cat, d, spec, nodeSets, |spec.nodeSets|, StartOf(spec, jobs), GOOD_ENV)
       <==> !SomeJobFailed(d, jobs)
  {
    hide NamesUnclaimed, Deployable, MirrorIsSound, GoodSoFar, ReplayOf, LoopUpTo, NodeSetInOrder, NodeSetJobFailed,
      WroteOnlyOf;
    var p := StartOf(spec, jobs);
    forall k | 0 <= k < |spec.nodeSets|
      ensures Known(spec, nodeSets, k)
      ensures EndsWith(cat, d, spec, nodeSets, k, p, GOOD_ENV, Fail)
         <==> NodeSetJobFailed(TargetAt(cat, d, spec, nodeSets, k), jobs)
    {
      var q := LoopUpTo(cat, d, spec, nodeSets, k, p, GOOD_ENV);
      GoodUpTo(cat, d, spec, nodeSets, k, jobs);
      ReplayFailsIff(cat, d, spec, nodeSets, k, jobs, q);
      FailuresStay(d, TargetAt(cat, d, spec, nodeSets, k), jobs, q.jobs);
    }
    FailedSomewhere(cat, d, spec, nodeSets, jobs);
  }

  /** A failed job of the deployment is a failed job of one of its nodesets. */
  lemma FailedSomewhere(cat: Catalogue, d: string, spec: DeploymentSpec, nodeSets: NodeSets, jobs: JobStore)
    requires JobsInOrder(cat, d, spec, nodeSets, jobs)
    ensures SomeJobFailed(d, jobs) <==>
              exists k | Known(spec, nodeSets, k) :: NodeSetJobFailed(TargetAt(cat, d, spec, nodeSets, k), jobs)
  {
    hide NodeSetInOrder, Keyed;
    if n :| n in jobs && jobs[n].labels.deployment == d && jobs[n].status.JobFailed? {
      var k :| 0 <= k < |spec.nodeSets| && spec.nodeSets[k] == jobs[n].labels.nodeSet;
      assert Known(spec, nodeSets, k);
      assert jobs[n].labels == TargetAt(cat, d, spec, nodeSets, k).LabelsOf(jobs[n].labels.service);
    }
    if k :| Known(spec, nodeSets, k) && NodeSetJobFailed(TargetAt(cat, d, spec, nodeSets, k), jobs) {
      var n :| n in jobs && jobs[n].status.JobFailed?
               && jobs[n].labels == TargetAt(cat, d, spec, nodeSets, k).LabelsOf(jobs[n].labels.service);
      assert jobs[n].labels.deployment == d;
    }
  }

  /** When all calls succeed, the jobs decide what the deployment says: an error if and only if one of
      them has failed, True if and only if all services have succeeded, and else requested. */
  lemma VerdictOfJobs(cat: Catalogue, d: string, dep: Deployment, nodeSets: NodeSets, jobs: JobStore)
    requires JobsInOrder(cat, d, dep.spec, nodeSets, jobs) && !dep.status.deployed && MirrorIsSound(cat.mirror)
    requires Deployable(cat, d, dep.spec, nodeSets) && NamesUnclaimed(cat, d, dep.spec, nodeSets, jobs)
    requires AllSetupReady(dep.spec.nodeSets, nodeSets)
    ensures var st := Reconcile(cat, d, dep, nodeSets, jobs, GOOD_ENV).status;
            var c := Get(st.conditions, DeploymentReadyCondition);
            && (SomeJobFailed(d, jobs) <==> c == BACKOFF || c == ERROR)
            && (DoneBefore(cat, d, dep.spec, nodeSets, |dep.spec.nodeSets|, jobs) <==> c == True)
            && (c == BACKOFF || c == ERROR || c == True || c == RUNNING)
  {
    hide JobsInOrder, NamesUnclaimed, DoneBefore, SameDone, LeftOutstanding, MirrorIsSound, DeployNodeSetsFrom, Gates,
      Conclude, ReplayIn, NoneFailedBefore, AllWentThroughBefore, LastToFail, SomeJobFailed, Summarize;
    var spec, p := dep.spec, StartOf(dep.spec, jobs);
    GoodReconcile(cat, d, dep, nodeSets, jobs);
    GoodGates(cat, d, spec, nodeSets);
    DeployableKnows(cat, d, spec, nodeSets);
    hide Deployable;
    GoodUpTo(cat, d, spec, nodeSets, |spec.nodeSets|, jobs);
    LoopIsLoopUpTo(cat, d, spec, nodeSets, 0, p, GOOD_ENV);
    NothingLooped(cat, d, spec, nodeSets, p, GOOD_ENV);
    hide GoodSoFar, LoopUpTo;
    VerdictOfReplays(cat, d, dep, nodeSets, jobs, GOOD_ENV);
    SomeReplayFailsIff(cat, d, spec, nodeSets, jobs);
  }
}
