/**
 Which deployments get done: alternating one good reconcile with "every outstanding job
 succeeds" finishes a deployable deployment within a bound, and a deployment can be done at
 all if and only if it is deployable.
 */
module DeploymentProgress {
  import opened Conditions
  import opened AnsibleExecutions
  import opened Services
  import opened Deployers
  import opened NodeSetControllers
  import opened DeploymentControllers
  import opened ServiceOrder
  import opened ServiceProgress
  import opened ReconcileOrder
  import opened Protocol
  import opened ProtocolTheorems
  import opened Liveness

  // ---------- one good reconcile ----------

  lemma GoodStart(cat: Catalogue, d: string, spec: DeploymentSpec, nodeSets: NodeSets, jobs: JobStore)
    requires JobsInOrder(cat, d, spec, nodeSets, jobs) && AllKnown(spec, nodeSets)
    requires NamesUnclaimed(cat, d, spec, nodeSets, jobs)
    ensures GoodSoFar(cat, d, spec, nodeSets, 0, jobs, StartOf(spec, jobs))
  {
    hide JobsInOrder, NamesUnclaimed, DoneAt, OutstandingAt, First;
    LoopStarts(cat, d, spec, nodeSets, jobs);
    hide LoopInvariant;
  }

  /** The gates of a deployable deployment open once its nodesets are set up and all calls succeed. */
  lemma GoodGates(cat: Catalogue, d: string, spec: DeploymentSpec, nodeSets: NodeSets)
    requires Deployable(cat, d, spec, nodeSets) && AllSetupReady(spec.nodeSets, nodeSets)
    ensures cat.validName(d) && Gates(cat, spec, nodeSets, GOOD_ENV).Open?
  {
    hide Gates, Consistent, OwnLabels, CertsPossible, CanBeSetUp, Usable, HostsApart;
    GatesOpenIff(cat, spec, nodeSets, GOOD_ENV);
    forall k | 0 <= k < |spec.nodeSets|
      ensures CertsDone(cat, spec, nodeSets[spec.nodeSets[k]], GOOD_ENV.tls(k))
    {
      assert GatePassable(cat, spec, nodeSets, k);
    }
  }

  /** With all calls succeeding, the reconcile ends with Deployed if and only if everything was
      done before; otherwise each unfinished nodeset is left with an outstanding job. */
  lemma GoodReconcile(cat: Catalogue, d: string, dep: Deployment, nodeSets: NodeSets, jobs: JobStore)
    requires JobsInOrder(cat, d, dep.spec, nodeSets, jobs) && !dep.status.deployed && MirrorIsSound(cat.mirror)
    requires Deployable(cat, d, dep.spec, nodeSets)
    requires NamesUnclaimed(cat, d, dep.spec, nodeSets, jobs)
    requires AllSetupReady(dep.spec.nodeSets, nodeSets)
    ensures var r := Reconcile(cat, d, dep, nodeSets, jobs, GOOD_ENV);
            && (r.status.deployed <==> DoneBefore(cat, d, dep.spec, nodeSets, |dep.spec.nodeSets|, jobs))
            && NamesUnclaimed(cat, d, dep.spec, nodeSets, r.jobs) && SameDone(cat, jobs, r.jobs)
            && LeftOutstanding(cat, d, dep.spec, nodeSets, |dep.spec.nodeSets|, jobs, r.jobs)
  {
    hide JobsInOrder, NamesUnclaimed, DoneBefore, SameDone, LeftOutstanding, AllBacked, Consistent, NamesApart,
      MirrorIsSound, SaysDone;
    var spec := dep.spec;
    GoodGates(cat, d, spec, nodeSets);
    hide Gates, GatesPassable, ServicesUsable, Usable, OwnLabels;
    GoodStart(cat, d, spec, nodeSets, jobs);
    GoodLoop(cat, d, spec, nodeSets, 0, jobs, StartOf(spec, jobs));
    NotDeployedInLoop(cat, d, spec, nodeSets, 0, StartOf(spec, jobs), GOOD_ENV);
    hide Deployable, DeployNodeSetsFrom, AllSound, NodeSetDone;
  }

  lemma {:induction false} NotDeployedInLoop(cat: Catalogue, d: string, spec: DeploymentSpec, nodeSets: NodeSets,
                                             i: nat, p: Progress, env: Env)
    requires i <= |spec.nodeSets| && !p.status.deployed
    requires forall k | 0 <= k < |spec.nodeSets| ::
        spec.nodeSets[k] in nodeSets && spec.nodeSets[k] in p.status.nodeSetConditions
    ensures !DeployNodeSetsFrom(cat, d, spec, nodeSets, i, p, env).status.deployed
    decreases |spec.nodeSets| - i
  {
    hide ReplayOf, NodeSetConditionsAfter;
    if i < |spec.nodeSets| && !p.panicked {
      NotDeployedInLoop(cat, d, spec, nodeSets, i + 1, DeployNodeSet(cat, d, spec, nodeSets, i, p, env), env);
    }
  }

  // ---------- rounds ----------

  /** The deployment can make progress: its nodesets are set up and its names are its own. */
  ghost predicate Progressing(cat: Catalogue, s: System, d: string) {
    && Invariant(cat, s) && d in s.deployments
    && Deployable(cat, d, s.deployments[d].spec, s.nodeSets)
    && NamesUnclaimed(cat, d, s.deployments[d].spec, s.nodeSets, s.jobs)
    && AllSetupReady(s.deployments[d].spec.nodeSets, s.nodeSets)
  }

  const EVERY_JOB_SUCCEEDS: string -> JobStatus := (n: string) => Succeeded

  /** One good reconcile, after which every job there is succeeds. */
  function Round(d: string): seq<Event> {
    [DeploymentReconciled(d, GOOD_ENV), JobsChanged(EVERY_JOB_SUCCEEDS)]
  }

  function Rounds(d: string, n: nat): seq<Event> {
    if n == 0 then [] else Round(d) + Rounds(d, n - 1)
  }

  ghost function UnfinishedAt(cat: Catalogue, s: System, d: string, k: int): nat
    requires d in s.deployments && Known(s.deployments[d].spec, s.nodeSets, k)
  {
    Unfinished(cat, TargetAt(cat, d, s.deployments[d].spec, s.nodeSets, k),
      ServicesAt(s.deployments[d].spec, s.nodeSets, k), 0, s.jobs)
  }

  /** No nodeset has more than `n` unfinished services. */
  ghost predicate AtMostUnfinished(cat: Catalogue, s: System, d: string, n: nat)
    requires d in s.deployments
  {
    forall k | Known(s.deployments[d].spec, s.nodeSets, k) :: UnfinishedAt(cat, s, d, k) <= n
  }

  lemma {:induction false} RunTwo(cat: Catalogue, s: System, e: Event, e': Event)
    ensures Run(cat, s, [e, e']) == Next(cat, Next(cat, s, e), e')
  {
    assert [e, e'][1..] == [e'];
    assert [e'][1..] == [];
    hide Next;
    var s1 := Next(cat, s, e);
    assert Run(cat, s1, [e']) == Run(cat, Next(cat, s1, e'), []);
  }

  lemma {:induction false} RunAppend(cat: Catalogue, s: System, a: seq<Event>, b: seq<Event>)
    ensures Run(cat, s, a + b) == Run(cat, Run(cat, s, a), b)
    decreases |a|
  {
    hide Next;
    if a == [] {
      assert a + b == b;
    } else {
      assert (a + b)[1..] == a[1..] + b;
      RunAppend(cat, Next(cat, s, a[0]), a[1..], b);
    }
  }

  /** Once every job has succeeded, an outstanding job of a nodeset lowers its count. */
  lemma OutstandingGetsDone(cat: Catalogue, t: Target, services: seq<string>, jobs: JobStore, jobs': JobStore)
    requires SameDone(cat, jobs, jobs')
    ensures var after := ChangeJobs(jobs', EVERY_JOB_SUCCEEDS);
            && Unfinished(cat, t, services, 0, after) <= Unfinished(cat, t, services, 0, jobs)
            && ((exists m: nat :: Outstanding(cat, t, services, jobs', m)) ==>
                  Unfinished(cat, t, services, 0, after) < Unfinished(cat, t, services, 0, jobs))
  {
    hide First;
    var after := ChangeJobs(jobs', EVERY_JOB_SUCCEEDS);
    assert forall s :: DoneFor(cat, t, jobs, s) ==> DoneFor(cat, t, after, s);
    UnfinishedFollowsDone(cat, t, services, 0, jobs, after);
    if m: nat :| Outstanding(cat, t, services, jobs', m) {
      UnfinishedDrops(cat, t, services, 0, jobs, after, m);
    }
  }

  lemma SucceedingKeepsUnclaimed(cat: Catalogue, d: string, spec: DeploymentSpec, nodeSets: NodeSets, jobs: JobStore)
    requires NamesUnclaimed(cat, d, spec, nodeSets, jobs)
    ensures NamesUnclaimed(cat, d, spec, nodeSets, ChangeJobs(jobs, EVERY_JOB_SUCCEEDS))
  {
    hide OwnLabels;
  }

  /** What one round does to a deployment that is not done: it becomes Deployed if everything
      had succeeded, and otherwise every nodeset that is not done has one service less to go. */
  lemma RoundProgress(cat: Catalogue, s: System, d: string)
    requires Progressing(cat, s, d) && MirrorIsSound(cat.mirror) && !s.deployments[d].status.deployed
    ensures var s' := Run(cat, s, Round(d));
            && Progressing(cat, s', d) && s'.nodeSets == s.nodeSets && s'.deployments[d].spec == s.deployments[d].spec
            && (s'.deployments[d].status.deployed <==> AtMostUnfinished(cat, s, d, 0))
            && (forall k | Known(s.deployments[d].spec, s.nodeSets, k) && UnfinishedAt(cat, s, d, k) > 0 ::
                  UnfinishedAt(cat, s', d, k) < UnfinishedAt(cat, s, d, k))
            && (forall k | Known(s.deployments[d].spec, s.nodeSets, k) && UnfinishedAt(cat, s, d, k) == 0 ::
                  UnfinishedAt(cat, s', d, k) == 0)
  {
    hide JobsInOrder, StatusMeaning, ServicesChecked, SetUp, Deployable, NamesUnclaimed, Reconcile,
      OutstandingAt, DoneAt, MirrorIsSound;
    var spec := s.deployments[d].spec;
    assert DeploymentOk(cat, s, d);
    GoodReconcile(cat, d, s.deployments[d], s.nodeSets, s.jobs);
    var e, e' := DeploymentReconciled(d, GOOD_ENV), JobsChanged(EVERY_JOB_SUCCEEDS);
    var s1 := Next(cat, s, e);
    var s2 := Next(cat, s1, e');
    RunTwo(cat, s, e, e');
    StepKeeps(cat, s, e);
    StepKeeps(cat, s1, e');
    hide Invariant;
    SucceedingKeepsUnclaimed(cat, d, spec, s.nodeSets, s1.jobs);
    assert Progressing(cat, s2, d);
    forall k | Known(spec, s.nodeSets, k)
      ensures DoneAt(cat, d, spec, s.nodeSets, s.jobs, k) <==> UnfinishedAt(cat, s, d, k) == 0
      ensures UnfinishedAt(cat, s2, d, k) <= UnfinishedAt(cat, s, d, k)
      ensures UnfinishedAt(cat, s, d, k) > 0 ==> UnfinishedAt(cat, s2, d, k) < UnfinishedAt(cat, s, d, k)
    {
      NodeSetRound(cat, s, d, k, s1, s2);
    }
  }

  lemma NodeSetRound(cat: Catalogue, s: System, d: string, k: int, s1: System, s2: System)
    requires d in s.deployments && d in s2.deployments && Known(s.deployments[d].spec, s.nodeSets, k)
    requires s2.nodeSets == s.nodeSets && s2.deployments[d].spec == s.deployments[d].spec
    requires SameDone(cat, s.jobs, s1.jobs) && s2.jobs == ChangeJobs(s1.jobs, EVERY_JOB_SUCCEEDS)
    requires LeftOutstanding(cat, d, s.deployments[d].spec, s.nodeSets, |s.deployments[d].spec.nodeSets|, s.jobs,
             s1.jobs)
    ensures DoneAt(cat, d, s.deployments[d].spec, s.nodeSets, s.jobs, k) <==> UnfinishedAt(cat, s, d, k) == 0
    ensures UnfinishedAt(cat, s2, d, k) <= UnfinishedAt(cat, s, d, k)
    ensures UnfinishedAt(cat, s, d, k) > 0 ==> UnfinishedAt(cat, s2, d, k) < UnfinishedAt(cat, s, d, k)
  {
    hide AllDone, Outstanding, SameDone;
    var t, services := TargetAt(cat, d, s.deployments[d].spec, s.nodeSets, k),
        ServicesAt(s.deployments[d].spec, s.nodeSets, k);
    NoneUnfinished(cat, t, services, 0, s.jobs);
    OutstandingGetsDone(cat, t, services, s.jobs, s1.jobs);
  }

  /** The termination measure at work: when no nodeset has more than `n` services left, `n`
      rounds and one more reconcile end with Deployed. */
  lemma {:induction false} RoundsReachDeployed(cat: Catalogue, s: System, d: string, n: nat)
    requires Progressing(cat, s, d) && MirrorIsSound(cat.mirror) && AtMostUnfinished(cat, s, d, n)
    ensures var s' := Run(cat, s, Rounds(d, n) + [DeploymentReconciled(d, GOOD_ENV)]);
            d in s'.deployments && s'.deployments[d].status.deployed
    decreases n
  {
    hide Invariant, Deployable, NamesUnclaimed, MirrorIsSound, UnfinishedAt;
    var last := [DeploymentReconciled(d, GOOD_ENV)];
    if s.deployments[d].status.deployed {
      DeployedIsFinal(cat, s, Rounds(d, n) + last, d);
    } else {
      RoundProgress(cat, s, d);
      var s1 := Run(cat, s, Round(d));
      if n == 0 {
        assert Rounds(d, n) + last == last;
        LastRound(cat, s, d);
      } else {
        assert Rounds(d, n) + last == Round(d) + (Rounds(d, n - 1) + last);
        RunAppend(cat, s, Round(d), Rounds(d, n - 1) + last);
        RoundsReachDeployed(cat, s1, d, n - 1);
      }
    }
  }

  /** Job changes alter no status, so the reconcile of a round is what makes it Deployed. */
  lemma LastRound(cat: Catalogue, s: System, d: string)
    requires d in s.deployments && d in Run(cat, s, Round(d)).deployments
    ensures Run(cat, s, [DeploymentReconciled(d, GOOD_ENV)]).deployments == Run(cat, s, Round(d)).deployments
  {
    hide Reconcile;
    var e, e' := DeploymentReconciled(d, GOOD_ENV), JobsChanged(EVERY_JOB_SUCCEEDS);
    RunTwo(cat, s, e, e');
    assert [e][1..] == [];
    assert Run(cat, s, [e]) == Run(cat, Next(cat, s, e), []);
  }

  /** The bound of a whole deployment: when no nodeset has more than `n` distinct services,
      `n + 1` reconciles end with Deployed. */
  lemma DeployedWithinBound(cat: Catalogue, s: System, d: string, n: nat)
    requires Progressing(cat, s, d) && MirrorIsSound(cat.mirror)
    requires forall k | Known(s.deployments[d].spec, s.nodeSets, k) ::
               |Effective(cat, ServicesAt(s.deployments[d].spec, s.nodeSets, k))| <= n
    ensures var s' := Run(cat, s, Rounds(d, n) + [DeploymentReconciled(d, GOOD_ENV)]);
            d in s'.deployments && s'.deployments[d].status.deployed
  {
    hide Invariant, Deployable, NamesUnclaimed, MirrorIsSound, Effective, Unfinished;
    forall k | Known(s.deployments[d].spec, s.nodeSets, k)
      ensures UnfinishedAt(cat, s, d, k) <= n
    {
      UnfinishedAtMostAll(cat, TargetAt(cat, d, s.deployments[d].spec, s.nodeSets, k),
        ServicesAt(s.deployments[d].spec, s.nodeSets, k), s.jobs);
    }
    RoundsReachDeployed(cat, s, d, n);
  }
}
