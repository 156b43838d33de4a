/**
 What progress of a deployment rests on: the count of its unfinished services, execution names
 that stay apart, and what one reconcile does when all its calls succeed.
 */
module Liveness {
  import opened Conditions
  import opened AnsibleExecutions
  import opened Services
  import opened Deployers
  import opened NodeSetControllers
  import opened DeploymentControllers
  import opened ServiceOrder
  import opened ServiceProgress
  import opened ReconcileOrder
  import opened Protocol
  import opened ProtocolTheorems

  // ---------- counting what is left ----------

  lemma {:induction false} NoneUnfinished(cat: Catalogue, t: Target, services: seq<string>, i: nat, jobs: JobStore)
    requires i <= |services|
    ensures Unfinished(cat, t, services, i, jobs) == 0 <==> AllDone(cat, t, services, i, jobs)
    decreases |services| - i
  {
    hide First, DoneFor;
    if i < |services| {
      NoneUnfinished(cat, t, services, i + 1, jobs);
    }
  }

  lemma {:induction false} UnfinishedFollowsDone(cat: Catalogue, t: Target, services: seq<string>, i: nat,
      jobs: JobStore, jobs': JobStore)
    requires i <= |services| && forall s :: DoneFor(cat, t, jobs, s) ==> DoneFor(cat, t, jobs', s)
    ensures Unfinished(cat, t, services, i, jobs') <= Unfinished(cat, t, services, i, jobs)
    decreases |services| - i
  {
    hide First, DoneFor;
    if i < |services| {
      UnfinishedFollowsDone(cat, t, services, i + 1, jobs, jobs');
    }
  }

  /** One more finished service is one less unfinished. */
  lemma {:induction false} UnfinishedDrops(cat: Catalogue, t: Target, services: seq<string>, i: nat, jobs: JobStore,
                                           jobs': JobStore, k: nat)
    requires i <= k < |services| && First(cat, services, k)
    requires forall s :: DoneFor(cat, t, jobs, s) ==> DoneFor(cat, t, jobs', s)
    requires !DoneFor(cat, t, jobs, services[k]) && DoneFor(cat, t, jobs', services[k])
    ensures Unfinished(cat, t, services, i, jobs') < Unfinished(cat, t, services, i, jobs)
    decreases |services| - i
  {
    hide First, DoneFor;
    if i == k {
      UnfinishedFollowsDone(cat, t, services, i + 1, jobs, jobs');
    } else {
      UnfinishedDrops(cat, t, services, i + 1, jobs, jobs', k);
    }
  }

  lemma {:induction false} UnfinishedOnPrefix(cat: Catalogue, t: Target, services: seq<string>, i: nat, n: nat,
                                              jobs: JobStore)
    requires i <= n < |services| && n == |services| - 1
    ensures Unfinished(cat, t, services, i, jobs)
         <= Unfinished(cat, t, services[..n], i, jobs) + if First(cat, services, n) then 1 else 0
    decreases n - i
  {
    hide DoneFor;
    if i < n {
      UnfinishedOnPrefix(cat, t, services, i + 1, n, jobs);
      FirstOnPrefix(cat, services, n);
      assert services[..n][i] == services[i];
    }
  }

  /** No more is unfinished than there are effective services. */
  lemma {:induction false} UnfinishedAtMostAll(cat: Catalogue, t: Target, services: seq<string>, jobs: JobStore)
    ensures Unfinished(cat, t, services, 0, jobs) <= |Effective(cat, services)|
  {
    if services != [] {
      var n := |services| - 1;
      UnfinishedAtMostAll(cat, t, services[..n], jobs);
      UnfinishedOnPrefix(cat, t, services, 0, n, jobs);
    }
  }

  // ---------- the names of a deployment ----------

  /** The labels under which the deployment runs its services. */
  ghost predicate OwnLabels(cat: Catalogue, d: string, spec: DeploymentSpec, nodeSets: NodeSets, l: Labels) {
    && l.deployment == d
    && exists k | Known(spec, nodeSets, k) ::
        spec.nodeSets[k] == l.nodeSet && Listed(cat, ServicesAt(spec, nodeSets, k), l.service)
  }

  /** Different services, or nodesets, of the deployment have different execution names. */
  ghost predicate NamesApart(cat: Catalogue, d: string, spec: DeploymentSpec, nodeSets: NodeSets) {
    forall l, l' | OwnLabels(cat, d, spec, nodeSets, l) && OwnLabels(cat, d, spec, nodeSets, l') && l != l' ::
      cat.executionName(l) != cat.executionName(l')
  }

  /** No other deployment holds one of these names. */
  ghost predicate NamesUnclaimed(cat: Catalogue, d: string, spec: DeploymentSpec, nodeSets: NodeSets, jobs: JobStore) {
    forall l | OwnLabels(cat, d, spec, nodeSets, l) && cat.executionName(l) in jobs ::
                         jobs[cat.executionName(l)].labels.deployment == d
  }

  /** No two nodesets of the deployment have a node of the same host name. */
  ghost predicate HostsApart(spec: DeploymentSpec, nodeSets: NodeSets) {
    forall k, k' | Known(spec, nodeSets, k) && Known(spec, nodeSets, k') && spec.nodeSets[k] != spec.nodeSets[k'] ::
      HostsOf(nodeSets[spec.nodeSets[k]]) !! HostsOf(nodeSets[spec.nodeSets[k']])
  }

  /** What the gates ask of the nodeset at `k` itself: that it can be set up, and can have its
      certificates if it uses TLS. */
  ghost predicate GatePassable(cat: Catalogue, spec: DeploymentSpec, nodeSets: NodeSets, k: int)
    requires Known(spec, nodeSets, k)
  {
    var ns := nodeSets[spec.nodeSets[k]];
    CanBeSetUp(ns, cat.objectName) && (ns.tlsEnabled ==> CertsPossible(cat.services, ServicesFor(spec, ns), ns))
  }

  ghost predicate GatesPassable(cat: Catalogue, d: string, spec: DeploymentSpec, nodeSets: NodeSets) {
    && cat.validName(d) && HostsApart(spec, nodeSets)
    && forall k | Known(spec, nodeSets, k) :: GatePassable(cat, spec, nodeSets, k)
  }

  /** Every listed service is there, and so are the services its certificate mounts come from. */
  ghost predicate ServicesUsable(cat: Catalogue, d: string, spec: DeploymentSpec, nodeSets: NodeSets) {
    forall k, s | Known(spec, nodeSets, k) && s in ServicesAt(spec, nodeSets, k) ::
      Usable(cat, TargetAt(cat, d, spec, nodeSets, k), s)
  }

  /** What a deployment needs in order to be done: its nodesets are there and its gates can be
      passed, its services can be used, its jobs are accepted under names that stay apart, and
      unless its services are overridden no global service is listed twice. */
  ghost predicate Deployable(cat: Catalogue, d: string, spec: DeploymentSpec, nodeSets: NodeSets) {
    && AllKnown(spec, nodeSets) && GatesPassable(cat, d, spec, nodeSets)
    && ServicesUsable(cat, d, spec, nodeSets)
    && NamesApart(cat, d, spec, nodeSets)
    && (forall l | OwnLabels(cat, d, spec, nodeSets, l) :: cat.admissible(l))
    && (spec.servicesOverride.None? ==> Consistent(cat.services, Flatten(ServiceLists(spec.nodeSets, nodeSets)),
       ALL_READABLE))
  }

  lemma OwnLabelsDone(cat: Catalogue, d: string, spec: DeploymentSpec, nodeSets: NodeSets, jobs: JobStore, l: Labels)
    requires DeploymentDone(cat, d, spec, nodeSets, jobs) && OwnLabels(cat, d, spec, nodeSets, l)
    ensures Done(cat.executionName, jobs, l)
  {
    var k :| Known(spec, nodeSets, k) && spec.nodeSets[k] == l.nodeSet
        && Listed(cat, ServicesAt(spec, nodeSets, k), l.service);
    assert NodeSetDone(cat, d, spec, nodeSets, jobs, k);
    assert DoneFor(cat, TargetAt(cat, d, spec, nodeSets, k), jobs, l.service);
  }

  /** A deployment that is done behind its gates was deployable: two services that share an
      execution name cannot both have succeeded. */
  lemma DoneWasDeployable(cat: Catalogue, d: string, spec: DeploymentSpec, nodeSets: NodeSets, jobs: JobStore)
    requires DeploymentDone(cat, d, spec, nodeSets, jobs) && Keyed(cat, jobs) && GatesPassable(cat, d, spec, nodeSets)
    ensures Deployable(cat, d, spec, nodeSets)
  {
    hide OwnLabels, Consistent, GatesPassable, Usable, AllDone;
    forall l | OwnLabels(cat, d, spec, nodeSets, l)
      ensures Done(cat.executionName, jobs, l)
    {
      OwnLabelsDone(cat, d, spec, nodeSets, jobs, l);
    }
    forall k, s | Known(spec, nodeSets, k) && s in ServicesAt(spec, nodeSets, k)
      ensures Usable(cat, TargetAt(cat, d, spec, nodeSets, k), s)
    {
      assert NodeSetDone(cat, d, spec, nodeSets, jobs, k);
    }
  }

  /** The jobs of a deployment whose names stay apart hold their own names. */
  lemma NamesFreeAt(cat: Catalogue, d: string, spec: DeploymentSpec, nodeSets: NodeSets, jobs: JobStore, k: int)
    requires Known(spec, nodeSets, k) && JobsInOrder(cat, d, spec, nodeSets, jobs)
    requires NamesApart(cat, d, spec, nodeSets) && NamesUnclaimed(cat, d, spec, nodeSets, jobs)
    requires forall l | OwnLabels(cat, d, spec, nodeSets, l) :: cat.admissible(l)
    ensures NamesFree(cat, TargetAt(cat, d, spec, nodeSets, k), ServicesAt(spec, nodeSets, k), jobs)
  {
    var t, services := TargetAt(cat, d, spec, nodeSets, k), ServicesAt(spec, nodeSets, k);
    forall i | 0 <= i < |services| && First(cat, services, i)
      ensures OwnLabels(cat, d, spec, nodeSets, t.LabelsOf(services[i]))
    {
      assert Listed(cat, services, services[i]);
    }
    forall i | 0 <= i < |services| && First(cat, services, i) && cat.executionName(t.LabelsOf(services[i])) in jobs
      ensures HasJobFor(cat, t, jobs, services[i])
    {
      JobHasOwnLabels(cat, d, spec, nodeSets, jobs, cat.executionName(t.LabelsOf(services[i])));
    }
    forall i, j | 0 <= i < j < |services| && First(cat, services, i) && First(cat, services, j)
      ensures t.LabelsOf(services[i]) != t.LabelsOf(services[j])
    {
      assert cat.ConditionTypeOf(services[i]) != cat.ConditionTypeOf(services[j]);
    }
  }

  lemma JobHasOwnLabels(cat: Catalogue, d: string, spec: DeploymentSpec, nodeSets: NodeSets, jobs: JobStore, n: string)
    requires JobsInOrder(cat, d, spec, nodeSets, jobs) && n in jobs && jobs[n].labels.deployment == d
    ensures OwnLabels(cat, d, spec, nodeSets, jobs[n].labels) && n == cat.executionName(jobs[n].labels)
  {
    var l := jobs[n].labels;
    var k :| 0 <= k < |spec.nodeSets| && spec.nodeSets[k] == l.nodeSet;
    assert Known(spec, nodeSets, k);
    assert NodeSetInOrder(cat, d, spec, nodeSets, jobs, k);
  }

  // ---------- one good reconcile ----------

  const GOOD_ENV := Env((i: nat) => Got, (i: nat) => CertsReady, ALL_READABLE, true, (i: nat) => (j: nat) => GOOD_CALL,
                        true)

  ghost predicate SameDone(cat: Catalogue, jobs: JobStore, jobs': JobStore) {
    forall l :: Done(cat.executionName, jobs', l) <==> Done(cat.executionName, jobs, l)
  }

  ghost predicate DoneAt(cat: Catalogue, d: string, spec: DeploymentSpec, nodeSets: NodeSets, jobs: JobStore, k: int)
    requires Known(spec, nodeSets, k)
  {
    AllDone(cat, TargetAt(cat, d, spec, nodeSets, k), ServicesAt(spec, nodeSets, k), 0, jobs)
  }

  /** Some job of the nodeset is there and has not succeeded. */
  ghost predicate OutstandingAt(cat: Catalogue, d: string, spec: DeploymentSpec, nodeSets: NodeSets, jobs: JobStore,
                                k: int)
    requires Known(spec, nodeSets, k)
  {
    exists m: nat :: Outstanding(cat, TargetAt(cat, d, spec, nodeSets, k), ServicesAt(spec, nodeSets, k), jobs, m)
  }

  /** The conditions of the nodeset at `k` say no more than its jobs. */
  ghost predicate BackedAt(cat: Catalogue, d: string, spec: DeploymentSpec, nodeSets: NodeSets, k: int, jobs: JobStore,
                           conds: Conditions)
    requires Known(spec, nodeSets, k)
  {
    Backed(cat, TargetAt(cat, d, spec, nodeSets, k), ServicesAt(spec, nodeSets, k), jobs, conds)
  }

  ghost predicate AllBacked(cat: Catalogue, d: string, spec: DeploymentSpec, nodeSets: NodeSets, jobs: JobStore,
                            nsConditions: map<string, Conditions>)
  {
    forall k | Known(spec, nodeSets, k) ::
      spec.nodeSets[k] in nsConditions && BackedAt(cat, d, spec, nodeSets, k, jobs, nsConditions[spec.nodeSets[k]])
  }

  /** A nodeset before `i` that was not done in `jobs` has an outstanding job in `jobs'`. */
  ghost predicate LeftOutstanding(cat: Catalogue, d: string, spec: DeploymentSpec, nodeSets: NodeSets, i: int,
                                  jobs: JobStore, jobs': JobStore)
  {
    forall k | k < i && Known(spec, nodeSets, k) && !DoneAt(cat, d, spec, nodeSets, jobs, k) ::
                              OutstandingAt(cat, d, spec, nodeSets, jobs', k)
  }

  ghost predicate DoneBefore(cat: Catalogue, d: string, spec: DeploymentSpec, nodeSets: NodeSets, i: int,
                             jobs: JobStore)
  {
    forall k | k < i && Known(spec, nodeSets, k) :: DoneAt(cat, d, spec, nodeSets, jobs, k)
  }

  /** The nodesets before `i` are done or have an outstanding job, and all conditions say no more
      than the jobs. */
  ghost predicate GoodSoFar(cat: Catalogue, d: string, spec: DeploymentSpec, nodeSets: NodeSets, i: nat,
                            jobs: JobStore, p: Progress)
  {
    && LoopInvariant(cat, d, spec, nodeSets, i, p) && !p.panicked
    && NamesUnclaimed(cat, d, spec, nodeSets, p.jobs) && SameDone(cat, jobs, p.jobs)
    && AllBacked(cat, d, spec, nodeSets, p.jobs, p.status.nodeSetConditions)
    && LeftOutstanding(cat, d, spec, nodeSets, i, jobs, p.jobs)
    && (p.requeue <==> !DoneBefore(cat, d, spec, nodeSets, i, jobs))
  }

  lemma GoodReplayAt(cat: Catalogue, d: string, spec: DeploymentSpec, nodeSets: NodeSets, i: nat, jobs: JobStore,
                     p: Progress)
    requires i < |spec.nodeSets| && GoodSoFar(cat, d, spec, nodeSets, i, jobs, p)
    requires Deployable(cat, d, spec, nodeSets)
    ensures var s := ReplayOf(cat, d, spec, nodeSets, i, p.jobs, p.status.nodeSetConditions[spec.nodeSets[i]],
            GOOD_ENV);
            && (s.outcome.Proceed? <==> DoneAt(cat, d, spec, nodeSets, jobs, i))
            && (!s.outcome.Proceed? ==> OutstandingAt(cat, d, spec, nodeSets, s.jobs, i)) && !s.outcome.Panic?
            && BackedAt(cat, d, spec, nodeSets, i, s.jobs, s.conds)
  {
    hide NamesFree, NamesApart, NamesUnclaimed, DeployFrom, InOrder, OnlyListed, AllSound, GatesPassable, Usable,
      Backed, Consistent, OwnLabels;
    var t, services := TargetAt(cat, d, spec, nodeSets, i), ServicesAt(spec, nodeSets, i);
    var conds := p.status.nodeSetConditions[spec.nodeSets[i]];
    assert Known(spec, nodeSets, i);
    assert BackedAt(cat, d, spec, nodeSets, i, p.jobs, conds);
    NamesFreeAt(cat, d, spec, nodeSets, p.jobs, i);
    var k := GoodReplay(cat, t, services, 0, p.jobs, conds, GOOD_ENV.calls(i));
    assert AllDone(cat, t, services, 0, p.jobs) <==> AllDone(cat, t, services, 0, jobs);
    var s := DeployFrom(cat, t, services, 0, p.jobs, conds, GOOD_ENV.calls(i));
    assert !s.outcome.Proceed? ==> Outstanding(cat, t, services, s.jobs, k);
  }

  lemma WritesKeepUnclaimed(cat: Catalogue, d: string, spec: DeploymentSpec, nodeSets: NodeSets, jobs: JobStore,
                            jobs': JobStore)
    requires WroteOnlyOf(d, jobs, jobs') && NamesUnclaimed(cat, d, spec, nodeSets, jobs)
    ensures NamesUnclaimed(cat, d, spec, nodeSets, jobs')
    ensures SameDone(cat, jobs, jobs')
    ensures forall k | Known(spec, nodeSets, k) && OutstandingAt(cat, d, spec, nodeSets, jobs, k) ::
            OutstandingAt(cat, d, spec, nodeSets, jobs', k)
  {
    hide OwnLabels;
    forall k | Known(spec, nodeSets, k) && OutstandingAt(cat, d, spec, nodeSets, jobs, k)
      ensures OutstandingAt(cat, d, spec, nodeSets, jobs', k)
    {
      var t, services := TargetAt(cat, d, spec, nodeSets, k), ServicesAt(spec, nodeSets, k);
      var m: nat :| Outstanding(cat, t, services, jobs, m);
      assert Outstanding(cat, t, services, jobs', m);
    }
  }

  lemma DeployNodeSetFrame(cat: Catalogue, d: string, spec: DeploymentSpec, nodeSets: NodeSets, i: nat, p: Progress)
    requires i < |spec.nodeSets| && Known(spec, nodeSets, i)
    requires forall k | 0 <= k < |spec.nodeSets| :: spec.nodeSets[k] in p.status.nodeSetConditions
    ensures var p' := DeployNodeSet(cat, d, spec, nodeSets, i, p, GOOD_ENV);
            var s := ReplayOf(cat, d, spec, nodeSets, i, p.jobs, p.status.nodeSetConditions[spec.nodeSets[i]],
                GOOD_ENV);
            && p'.jobs == s.jobs && (p'.panicked <==> s.outcome.Panic?)
            && (!p'.panicked ==>
                  && (p'.requeue <==> p.requeue || !s.outcome.Proceed?)
                  && p'.status.nodeSetConditions
                     == p.status.nodeSetConditions[spec.nodeSets[i] := NodeSetConditionsAfter(cat, s.conds, s.outcome)])
  {
    hide ReplayOf, NodeSetConditionsAfter;
  }

  /** What the replay of the nodeset at `i` leaves of the conditions of all, this one included if
      it is listed again. */
  lemma ReplayKeepsBacked(cat: Catalogue, d: string, spec: DeploymentSpec, nodeSets: NodeSets, i: nat, jobs: JobStore,
                          nsConditions: map<string, Conditions>, s: Step)
    requires i < |spec.nodeSets| && Known(spec, nodeSets, i)
    requires AllBacked(cat, d, spec, nodeSets, jobs, nsConditions) && Preserved(jobs, s.jobs)
    requires BackedAt(cat, d, spec, nodeSets, i, s.jobs, s.conds)
    ensures AllBacked(cat, d, spec, nodeSets, s.jobs,
            nsConditions[spec.nodeSets[i] := NodeSetConditionsAfter(cat, s.conds, s.outcome)])
  {
    hide BackedBy, First;
    var nsConditions' := nsConditions[spec.nodeSets[i] := NodeSetConditionsAfter(cat, s.conds, s.outcome)];
    forall k | Known(spec, nodeSets, k)
      ensures BackedAt(cat, d, spec, nodeSets, k, s.jobs, nsConditions'[spec.nodeSets[k]])
    {
      var t, services := TargetAt(cat, d, spec, nodeSets, k), ServicesAt(spec, nodeSets, k);
      var (jobs1, conds1) := if spec.nodeSets[k] == spec.nodeSets[i] then (s.jobs, s.conds)
                             else (jobs, nsConditions[spec.nodeSets[k]]);
      assert Backed(cat, t, services, jobs1, conds1);
      forall m | 0 <= m < |services| && First(cat, services, m)
        ensures BackedBy(cat, t, s.jobs, nsConditions'[spec.nodeSets[k]], services[m])
      {
        BackedKept(cat, t, jobs1, s.jobs, conds1, nsConditions'[spec.nodeSets[k]], services[m]);
      }
    }
  }

  lemma GoodNodeSet(cat: Catalogue, d: string, spec: DeploymentSpec, nodeSets: NodeSets, i: nat, jobs: JobStore,
                    p: Progress)
    requires i < |spec.nodeSets| && GoodSoFar(cat, d, spec, nodeSets, i, jobs, p)
    requires Deployable(cat, d, spec, nodeSets) && MirrorIsSound(cat.mirror)
    ensures GoodSoFar(cat, d, spec, nodeSets, i + 1, jobs, DeployNodeSet(cat, d, spec, nodeSets, i, p, GOOD_ENV))
  {
    hide DeployNodeSet, ReplayOf, DoneAt, OutstandingAt, NamesUnclaimed, Deployable, AllBacked, BackedAt, JobsInOrder,
      AllSound, NodeSetDone, SaysDone, MirrorIsSound, NodeSetConditionsAfter;
    GoodReplayAt(cat, d, spec, nodeSets, i, jobs, p);
    DeployNodeSetKeeps(cat, d, spec, nodeSets, i, p, GOOD_ENV);
    var p' := DeployNodeSet(cat, d, spec, nodeSets, i, p, GOOD_ENV);
    WritesKeepUnclaimed(cat, d, spec, nodeSets, p.jobs, p'.jobs);
    DeployNodeSetFrame(cat, d, spec, nodeSets, i, p);
    assert !p'.panicked;
    assert Known(spec, nodeSets, i);
    var s := ReplayOf(cat, d, spec, nodeSets, i, p.jobs, p.status.nodeSetConditions[spec.nodeSets[i]], GOOD_ENV);
    ReplayKeepsBacked(cat, d, spec, nodeSets, i, p.jobs, p.status.nodeSetConditions, s);
    hide LoopInvariant;
    assert DoneBefore(cat, d, spec, nodeSets, i + 1, jobs) <==>
             DoneBefore(cat, d, spec, nodeSets, i, jobs) && DoneAt(cat, d, spec, nodeSets, jobs, i);
  }

  lemma {:induction false} GoodLoop(cat: Catalogue, d: string, spec: DeploymentSpec, nodeSets: NodeSets, i: nat,
                                    jobs: JobStore, p: Progress)
    requires i <= |spec.nodeSets| && GoodSoFar(cat, d, spec, nodeSets, i, jobs, p)
    requires Deployable(cat, d, spec, nodeSets) && MirrorIsSound(cat.mirror)
    ensures GoodSoFar(cat, d, spec, nodeSets, |spec.nodeSets|, jobs,
            DeployNodeSetsFrom(cat, d, spec, nodeSets, i, p, GOOD_ENV))
    decreases |spec.nodeSets| - i
  {
    hide DeployNodeSet, NamesUnclaimed, Deployable, AllBacked, JobsInOrder, AllSound, NodeSetDone, LeftOutstanding,
      DoneBefore, SameDone, SaysDone, MirrorIsSound;
    if i < |spec.nodeSets| {
      GoodNodeSet(cat, d, spec, nodeSets, i, jobs, p);
      GoodLoop(cat, d, spec, nodeSets, i + 1, jobs, DeployNodeSet(cat, d, spec, nodeSets, i, p, GOOD_ENV));
    }
  }
}
