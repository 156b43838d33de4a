/**
 What one reconcile of a deployment keeps, over all its nodesets: the order of the jobs, the
 meaning of Deployed, the gates, and the isolation of the nodesets from each other.
 */
module ReconcileOrder {
  import opened Conditions
  import opened AnsibleExecutions
  import opened Services
  import opened Deployers
  import opened NodeSetControllers
  import opened DeploymentControllers
  import opened ServiceOrder
  import opened ServiceProgress

  // ---------- the nodesets of a deployment ----------

  ghost predicate Known(spec: DeploymentSpec, nodeSets: NodeSets, k: int) {
    0 <= k < |spec.nodeSets| && spec.nodeSets[k] in nodeSets
  }

  ghost predicate AllKnown(spec: DeploymentSpec, nodeSets: NodeSets) {
    forall k | 0 <= k < |spec.nodeSets| :: spec.nodeSets[k] in nodeSets
  }

  ghost function TargetAt(cat: Catalogue, d: string, spec: DeploymentSpec, nodeSets: NodeSets, k: int): Target
    requires Known(spec, nodeSets, k)
  {
    TargetFor(cat, d, spec, spec.nodeSets[k], nodeSets[spec.nodeSets[k]])
  }

  ghost function ServicesAt(spec: DeploymentSpec, nodeSets: NodeSets, k: int): seq<string>
    requires Known(spec, nodeSets, k)
  {
    ServicesFor(spec, nodeSets[spec.nodeSets[k]])
  }

  ghost predicate NodeSetInOrder(cat: Catalogue, d: string, spec: DeploymentSpec, nodeSets: NodeSets, jobs: JobStore,
                                 k: int)
    requires Known(spec, nodeSets, k)
  {
    && InOrder(cat, TargetAt(cat, d, spec, nodeSets, k), ServicesAt(spec, nodeSets, k), jobs)
    && OnlyListed(cat, TargetAt(cat, d, spec, nodeSets, k), ServicesAt(spec, nodeSets, k), jobs)
  }

  /** The jobs of a deployment: each belongs to one of its nodesets, where it is in order. */
  ghost predicate JobsInOrder(cat: Catalogue, d: string, spec: DeploymentSpec, nodeSets: NodeSets, jobs: JobStore) {
    && Keyed(cat, jobs)
    && (forall n | n in jobs && jobs[n].labels.deployment == d ::
          jobs[n].labels.nodeSet in spec.nodeSets && jobs[n].labels.nodeSet in nodeSets)
    && (forall k | Known(spec, nodeSets, k) :: NodeSetInOrder(cat, d, spec, nodeSets, jobs, k))
  }

  ghost predicate NodeSetDone(cat: Catalogue, d: string, spec: DeploymentSpec, nodeSets: NodeSets, jobs: JobStore,
                              k: int)
    requires Known(spec, nodeSets, k)
  {
    && AllDone(cat, TargetAt(cat, d, spec, nodeSets, k), ServicesAt(spec, nodeSets, k), 0, jobs)
    && (forall s | s in ServicesAt(spec, nodeSets, k) :: Usable(cat, TargetAt(cat, d, spec, nodeSets, k), s))
  }

  /** From `jobs` to `jobs'` only jobs of `d` were written, and no label and no status changed. */
  ghost predicate WroteOnlyOf(d: string, jobs: JobStore, jobs': JobStore) {
    && Preserved(jobs, jobs')
    && (forall n | n in jobs' && n !in jobs :: jobs'[n].labels.deployment == d && jobs'[n].status.NotStarted?)
    && (forall n | n in jobs && jobs[n].labels.deployment != d :: jobs'[n] == jobs[n])
  }

  // ---------- frames ----------

  /** Writing jobs for one target leaves the order of another target alone. */
  lemma OtherTargetKept(cat: Catalogue, t: Target, t': Target, services: seq<string>, jobs: JobStore, jobs': JobStore,
                        conds: Conditions)
    requires WroteOnlyOwn(t, jobs, jobs') && (t.deployment != t'.deployment || t.nodeSet != t'.nodeSet)
    ensures InOrder(cat, t', services, jobs) ==> InOrder(cat, t', services, jobs')
    ensures OnlyListed(cat, t', services, jobs) ==> OnlyListed(cat, t', services, jobs')
    ensures Sound(cat, t', services, jobs, conds) ==> Sound(cat, t', services, jobs', conds)
    ensures forall s :: HasJobFor(cat, t', jobs', s) <==> HasJobFor(cat, t', jobs, s)
    ensures forall s :: DoneFor(cat, t', jobs', s) <==> DoneFor(cat, t', jobs, s)
  {
  }

  /** A succeeded service stays succeeded. */
  lemma DoneKept(cat: Catalogue, t: Target, services: seq<string>, jobs: JobStore, jobs': JobStore)
    requires Preserved(jobs, jobs') && AllDone(cat, t, services, 0, jobs)
    ensures AllDone(cat, t, services, 0, jobs')
  {
  }

  /** A replay that goes through all services has found each of them usable. */
  lemma {:induction false} FinishedReplayUsesServices(cat: Catalogue, t: Target, services: seq<string>, i: nat,
      jobs: JobStore, conds: Conditions, calls: nat -> Call)
    requires i <= |services| && DeployFrom(cat, t, services, i, jobs, conds, calls).outcome.Proceed?
    ensures forall k | i <= k < |services| :: Usable(cat, t, services[k])
    decreases |services| - i
  {
    if i < |services| {
      var s := DeployOne(cat, t, services[i], jobs, conds, calls(i));
      FinishedReplayUsesServices(cat, t, services, i + 1, s.jobs, s.conds, calls);
    }
  }

  // ---------- the loop ----------

  /** The conditions of every nodeset are sound while the loop runs. */
  ghost predicate AllSound(cat: Catalogue, d: string, spec: DeploymentSpec, nodeSets: NodeSets, p: Progress) {
    forall k | Known(spec, nodeSets, k) ::
      spec.nodeSets[k] in p.status.nodeSetConditions &&
        Sound(cat, TargetAt(cat, d, spec, nodeSets, k), ServicesAt(spec, nodeSets, k), p.jobs,
        p.status.nodeSetConditions[spec.nodeSets[k]])
  }

  /** A nodeset that says it is deployed has all its services done. */
  ghost predicate SaysDone(cat: Catalogue, d: string, spec: DeploymentSpec, nodeSets: NodeSets, jobs: JobStore,
                           nsConditions: map<string, Conditions>)
  {
    forall k | Known(spec, nodeSets, k) && spec.nodeSets[k] in nsConditions
               && IsTrue(nsConditions[spec.nodeSets[k]], NodeSetDeploymentReadyCondition) ::
      NodeSetDone(cat, d, spec, nodeSets, jobs, k)
  }

  /** The loop has passed the nodesets before `i`; unless it stopped short or something is left
      to do, they are done. */
  ghost predicate LoopInvariant(cat: Catalogue, d: string, spec: DeploymentSpec, nodeSets: NodeSets, i: nat,
                                p: Progress)
  {
    && AllKnown(spec, nodeSets)
    && (forall k | 0 <= k < |spec.nodeSets| ::
          && spec.nodeSets[k] in p.status.nodeSetConditions
          && NodeSetDeploymentReadyCondition in p.status.nodeSetConditions[spec.nodeSets[k]])
    && JobsInOrder(cat, d, spec, nodeSets, p.jobs) && AllSound(cat, d, spec, nodeSets, p)
    && SaysDone(cat, d, spec, nodeSets, p.jobs, p.status.nodeSetConditions)
    && (p.haveError ==> p.requeue)
    && (!p.panicked && !p.requeue ==> forall k | 0 <= k < i && Known(spec, nodeSets, k) ::
          NodeSetDone(cat, d, spec, nodeSets, p.jobs, k)
            && IsTrue(p.status.nodeSetConditions[spec.nodeSets[k]], NodeSetDeploymentReadyCondition))
  }

  /** One nodeset: what its replay does to its own order and conditions. */
  lemma ReplayAt(cat: Catalogue, d: string, spec: DeploymentSpec, nodeSets: NodeSets, i: nat, p: Progress, env: Env)
    requires i < |spec.nodeSets| && LoopInvariant(cat, d, spec, nodeSets, i, p) && MirrorIsSound(cat.mirror)
    ensures var t, services := TargetAt(cat, d, spec, nodeSets, i), ServicesAt(spec, nodeSets, i);
            var s := ReplayOf(cat, d, spec, nodeSets, i, p.jobs, p.status.nodeSetConditions[spec.nodeSets[i]], env);
            && Keyed(cat, s.jobs) && WroteOnlyOwn(t, p.jobs, s.jobs)
            && InOrder(cat, t, services, s.jobs) && OnlyListed(cat, t, services, s.jobs)
            && Sound(cat, t, services, s.jobs, s.conds) && NodeSetDeploymentReadyCondition in s.conds
            && NodeSetDeploymentReadyCondition in NodeSetConditionsAfter(cat, s.conds, s.outcome)
            && Sound(cat, t, services, s.jobs, NodeSetConditionsAfter(cat, s.conds, s.outcome))
            && (IsTrue(s.conds, NodeSetDeploymentReadyCondition) ==> NodeSetDone(cat, d, spec, nodeSets, s.jobs, i))
            && (IsTrue(NodeSetConditionsAfter(cat, s.conds, s.outcome), NodeSetDeploymentReadyCondition) ==>
                  NodeSetDone(cat, d, spec, nodeSets, s.jobs, i))
            && (s.outcome.Proceed? ==>
                  IsTrue(NodeSetConditionsAfter(cat, s.conds, s.outcome), NodeSetDeploymentReadyCondition))
  {
    hide DeployFrom, MirrorIsSound;
    var t, services := TargetAt(cat, d, spec, nodeSets, i), ServicesAt(spec, nodeSets, i);
    var conds := p.status.nodeSetConditions[spec.nodeSets[i]];
    assert Known(spec, nodeSets, i);
    assert NodeSetInOrder(cat, d, spec, nodeSets, p.jobs, i);
    DeployKeepsOrder(cat, t, services, 0, p.jobs, conds, env.calls(i));
    var s := DeployFrom(cat, t, services, 0, p.jobs, conds, env.calls(i));
    if s.outcome.Proceed? {
      FinishedReplayUsesServices(cat, t, services, 0, p.jobs, conds, env.calls(i));
    } else {
      if cat.mirror(s.conds).True? { MirroredTrueWasTrue(cat, s.conds); }
      if IsTrue(conds, NodeSetDeploymentReadyCondition) {
        assert NodeSetDone(cat, d, spec, nodeSets, p.jobs, i);
        DoneKept(cat, t, services, p.jobs, s.jobs);
      }
    }
  }

  /** A sound mirror makes the overall condition True only if it was True already. */
  lemma MirroredTrueWasTrue(cat: Catalogue, conds: Conditions)
    requires MirrorIsSound(cat.mirror) && cat.mirror(conds).True? && NodeSetDeploymentReadyCondition in conds
    ensures IsTrue(conds, NodeSetDeploymentReadyCondition)
  {
  }

  /** What writing the jobs of the nodeset at `i` leaves of the one at `k`. */
  lemma NodeSetKept(cat: Catalogue, d: string, spec: DeploymentSpec, nodeSets: NodeSets, i: nat, k: int,
                    jobs: JobStore, jobs': JobStore,
                    conds: Conditions)
    requires Known(spec, nodeSets, i) && Known(spec, nodeSets, k)
    requires WroteOnlyOwn(TargetAt(cat, d, spec, nodeSets, i), jobs, jobs')
    requires NodeSetInOrder(cat, d, spec, nodeSets, jobs, k)
    requires Sound(cat, TargetAt(cat, d, spec, nodeSets, k), ServicesAt(spec, nodeSets, k), jobs, conds)
    ensures spec.nodeSets[k] != spec.nodeSets[i] ==>
              && NodeSetInOrder(cat, d, spec, nodeSets, jobs', k)
              && Sound(cat, TargetAt(cat, d, spec, nodeSets, k), ServicesAt(spec, nodeSets, k), jobs', conds)
    ensures NodeSetDone(cat, d, spec, nodeSets, jobs, k) ==> NodeSetDone(cat, d, spec, nodeSets, jobs', k)
  {
    hide InOrder, OnlyListed, Sound, AllDone;
    var t, t', services' := TargetAt(cat, d, spec, nodeSets, i), TargetAt(cat, d, spec, nodeSets, k),
        ServicesAt(spec, nodeSets, k);
    if spec.nodeSets[k] != spec.nodeSets[i] {
      OtherTargetKept(cat, t, t', services', jobs, jobs', conds);
    }
    if NodeSetDone(cat, d, spec, nodeSets, jobs, k) {
      DoneKept(cat, t', services', jobs, jobs');
    }
  }

  /** The orders, the sound conditions and the nodesets that say they are done, after one more
      nodeset. */
  lemma NodeSetsKept(cat: Catalogue, d: string, spec: DeploymentSpec, nodeSets: NodeSets, i: nat, p: Progress,
                     env: Env, s: Step, p': Progress)
    requires i < |spec.nodeSets| && LoopInvariant(cat, d, spec, nodeSets, i, p) && MirrorIsSound(cat.mirror)
    requires s == ReplayOf(cat, d, spec, nodeSets, i, p.jobs, p.status.nodeSetConditions[spec.nodeSets[i]], env)
    requires p'.jobs == s.jobs
    requires p'.status.nodeSetConditions
          == p.status.nodeSetConditions[spec.nodeSets[i] := if s.outcome.Panic? then s.conds
            else NodeSetConditionsAfter(cat, s.conds, s.outcome)]
    ensures JobsInOrder(cat, d, spec, nodeSets, p'.jobs) && AllSound(cat, d, spec, nodeSets, p')
    ensures SaysDone(cat, d, spec, nodeSets, p'.jobs, p'.status.nodeSetConditions) && WroteOnlyOf(d, p.jobs, p'.jobs)
    ensures forall k | Known(spec, nodeSets, k) && NodeSetDone(cat, d, spec, nodeSets, p.jobs, k) ::
            NodeSetDone(cat, d, spec, nodeSets, p'.jobs, k)
  {
    hide ReplayOf, InOrder, OnlyListed, Sound, NodeSetDone, NodeSetConditionsAfter, MirrorIsSound;
    ReplayAt(cat, d, spec, nodeSets, i, p, env);
    assert Known(spec, nodeSets, i);
    forall k | Known(spec, nodeSets, k)
      ensures NodeSetInOrder(cat, d, spec, nodeSets, p'.jobs, k)
      ensures Sound(cat, TargetAt(cat, d, spec, nodeSets, k), ServicesAt(spec, nodeSets, k), p'.jobs,
              p'.status.nodeSetConditions[spec.nodeSets[k]])
      ensures NodeSetDone(cat, d, spec, nodeSets, p.jobs, k) ==> NodeSetDone(cat, d, spec, nodeSets, p'.jobs, k)
      ensures IsTrue(p'.status.nodeSetConditions[spec.nodeSets[k]], NodeSetDeploymentReadyCondition) ==>
                NodeSetDone(cat, d, spec, nodeSets, p'.jobs, k)
    {
      NodeSetKept(cat, d, spec, nodeSets, i, k, p.jobs, p'.jobs, p.status.nodeSetConditions[spec.nodeSets[k]]);
      if spec.nodeSets[k] == spec.nodeSets[i] { SameNameSameDone(cat, d, spec, nodeSets, p'.jobs, i, k); }
    }
  }

  lemma DeployNodeSetKeeps(cat: Catalogue, d: string, spec: DeploymentSpec, nodeSets: NodeSets, i: nat, p: Progress,
                           env: Env)
    requires i < |spec.nodeSets| && LoopInvariant(cat, d, spec, nodeSets, i, p) && MirrorIsSound(cat.mirror)
             && !p.panicked
    ensures var p' := DeployNodeSet(cat, d, spec, nodeSets, i, p, env);
            LoopInvariant(cat, d, spec, nodeSets, i + 1, p') && WroteOnlyOf(d, p.jobs, p'.jobs)
  {
    hide ReplayOf, JobsInOrder, AllSound, SaysDone, NodeSetDone, NodeSetConditionsAfter, MirrorIsSound, WroteOnlyOf,
      Sound, InOrder, OnlyListed,
         WroteOnlyOwn, Keyed;
    var s := ReplayOf(cat, d, spec, nodeSets, i, p.jobs, p.status.nodeSetConditions[spec.nodeSets[i]], env);
    var p' := DeployNodeSet(cat, d, spec, nodeSets, i, p, env);
    ReplayAt(cat, d, spec, nodeSets, i, p, env);
    NodeSetsKept(cat, d, spec, nodeSets, i, p, env, s, p');
    assert Known(spec, nodeSets, i);
    forall k | 0 <= k < i && spec.nodeSets[k] == spec.nodeSets[i]
      ensures NodeSetDone(cat, d, spec, nodeSets, p'.jobs, i) ==> NodeSetDone(cat, d, spec, nodeSets, p'.jobs, k)
    {
      SameNameSameDone(cat, d, spec, nodeSets, p'.jobs, i, k);
    }
  }

  lemma SameNameSameDone(cat: Catalogue, d: string, spec: DeploymentSpec, nodeSets: NodeSets, jobs: JobStore, i: int,
                         k: int)
    requires Known(spec, nodeSets, i) && Known(spec, nodeSets, k) && spec.nodeSets[i] == spec.nodeSets[k]
    ensures NodeSetDone(cat, d, spec, nodeSets, jobs, i) <==> NodeSetDone(cat, d, spec, nodeSets, jobs, k)
  {
  }

  lemma {:induction false} DeployNodeSetsKeep(cat: Catalogue, d: string, spec: DeploymentSpec, nodeSets: NodeSets,
                                              i: nat, p: Progress, env: Env)
    requires i <= |spec.nodeSets| && LoopInvariant(cat, d, spec, nodeSets, i, p) && MirrorIsSound(cat.mirror)
    ensures var p' := DeployNodeSetsFrom(cat, d, spec, nodeSets, i, p, env);
            LoopInvariant(cat, d, spec, nodeSets, |spec.nodeSets|, p') && WroteOnlyOf(d, p.jobs, p'.jobs)
    decreases |spec.nodeSets| - i
  {
    hide DeployNodeSet, JobsInOrder, AllSound, NodeSetDone, WroteOnlyOf, SaysDone, MirrorIsSound;
    NothingWrittenOf(d, p.jobs);
    if i < |spec.nodeSets| && !p.panicked {
      var p1 := DeployNodeSet(cat, d, spec, nodeSets, i, p, env);
      DeployNodeSetKeeps(cat, d, spec, nodeSets, i, p, env);
      DeployNodeSetsKeep(cat, d, spec, nodeSets, i + 1, p1, env);
      WritesOfAddUp(d, p.jobs, p1.jobs, DeployNodeSetsFrom(cat, d, spec, nodeSets, i, p, env).jobs);
    }
  }

  lemma NothingWrittenOf(d: string, jobs: JobStore)
    ensures WroteOnlyOf(d, jobs, jobs)
  {
  }

  lemma WritesOfAddUp(d: string, jobs: JobStore, jobs': JobStore, jobs'': JobStore)
    requires WroteOnlyOf(d, jobs, jobs') && WroteOnlyOf(d, jobs', jobs'')
    ensures WroteOnlyOf(d, jobs, jobs'')
  {
  }

  // ---------- the reconcile ----------

  /** The gates open if and only if every nodeset was read, is set up and has its certificates
      when TLS is enabled, the services are consistent unless overridden, and the version was read. */
  lemma GatesOpenIff(cat: Catalogue, spec: DeploymentSpec, nodeSets: NodeSets, env: Env)
    ensures Gates(cat, spec, nodeSets, env).Open? <==>
              && AllKnown(spec, nodeSets)
              && (forall k | 0 <= k < |spec.nodeSets| ::
                    && env.read(k).Got?
                    && IsTrue(nodeSets[spec.nodeSets[k]].conditions, SetupReadyCondition)
                    && CertsDone(cat, spec, nodeSets[spec.nodeSets[k]], env.tls(k)))
              && (spec.servicesOverride.None? ==> Consistent(cat.services,
                 Flatten(ServiceLists(spec.nodeSets, nodeSets)), env.serviceRead))
              && env.versionRead
  {
    FetchIff(spec.nodeSets, nodeSets, env, 0, InitialStatus(spec.nodeSets));
  }

  lemma {:induction false} FetchIff(names: seq<string>, nodeSets: NodeSets, env: Env, i: nat, st: Status)
    requires i <= |names|
    ensures FetchFrom(names, nodeSets, env, i, st).Open? <==> forall k | i <= k < |names| ::
        env.read(k).Got? && names[k] in nodeSets
    decreases |names| - i
  {
    if i < |names| {
      FetchIff(names, nodeSets, env, i + 1, st);
    }
  }

  /** A status that stops at a gate is not deployed and has a condition that is not True. */
  lemma ShutStatus(cat: Catalogue, spec: DeploymentSpec, nodeSets: NodeSets, env: Env)
    requires Gates(cat, spec, nodeSets, env).Shut?
    ensures var st := Gates(cat, spec, nodeSets, env).status;
            !st.deployed && !IsTrue(st.conditions, DeploymentReadyCondition)
              && DeploymentReadyCondition in st.conditions
            && Get(st.conditions, ReadyCondition).Unknown?
            && forall n | n in st.nodeSetConditions :: !IsTrue(st.nodeSetConditions[n], NodeSetDeploymentReadyCondition)
  {
    var st := InitialStatus(spec.nodeSets);
    FetchShut(spec.nodeSets, nodeSets, env, 0, st);
    if FetchFrom(spec.nodeSets, nodeSets, env, 0, st).Open? {
      CertsShut(cat, spec, nodeSets, env, 0, st);
    }
  }

  lemma {:induction false} FetchShut(names: seq<string>, nodeSets: NodeSets, env: Env, i: nat, st: Status)
    requires i <= |names|
    ensures var g := FetchFrom(names, nodeSets, env, i, st);
            g.Shut? ==> g.status == st || g.status == st.(conditions := st.conditions[SetupReadyCondition := FAILED])
    decreases |names| - i
  {
    if i < |names| {
      FetchShut(names, nodeSets, env, i + 1, st);
    }
  }

  lemma {:induction false} CertsShut(cat: Catalogue, spec: DeploymentSpec, nodeSets: NodeSets, env: Env, i: nat,
                                     st: Status)
    requires i <= |spec.nodeSets|
    requires forall k | 0 <= k < |spec.nodeSets| ::
        spec.nodeSets[k] in nodeSets && spec.nodeSets[k] in st.nodeSetConditions
    ensures var g := CertsFrom(cat, spec, nodeSets, env, i, st);
            g.Shut? ==> g.status.deployed == st.deployed
                        && (forall n | n in g.status.nodeSetConditions && n in st.nodeSetConditions
                                       && IsTrue(g.status.nodeSetConditions[n], NodeSetDeploymentReadyCondition) ::
                              IsTrue(st.nodeSetConditions[n], NodeSetDeploymentReadyCondition))
                        && g.status.nodeSetConditions.Keys == st.nodeSetConditions.Keys
                        && (g.status.conditions == st.conditions
                           || g.status.conditions == st.conditions[InputReadyCondition := FAILED])
    decreases |spec.nodeSets| - i
  {
    hide CertsDone, TlsOutcome;
    if i < |spec.nodeSets| {
      CertsShut(cat, spec, nodeSets, env, i + 1, st);
    }
  }

  /** A deployment that is done: all its nodesets and services are done, its services were
      consistent, and every nodeset says so. */
  ghost predicate DeploymentDone(cat: Catalogue, d: string, spec: DeploymentSpec, nodeSets: NodeSets, jobs: JobStore) {
    && AllKnown(spec, nodeSets)
    && (forall k | Known(spec, nodeSets, k) :: NodeSetDone(cat, d, spec, nodeSets, jobs, k))
    && (spec.servicesOverride.None? ==> Consistent(cat.services, Flatten(ServiceLists(spec.nodeSets, nodeSets)),
       ALL_READABLE))
  }

  /** A deployment that has jobs knows all its nodesets, and unless its services are overridden
      they have passed the check of the global services. */
  ghost predicate ServicesChecked(cat: Catalogue, d: string, spec: DeploymentSpec, nodeSets: NodeSets, jobs: JobStore) {
    forall n | n in jobs && jobs[n].labels.deployment == d ::
      && AllKnown(spec, nodeSets)
      && (spec.servicesOverride.None? ==> Consistent(cat.services, Flatten(ServiceLists(spec.nodeSets, nodeSets)),
         ALL_READABLE))
  }

  /** What a persisted status means: Deployed goes with Ready, and stands for a deployment
      that is done on every nodeset; a nodeset that says it is deployed has its services done,
      whether or not the others have. */
  ghost predicate StatusMeaning(cat: Catalogue, d: string, spec: DeploymentSpec, nodeSets: NodeSets, jobs: JobStore,
                                st: Status)
  {
    && (st.deployed <==> IsTrue(st.conditions, ReadyCondition))
    && SaysDone(cat, d, spec, nodeSets, jobs, st.nodeSetConditions)
    && (st.deployed ==> DeploymentDone(cat, d, spec, nodeSets, jobs))
    && (st.deployed ==> forall k | Known(spec, nodeSets, k) ::
          spec.nodeSets[k] in st.nodeSetConditions && IsTrue(st.nodeSetConditions[spec.nodeSets[k]],
            NodeSetDeploymentReadyCondition))
  }

  lemma LoopStarts(cat: Catalogue, d: string, spec: DeploymentSpec, nodeSets: NodeSets, jobs: JobStore)
    requires AllKnown(spec, nodeSets) && JobsInOrder(cat, d, spec, nodeSets, jobs)
    ensures LoopInvariant(cat, d, spec, nodeSets, 0, StartOf(spec, jobs))
  {
  }

  lemma {:induction false} LoopConditions(cat: Catalogue, d: string, spec: DeploymentSpec, nodeSets: NodeSets, i: nat,
                                          p: Progress, env: Env)
    requires i <= |spec.nodeSets|
    requires forall k | 0 <= k < |spec.nodeSets| ::
        spec.nodeSets[k] in nodeSets && spec.nodeSets[k] in p.status.nodeSetConditions
    requires p.status.conditions.Keys == {ReadyCondition, DeploymentReadyCondition, InputReadyCondition}
    requires !p.status.deployed && Get(p.status.conditions, ReadyCondition).Unknown?
             && IsTrue(p.status.conditions, InputReadyCondition)
    requires !IsTrue(p.status.conditions, DeploymentReadyCondition)
    ensures var p' := DeployNodeSetsFrom(cat, d, spec, nodeSets, i, p, env);
            && p'.status.conditions.Keys == {ReadyCondition, DeploymentReadyCondition, InputReadyCondition}
            && !p'.status.deployed && Get(p'.status.conditions, ReadyCondition).Unknown?
               && IsTrue(p'.status.conditions, InputReadyCondition)
            && !IsTrue(p'.status.conditions, DeploymentReadyCondition)
    decreases |spec.nodeSets| - i
  {
    hide ReplayOf, NodeSetConditionsAfter;
    if i < |spec.nodeSets| && !p.panicked {
      LoopConditions(cat, d, spec, nodeSets, i + 1, DeployNodeSet(cat, d, spec, nodeSets, i, p, env), env);
    }
  }

  /** The loop concludes with Deployed exactly when it was not cut short, nothing failed and
      nothing is left, and Ready goes with it. */
  lemma ConcludeMeaning(cat: Catalogue, p: Progress)
    requires MirrorIsSound(cat.mirror)
    requires p.status.conditions.Keys == {ReadyCondition, DeploymentReadyCondition, InputReadyCondition}
    requires !p.status.deployed && Get(p.status.conditions, ReadyCondition).Unknown?
             && IsTrue(p.status.conditions, InputReadyCondition)
    requires !IsTrue(p.status.conditions, DeploymentReadyCondition)
    ensures var st := Persist(cat, Conclude(p));
            && (st.deployed <==> !p.panicked && !p.haveError && !p.requeue)
            && (st.deployed <==> IsTrue(st.conditions, ReadyCondition))
            && st.nodeSetConditions == p.status.nodeSetConditions
  {
    hide MirrorIsSound;
    var cs := Conclude(p).conditions;
    SoundMirrorDecides(cs, cat.mirror);
    assert cs[DeploymentReadyCondition].True? <==> !p.panicked && !p.haveError && !p.requeue;
  }

  lemma LoopEndMeaning(cat: Catalogue, d: string, spec: DeploymentSpec, nodeSets: NodeSets, p: Progress, st: Status)
    requires LoopInvariant(cat, d, spec, nodeSets, |spec.nodeSets|, p)
    requires spec.servicesOverride.None? ==> Consistent(cat.services, Flatten(ServiceLists(spec.nodeSets, nodeSets)),
             ALL_READABLE)
    requires (st.deployed <==> !p.panicked && !p.haveError && !p.requeue)
             && (st.deployed <==> IsTrue(st.conditions, ReadyCondition))
    requires st.nodeSetConditions == p.status.nodeSetConditions
    ensures StatusMeaning(cat, d, spec, nodeSets, p.jobs, st)
  {
    hide JobsInOrder, AllSound, SaysDone, NodeSetDone, Consistent;
  }

  lemma ShutMeaning(cat: Catalogue, d: string, spec: DeploymentSpec, nodeSets: NodeSets, jobs: JobStore, env: Env)
    requires Gates(cat, spec, nodeSets, env).Shut? && MirrorIsSound(cat.mirror)
    ensures StatusMeaning(cat, d, spec, nodeSets, jobs, Persist(cat, Gates(cat, spec, nodeSets, env).status))
  {
    hide Gates, DeploymentDone, NodeSetDone, MirrorIsSound;
    ShutStatus(cat, spec, nodeSets, env);
    SoundMirrorDecides(Gates(cat, spec, nodeSets, env).status.conditions, cat.mirror);
  }

  lemma ReadOrNot(services: ServiceStore, listed: seq<string>, readable: nat -> bool)
    requires Consistent(services, listed, readable)
    ensures Consistent(services, listed, ALL_READABLE)
  {
  }

  lemma ReconcileNormalKeeps(cat: Catalogue, d: string, spec: DeploymentSpec, nodeSets: NodeSets, jobs: JobStore,
                             env: Env)
    requires JobsInOrder(cat, d, spec, nodeSets, jobs) && MirrorIsSound(cat.mirror)
    ensures var r := ReconcileNormal(cat, d, spec, nodeSets, jobs, env);
            && JobsInOrder(cat, d, spec, nodeSets, r.jobs) && WroteOnlyOf(d, jobs, r.jobs)
            && StatusMeaning(cat, d, spec, nodeSets, r.jobs, Persist(cat, r.status))
  {
    hide Gates, DeployNodeSetsFrom, JobsInOrder, AllSound, NodeSetDone, Conclude, StatusMeaning, MirrorIsSound, Persist,
      Consistent, SaysDone, WroteOnlyOf;
    if Gates(cat, spec, nodeSets, env).Shut? {
      NothingWrittenOf(d, jobs);
      ShutMeaning(cat, d, spec, nodeSets, jobs, env);
    } else {
      GatesOpenIff(cat, spec, nodeSets, env);
      if spec.servicesOverride.None? {
        ReadOrNot(cat.services, Flatten(ServiceLists(spec.nodeSets, nodeSets)), env.serviceRead);
      }
      LoopStarts(cat, d, spec, nodeSets, jobs);
      DeployNodeSetsKeep(cat, d, spec, nodeSets, 0, StartOf(spec, jobs), env);
      LoopConditions(cat, d, spec, nodeSets, 0, StartOf(spec, jobs), env);
      var p := DeployNodeSetsFrom(cat, d, spec, nodeSets, 0, StartOf(spec, jobs), env);
      ConcludeMeaning(cat, p);
      LoopEndMeaning(cat, d, spec, nodeSets, p, Persist(cat, Conclude(p)));
    }
  }

  /** A nodeset that said it was done goes on saying so rightly. */
  lemma SaysDoneKept(cat: Catalogue, d: string, spec: DeploymentSpec, nodeSets: NodeSets, jobs: JobStore,
                     jobs': JobStore, nsConditions: map<string, Conditions>)
    requires Preserved(jobs, jobs') && SaysDone(cat, d, spec, nodeSets, jobs, nsConditions)
    ensures SaysDone(cat, d, spec, nodeSets, jobs', nsConditions)
  {
    hide AllDone;
    forall k | Known(spec, nodeSets, k) && NodeSetDone(cat, d, spec, nodeSets, jobs, k)
      ensures NodeSetDone(cat, d, spec, nodeSets, jobs', k)
    {
      DoneKept(cat, TargetAt(cat, d, spec, nodeSets, k), ServicesAt(spec, nodeSets, k), jobs, jobs');
    }
  }

  /** One reconcile of `d`, with any outcome of its calls, keeps the order of its jobs and the
      meaning of its status, and writes only jobs of `d`. */
  lemma ReconcileKeeps(cat: Catalogue, d: string, dep: Deployment, nodeSets: NodeSets, jobs: JobStore, env: Env)
    requires JobsInOrder(cat, d, dep.spec, nodeSets, jobs) && MirrorIsSound(cat.mirror)
    requires StatusMeaning(cat, d, dep.spec, nodeSets, jobs, dep.status)
    ensures var r := Reconcile(cat, d, dep, nodeSets, jobs, env);
            && JobsInOrder(cat, d, dep.spec, nodeSets, r.jobs) && WroteOnlyOf(d, jobs, r.jobs)
            && StatusMeaning(cat, d, dep.spec, nodeSets, r.jobs, r.status)
            && (ServicesChecked(cat, d, dep.spec, nodeSets, jobs)
               ==> ServicesChecked(cat, d, dep.spec, nodeSets, r.jobs))
  {
    hide ReconcileNormal, JobsInOrder;
    if Reconcile(cat, d, dep, nodeSets, jobs, env).jobs != jobs {
      JobsOnlyBehindGates(cat, d, dep, nodeSets, jobs, env);
    }
    if !dep.status.deployed {
      ReconcileNormalKeeps(cat, d, dep.spec, nodeSets, jobs, env);
      SaysDoneKept(cat, d, dep.spec, nodeSets, jobs, Reconcile(cat, d, dep, nodeSets, jobs, env).jobs,
        dep.status.nodeSetConditions);
    }
  }

  /** A reconcile creates or patches a job only if it found every nodeset of the deployment
      set up and, where TLS is enabled, with its certificates. */
  lemma JobsOnlyBehindGates(cat: Catalogue, d: string, dep: Deployment, nodeSets: NodeSets, jobs: JobStore, env: Env)
    requires Reconcile(cat, d, dep, nodeSets, jobs, env).jobs != jobs
    ensures !dep.status.deployed && AllKnown(dep.spec, nodeSets)
    ensures forall k | 0 <= k < |dep.spec.nodeSets| ::
              && env.read(k).Got?
              && IsTrue(nodeSets[dep.spec.nodeSets[k]].conditions, SetupReadyCondition)
              && CertsDone(cat, dep.spec, nodeSets[dep.spec.nodeSets[k]], env.tls(k))
    ensures dep.spec.servicesOverride.None? ==>
              Consistent(cat.services, Flatten(ServiceLists(dep.spec.nodeSets, nodeSets)), ALL_READABLE)
  {
    hide Gates, DeployNodeSetsFrom;
    GatesOpenIff(cat, dep.spec, nodeSets, env);
  }
}
