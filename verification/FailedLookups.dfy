/**
 The one way a reconcile is cut short: when the second lookup of a job fails with an error other
 than "not found", the deployment goes on with a job it does not have.
 */
module FailedLookups {
  import opened Conditions
  import opened AnsibleExecutions
  import opened Deployers
  import opened NodeSetControllers
  import opened DeploymentControllers
  import opened ServiceOrder

  // ---------- one service, and one replay ----------

  /** The service gets as far as the second lookup of its job. */
  ghost predicate LooksUp(cat: Catalogue, t: Target, service: string, jobs: JobStore, conds: Conditions, call: Call) {
    && call.serviceRead && service in cat.services && call.mountsBuilt
    && (t.tlsEnabled && cat.services[service].addCertMounts ==> t.certSources && call.certMountsBuilt)
    && !IsTrue(conds, cat.ConditionTypeOf(service))
    && (Get(conds, cat.ConditionTypeOf(service)).Unknown? ==>
          Execute(cat.executionName, jobs, t.LabelsOf(service), call.listed,
                  cat.WriteOf(jobs, t.LabelsOf(service), call.write)).1)
  }

  ghost predicate LookupFails(cat: Catalogue, t: Target, service: string, jobs: JobStore, conds: Conditions,
                              call: Call)
  {
    LooksUp(cat, t, service, jobs, conds, call) && call.listedAfter.ListError?
  }

  lemma ServicePanicIff(cat: Catalogue, t: Target, service: string, jobs: JobStore, conds: Conditions, call: Call)
    requires Keyed(cat, jobs)
    ensures DeployOne(cat, t, service, jobs, conds, call).outcome.Panic?
            <==> LookupFails(cat, t, service, jobs, conds, call)
  {
    hide Execute, Settle;
    DeployOneJobs(cat, t, service, jobs, conds, call);
    var jobs' := DeployOne(cat, t, service, jobs, conds, call).jobs;
    match Get(conds, cat.ConditionTypeOf(service))
    case True =>
    case False(_, _) =>
      SettleConditions(cat, t, service, jobs', conds, Get(conds, cat.ConditionTypeOf(service)), call.listedAfter);
    case Unknown =>
      SettleConditions(cat, t, service, jobs', conds, REQUESTED, call.listedAfter);
  }

  /** The replay from `i` gets through the services before `m`, and the lookup at `m` fails. */
  ghost predicate FailsAt(cat: Catalogue, t: Target, services: seq<string>, i: nat, m: int, jobs: JobStore,
                          conds: Conditions, calls: nat -> Call)
  {
    && i <= m < |services|
    && var s := DeployFrom(cat, t, services[..m], i, jobs, conds, calls);
       s.outcome.Proceed? && LookupFails(cat, t, services[m], s.jobs, s.conds, calls(m))
  }

  lemma FailsAtStep(cat: Catalogue, t: Target, services: seq<string>, i: nat, m: int, jobs: JobStore,
                    conds: Conditions, calls: nat -> Call)
    requires i < m < |services|
    ensures var s := DeployOne(cat, t, services[i], jobs, conds, calls(i));
            FailsAt(cat, t, services, i, m, jobs, conds, calls) <==>
              s.outcome.Proceed? && FailsAt(cat, t, services, i + 1, m, s.jobs, s.conds, calls)
  {
    hide DeployOne, LookupFails;
  }

  /** A replay is cut short if and only if it comes to a service whose second lookup fails. */
  lemma {:induction false} ReplayPanicIff(cat: Catalogue, t: Target, services: seq<string>, i: nat, jobs: JobStore,
                                          conds: Conditions, calls: nat -> Call)
    requires i <= |services| && Keyed(cat, jobs)
    ensures DeployFrom(cat, t, services, i, jobs, conds, calls).outcome.Panic?
       <==> exists m :: FailsAt(cat, t, services, i, m, jobs, conds, calls)
    decreases |services| - i
  {
    hide DeployOne, LookupFails, Keyed;
    if i < |services| {
      var s := DeployOne(cat, t, services[i], jobs, conds, calls(i));
      ServicePanicIff(cat, t, services[i], jobs, conds, calls(i));
      DeployOneJobs(cat, t, services[i], jobs, conds, calls(i));
      ReplayPanicIff(cat, t, services, i + 1, s.jobs, s.conds, calls);
      if LookupFails(cat, t, services[i], jobs, conds, calls(i)) {
        assert FailsAt(cat, t, services, i, i, jobs, conds, calls);
      } else if DeployFrom(cat, t, services, i, jobs, conds, calls).outcome.Panic? {
        var m :| FailsAt(cat, t, services, i + 1, m, s.jobs, s.conds, calls);
        FailsAtStep(cat, t, services, i, m, jobs, conds, calls);
      }
      if m :| FailsAt(cat, t, services, i, m, jobs, conds, calls) {
        if m > i { FailsAtStep(cat, t, services, i, m, jobs, conds, calls); }
      }
    }
  }

  // ---------- the loop over the nodesets ----------

  ghost predicate CanLoop(spec: DeploymentSpec, nodeSets: NodeSets, p: Progress) {
    forall k | 0 <= k < |spec.nodeSets| :: spec.nodeSets[k] in nodeSets
      && spec.nodeSets[k] in p.status.nodeSetConditions
  }

  /** The loop has gone through the nodesets before `n`. */
  function LoopUpTo(cat: Catalogue, d: string, spec: DeploymentSpec, nodeSets: NodeSets, n: nat, p: Progress,
                    env: Env): (p': Progress)
    requires n <= |spec.nodeSets| && CanLoop(spec, nodeSets, p)
    ensures CanLoop(spec, nodeSets, p')
  {
    if n == 0 then p
    else
      var q := LoopUpTo(cat, d, spec, nodeSets, n - 1, p, env);
      if q.panicked then q else DeployNodeSet(cat, d, spec, nodeSets, n - 1, q, env)
  }

  lemma {:induction false} LoopIsLoopUpTo(cat: Catalogue, d: string, spec: DeploymentSpec, nodeSets: NodeSets, i: nat,
                                          p: Progress, env: Env)
    requires i <= |spec.nodeSets| && CanLoop(spec, nodeSets, p)
    ensures DeployNodeSetsFrom(cat, d, spec, nodeSets, i, LoopUpTo(cat, d, spec, nodeSets, i, p, env), env)
         == LoopUpTo(cat, d, spec, nodeSets, |spec.nodeSets|, p, env)
    decreases |spec.nodeSets| - i
  {
    hide DeployNodeSet;
    var q := LoopUpTo(cat, d, spec, nodeSets, i, p, env);
    if q.panicked {
      StaysPanicked(cat, d, spec, nodeSets, i, |spec.nodeSets|, p, env);
    } else if i < |spec.nodeSets| {
      LoopIsLoopUpTo(cat, d, spec, nodeSets, i + 1, p, env);
    }
  }

  lemma {:induction false} StaysPanicked(cat: Catalogue, d: string, spec: DeploymentSpec, nodeSets: NodeSets, i: nat,
                                         n: nat, p: Progress, env: Env)
    requires i <= n <= |spec.nodeSets| && CanLoop(spec, nodeSets, p)
             && LoopUpTo(cat, d, spec, nodeSets, i, p, env).panicked
    ensures LoopUpTo(cat, d, spec, nodeSets, n, p, env) == LoopUpTo(cat, d, spec, nodeSets, i, p, env)
    decreases n
  {
    hide DeployNodeSet;
    if i < n {
      StaysPanicked(cat, d, spec, nodeSets, i, n - 1, p, env);
    }
  }

  /** At the nodeset `k` the loop meets a service whose second lookup fails. */
  ghost predicate CutShortAt(cat: Catalogue, d: string, spec: DeploymentSpec, nodeSets: NodeSets, k: int, p: Progress,
                             env: Env)
    requires CanLoop(spec, nodeSets, p)
  {
    && 0 <= k < |spec.nodeSets|
    && var q := LoopUpTo(cat, d, spec, nodeSets, k, p, env);
       var name := spec.nodeSets[k];
       && !q.panicked
       && exists m :: FailsAt(cat, TargetFor(cat, d, spec, name, nodeSets[name]),
                              ServicesFor(spec, nodeSets[name]), 0, m, q.jobs,
                              q.status.nodeSetConditions[name], env.calls(k))
  }

  lemma NodeSetPanicIff(cat: Catalogue, d: string, spec: DeploymentSpec, nodeSets: NodeSets, k: nat, q: Progress,
                        env: Env)
    requires k < |spec.nodeSets| && CanLoop(spec, nodeSets, q) && Keyed(cat, q.jobs)
    ensures var name := spec.nodeSets[k];
            DeployNodeSet(cat, d, spec, nodeSets, k, q, env).panicked <==>
              exists m :: FailsAt(cat, TargetFor(cat, d, spec, name, nodeSets[name]),
                                  ServicesFor(spec, nodeSets[name]), 0, m,
                                  q.jobs, q.status.nodeSetConditions[name], env.calls(k))
    ensures Keyed(cat, DeployNodeSet(cat, d, spec, nodeSets, k, q, env).jobs)
  {
    hide DeployFrom, FailsAt, NodeSetConditionsAfter;
    var name := spec.nodeSets[k];
    ReplayPanicIff(cat, TargetFor(cat, d, spec, name, nodeSets[name]), ServicesFor(spec, nodeSets[name]), 0, q.jobs,
      q.status.nodeSetConditions[name], env.calls(k));
    ReplayKeepsKeyed(cat, TargetFor(cat, d, spec, name, nodeSets[name]), ServicesFor(spec, nodeSets[name]), 0, q.jobs,
      q.status.nodeSetConditions[name], env.calls(k));
  }

  lemma {:induction false} ReplayKeepsKeyed(cat: Catalogue, t: Target, services: seq<string>, i: nat, jobs: JobStore,
                                            conds: Conditions, calls: nat -> Call)
    requires i <= |services| && Keyed(cat, jobs)
    ensures Keyed(cat, DeployFrom(cat, t, services, i, jobs, conds, calls).jobs)
    decreases |services| - i
  {
    hide DeployOne, Keyed;
    if i < |services| {
      var s := DeployOne(cat, t, services[i], jobs, conds, calls(i));
      DeployOneJobs(cat, t, services[i], jobs, conds, calls(i));
      ReplayKeepsKeyed(cat, t, services, i + 1, s.jobs, s.conds, calls);
    }
  }

  lemma {:induction false} LoopPanicIff(cat: Catalogue, d: string, spec: DeploymentSpec, nodeSets: NodeSets, n: nat,
                                        p: Progress, env: Env)
    requires n <= |spec.nodeSets| && CanLoop(spec, nodeSets, p) && Keyed(cat, p.jobs) && !p.panicked
    ensures LoopUpTo(cat, d, spec, nodeSets, n, p, env).panicked <==> exists k ::
        k < n && CutShortAt(cat, d, spec, nodeSets, k, p, env)
    ensures Keyed(cat, LoopUpTo(cat, d, spec, nodeSets, n, p, env).jobs)
  {
    hide DeployNodeSet, FailsAt, Keyed;
    if n > 0 {
      var k := n - 1;
      var q := LoopUpTo(cat, d, spec, nodeSets, k, p, env);
      LoopPanicIff(cat, d, spec, nodeSets, k, p, env);
      NodeSetPanicIff(cat, d, spec, nodeSets, k, q, env);
      assert CutShortAt(cat, d, spec, nodeSets, k, p, env) <==>
               !q.panicked && LoopUpTo(cat, d, spec, nodeSets, n, p, env).panicked;
      hide CutShortAt, LoopUpTo;
      if j :| j < n && CutShortAt(cat, d, spec, nodeSets, j, p, env) {
        assert j == k || j < k;
      }
    }
  }

  /** A reconcile is cut short if and only if the deployment has a valid name and is not done, the
      gates open, and the loop comes to a service whose second lookup fails. */
  lemma ReconcilePanicIff(cat: Catalogue, d: string, dep: Deployment, nodeSets: NodeSets, jobs: JobStore, env: Env)
    requires Keyed(cat, jobs)
    ensures Reconcile(cat, d, dep, nodeSets, jobs, env).panicked <==>
              && cat.validName(d) && !dep.status.deployed && Gates(cat, dep.spec, nodeSets, env).Open?
              && exists k :: CutShortAt(cat, d, dep.spec, nodeSets, k, StartOf(dep.spec, jobs), env)
  {
    hide Gates, DeployNodeSetsFrom, CutShortAt, LoopUpTo, Conclude;
    if !dep.status.deployed && Gates(cat, dep.spec, nodeSets, env).Open? {
      var spec, p := dep.spec, StartOf(dep.spec, jobs);
      LoopIsLoopUpTo(cat, d, spec, nodeSets, 0, p, env);
      LoopPanicIff(cat, d, spec, nodeSets, |spec.nodeSets|, p, env);
      assert LoopUpTo(cat, d, spec, nodeSets, 0, p, env) == p by { NothingLooped(cat, d, spec, nodeSets, p, env); }
      CutShortWithin(cat, d, spec, nodeSets, p, env);
    }
  }

  lemma NothingLooped(cat: Catalogue, d: string, spec: DeploymentSpec, nodeSets: NodeSets, p: Progress, env: Env)
    requires CanLoop(spec, nodeSets, p)
    ensures LoopUpTo(cat, d, spec, nodeSets, 0, p, env) == p
  {
  }

  lemma CutShortWithin(cat: Catalogue, d: string, spec: DeploymentSpec, nodeSets: NodeSets, p: Progress, env: Env)
    requires CanLoop(spec, nodeSets, p)
    ensures forall k :: CutShortAt(cat, d, spec, nodeSets, k, p, env) ==> k < |spec.nodeSets|
  {
  }
}
