/**
 The nodesets of a deployment do not hold each other back: what a reconcile does for one of
 them is what it would do for this one alone.
 */
module NodeSetIndependence {
  import opened Conditions
  import opened AnsibleExecutions
  import opened Deployers
  import opened NodeSetControllers
  import opened DeploymentControllers
  import opened ServiceOrder
  import opened ServiceProgress
  import opened ReconcileOrder
  import opened FailedLookups

  ghost function NamesAt(cat: Catalogue, d: string, spec: DeploymentSpec, nodeSets: NodeSets, k: int): set<string>
    requires Known(spec, nodeSets, k)
  {
    NamesFor(cat, TargetAt(cat, d, spec, nodeSets, k), ServicesAt(spec, nodeSets, k))
  }

  /** The nodeset at `k` shares neither its name nor an execution name with another one. */
  ghost predicate StandsApart(cat: Catalogue, d: string, spec: DeploymentSpec, nodeSets: NodeSets, k: int)
    requires Known(spec, nodeSets, k)
  {
    forall j | Known(spec, nodeSets, j) && j != k ::
      spec.nodeSets[j] != spec.nodeSets[k] && NamesAt(cat, d, spec, nodeSets, j) !! NamesAt(cat, d, spec, nodeSets, k)
  }

  ghost predicate SameAtAll(names: set<string>, jobs: JobStore, jobs': JobStore) {
    forall n | n in names :: SameAt(n, jobs, jobs')
  }

  /** Deploying the nodeset at `i` leaves the names and the conditions of one at `k` alone. */
  lemma OtherNodeSetUntouched(cat: Catalogue, d: string, spec: DeploymentSpec, nodeSets: NodeSets, i: nat, k: nat,
                              p: Progress, env: Env)
    requires i < |spec.nodeSets| && k < |spec.nodeSets| && i != k && CanLoop(spec, nodeSets, p) && Keyed(cat, p.jobs)
    requires Known(spec, nodeSets, k) && StandsApart(cat, d, spec, nodeSets, k)
    ensures var p' := DeployNodeSet(cat, d, spec, nodeSets, i, p, env);
            && p'.status.nodeSetConditions[spec.nodeSets[k]] == p.status.nodeSetConditions[spec.nodeSets[k]]
            && SameAtAll(NamesAt(cat, d, spec, nodeSets, k), p.jobs, p'.jobs)
  {
    hide DeployFrom, NodeSetConditionsAfter, NamesFor, ServicesFor;
    var t, services := TargetAt(cat, d, spec, nodeSets, i), ServicesAt(spec, nodeSets, i);
    var conds := p.status.nodeSetConditions[spec.nodeSets[i]];
    assert Known(spec, nodeSets, i);
    forall n | n in NamesAt(cat, d, spec, nodeSets, k)
      ensures SameAt(n, p.jobs, DeployFrom(cat, t, services, 0, p.jobs, conds, env.calls(i)).jobs)
    {
      ReplayWritesOwnNames(cat, t, services, 0, p.jobs, conds, env.calls(i), n);
    }
  }

  /** The nodeset at `k` itself, on a store that agrees with `jobs` at its names. */
  lemma OwnTurn(cat: Catalogue, d: string, spec: DeploymentSpec, nodeSets: NodeSets, k: nat, jobs: JobStore,
                p: Progress, env: Env)
    requires k < |spec.nodeSets| && CanLoop(spec, nodeSets, p) && Keyed(cat, p.jobs) && Known(spec, nodeSets, k)
             && Keyed(cat, jobs)
    requires SameAtAll(NamesAt(cat, d, spec, nodeSets, k), p.jobs, jobs)
    requires !DeployNodeSet(cat, d, spec, nodeSets, k, p, env).panicked
    ensures var p' := DeployNodeSet(cat, d, spec, nodeSets, k, p, env);
            var alone := ReplayOf(cat, d, spec, nodeSets, k, jobs, p.status.nodeSetConditions[spec.nodeSets[k]], env);
            && p'.status.nodeSetConditions[spec.nodeSets[k]] == NodeSetConditionsAfter(cat, alone.conds, alone.outcome)
            && SameAtAll(NamesAt(cat, d, spec, nodeSets, k), p'.jobs, alone.jobs)
  {
    hide DeployFrom, NodeSetConditionsAfter, NamesFor, ServicesFor;
    var t, services := TargetAt(cat, d, spec, nodeSets, k), ServicesAt(spec, nodeSets, k);
    var conds := p.status.nodeSetConditions[spec.nodeSets[k]];
    ReplayReadsOwnNames(cat, t, services, 0, p.jobs, jobs, conds, env.calls(k));
  }

  /** What the loop has done for the nodeset at `k` once it has gone through the first `n`. */
  lemma {:induction false} LoopAt(cat: Catalogue, d: string, spec: DeploymentSpec, nodeSets: NodeSets, n: nat, k: nat,
                                  p: Progress, env: Env)
    requires n <= |spec.nodeSets| && k < |spec.nodeSets| && CanLoop(spec, nodeSets, p) && Known(spec, nodeSets, k)
    requires Keyed(cat, p.jobs) && !p.panicked && StandsApart(cat, d, spec, nodeSets, k)
    requires forall j | j <= k :: !CutShortAt(cat, d, spec, nodeSets, j, p, env)
    ensures var q := LoopUpTo(cat, d, spec, nodeSets, n, p, env);
            var conds := p.status.nodeSetConditions[spec.nodeSets[k]];
            var alone := ReplayOf(cat, d, spec, nodeSets, k, p.jobs, conds, env);
            if n <= k then
              && q.status.nodeSetConditions[spec.nodeSets[k]] == conds
              && SameAtAll(NamesAt(cat, d, spec, nodeSets, k), q.jobs, p.jobs)
            else
              && q.status.nodeSetConditions[spec.nodeSets[k]] == NodeSetConditionsAfter(cat, alone.conds, alone.outcome)
              && SameAtAll(NamesAt(cat, d, spec, nodeSets, k), q.jobs, alone.jobs)
  {
    hide DeployNodeSet, StandsApart, NamesAt, Keyed, CutShortAt, ReplayOf, NodeSetConditionsAfter;
    if n > 0 {
      var i := n - 1;
      var q := LoopUpTo(cat, d, spec, nodeSets, i, p, env);
      LoopAt(cat, d, spec, nodeSets, i, k, p, env);
      LoopPanicIff(cat, d, spec, nodeSets, i, p, env);
      LoopPanicIff(cat, d, spec, nodeSets, n, p, env);
      if !q.panicked {
        if i == k {
          OwnTurn(cat, d, spec, nodeSets, k, p.jobs, q, env);
        } else {
          OtherNodeSetUntouched(cat, d, spec, nodeSets, i, k, q, env);
        }
      }
    }
  }

  /** Whatever happens to the other nodesets, short of a failed lookup at or before its turn, the
      loop leaves a nodeset that stands apart with the conditions and the jobs of a replay of
      this nodeset alone, on the jobs the reconcile started from. */
  lemma NodeSetsAreIndependent(cat: Catalogue, d: string, spec: DeploymentSpec, nodeSets: NodeSets, k: nat,
                               jobs: JobStore, env: Env)
    requires AllKnown(spec, nodeSets) && k < |spec.nodeSets| && Known(spec, nodeSets, k) && Keyed(cat, jobs)
    requires StandsApart(cat, d, spec, nodeSets, k)
    requires forall j | j <= k :: !CutShortAt(cat, d, spec, nodeSets, j, StartOf(spec, jobs), env)
    ensures var p := DeployNodeSetsFrom(cat, d, spec, nodeSets, 0, StartOf(spec, jobs), env);
            var alone := ReplayOf(cat, d, spec, nodeSets, k, jobs, map[NodeSetDeploymentReadyCondition := Unknown],
                env);
            && spec.nodeSets[k] in p.status.nodeSetConditions
            && p.status.nodeSetConditions[spec.nodeSets[k]] == NodeSetConditionsAfter(cat, alone.conds, alone.outcome)
            && SameAtAll(NamesAt(cat, d, spec, nodeSets, k), p.jobs, alone.jobs)
  {
    hide ReplayOf, NodeSetConditionsAfter, NamesAt, StandsApart, CutShortAt;
    var p := StartOf(spec, jobs);
    LoopIsLoopUpTo(cat, d, spec, nodeSets, 0, p, env);
    LoopAt(cat, d, spec, nodeSets, |spec.nodeSets|, k, p, env);
  }
}
