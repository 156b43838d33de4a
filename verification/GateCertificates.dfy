/**
 The TLS gate of a deployment and the certificates behind it: no job is written before every
 certificate volume of its nodesets can be read back whole.
 */
module GateCertificates {
  import opened Conditions
  import opened Deployers
  import opened NodeSetControllers
  import opened DeploymentControllers
  import opened ReconcileOrder
  import opened AnsibleExecutions
  import opened CertPackingTheorems
  import opened CertPublication

  /** What the certificates of one nodeset make of its gate. */
  function TlsOf(e: Ensured): Tls {
    match e
    case Ready => CertsReady
    case Requeue => CertsPending
    case Failed => CertsFailed
  }

  /** The store of secrets when the gate comes to the nodeset at `k`: what the certificates of
      the nodesets before it have left. */
  ghost function SecretsAt(spec: DeploymentSpec, nodeSets: NodeSets, secrets: Secrets, max: nat -> int,
                           requests: nat -> seq<CertRequest>, k: nat): Secrets
    requires k <= |spec.nodeSets| && AllKnown(spec, nodeSets)
  {
    if k == 0 then secrets
    else
      var before := SecretsAt(spec, nodeSets, secrets, max, requests, k - 1);
      if nodeSets[spec.nodeSets[k - 1]].tlsEnabled then EnsureAll(before, max(k - 1), requests(k - 1)).0 else before
  }

  /** The outcomes at the gate are those of the certificates. */
  ghost predicate TlsFromCertificates(spec: DeploymentSpec, nodeSets: NodeSets, env: Env, secrets: Secrets,
                                      max: nat -> int,
                                      requests: nat -> seq<CertRequest>)
    requires AllKnown(spec, nodeSets)
  {
    forall k | 0 <= k < |spec.nodeSets| && nodeSets[spec.nodeSets[k]].tlsEnabled ::
      env.tls(k) == TlsOf(EnsureAll(SecretsAt(spec, nodeSets, secrets, max, requests, k), max(k), requests(k)).1)
  }

  lemma {:induction false} ReadyGateKeepsSecrets(spec: DeploymentSpec, nodeSets: NodeSets, env: Env, secrets: Secrets,
      max: nat -> int,
                                                requests: nat -> seq<CertRequest>, k: nat)
    requires k <= |spec.nodeSets| && AllKnown(spec, nodeSets)
             && TlsFromCertificates(spec, nodeSets, env, secrets, max, requests)
    requires forall j | 0 <= j < k && nodeSets[spec.nodeSets[j]].tlsEnabled :: env.tls(j).CertsReady?
    ensures SecretsAt(spec, nodeSets, secrets, max, requests, k) == secrets
  {
    hide EnsureAll;
    if k > 0 {
      var j := k - 1;
      ReadyGateKeepsSecrets(spec, nodeSets, env, secrets, max, requests, j);
      if nodeSets[spec.nodeSets[j]].tlsEnabled {
        assert EnsureAll(SecretsAt(spec, nodeSets, secrets, max, requests, j), max(j), requests(j)).1.Ready?;
        AllReadyTogether(secrets, max(j), requests(j));
      }
    }
  }

  /** In any state, when a reconcile whose TLS gate follows the certificates writes a job, the
      certificate volumes of all its TLS nodesets read back exactly their certificates. */
  lemma JobsOnlyWithCertificates(cat: Catalogue, d: string, dep: Deployment, nodeSets: NodeSets, jobs: JobStore,
                                 env: Env, secrets: Secrets, max: nat -> int, requests: nat -> seq<CertRequest>,
                                 k: nat, r: CertRequest)
    requires AllKnown(dep.spec, nodeSets) && TlsFromCertificates(dep.spec, nodeSets, env, secrets, max, requests)
    requires Reconcile(cat, d, dep, nodeSets, jobs, env).jobs != jobs
    requires k < |dep.spec.nodeSets| && nodeSets[dep.spec.nodeSets[k]].tlsEnabled
    requires r in requests(k) && r.Request? && r.nodes != []
    ensures AllUsable(r.nodes)
    ensures var sources := Sources(secrets, r.prefix);
            && sources.Some? && (forall n | n in sources.value :: n in secrets)
            && Merged(DataBehind(secrets, sources.value)) == Collect(r.nodes)
  {
    hide EnsureAll, Reconcile, Sources, Merged, DataBehind, Collect;
    JobsOnlyBehindGates(cat, d, dep, nodeSets, jobs, env);
    ReadyGateKeepsSecrets(dep.spec, nodeSets, env, secrets, max, requests, k);
    EveryVolumeReadsBack(secrets, max(k), requests(k), r);
  }
}
