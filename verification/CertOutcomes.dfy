/**
 How the certificates of a nodeset end, case by case, and what is stored under which name.
 */
module CertOutcomes {
  import opened Conditions
  import opened SortedKeys
  import opened CertPacking
  import opened CertPackingTheorems
  import opened CertAlignment
  import opened CertPublication
  import opened DeploymentControllers
  import opened GateCertificates

  /** The first node without a name on the control plane, or whose certificate failed, fails the call; the first
      one whose certificate is still being issued is waited for. Nothing is published. */
  lemma {:induction false} FirstNodeDecides(nodes: seq<Node>, i: nat)
    requires i < |nodes| && forall j | 0 <= j < i :: nodes[j].base.Some? && nodes[j].cert.Issued?
    requires nodes[i].base.None? || !nodes[i].cert.Issued?
    ensures Obstacle(nodes) == if nodes[i].base.None? || nodes[i].cert == IssueFailed then Failed else Requeue
    decreases i
  {
    if i > 0 {
      FirstNodeDecides(nodes[1..], i - 1);
    }
  }

  lemma NodeStopsCall(secrets: Secrets, prefix: string, max: int, nodes: seq<Node>, refused: nat -> bool, i: nat)
    requires i < |nodes| && forall j | 0 <= j < i :: nodes[j].base.Some? && nodes[j].cert.Issued?
    requires nodes[i].base.None? || !nodes[i].cert.Issued?
    ensures Ensure(secrets, prefix, max, nodes, refused)
         == (secrets, if nodes[i].base.None? || nodes[i].cert == IssueFailed then Failed else Requeue)
  {
    FirstNodeDecides(nodes, i);
  }

  /** The secret under this number holds this part of the packing, how many there are, and its number. */
  ghost predicate Holds(secrets: Secrets, prefix: string, ci: seq<CertsData>, k: nat)
    requires k < |ci|
  {
    var name := prefix + "-certs-" + Itoa(k);
    name in secrets && secrets[name] == Secret(ci[k], Itoa(|ci|), Itoa(k))
  }

  /** Publishing goes through the secrets by number, as long as they are as they should be: the first that is
      refused fails the call, and the first that is not as it should be is written and ends it. */
  lemma {:induction false} FirstSecretDecides(secrets: Secrets, prefix: string, ci: seq<CertsData>, i: nat, k: nat,
                                              refused: nat -> bool)
    requires i <= k < |ci| && forall j: nat | i <= j < k :: !refused(j) && Holds(secrets, prefix, ci, j)
    requires refused(k) || !Holds(secrets, prefix, ci, k)
    ensures PublishFrom(secrets, prefix, ci, i, refused)
         == if refused(k) then (secrets, Failed)
            else (secrets[prefix + "-certs-" + Itoa(k) := Secret(ci[k], Itoa(|ci|), Itoa(k))], Requeue)
    decreases k - i
  {
    hide Itoa;
    if i < k {
      assert Holds(secrets, prefix, ci, i);
      FirstSecretDecides(secrets, prefix, ci, i + 1, k, refused);
    }
  }

  lemma {:induction false} AllSecretsHold(secrets: Secrets, prefix: string, ci: seq<CertsData>, i: nat,
                                          refused: nat -> bool)
    requires i <= |ci| && forall j: nat | i <= j < |ci| :: !refused(j) && Holds(secrets, prefix, ci, j)
    ensures PublishFrom(secrets, prefix, ci, i, refused) == (secrets, Ready)
    decreases |ci| - i
  {
    hide Itoa;
    if i < |ci| {
      assert Holds(secrets, prefix, ci, i);
      AllSecretsHold(secrets, prefix, ci, i + 1, refused);
    }
  }

  /** The names from one number to another are there if and only if each secret is. */
  lemma {:induction false} NumberedNames(secrets: Secrets, prefix: string, i: nat, n: nat)
    requires i <= n
    ensures NamesFrom(secrets, prefix, i, n).Some? <==>
              forall k: nat | i <= k < n :: prefix + "-certs-" + Itoa(k) in secrets
    ensures var names := NamesFrom(secrets, prefix, i, n);
            names.Some? ==> |names.value| == n - i
                            && forall k | 0 <= k < n - i :: names.value[k] == prefix + "-certs-" + Itoa(i + k)
    decreases n - i
  {
    hide Itoa;
    if i < n {
      NumberedNames(secrets, prefix, i + 1, n);
      assert SecretName(prefix, i) == prefix + "-certs-" + Itoa(i);
    }
  }

  /** The sources of a volume: as many numbered secrets as the first one counts, none when that is no number,
      and an error if and only if the first or one of these is missing. */
  lemma SourcesIff(secrets: Secrets, prefix: string)
    ensures var first := prefix + "-certs-" + Itoa(0);
            var sources := Sources(secrets, prefix);
            && (sources.Some? <==> first in secrets && forall k: nat | k < Atoi(secrets[first].numberOfSecrets) ::
                    prefix + "-certs-" + Itoa(k) in secrets)
            && (sources.Some? ==> |sources.value| == Atoi(secrets[first].numberOfSecrets)
                                  && forall k | 0 <= k < |sources.value| ::
                                    sources.value[k] == prefix + "-certs-" + Itoa(k))
  {
    hide Itoa, Atoi, NamesFrom;
    var first := prefix + "-certs-" + Itoa(0);
    if first in secrets {
      NumberedNames(secrets, prefix, 0, Atoi(secrets[first].numberOfSecrets));
    }
  }

  /** A count that is no number gives a volume without sources. */
  lemma NoNumberNoSources(secrets: Secrets, prefix: string)
    requires var first := prefix + "-certs-" + Itoa(0);
             first in secrets && (secrets[first].numberOfSecrets == ""
               || exists c | c in secrets[first].numberOfSecrets :: !('0' <= c <= '9'))
    ensures Sources(secrets, prefix) == Some([])
  {
    assert forall c | c in DIGITS :: '0' <= c <= '9';
    hide Itoa;
  }

  /** The full name of a secret: nodeset, service, key and number. */
  lemma SecretNameIs(nodeSet: string, service: string, certKey: string, i: nat)
    ensures SecretName(SecretPrefix(nodeSet, service, certKey), i)
         == nodeSet + "-" + service + "-" + certKey + "-certs-" + Itoa(i)
  {
  }

  /** The parts of a certificate under the keys of their node. */
  lemma CertificateOf(nodes: seq<Node>, i: nat)
    requires AllUsable(nodes) && i < |nodes|
    requires forall j, k | 0 <= j < k < |nodes| :: nodes[j].base != nodes[k].base
    ensures var data, b, c := Collect(nodes), nodes[i].base.value, nodes[i].cert;
            && b + "-ca.crt" in data && data[b + "-ca.crt"] == c.ca
            && b + "-tls.crt" in data && data[b + "-tls.crt"] == c.crt
            && b + "-tls.key" in data && data[b + "-tls.key"] == c.tlsKey
  {
    KeyNames(nodes[i].base.value);
    hide KeyAt, Collect;
    CollectHoldsEach(nodes, i);
  }

  /** The loop over the requests of a nodeset: the first that is not ready decides, and fails the loop when its
      service cannot be read. */
  lemma {:induction false} FirstRequestDecides(secrets: Secrets, max: int, requests: seq<CertRequest>, k: nat)
    requires k < |requests|
    requires forall j | 0 <= j < k ::
        requests[j].Request?
        && Ensure(secrets, requests[j].prefix, max, requests[j].nodes, requests[j].refused) == (secrets, Ready)
    requires requests[k].Request? ==>
        !Ensure(secrets, requests[k].prefix, max, requests[k].nodes, requests[k].refused).1.Ready?
    ensures EnsureAll(secrets, max, requests)
         == match requests[k]
            case Unreadable => (secrets, Failed)
            case Request(prefix, nodes, refused) => Ensure(secrets, prefix, max, nodes, refused)
    decreases k
  {
    hide Ensure;
    if k > 0 {
      assert forall j | 0 <= j < k - 1 :: requests[1..][j] == requests[j + 1];
      FirstRequestDecides(secrets, max, requests[1..], k - 1);
    }
  }

  /** What the certificates make of the gate of their nodeset. */
  lemma GateFollows(e: Ensured)
    ensures (TlsOf(e) == CertsReady <==> e == Ready) && (TlsOf(e) == CertsPending <==> e == Requeue)
            && (TlsOf(e) == CertsFailed <==> e == Failed)
  {
  }
}
