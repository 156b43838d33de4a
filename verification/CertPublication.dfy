/**
 Certificates on their way to a job: collected from the nodes, packed, published as numbered
 secrets one change at a time, and found again by the count on the first of them
 (pkg/deployment/cert.go, pkg/deployment/deployment.go).
 */
module CertPublication {
  import opened Conditions
  import opened SortedKeys
  import opened CertPacking
  import opened CertPackingTheorems
  import opened CertAlignment

  // ---------- collecting ----------

  datatype Cert = Issued(ca: Bytes, crt: Bytes, tlsKey: Bytes) | NotIssuedYet | IssueFailed

  /** A node with its name on the control plane network, if it has one, and its certificate. */
  datatype Node = Node(base: Option<string>, cert: Cert)

  datatype Ensured = Ready | Requeue | Failed

  predicate Usable(node: Node) {
    node.base.Some? && node.cert.Issued?
  }

  predicate AllUsable(nodes: seq<Node>) {
    forall i | 0 <= i < |nodes| :: Usable(nodes[i])
  }

  function WithNode(data: CertsData, node: Node): CertsData
    requires Usable(node)
  {
    data[node.base.value + "-tls.key" := node.cert.tlsKey][node.base.value
      + "-tls.crt" := node.cert.crt][node.base.value + "-ca.crt" := node.cert.ca]
  }

  /** The certificates of the nodes, in the order in which they are visited. */
  function Collect(nodes: seq<Node>): CertsData
    requires AllUsable(nodes)
  {
    if nodes == [] then map[] else WithNode(Collect(nodes[..|nodes| - 1]), nodes[|nodes| - 1])
  }

  /** What the first node that is not usable makes of the call. */
  function Obstacle(nodes: seq<Node>): Ensured {
    if nodes == [] then Ready
    else if nodes[0].base.None? then Failed
    else match nodes[0].cert
      case IssueFailed => Failed
      case NotIssuedYet => Requeue
      case Issued(_, _, _) => Obstacle(nodes[1..])
  }

  lemma {:induction false} NoObstacle(nodes: seq<Node>)
    ensures Obstacle(nodes).Ready? <==> AllUsable(nodes)
  {
    if nodes != [] {
      NoObstacle(nodes[1..]);
    }
  }

  // ---------- publishing ----------

  datatype Secret = Secret(data: CertsData, numberOfSecrets: string, secretNumber: string)

  type Secrets = map<string, Secret>

  /** The certificates of one key of one service on one nodeset. */
  function SecretPrefix(nodeSet: string, service: string, certKey: string): string {
    nodeSet + "-" + service + "-" + certKey
  }

  function SecretName(prefix: string, i: nat): string {
    prefix + "-certs-" + Itoa(i)
  }

  function SecretFor(ci: seq<CertsData>, i: nat): Secret
    requires i < |ci|
  {
    Secret(ci[i], Itoa(|ci|), Itoa(i))
  }

  predicate UpToDate(secrets: Secrets, prefix: string, ci: seq<CertsData>, i: nat)
    requires i < |ci|
  {
    SecretName(prefix, i) in secrets && secrets[SecretName(prefix, i)] == SecretFor(ci, i)
  }

  /** Publishing from the `i`-th secret on: one that has to change ends the call. */
  function PublishFrom(secrets: Secrets, prefix: string, ci: seq<CertsData>, i: nat, refused: nat -> bool): (Secrets,
                       Ensured)
    requires i <= |ci|
    decreases |ci| - i
  {
    if i == |ci| then (secrets, Ready)
    else if refused(i) then (secrets, Failed)
    else if UpToDate(secrets, prefix, ci, i) then PublishFrom(secrets, prefix, ci, i + 1, refused)
    else (secrets[SecretName(prefix, i) := SecretFor(ci, i)], Requeue)
  }

  function DataOf(groups: seq<Group>): (ci: seq<CertsData>)
    ensures Filled(ci, groups)
  {
    seq(|groups|, i requires 0 <= i < |groups| => Contents(groups[i]))
  }

  function Ensure(secrets: Secrets, prefix: string, max: int, nodes: seq<Node>, refused: nat -> bool): (Secrets,
                  Ensured)
  {
    NoObstacle(nodes);
    if !Obstacle(nodes).Ready? then (secrets, Obstacle(nodes))
    else PublishFrom(secrets, prefix, DataOf(Packed(max, Collect(nodes))), 0, refused)
  }

  // ---------- reading back ----------

  /** The names of the secrets from the `i`-th on, if they all exist. */
  function NamesFrom(secrets: Secrets, prefix: string, i: nat, n: nat): Option<seq<string>>
    requires i <= n
    decreases n - i
  {
    if i == n then Some([])
    else if SecretName(prefix, i) !in secrets then None
    else
      var rest := NamesFrom(secrets, prefix, i + 1, n);
      if rest.None? then None else Some([SecretName(prefix, i)] + rest.value)
  }

  function Prepended(names: seq<string>, rest: Option<seq<string>>): Option<seq<string>> {
    if rest.None? then None else Some(names + rest.value)
  }

  /** The sources of the projected volume: as many secrets as the first one says. */
  function Sources(secrets: Secrets, prefix: string): Option<seq<string>> {
    if SecretName(prefix, 0) !in secrets then None
    else NamesFrom(secrets, prefix, 0, Atoi(secrets[SecretName(prefix, 0)].numberOfSecrets))
  }

  // ---------- the code ----------

  class SecretStore {
    var secrets: Secrets

    constructor (secrets: Secrets)
      ensures this.secrets == secrets
    {
      this.secrets := secrets;
    }

    method CreateOrPatchSecret(name: string, secret: Secret) returns (changed: bool)
      modifies this
      ensures secrets == old(secrets)[name := secret]
      ensures changed <==> !(name in old(secrets) && old(secrets)[name] == secret)
    {
      changed := name !in secrets || secrets[name] != secret;
      secrets := secrets[name := secret];
    }

    method EnsureTLSCerts(prefix: string, secretMaxSize: int, nodes: seq<Node>,
                          refused: nat -> bool) returns (outcome: Ensured)
      modifies this
      ensures (secrets, outcome) == Ensure(old(secrets), prefix, secretMaxSize, nodes, refused)
    {
      var certsData: CertsData := map[];
      for i := 0 to |nodes|
        invariant AllUsable(nodes[..i])
        invariant certsData == Collect(nodes[..i])
        invariant Obstacle(nodes) == Obstacle(nodes[i..])
      {
        assert nodes[i..][1..] == nodes[i + 1..];
        assert nodes[..i + 1][..i] == nodes[..i];
        var node := nodes[i];
        if node.base.None? || node.cert.IssueFailed? {
          return Failed;
        }
        if node.cert.NotIssuedYet? {
          return Requeue;
        }
        var baseName := node.base.value;
        certsData := certsData[baseName + "-tls.key" := node.cert.tlsKey];
        certsData := certsData[baseName + "-tls.crt" := node.cert.crt];
        certsData := certsData[baseName + "-ca.crt" := node.cert.ca];
      }
      assert nodes[..|nodes|] == nodes;
      outcome := Publish(prefix, secretMaxSize, nodes, certsData, refused);
    }

    method Publish(prefix: string, secretMaxSize: int, nodes: seq<Node>, certsData: CertsData,
                   refused: nat -> bool) returns (outcome: Ensured)
      requires AllUsable(nodes) && certsData == Collect(nodes)
      modifies this
      ensures (secrets, outcome) == PublishFrom(old(secrets), prefix, DataOf(Packed(secretMaxSize, Collect(nodes))), 0,
              refused)
    {
      hide Packed, SecretName, Contents, Itoa, Collect;
      CollectCounts(nodes);
      var packing := CreateSecretsDataStructure(secretMaxSize, certsData);
      var ci := packing.list;
      assert ci == DataOf(Packed(secretMaxSize, certsData));
      for i := 0 to |ci|
        invariant secrets == old(secrets)
        invariant PublishFrom(old(secrets), prefix, ci, 0, refused) == PublishFrom(old(secrets), prefix, ci, i, refused)
      {
        if refused(i) {
          return Failed;
        }
        var secret := Secret(ci[i], Itoa(|ci|), Itoa(i));
        var changed := CreateOrPatchSecret(SecretName(prefix, i), secret);
        if changed {
          return Requeue;
        }
        assert secrets == old(secrets);
      }
      outcome := Ready;
    }

    /** The loop over the services and certificate keys of a nodeset. */
    method EnsureNodeSetCerts(secretMaxSize: int, requests: seq<CertRequest>) returns (outcome: Ensured)
      modifies this
      ensures (secrets, outcome) == EnsureAll(old(secrets), secretMaxSize, requests)
    {
      hide Ensure;
      for i := 0 to |requests|
        invariant EnsureAll(old(secrets), secretMaxSize, requests) == EnsureAll(secrets, secretMaxSize, requests[i..])
      {
        assert requests[i..][1..] == requests[i + 1..];
        if requests[i].Unreadable? {
          return Failed;
        }
        outcome := EnsureTLSCerts(requests[i].prefix, secretMaxSize, requests[i].nodes, requests[i].refused);
        if !outcome.Ready? {
          return;
        }
      }
      outcome := Ready;
    }

    /** The loop that builds the sources of a certificate volume. */
    method CertSources(prefix: string) returns (sources: Option<seq<string>>)
      ensures sources == Sources(secrets, prefix)
    {
      hide SecretName, Atoi;
      if SecretName(prefix, 0) !in secrets {
        return None;
      }
      var n := Atoi(secrets[SecretName(prefix, 0)].numberOfSecrets);
      var names: seq<string> := [];
      assert forall rest: seq<string> :: names + rest == rest;
      for i := 0 to n
        invariant NamesFrom(secrets, prefix, 0, n) == Prepended(names, NamesFrom(secrets, prefix, i, n))
      {
        if SecretName(prefix, i) !in secrets {
          return None;
        }
        ghost var before := names;
        names := names + [SecretName(prefix, i)];
        assert forall rest :: names + rest == before + ([SecretName(prefix, i)] + rest);
      }
      assert names + [] == names;
      return Some(names);
    }
  }

  // ---------- the collected certificates ----------

  function Bases(nodes: seq<Node>): set<string> {
    set n | n in nodes && n.base.Some? :: n.base.value
  }

  lemma {:induction false} CollectKeys(nodes: seq<Node>)
    requires AllUsable(nodes)
    ensures Collect(nodes).Keys == AllKeys(Bases(nodes))
  {
    if nodes != [] {
      var init, last := nodes[..|nodes| - 1], nodes[|nodes| - 1];
      CollectKeys(init);
      assert nodes == init + [last];
      assert Bases(nodes) == Bases(init) + {last.base.value};
      OneBaseMore(Bases(init), last.base.value);
    }
  }

  lemma OneBaseMore(bases: set<string>, b: string)
    ensures AllKeys(bases + {b}) == AllKeys(bases) + {b + "-tls.key", b + "-tls.crt", b + "-ca.crt"}
  {
    KeyNames(b);
    hide KeyAt;
    assert forall k :: k in AllKeys({b}) <==> k in {KeyAt(b, 0), KeyAt(b, 1), KeyAt(b, 2)};
    assert AllKeys(bases + {b}) == AllKeys(bases) + AllKeys({b});
  }

  lemma {:induction false} KeyCount(bases: set<string>)
    ensures |AllKeys(bases)| == 3 * |bases|
    decreases |bases|
  {
    if bases == {} {
      assert AllKeys(bases) == {};
    } else {
      var b :| b in bases;
      var rest := bases - {b};
      KeyCount(rest);
      OneBaseMore(rest, b);
      assert bases == rest + {b};
      NewKeys(rest, b);
    }
  }

  /** The keys of a new base are three, and new. */
  lemma NewKeys(rest: set<string>, b: string)
    requires b !in rest
    ensures var own := {b + "-tls.key", b + "-tls.crt", b + "-ca.crt"}; |own| == 3 && AllKeys(rest) !! own
  {
    KeyNames(b);
    hide KeyAt;
    forall i: nat, j: nat | i < 3 && j < 3 && i != j
      ensures KeyAt(b, i) != KeyAt(b, j)
    {
      if KeyAt(b, i) == KeyAt(b, j) { KeysDiffer(b, b, i, j); }
    }
    forall c, i: nat, j: nat | c in rest && i < 3 && j < 3
      ensures KeyAt(c, i) != KeyAt(b, j)
    {
      if KeyAt(c, i) == KeyAt(b, j) { KeysDiffer(c, b, i, j); }
    }
    assert |{KeyAt(b, 2), KeyAt(b, 1), KeyAt(b, 0)}| == 3;
  }

  /** The number of keys always divides by three, so the packing neither stops on an index nor
      loses a key. */
  lemma CollectCounts(nodes: seq<Node>)
    requires AllUsable(nodes)
    ensures |Collect(nodes)| == 3 * |Bases(nodes)|
  {
    CollectKeys(nodes);
    KeyCount(Bases(nodes));
    assert |Collect(nodes)| == |Collect(nodes).Keys|;
  }

  /** So the packing of certificates neither reads beyond its keys nor loses one. */
  lemma CertificatesPackWhole(nodes: seq<Node>)
    requires AllUsable(nodes)
    ensures |Collect(nodes)| % 3 == 0 && Kept(Collect(nodes)) == Collect(nodes)
  {
    hide Collect, Kept;
    CollectCounts(nodes);
    KeptIff(Collect(nodes));
  }

  /** With distinct base names, each node finds its own certificate under its own keys, in
      whatever order the nodes were visited. */
  lemma {:induction false} CollectHoldsEach(nodes: seq<Node>, i: nat)
    requires AllUsable(nodes) && i < |nodes|
    requires forall j, k | 0 <= j < k < |nodes| :: nodes[j].base != nodes[k].base
    ensures var data, b := Collect(nodes), nodes[i].base.value;
            && {KeyAt(b, 0), KeyAt(b, 1), KeyAt(b, 2)} <= data.Keys
            && data[KeyAt(b, 0)] == nodes[i].cert.ca && data[KeyAt(b, 1)] == nodes[i].cert.crt
               && data[KeyAt(b, 2)] == nodes[i].cert.tlsKey
  {
    var n := |nodes| - 1;
    var init, last := nodes[..n], nodes[n];
    var b, c := nodes[i].base.value, last.base.value;
    KeyNames(b);
    KeyNames(c);
    if i < n {
      CollectHoldsEach(init, i);
    }
    hide KeyAt;
    forall p: nat, q: nat | p < 3 && q < 3 && KeyAt(b, p) == KeyAt(c, q)
      ensures b == c && p == q
    {
      KeysDiffer(b, c, p, q);
    }
  }

  /** Unless a base name straddles another, all three parts of a node's certificate are in one
      of the secrets. */
  lemma EachNodeInOneSecret(nodes: seq<Node>, max: int, i: nat) returns (g: nat)
    requires AllUsable(nodes) && i < |nodes| && NoStraddling(Bases(nodes))
    ensures var b := nodes[i].base.value;
            && g < |Packed(max, Collect(nodes))|
            && {KeyAt(b, 0), KeyAt(b, 1), KeyAt(b, 2)} <= Contents(Packed(max, Collect(nodes))[g]).Keys
  {
    CollectKeys(nodes);
    hide Packed, Collect, KeyAt, NoStraddling;
    assert nodes[i].base.value in Bases(nodes);
    g := NodeInOneSecret(Collect(nodes), max, Bases(nodes), nodes[i].base.value);
  }

  // ---------- names ----------

  lemma {:induction false} LastDashDecides(p: string, a: string, q: string, b: string)
    requires '-' !in a && '-' !in b && p + "-" + a == q + "-" + b
    ensures p == q && a == b
  {
    var x := p + "-" + a;
    assert x[|p|] == '-' && x[|q|] == '-';
    assert forall k | |p| < k < |x| :: x[k] == a[k - |p| - 1];
    assert forall k | |q| < k < |x| :: x[k] == b[k - |q| - 1];
    assert |p| == |q|;
    assert p == x[..|p|] && q == x[..|q|] && a == x[|p| + 1..] && b == x[|q| + 1..];
  }

  /** Two secret names agree only for the same number and the same joined prefix. */
  lemma SecretNamesApart(p: string, i: nat, q: string, j: nat)
    ensures SecretName(p, i) == SecretName(q, j) <==> p == q && i == j
  {
    if SecretName(p, i) == SecretName(q, j) {
      assert SecretName(p, i) == (p + "-certs") + "-" + Itoa(i) && SecretName(q, j) == (q + "-certs") + "-" + Itoa(j);
      LastDashDecides(p + "-certs", Itoa(i), q + "-certs", Itoa(j));
      ItoaInjective(i, j);
      assert p == (p + "-certs")[..|p + "-certs"| - 6] && q == (q + "-certs")[..|q + "-certs"| - 6];
    }
  }

  /** The joined prefix does not tell where the service ends and the key begins. */
  lemma PrefixesCanCoincide()
    ensures SecretPrefix("edpm", "nova-api", "default") == SecretPrefix("edpm", "nova", "api-default")
  {
  }

  // ---------- the round trip ----------

  /** A call ends with Ready if and only if nothing stands in its way and the store already
      holds every secret; it changes nothing then. */
  lemma {:induction false} PublishReadyIff(secrets: Secrets, prefix: string, ci: seq<CertsData>, i: nat,
                                           refused: nat -> bool)
    requires i <= |ci|
    ensures var (secrets', outcome) := PublishFrom(secrets, prefix, ci, i, refused);
            && (outcome.Ready? <==> forall k: nat | i <= k < |ci| :: !refused(k) && UpToDate(secrets, prefix, ci, k))
            && (!outcome.Requeue? ==> secrets' == secrets)
    decreases |ci| - i
  {
    hide UpToDate, SecretName;
    if i < |ci| {
      PublishReadyIff(secrets, prefix, ci, i + 1, refused);
    }
  }

  /** A call that is ready has changed nothing. */
  lemma ReadyChangesNothing(secrets: Secrets, prefix: string, max: int, nodes: seq<Node>, refused: nat -> bool)
    requires Ensure(secrets, prefix, max, nodes, refused).1.Ready?
    ensures Ensure(secrets, prefix, max, nodes, refused).0 == secrets
  {
    hide PublishFrom;
    NoObstacle(nodes);
    PublishReadyIff(secrets, prefix, DataOf(Packed(max, Collect(nodes))), 0, refused);
  }

  lemma {:induction false} NamesOfUpToDate(secrets: Secrets, prefix: string, ci: seq<CertsData>, i: nat)
    requires i <= |ci| && forall k: nat | k < |ci| :: UpToDate(secrets, prefix, ci, k)
    ensures var names := NamesFrom(secrets, prefix, i, |ci|);
            && names.Some? && |names.value| == |ci| - i
            && (forall k | 0 <= k < |names.value| :: names.value[k] == SecretName(prefix, i + k))
    decreases |ci| - i
  {
    hide SecretName, Itoa;
    if i < |ci| {
      assert UpToDate(secrets, prefix, ci, i);
      NamesOfUpToDate(secrets, prefix, ci, i + 1);
    }
  }

  /** The data behind a list of secret names. */
  function DataBehind(secrets: Secrets, names: seq<string>): seq<CertsData>
    requires forall n | n in names :: n in secrets
  {
    seq(|names|, i requires 0 <= i < |names| => secrets[names[i]].data)
  }

  /** Reading back finds exactly what was published, in order. */
  lemma SourcesArePublished(secrets: Secrets, prefix: string, ci: seq<CertsData>)
    requires ci != [] && forall k: nat | k < |ci| :: UpToDate(secrets, prefix, ci, k)
    ensures var sources := Sources(secrets, prefix);
            && sources.Some? && |sources.value| == |ci|
            && (forall i | 0 <= i < |ci| ::
                  sources.value[i] == SecretName(prefix, i) && SecretName(prefix, i) in secrets)
            && (forall n | n in sources.value :: n in secrets)
            && DataBehind(secrets, sources.value) == ci
  {
    hide SecretName, Itoa, Atoi;
    assert UpToDate(secrets, prefix, ci, 0);
    AtoiOfItoa(|ci|);
    NamesOfUpToDate(secrets, prefix, ci, 0);
    var names := Sources(secrets, prefix).value;
    assert forall i: nat | i < |ci| :: UpToDate(secrets, prefix, ci, i) && names[i] == SecretName(prefix, i);
  }

  /** Once the certificates of a nodeset with nodes are in place, the sources found for the
      volume are exactly the secrets that were published, in order, and their data together
      are exactly the certificates of the nodes. */
  lemma RoundTrip(secrets: Secrets, prefix: string, max: int, nodes: seq<Node>, refused: nat -> bool)
    requires Ensure(secrets, prefix, max, nodes, refused).1.Ready? && nodes != []
    ensures AllUsable(nodes)
    ensures var sources := Sources(secrets, prefix);
            var count := |Packed(max, Collect(nodes))|;
            && count > 0 && sources.Some? && |sources.value| == count
            && (forall i | 0 <= i < count ::
                  sources.value[i] == SecretName(prefix, i) && SecretName(prefix, i) in secrets)
            && (forall n | n in sources.value :: n in secrets)
            && Merged(DataBehind(secrets, sources.value)) == Collect(nodes)
  {
    hide SecretName, Packed, Collect, Merged, Contents, Sources, DataBehind, PublishFrom, WithinLimit, UpToDate, Kept;
    NoObstacle(nodes);
    var data := Collect(nodes);
    var ci := DataOf(Packed(max, data));
    PublishReadyIff(secrets, prefix, ci, 0, refused);
    CollectCounts(nodes);
    NonemptyPacking(nodes, max);
    SourcesArePublished(secrets, prefix, ci);
    PackingIsPartition(data, max, ci);
    KeptIff(data);
  }

  lemma NonemptyPacking(nodes: seq<Node>, max: int)
    requires nodes != [] && AllUsable(nodes)
    ensures Packed(max, Collect(nodes)) != []
  {
    hide Sorted, Collect, Triples, Greedy;
    CollectCounts(nodes);
    assert nodes[0].base.value in Bases(nodes);
    var data := Collect(nodes);
    var keys := Sorted(data.Keys);
    GreedyNonempty(Triples(keys, data, |keys| / 3), max);
  }

  /** A nodeset without nodes publishes nothing, so its mounts are only found when an earlier
      nodeset of that name left secrets behind. */
  lemma NothingToPublish(secrets: Secrets, prefix: string, max: int, refused: nat -> bool)
    ensures Ensure(secrets, prefix, max, [], refused) == (secrets, Ready)
    ensures Sources(map[], prefix).None?
  {
    var data := Collect([]);
    var keys := Sorted(data.Keys);
    assert |keys| == |data.Keys| == 0;
    assert Triples(keys, data, 0) == [];
    assert Packed(max, data) == [];
  }

  // ---------- publishing ends ----------

  /** How many secrets from the `i`-th on are missing or out of date. */
  ghost function Stale(secrets: Secrets, prefix: string, ci: seq<CertsData>, i: nat): nat
    requires i <= |ci|
    decreases |ci| - i
  {
    if i == |ci| then 0 else Stale(secrets, prefix, ci, i + 1) + if UpToDate(secrets, prefix, ci, i) then 0 else 1
  }

  lemma {:induction false} WritingOneSecret(secrets: Secrets, prefix: string, ci: seq<CertsData>, k: nat, i: nat)
    requires k < |ci| && i <= |ci| && !UpToDate(secrets, prefix, ci, k)
    ensures var secrets' := secrets[SecretName(prefix, k) := SecretFor(ci, k)];
            Stale(secrets', prefix, ci, i) == Stale(secrets, prefix, ci, i) - if i <= k then 1 else 0
    decreases |ci| - i
  {
    hide SecretName, SecretFor;
    if i < |ci| {
      WritingOneSecret(secrets, prefix, ci, k, i + 1);
      SecretNamesApart(prefix, i, prefix, k);
    }
  }

  const NONE_REFUSED: nat -> bool := (i: nat) => false

  lemma {:induction false} PublishMakesProgress(secrets: Secrets, prefix: string, ci: seq<CertsData>, i: nat)
    requires i <= |ci| && forall k: nat | k < i :: UpToDate(secrets, prefix, ci, k)
    ensures var (secrets', outcome) := PublishFrom(secrets, prefix, ci, i, NONE_REFUSED);
            if outcome.Ready? then Stale(secrets, prefix, ci, i) == 0
            else outcome.Requeue? && Stale(secrets', prefix, ci, 0) == Stale(secrets, prefix, ci, 0) - 1
    decreases |ci| - i
  {
    hide SecretName, SecretFor, UpToDate;
    if i < |ci| {
      if UpToDate(secrets, prefix, ci, i) {
        PublishMakesProgress(secrets, prefix, ci, i + 1);
      } else {
        WritingOneSecret(secrets, prefix, ci, i, 0);
      }
    }
  }

  function Publications(secrets: Secrets, prefix: string, max: int, nodes: seq<Node>, calls: nat): Secrets
    decreases calls
  {
    if calls == 0 then secrets
    else Publications(Ensure(secrets, prefix, max, nodes, NONE_REFUSED).0, prefix, max, nodes, calls - 1)
  }

  lemma {:induction false} NoneStale(secrets: Secrets, prefix: string, ci: seq<CertsData>, i: nat)
    requires i <= |ci|
    ensures Stale(secrets, prefix, ci, i) == 0 <==> forall k: nat | i <= k < |ci| :: UpToDate(secrets, prefix, ci, k)
    ensures Stale(secrets, prefix, ci, i) <= |ci| - i
    decreases |ci| - i
  {
    hide UpToDate;
    if i < |ci| { NoneStale(secrets, prefix, ci, i + 1); }
  }

  /** With all certificates issued and no call refused, publishing from any store ends: after
      as many calls as there are secrets, the next one is Ready. */
  lemma PublishingEnds(secrets: Secrets, prefix: string, max: int, nodes: seq<Node>)
    requires AllUsable(nodes)
    ensures Ensure(Publications(secrets, prefix, max, nodes, |Packed(max, Collect(nodes))|), prefix, max, nodes,
            NONE_REFUSED).1.Ready?
  {
    NoneStale(secrets, prefix, DataOf(Packed(max, Collect(nodes))), 0);
    PublishingEndsWithin(secrets, prefix, max, nodes, |Packed(max, Collect(nodes))|);
  }

  lemma {:induction false} PublishingEndsWithin(secrets: Secrets, prefix: string, max: int, nodes: seq<Node>,
                                                calls: nat)
    requires AllUsable(nodes)
    requires Stale(secrets, prefix, DataOf(Packed(max, Collect(nodes))), 0) <= calls
    ensures Ensure(Publications(secrets, prefix, max, nodes, calls), prefix, max, nodes, NONE_REFUSED).1.Ready?
    decreases calls
  {
    hide Packed, Collect, PublishFrom, Stale, DataOf;
    NoObstacle(nodes);
    var ci := DataOf(Packed(max, Collect(nodes)));
    PublishReadyIff(secrets, prefix, ci, 0, NONE_REFUSED);
    NoneStale(secrets, prefix, ci, 0);
    PublishMakesProgress(secrets, prefix, ci, 0);
    if calls > 0 {
      PublishingEndsWithin(Ensure(secrets, prefix, max, nodes, NONE_REFUSED).0, prefix, max, nodes, calls - 1);
    }
  }

  // ---------- the certificates of a whole nodeset ----------

  /** One service and certificate key of a nodeset that has TLS enabled, or a service that cannot
      be read. */
  datatype CertRequest = Unreadable | Request(prefix: string, nodes: seq<Node>, refused: nat -> bool)

  /** The loop over the services and their certificate keys: the first that is not ready ends it. */
  function EnsureAll(secrets: Secrets, max: int, requests: seq<CertRequest>): (Secrets, Ensured)
    decreases |requests|
  {
    if requests == [] then (secrets, Ready)
    else if requests[0].Unreadable? then (secrets, Failed)
    else
      var (secrets', outcome) := Ensure(secrets, requests[0].prefix, max, requests[0].nodes, requests[0].refused);
      if outcome.Ready? then EnsureAll(secrets', max, requests[1..]) else (secrets', outcome)
  }

  /** When the loop comes through, every one of its requests is ready in the very same store, and
      that store has not changed. */
  lemma {:induction false} AllReadyTogether(secrets: Secrets, max: int, requests: seq<CertRequest>)
    requires EnsureAll(secrets, max, requests).1.Ready?
    ensures EnsureAll(secrets, max, requests).0 == secrets
    ensures forall r | r in requests :: r.Request? && Ensure(secrets, r.prefix, max, r.nodes, r.refused).1.Ready?
    decreases |requests|
  {
    hide Ensure;
    if requests != [] {
      var r := requests[0];
      ReadyChangesNothing(secrets, r.prefix, max, r.nodes, r.refused);
      AllReadyTogether(secrets, max, requests[1..]);
      assert forall x | x in requests :: x == r || x in requests[1..];
    }
  }

  /** So each certificate volume of the nodeset then reads back exactly its certificates, even if
      secret names of different requests meet. */
  lemma EveryVolumeReadsBack(secrets: Secrets, max: int, requests: seq<CertRequest>, r: CertRequest)
    requires EnsureAll(secrets, max, requests).1.Ready? && r in requests && r.Request? && r.nodes != []
    ensures AllUsable(r.nodes)
    ensures var sources := Sources(secrets, r.prefix);
            && sources.Some? && (forall n | n in sources.value :: n in secrets)
            && Merged(DataBehind(secrets, sources.value)) == Collect(r.nodes)
  {
    hide Ensure, Sources, Merged, Collect, DataBehind;
    AllReadyTogether(secrets, max, requests);
    RoundTrip(secrets, r.prefix, max, r.nodes, r.refused);
  }
}
