/**
 When publishing the certificates of a whole nodeset comes to an end: requests that share their
 secret names overwrite each other unless they publish the same secrets.
 */
module CertConvergence {
  import opened CertPacking
  import opened CertPublication
  import opened SortedKeys

  /** A request whose calls all go well: its service is read, its certificates are issued, and no
      secret is refused. */
  ghost predicate GoodRequest(r: CertRequest) {
    r.Request? && AllUsable(r.nodes) && r.refused == NONE_REFUSED
  }

  ghost predicate GoodRequests(requests: seq<CertRequest>) {
    forall i | 0 <= i < |requests| :: GoodRequest(requests[i])
  }

  /** The secrets that a request publishes. */
  ghost function Published(max: int, r: CertRequest): seq<CertsData>
    requires GoodRequest(r)
  {
    DataOf(Packed(max, Collect(r.nodes)))
  }

  /** Two requests get along if they have different names, or publish the same secrets, or one of
      them publishes none. */
  ghost predicate GetAlong(max: int, r: CertRequest, r': CertRequest)
    requires GoodRequest(r) && GoodRequest(r')
  {
    r.prefix != r'.prefix || Published(max, r) == [] || Published(max, r') == []
    || Published(max, r) == Published(max, r')
  }

  ghost predicate AllGetAlong(max: int, requests: seq<CertRequest>)
    requires GoodRequests(requests)
  {
    forall i, j | 0 <= i < |requests| && 0 <= j < |requests| :: GetAlong(max, requests[i], requests[j])
  }

  /** The store after so many reconciles of these requests. */
  function Rounds(secrets: Secrets, max: int, requests: seq<CertRequest>, n: nat): Secrets
    decreases n
  {
    if n == 0 then secrets else Rounds(EnsureAll(secrets, max, requests).0, max, requests, n - 1)
  }

  // ---------- one write ----------

  ghost function StaleOf(secrets: Secrets, max: int, r: CertRequest): nat
    requires GoodRequest(r)
  {
    Stale(secrets, r.prefix, Published(max, r), 0)
  }

  /** How many secrets of all the requests are missing or out of date. */
  ghost function StaleOfAll(secrets: Secrets, max: int, requests: seq<CertRequest>): nat
    requires GoodRequests(requests)
    decreases |requests|
  {
    if requests == [] then 0 else StaleOf(secrets, max, requests[0]) + StaleOfAll(secrets, max, requests[1..])
  }

  /** A call that is not ready writes one stale secret. */
  lemma {:induction false} PublishWritesOne(secrets: Secrets, prefix: string, ci: seq<CertsData>,
                                            i: nat) returns (k: nat)
    requires i <= |ci|
    ensures var (secrets', outcome) := PublishFrom(secrets, prefix, ci, i, NONE_REFUSED);
            if outcome.Ready? then secrets' == secrets && Stale(secrets, prefix, ci, i) == 0
            else outcome.Requeue? && k < |ci| && !UpToDate(secrets, prefix, ci, k)
                 && secrets' == secrets[SecretName(prefix, k) := SecretFor(ci, k)]
    decreases |ci| - i
  {
    hide SecretName, SecretFor, UpToDate;
    k := i;
    if i < |ci| && UpToDate(secrets, prefix, ci, i) {
      k := PublishWritesOne(secrets, prefix, ci, i + 1);
    }
  }

  /** The write leaves the secrets of other names alone. */
  lemma {:induction false} OtherNamesKept(secrets: Secrets, prefix: string, ci: seq<CertsData>, k: nat, q: string,
                                          ci': seq<CertsData>, i: nat)
    requires k < |ci| && i <= |ci'| && prefix != q
    ensures Stale(secrets[SecretName(prefix, k) := SecretFor(ci, k)], q, ci', i) == Stale(secrets, q, ci', i)
    decreases |ci'| - i
  {
    hide SecretName, SecretFor;
    if i < |ci'| {
      OtherNamesKept(secrets, prefix, ci, k, q, ci', i + 1);
      SecretNamesApart(prefix, k, q, i);
    }
  }

  lemma WriteHelps(secrets: Secrets, max: int, r: CertRequest, r': CertRequest, k: nat)
    requires GoodRequest(r) && GoodRequest(r') && GetAlong(max, r, r') && k < |Published(max, r)|
    requires !UpToDate(secrets, r.prefix, Published(max, r), k)
    ensures var secrets' := secrets[SecretName(r.prefix, k) := SecretFor(Published(max, r), k)];
            && StaleOf(secrets', max, r') <= StaleOf(secrets, max, r')
            && (r' == r ==> StaleOf(secrets', max, r') < StaleOf(secrets, max, r'))
  {
    hide SecretName, SecretFor, UpToDate, Published, Stale;
    var ci, ci' := Published(max, r), Published(max, r');
    if r.prefix != r'.prefix {
      OtherNamesKept(secrets, r.prefix, ci, k, r'.prefix, ci', 0);
    } else if ci' == [] {
      NoneStale(secrets[SecretName(r.prefix, k) := SecretFor(ci, k)], r'.prefix, ci', 0);
    } else {
      WritingOneSecret(secrets, r.prefix, ci, k, 0);
    }
  }

  /** A loop that is not ready writes one stale secret of one of its requests. */
  lemma {:induction false} LoopWritesOne(secrets: Secrets, max: int, requests: seq<CertRequest>)
    returns (j: nat, k: nat)
    requires GoodRequests(requests)
    ensures var (secrets', outcome) := EnsureAll(secrets, max, requests);
            if outcome.Ready? then StaleOfAll(secrets, max, requests) == 0
            else && j < |requests| && k < |Published(max, requests[j])|
                 && !UpToDate(secrets, requests[j].prefix, Published(max, requests[j]), k)
                 && secrets'
                    == secrets[SecretName(requests[j].prefix, k) := SecretFor(Published(max, requests[j]), k)]
    decreases |requests|
  {
    hide SecretName, SecretFor, UpToDate, Stale, DataOf, Packed, Collect, PublishFrom;
    j, k := 0, 0;
    if requests != [] {
      var r := requests[0];
      assert GoodRequest(r);
      NoObstacle(r.nodes);
      k := PublishWritesOne(secrets, r.prefix, Published(max, r), 0);
      if Ensure(secrets, r.prefix, max, r.nodes, r.refused).1.Ready? {
        j, k := LoopWritesOne(secrets, max, requests[1..]);
        j := j + 1;
      }
    }
  }

  /** The write lowers the count of its own request, and raises none. */
  lemma {:induction false} CountDrops(secrets: Secrets, secrets': Secrets, max: int, requests: seq<CertRequest>, j: int)
    requires GoodRequests(requests) && j < |requests|
    requires forall i | 0 <= i < |requests| ::
        StaleOf(secrets', max, requests[i]) <= StaleOf(secrets, max, requests[i])
    requires j >= 0 ==> StaleOf(secrets', max, requests[j]) < StaleOf(secrets, max, requests[j])
    ensures StaleOfAll(secrets', max, requests) <= StaleOfAll(secrets, max, requests)
    ensures j >= 0 ==> StaleOfAll(secrets', max, requests) < StaleOfAll(secrets, max, requests)
    decreases |requests|
  {
    hide StaleOf, GoodRequest;
    if requests != [] {
      CountDrops(secrets, secrets', max, requests[1..], j - 1);
    }
  }

  // ---------- the whole loop ----------

  lemma {:induction false} RoundsEnd(secrets: Secrets, max: int, requests: seq<CertRequest>, n: nat)
    requires GoodRequests(requests) && AllGetAlong(max, requests) && StaleOfAll(secrets, max, requests) <= n
    ensures EnsureAll(Rounds(secrets, max, requests, n), max, requests).1.Ready?
    decreases n
  {
    hide GoodRequest, GetAlong, StaleOf, Published, UpToDate, SecretName, SecretFor, StaleOfAll, EnsureAll;
    var (secrets', outcome) := EnsureAll(secrets, max, requests);
    var j, k := LoopWritesOne(secrets, max, requests);
    if outcome.Ready? {
      AllReadyTogether(secrets, max, requests);
      ReadyStays(secrets, max, requests, n);
    } else {
      forall i | 0 <= i < |requests|
        ensures StaleOf(secrets', max, requests[i]) <= StaleOf(secrets, max, requests[i])
        ensures i == j ==> StaleOf(secrets', max, requests[i]) < StaleOf(secrets, max, requests[i])
      {
        assert GetAlong(max, requests[j], requests[i]);
        WriteHelps(secrets, max, requests[j], requests[i], k);
      }
      CountDrops(secrets, secrets', max, requests, j);
      RoundsEnd(secrets', max, requests, n - 1);
    }
  }

  lemma {:induction false} ReadyStays(secrets: Secrets, max: int, requests: seq<CertRequest>, n: nat)
    requires EnsureAll(secrets, max, requests) == (secrets, Ready)
    ensures Rounds(secrets, max, requests, n) == secrets
    decreases n
  {
    hide EnsureAll;
    if n > 0 {
      ReadyStays(secrets, max, requests, n - 1);
    }
  }

  /** Two requests that are ready in one store, under the same names, publish the same secrets. */
  lemma ReadyGetAlong(secrets: Secrets, max: int, r: CertRequest, r': CertRequest)
    requires GoodRequest(r) && GoodRequest(r')
    requires Ensure(secrets, r.prefix, max, r.nodes, r.refused).1.Ready?
    requires Ensure(secrets, r'.prefix, max, r'.nodes, r'.refused).1.Ready?
    ensures GetAlong(max, r, r')
  {
    hide SecretName, Packed, Collect, PublishFrom, Itoa, DataOf;
    NoObstacle(r.nodes);
    NoObstacle(r'.nodes);
    var ci, ci' := Published(max, r), Published(max, r');
    PublishReadyIff(secrets, r.prefix, ci, 0, r.refused);
    PublishReadyIff(secrets, r'.prefix, ci', 0, r'.refused);
    if r.prefix == r'.prefix && ci != [] && ci' != [] {
      assert UpToDate(secrets, r.prefix, ci, 0) && UpToDate(secrets, r'.prefix, ci', 0);
      ItoaInjective(|ci|, |ci'|);
      forall k: nat | k < |ci|
        ensures ci[k] == ci'[k]
      {
        assert UpToDate(secrets, r.prefix, ci, k) && UpToDate(secrets, r'.prefix, ci', k);
      }
    }
  }

  /** When all goes well, some number of reconciles ends with the certificates of the nodeset ready
      if and only if requests with the same secret names publish the same secrets, or none. */
  lemma LoopEndsIff(secrets: Secrets, max: int, requests: seq<CertRequest>)
    requires GoodRequests(requests)
    ensures (exists n :: EnsureAll(Rounds(secrets, max, requests, n), max, requests).1.Ready?)
            <==> AllGetAlong(max, requests)
  {
    hide GoodRequest, GetAlong, EnsureAll, StaleOfAll, Ensure, Rounds;
    if AllGetAlong(max, requests) {
      RoundsEnd(secrets, max, requests, StaleOfAll(secrets, max, requests));
    }
    if n: nat :| EnsureAll(Rounds(secrets, max, requests, n), max, requests).1.Ready? {
      var store := Rounds(secrets, max, requests, n);
      AllReadyTogether(store, max, requests);
      forall i, j | 0 <= i < |requests| && 0 <= j < |requests|
        ensures GetAlong(max, requests[i], requests[j])
      {
        ReadyGetAlong(store, max, requests[i], requests[j]);
      }
    }
  }
}
