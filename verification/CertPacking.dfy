/**
 The packing of certificates into secrets: the sorted keys are taken three at a time and put
 into the current secret, or into a new one when they would exceed the size limit
 (pkg/deployment/cert.go).
 */
module CertPacking {
  import opened SortedKeys

  type Bytes = seq<bv8>

  type CertsData = map<string, Bytes>

  datatype Entry = Entry(key: string, value: Bytes) {
    function Size(): nat {
      |value| + |key|
    }
  }

  /** Three consecutive entries, meant to be the CA, the certificate and the key of a node. */
  datatype Triple = Triple(ca: Entry, crt: Entry, tlsKey: Entry) {
    function Size(): nat {
      ca.Size() + crt.Size() + tlsKey.Size()
    }

    function Entries(): CertsData {
      map[ca.key := ca.value][crt.key := crt.value][tlsKey.key := tlsKey.value]
    }
  }

  type Group = seq<Triple>

  function GroupSize(g: Group): nat {
    if g == [] then 0 else GroupSize(g[..|g| - 1]) + g[|g| - 1].Size()
  }

  /** The data of a secret that was filled with these triples, in this order. */
  function Contents(g: Group): CertsData {
    if g == [] then map[] else Contents(g[..|g| - 1]) + g[|g| - 1].Entries()
  }

  function Concat(groups: seq<Group>): seq<Triple> {
    if groups == [] then [] else Concat(groups[..|groups| - 1]) + groups[|groups| - 1]
  }

  // ---------- the greedy packing ----------

  predicate Opens(groups: seq<Group>, t: Triple, max: int) {
    groups == [] || GroupSize(groups[|groups| - 1]) + t.Size() > max
  }

  /** The groups after one more triple: it joins the last group unless that would exceed the
      limit, or there is none yet. */
  function Add(groups: seq<Group>, t: Triple, max: int): seq<Group> {
    if Opens(groups, t, max) then groups + [[t]]
    else
      var n := |groups| - 1;
      groups[..n] + [groups[n] + [t]]
  }

  function Greedy(triples: seq<Triple>, max: int): seq<Group> {
    if triples == [] then [] else Add(Greedy(triples[..|triples| - 1], max), triples[|triples| - 1], max)
  }

  /** The first `m` triples of the sorted keys. */
  function Triples(keys: seq<string>, data: CertsData, m: nat): (ts: seq<Triple>)
    requires 3 * m <= |keys| && forall k | k in keys :: k in data
    ensures |ts| == m
  {
    if m == 0 then [] else Triples(keys, data, m - 1) + [TripleAt(keys, data, m - 1)]
  }

  function TripleAt(keys: seq<string>, data: CertsData, i: nat): Triple
    requires 3 * i + 2 < |keys| && forall k | k in keys :: k in data
  {
    var k := 3 * i;
    Triple(Entry(keys[k], data[keys[k]]), Entry(keys[k + 1], data[keys[k + 1]]), Entry(keys[k + 2], data[keys[k + 2]]))
  }

  /** The groups that the packing of `data` makes. */
  function Packed(max: int, data: CertsData): seq<Group> {
    var keys := Sorted(data.Keys);
    Greedy(Triples(keys, data, |keys| / 3), max)
  }

  datatype Packing = Secrets(list: seq<CertsData>) | IndexOutOfRange

  lemma {:induction false} TriplesAt(keys: seq<string>, data: CertsData, m: nat, i: nat)
    requires i < m && 3 * m <= |keys| && forall k | k in keys :: k in data
    ensures Triples(keys, data, m)[i] == TripleAt(keys, data, i)
  {
    if i < m - 1 { TriplesAt(keys, data, m - 1, i); }
  }

  lemma ContentsSnoc(g: Group, t: Triple)
    ensures Contents(g + [t]) == Contents(g)[t.ca.key := t.ca.value][t.crt.key := t.crt.value][t.tlsKey.key :=
            t.tlsKey.value]
    ensures GroupSize(g + [t]) == GroupSize(g) + t.Size()
  {
    assert (g + [t])[..|g|] == g;
  }

  lemma GreedyStep(keys: seq<string>, data: CertsData, m: nat, max: int)
    requires 3 * m + 2 < |keys| && forall k | k in keys :: k in data
    ensures Greedy(Triples(keys, data, m + 1), max) == Add(Greedy(Triples(keys, data, m), max),
            TripleAt(keys, data, m), max)
  {
    hide Add, TripleAt;
    assert Triples(keys, data, m + 1)[..m] == Triples(keys, data, m);
  }

  predicate Filled(ci: seq<CertsData>, groups: seq<Group>) {
    |ci| == |groups| && forall i | 0 <= i < |ci| :: ci[i] == Contents(groups[i])
  }

  function SizeSoFar(groups: seq<Group>, max: int): int {
    if groups == [] then max else GroupSize(groups[|groups| - 1])
  }

  function Put(secret: CertsData, t: Triple): CertsData {
    secret[t.ca.key := t.ca.value][t.crt.key := t.crt.value][t.tlsKey.key := t.tlsKey.value]
  }

  /** What one round of the loop does to the secrets is what Add does to the groups. */
  lemma RoundAdds(groups: seq<Group>, t: Triple, max: int, ci: seq<CertsData>, ci': seq<CertsData>)
    requires Filled(ci, groups)
    requires ci' == if Opens(groups, t, max) then ci + [Put(map[], t)] else ci[..|ci| - 1] + [Put(ci[|ci| - 1], t)]
    ensures Filled(ci', Add(groups, t, max))
    ensures SizeSoFar(Add(groups, t, max), max) == (if Opens(groups, t, max) then 0 else SizeSoFar(groups, max))
            + t.Size()
  {
    var last: Group := if Opens(groups, t, max) then [] else groups[|groups| - 1];
    ContentsSnoc(last, t);
    assert [] + [t] == [t];
    assert Contents([]) == map[] && GroupSize([]) == 0;
    hide Contents, GroupSize;
  }

  /** The loop of the packing. The current secret is nil at first, and the size starts at the
      limit so that the first triple opens a secret. With two keys over, the last step reads
      beyond the keys. */
  method CreateSecretsDataStructure(secretMaxSize: int, certsData: CertsData) returns (r: Packing)
    ensures |certsData| % 3 == 2 ==> r == IndexOutOfRange
    ensures |certsData| % 3 != 2 ==> r.Secrets? && Filled(r.list, Packed(secretMaxSize, certsData))
  {
    hide Greedy, Triples, Add, Contents, GroupSize, Sorted, Less;
    var ci: seq<CertsData> := [];
    var keys := Sorted(certsData.Keys);
    SortedIncreasing(certsData.Keys);
    IncreasingDistinct(keys);
    NothingPacked(keys, certsData, secretMaxSize);
    var totalSize := secretMaxSize;
    var cur := -1;
    var k := 0;
    ghost var m := 0;
    while k < |keys| - 1
      invariant k == 3 * m && 3 * m <= |keys|
      invariant cur == |ci| - 1
      invariant Filled(ci, Greedy(Triples(keys, certsData, m), secretMaxSize))
      invariant totalSize == SizeSoFar(Greedy(Triples(keys, certsData, m), secretMaxSize), secretMaxSize)
    {
      if k + 2 >= |keys| {
        return IndexOutOfRange;
      }
      var szCa := |certsData[keys[k]]| + |keys[k]|;
      var szCrt := |certsData[keys[k + 1]]| + |keys[k + 1]|;
      var szKey := |certsData[keys[k + 2]]| + |keys[k + 2]|;
      var sz := szCa + szCrt + szKey;
      ghost var t, groups, before := TripleAt(keys, certsData, m), Greedy(Triples(keys, certsData, m), secretMaxSize),
                                    ci;
      assert sz == t.Size() && sz > 0;
      assert totalSize + sz > secretMaxSize <==> Opens(groups, t, secretMaxSize);
      if totalSize + sz > secretMaxSize {
        ci := ci + [map[]];
        cur := |ci| - 1;
        totalSize := 0;
      }
      totalSize := totalSize + sz;
      var secret := ci[cur];
      secret := secret[keys[k] := certsData[keys[k]]];
      secret := secret[keys[k + 1] := certsData[keys[k + 1]]];
      secret := secret[keys[k + 2] := certsData[keys[k + 2]]];
      ci := ci[cur := secret];
      GreedyStep(keys, certsData, m, secretMaxSize);
      RoundAdds(groups, t, secretMaxSize, before, ci);
      k := k + 3;
      m := m + 1;
    }
    r := Secrets(ci);
  }

  lemma NothingPacked(keys: seq<string>, data: CertsData, max: int)
    requires forall k | k in keys :: k in data
    ensures Greedy(Triples(keys, data, 0), max) == []
  {
  }
}
