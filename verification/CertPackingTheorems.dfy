/**
 What the packing of certificates achieves: it splits the sorted triples into consecutive
 runs, uses as few secrets as any such split, and fewer than twice as many as any packing.
 */
module CertPackingTheorems {
  import opened SortedKeys
  import opened CertPacking

  // ---------- a partition ----------

  /** No run is empty, and a run exceeds the limit only when it is one oversized triple. */
  ghost predicate WithinLimit(groups: seq<Group>, max: int) {
    forall i | 0 <= i < |groups| :: groups[i] != [] && (GroupSize(groups[i]) <= max || |groups[i]| == 1)
  }

  /** Each run was closed because the first triple of the next one did not fit. */
  ghost predicate Tight(groups: seq<Group>, max: int) {
    forall i | 0 < i < |groups| :: groups[i] != [] && GroupSize(groups[i - 1]) + groups[i][0].Size() > max
  }

  lemma ConcatSnoc(groups: seq<Group>, g: Group)
    ensures Concat(groups + [g]) == Concat(groups) + g
  {
    assert (groups + [g])[..|groups|] == groups;
  }

  lemma AddKeeps(groups: seq<Group>, t: Triple, max: int)
    requires WithinLimit(groups, max) && Tight(groups, max)
    ensures var groups' := Add(groups, t, max);
            WithinLimit(groups', max) && Tight(groups', max) && Concat(groups') == Concat(groups) + [t] && groups' != []
  {
    hide Concat, Triple.Size;
    var groups' := Add(groups, t, max);
    if Opens(groups, t, max) {
      assert GroupSize([t]) == t.Size() by { ContentsSnoc([], t); assert [] + [t] == [t]; }
      ConcatSnoc(groups, [t]);
    } else {
      var n := |groups| - 1;
      ContentsSnoc(groups[n], t);
      ConcatSnoc(groups[..n], groups[n] + [t]);
      ConcatSnoc(groups[..n], groups[n]);
      assert groups[..n] + [groups[n]] == groups;
      assert Concat(groups[..n]) + groups[n] + [t] == Concat(groups[..n]) + (groups[n] + [t]);
      hide GroupSize;
      assert forall i | 0 <= i < n :: groups'[i] == groups[i];
      assert groups'[n] == groups[n] + [t] && groups'[n][0] == groups[n][0];
    }
  }

  lemma NoRuns(max: int)
    ensures WithinLimit([], max) && Tight([], max) && Concat([]) == []
  {
  }

  /** The runs, put together again, are the triples in their order. */
  lemma {:induction false} GreedyCuts(triples: seq<Triple>, max: int)
    ensures var groups := Greedy(triples, max);
            WithinLimit(groups, max) && Tight(groups, max) && Concat(groups) == triples
  {
    hide Concat, WithinLimit, Tight, Add;
    if triples == [] {
      NoRuns(max);
    } else {
      var n := |triples| - 1;
      GreedyCuts(triples[..n], max);
      AddKeeps(Greedy(triples[..n], max), triples[n], max);
      assert triples == triples[..n] + [triples[n]];
    }
  }

  // ---------- the fewest consecutive runs ----------

  /** A split of the triples into consecutive, non-empty runs that all fit. */
  ghost predicate FittingCut(cut: seq<Group>, triples: seq<Triple>, max: int) {
    && Concat(cut) == triples
    && forall i | 0 <= i < |cut| :: cut[i] != [] && GroupSize(cut[i]) <= max
  }

  /** Fewer runs, or as many with less in the last one. */
  ghost predicate NoWorse(groups: seq<Group>, cut: seq<Group>) {
    && |groups| <= |cut|
    && (|groups| == |cut| && groups != [] ==> GroupSize(groups[|groups| - 1]) <= GroupSize(cut[|cut| - 1]))
  }

  /** A fitting cut without its last triple. */
  function Shorter(cut: seq<Group>): seq<Group>
    requires cut != [] && cut[|cut| - 1] != []
  {
    var n := |cut| - 1;
    var last := cut[n];
    if |last| == 1 then cut[..n] else cut[..n] + [last[..|last| - 1]]
  }

  lemma {:induction false} GroupSizePositive(g: Group)
    ensures GroupSize(g) >= 0
  {
  }

  lemma ShorterCut(cut: seq<Group>, triples: seq<Triple>, max: int)
    requires triples != [] && FittingCut(cut, triples, max)
    ensures cut != []
    ensures FittingCut(Shorter(cut), triples[..|triples| - 1], max)
    ensures cut[|cut| - 1][|cut[|cut| - 1]| - 1] == triples[|triples| - 1]
  {
    var n := |cut| - 1;
    var last := cut[n];
    var m := |last| - 1;
    assert cut[..n] + [last] == cut;
    ConcatSnoc(cut[..n], last);
    assert triples[..|triples| - 1] == Concat(cut[..n]) + last[..m];
    if m > 0 {
      ConcatSnoc(cut[..n], last[..m]);
    } else {
      assert Concat(cut[..n]) + last[..m] == Concat(cut[..n]);
    }
  }

  lemma SnocSize(g: Group, t: Triple, whole: Group)
    requires whole == g + [t]
    ensures GroupSize(whole) == GroupSize(g) + t.Size()
    ensures g == [] ==> GroupSize(whole) == t.Size()
  {
    ContentsSnoc(g, t);
    assert GroupSize([]) == 0;
  }

  lemma NoWorseAfterAdd(groups: seq<Group>, cut: seq<Group>, t: Triple, max: int)
    requires cut != [] && cut[|cut| - 1] != [] && GroupSize(cut[|cut| - 1]) <= max
    requires cut[|cut| - 1][|cut[|cut| - 1]| - 1] == t
    requires NoWorse(groups, Shorter(cut)) && (groups == [] ==> Shorter(cut) == [])
    ensures NoWorse(Add(groups, t, max), cut)
  {
    hide GroupSize, Triple.Size;
    var last := cut[|cut| - 1];
    var init := last[..|last| - 1];
    SnocSize(init, t, last);
    SnocSize([], t, [t]);
    GroupSizePositive(init);
    if groups != [] {
      var mine := groups[|groups| - 1];
      SnocSize(mine, t, mine + [t]);
    }
    if |last| == 1 {
      assert init == [];
      assert Shorter(cut) == cut[..|cut| - 1];
    } else {
      assert Shorter(cut) == cut[..|cut| - 1] + [init];
    }
  }

  lemma {:induction false} GreedyIsNoWorse(triples: seq<Triple>, cut: seq<Group>, max: int)
    requires FittingCut(cut, triples, max)
    ensures NoWorse(Greedy(triples, max), cut)
    ensures triples == [] ==> cut == []
    decreases |triples|
  {
    if triples == [] {
      NothingToCut(cut);
    } else {
      var n := |triples| - 1;
      ShorterCut(cut, triples, max);
      GreedyIsNoWorse(triples[..n], Shorter(cut), max);
      hide GroupSize, Add;
      GreedyNonempty(triples[..n], max);
      NoWorseAfterAdd(Greedy(triples[..n], max), cut, triples[n], max);
    }
  }

  lemma NothingToCut(cut: seq<Group>)
    requires Concat(cut) == [] && forall i | 0 <= i < |cut| :: cut[i] != []
    ensures cut == []
  {
  }

  lemma GreedyNonempty(triples: seq<Triple>, max: int)
    ensures Greedy(triples, max) == [] <==> triples == []
  {
  }

  /** No split of the sorted triples into consecutive runs that fit uses fewer secrets. */
  lemma PackingIsOptimalCut(data: CertsData, max: int, cut: seq<Group>)
    requires var keys := Sorted(data.Keys); FittingCut(cut, Triples(keys, data, |keys| / 3), max)
    ensures |Packed(max, data)| <= |cut|
  {
    var keys := Sorted(data.Keys);
    GreedyIsNoWorse(Triples(keys, data, |keys| / 3), cut, max);
  }

  // ---------- the total size ----------

  function TotalSize(ts: seq<Triple>): nat {
    if ts == [] then 0 else TotalSize(ts[..|ts| - 1]) + ts[|ts| - 1].Size()
  }

  lemma {:induction false} TotalIsGroupSize(g: Group)
    ensures GroupSize(g) == TotalSize(g)
  {
    if g != [] { TotalIsGroupSize(g[..|g| - 1]); }
  }

  lemma {:induction false} TotalOfConcat(a: seq<Triple>, b: seq<Triple>)
    ensures TotalSize(a + b) == TotalSize(a) + TotalSize(b)
    decreases |b|
  {
    if b == [] {
      assert a + b == a;
    } else {
      var n := |b| - 1;
      assert (a + b)[..|a| + n] == a + b[..n];
      TotalOfConcat(a, b[..n]);
    }
  }

  lemma TotalOfOne(x: Triple)
    ensures TotalSize([x]) == x.Size()
  {
    assert [x][..0] == [];
  }

  lemma OneMore(n: nat, x: int)
    ensures (n + 1) * x == n * x + x
  {
  }

  lemma ConcatTotal(groups: seq<Group>, g: Group)
    ensures TotalSize(Concat(groups + [g])) == TotalSize(Concat(groups)) + GroupSize(g)
  {
    ConcatSnoc(groups, g);
    TotalOfConcat(Concat(groups), g);
    TotalIsGroupSize(g);
  }

  /** Two consecutive runs of a tight cut hold more than the limit together. */
  lemma {:induction false} TightHoldsMore(groups: seq<Group>, max: int)
    requires Tight(groups, max)
    ensures TotalSize(Concat(groups)) >= (|groups| / 2) * (max + 1)
    decreases |groups|
  {
    if |groups| >= 2 {
      hide GroupSize, TotalSize, Concat, Triple.Size;
      var n := |groups| - 2;
      var init, a, b := groups[..n], groups[n], groups[n + 1];
      assert Tight(init, max);
      assert GroupSize(a) + b[0].Size() > max by { assert groups[n + 1 - 1] == a; }
      hide Tight;
      TightHoldsMore(init, max);
      assert groups == (init + [a]) + [b];
      ConcatTotal(init, a);
      ConcatTotal(init + [a], b);
      FirstIsPart(b);
      TotalIsGroupSize(b);
      assert |groups| / 2 == n / 2 + 1;
      OneMore(n / 2, max + 1);
    }
  }

  lemma FirstIsPart(g: Group)
    requires g != []
    ensures TotalSize(g) >= g[0].Size()
  {
    TotalOfConcat([g[0]], g[1..]);
    TotalOfOne(g[0]);
    assert [g[0]] + g[1..] == g;
  }

  lemma Monotone(a: nat, b: nat, x: nat)
    requires a <= b
    ensures a * x <= b * x
  {
  }

  lemma CountBound(h: nat, b: nat, max: nat)
    requires b > 0 && h * (max + 1) <= b * max
    ensures h < b
  {
    assert b * (max + 1) == b * max + b;
    if h >= b { Monotone(b, h, max + 1); }
  }

  // ---------- nothing is lost and nothing is stored twice ----------

  /** The data of several secrets, put together. */
  function Merged(secrets: seq<CertsData>): CertsData {
    if secrets == [] then map[] else Merged(secrets[..|secrets| - 1]) + secrets[|secrets| - 1]
  }

  lemma MapUnionAssociates(a: CertsData, b: CertsData, c: CertsData)
    ensures a + (b + c) == a + b + c
  {
  }

  lemma ContentsStep(g: Group, t: Triple)
    ensures Contents(g + [t]) == Contents(g) + t.Entries()
  {
    assert (g + [t])[..|g|] == g;
  }

  lemma {:induction false} ContentsOfConcat(a: Group, b: Group)
    ensures Contents(a + b) == Contents(a) + Contents(b)
    decreases |b|
  {
    if b == [] {
      assert a + b == a;
    } else {
      hide Contents, Triple.Entries;
      var n := |b| - 1;
      assert a + b == a + b[..n] + [b[n]] && b == b[..n] + [b[n]];
      ContentsStep(a + b[..n], b[n]);
      ContentsStep(b[..n], b[n]);
      ContentsOfConcat(a, b[..n]);
      MapUnionAssociates(Contents(a), Contents(b[..n]), b[n].Entries());
    }
  }

  lemma {:induction false} MergedIsContents(secrets: seq<CertsData>, groups: seq<Group>)
    requires Filled(secrets, groups)
    ensures Merged(secrets) == Contents(Concat(groups))
  {
    hide Contents;
    if groups == [] {
      NothingIn();
    } else {
      var n := |groups| - 1;
      MergedIsContents(secrets[..n], groups[..n]);
      ContentsOfConcat(Concat(groups[..n]), groups[n]);
    }
  }

  lemma NothingIn()
    ensures Contents([]) == map[] && Concat([]) == []
  {
  }

  /** The entries under the first `n` keys. */
  function Restrict(keys: seq<string>, data: CertsData, n: nat): CertsData
    requires n <= |keys| && forall k | k in keys :: k in data
  {
    map k | k in keys[..n] :: data[k]
  }

  /** The entries that the packing takes: all of them, but for the last one when one is over. */
  function Kept(data: CertsData): CertsData {
    var keys := Sorted(data.Keys);
    Restrict(keys, data, 3 * (|keys| / 3))
  }

  lemma RestrictStep(keys: seq<string>, data: CertsData, n: nat)
    requires n < |keys| && forall k | k in keys :: k in data
    ensures Restrict(keys, data, n + 1) == Restrict(keys, data, n)[keys[n] := data[keys[n]]]
  {
    assert keys[..n + 1] == keys[..n] + [keys[n]];
  }

  lemma {:induction false} ContentsOfTriples(keys: seq<string>, data: CertsData, m: nat)
    requires 3 * m <= |keys| && (forall k | k in keys :: k in data)
    ensures Contents(Triples(keys, data, m)) == Restrict(keys, data, 3 * m)
  {
    hide Contents, TripleAt;
    if m == 0 {
      NothingIn();
      assert Restrict(keys, data, 0) == map[];
    } else {
      ContentsOfTriples(keys, data, m - 1);
      OneMoreTriple(keys, data, m - 1, Triples(keys, data, m - 1));
    }
  }

  lemma OneMoreTriple(keys: seq<string>, data: CertsData, i: nat, g: Group)
    requires 3 * i + 2 < |keys| && (forall k | k in keys :: k in data) && Contents(g) == Restrict(keys, data, 3 * i)
    ensures Contents(g + [TripleAt(keys, data, i)]) == Restrict(keys, data, 3 * (i + 1))
  {
    hide Contents, Restrict;
    var k := 3 * i;
    ContentsSnoc(g, TripleAt(keys, data, i));
    RestrictStep(keys, data, k);
    RestrictStep(keys, data, k + 1);
    RestrictStep(keys, data, k + 2);
    assert 3 * (i + 1) == k + 3;
  }

  lemma {:induction false} DistinctCount(s: seq<string>)
    requires forall i, j | 0 <= i < j < |s| :: s[i] != s[j]
    ensures |set x | x in s| == |s|
  {
    if s != [] {
      var n := |s| - 1;
      DistinctCount(s[..n]);
      assert (set x | x in s) == (set x | x in s[..n]) + {s[n]};
    }
  }

  lemma {:induction false} ContentsAtMost(g: Group)
    ensures |Contents(g).Keys| <= 3 * |g|
  {
    if g != [] {
      var n := |g| - 1;
      ContentsAtMost(g[..n]);
      var t := g[n];
      assert Contents(g).Keys == Contents(g[..n]).Keys + {t.ca.key, t.crt.key, t.tlsKey.key};
    }
  }

  /** Triples whose keys are all different share none between two parts. */
  lemma PartsAreDisjoint(a: Group, b: Group)
    requires |Contents(a + b).Keys| == 3 * |a + b|
    ensures Contents(a).Keys !! Contents(b).Keys && |Contents(a).Keys| == 3 * |a| && |Contents(b).Keys| == 3 * |b|
  {
    ContentsOfConcat(a, b);
    ContentsAtMost(a);
    ContentsAtMost(b);
    hide Contents;
    var ka, kb := Contents(a).Keys, Contents(b).Keys;
    assert Contents(a + b).Keys == ka + kb;
    assert |ka + kb| == |ka| + |kb| - |ka * kb|;
    assert |ka * kb| == 0;
    assert ka * kb == {};
    assert forall x :: x in ka && x in kb ==> x in ka * kb;
  }

  lemma {:induction false} GroupsAreDisjoint(groups: seq<Group>)
    requires |Contents(Concat(groups)).Keys| == 3 * |Concat(groups)|
    ensures forall i, j | 0 <= i < j < |groups| :: Contents(groups[i]).Keys !! Contents(groups[j]).Keys
    ensures forall i | 0 <= i < |groups| :: Contents(groups[i]).Keys <= Contents(Concat(groups)).Keys
  {
    hide Contents;
    if groups != [] {
      var n := |groups| - 1;
      PartsAreDisjoint(Concat(groups[..n]), groups[n]);
      ContentsOfConcat(Concat(groups[..n]), groups[n]);
      GroupsAreDisjoint(groups[..n]);
    }
  }

  /** The secrets partition the certificates: no key is in two of them, together they hold
      exactly the kept entries, none is empty, and one exceeds the limit only for a single
      triple that does. */
  lemma PackingIsPartition(data: CertsData, max: int, secrets: seq<CertsData>)
    requires Filled(secrets, Packed(max, data))
    ensures forall i, j | 0 <= i < j < |secrets| :: secrets[i].Keys !! secrets[j].Keys
    ensures Merged(secrets) == Kept(data)
    ensures WithinLimit(Packed(max, data), max) && forall i | 0 <= i < |secrets| :: secrets[i] != map[]
  {
    hide Sorted, Greedy, Triples, Tight, Concat, Merged, Contents, Restrict, GroupSize;
    var keys := Sorted(data.Keys);
    var triples := Triples(keys, data, |keys| / 3);
    var groups := Packed(max, data);
    GreedyCuts(triples, max);
    MergedIsContents(secrets, groups);
    ContentsOfTriples(keys, data, |keys| / 3);
    KeptCount(data);
    GroupsAreDisjoint(groups);
    forall i | 0 <= i < |secrets|
      ensures secrets[i] != map[]
    {
      SomethingIn(groups[i]);
    }
  }

  lemma SomethingIn(g: Group)
    requires g != []
    ensures Contents(g) != map[]
  {
    assert g[|g| - 1].ca.key in Contents(g);
  }

  lemma KeptCount(data: CertsData)
    ensures |Kept(data).Keys| == 3 * (|data| / 3)
  {
    var keys := Sorted(data.Keys);
    SortedIncreasing(data.Keys);
    IncreasingDistinct(keys);
    hide Sorted, Increasing;
    var n := 3 * (|keys| / 3);
    DistinctCount(keys[..n]);
    assert Kept(data).Keys == set x | x in keys[..n];
  }

  /** The packing loses nothing exactly when the keys divide by three; a key that is over is
      the last one, and it is lost. */
  lemma KeptIff(data: CertsData)
    ensures Kept(data) == data <==> |data| % 3 == 0
    ensures |data| % 3 == 1 ==> Kept(data) == data - {Sorted(data.Keys)[|data| - 1]}
  {
    KeptCount(data);
    if |data| % 3 == 0 { KeptAll(data); }
    if |data| % 3 == 1 { KeptAllButLast(data); }
  }

  lemma KeptAll(data: CertsData)
    requires |data| % 3 == 0
    ensures Kept(data) == data
  {
    var keys := Sorted(data.Keys);
    hide Sorted;
    assert keys[..3 * (|keys| / 3)] == keys;
  }

  lemma KeptAllButLast(data: CertsData)
    requires |data| % 3 == 1
    ensures Kept(data) == data - {Sorted(data.Keys)[|data| - 1]}
  {
    var keys := Sorted(data.Keys);
    SortedIncreasing(data.Keys);
    IncreasingDistinct(keys);
    hide Sorted, Increasing, Restrict;
    RestrictAllButLast(keys, data, |keys| - 1);
    assert 3 * (|keys| / 3) == |keys| - 1;
  }

  lemma RestrictAllButLast(keys: seq<string>, data: CertsData, n: nat)
    requires |keys| == n + 1 && (forall k :: k in keys <==> k in data)
             && forall i, j | 0 <= i < j < |keys| :: keys[i] != keys[j]
    ensures Restrict(keys, data, n) == data - {keys[n]}
  {
    assert keys == keys[..n] + [keys[n]];
  }

  // ---------- against any packing ----------

  /** The size of the data of a secret: its keys and its values. */
  ghost function DataSize(m: CertsData): nat
    decreases |m|
  {
    if m == map[] then 0
    else
      var k :| k in m;
      |k| + |m[k]| + DataSize(m - {k})
  }

  lemma {:induction false} SizeWithout(m: CertsData, k: string)
    requires k in m
    ensures DataSize(m) == |k| + |m[k]| + DataSize(m - {k})
    decreases |m|
  {
    var k' :| k' in m && DataSize(m) == |k'| + |m[k']| + DataSize(m - {k'});
    if k' != k {
      SizeWithout(m - {k'}, k);
      SizeWithout(m - {k}, k');
      assert m - {k'} - {k} == m - {k} - {k'};
    }
  }

  lemma SizeWithOneMore(m: CertsData, k: string, v: Bytes)
    requires k !in m
    ensures DataSize(m[k := v]) == DataSize(m) + |k| + |v|
  {
    SizeWithout(m[k := v], k);
    assert m[k := v] - {k} == m;
  }

  /** The triples are as large as the entries that the packing takes. */
  lemma {:induction false} TriplesHaveSize(keys: seq<string>, data: CertsData, m: nat)
    requires 3 * m <= |keys| && (forall k | k in keys :: k in data)
    requires forall i, j | 0 <= i < j < |keys| :: keys[i] != keys[j]
    ensures TotalSize(Triples(keys, data, m)) == DataSize(Restrict(keys, data, 3 * m))
    decreases m
  {
    hide DataSize, Restrict, TripleAt, TotalSize, Triple.Size;
    if m == 0 {
      NoTriples(keys, data);
    } else {
      TriplesHaveSize(keys, data, m - 1);
      TotalSnoc(Triples(keys, data, m - 1), TripleAt(keys, data, m - 1));
      OneTripleHasSize(keys, data, m - 1);
      assert 3 * (m - 1) + 3 == 3 * m;
    }
  }

  lemma NoTriples(keys: seq<string>, data: CertsData)
    requires forall k | k in keys :: k in data
    ensures TotalSize([]) == DataSize(Restrict(keys, data, 0)) == 0
  {
    assert Restrict(keys, data, 0) == map[];
    SizeOfNothing();
  }

  lemma TotalSnoc(ts: seq<Triple>, t: Triple)
    ensures TotalSize(ts + [t]) == TotalSize(ts) + t.Size()
  {
    assert (ts + [t])[..|ts|] == ts;
  }

  lemma OneTripleHasSize(keys: seq<string>, data: CertsData, i: nat)
    requires 3 * i + 2 < |keys| && (forall k | k in keys :: k in data)
    requires forall i, j | 0 <= i < j < |keys| :: keys[i] != keys[j]
    ensures DataSize(Restrict(keys, data, 3 * i + 3))
         == DataSize(Restrict(keys, data, 3 * i)) + TripleAt(keys, data, i).Size()
  {
    hide DataSize, Restrict;
    var n := 3 * i;
    SizeOfOneKeyMore(keys, data, n);
    SizeOfOneKeyMore(keys, data, n + 1);
    SizeOfOneKeyMore(keys, data, n + 2);
    SizeOfTriple(keys, data, i);
  }

  lemma SizeOfOneKeyMore(keys: seq<string>, data: CertsData, n: nat)
    requires n < |keys| && (forall k | k in keys :: k in data)
    requires forall i, j | 0 <= i < j < |keys| :: keys[i] != keys[j]
    ensures DataSize(Restrict(keys, data, n + 1)) == DataSize(Restrict(keys, data, n)) + |keys[n]| + |data[keys[n]]|
  {
    hide DataSize;
    RestrictStep(keys, data, n);
    assert keys[n] !in keys[..n];
    SizeWithOneMore(Restrict(keys, data, n), keys[n], data[keys[n]]);
  }

  lemma SizeOfTriple(keys: seq<string>, data: CertsData, i: nat)
    requires 3 * i + 2 < |keys| && forall k | k in keys :: k in data
    ensures var n := 3 * i;
            TripleAt(keys, data, i).Size() == |keys[n]| + |data[keys[n]]| + |keys[n + 1]| + |data[keys[n + 1]]|
                                              + |keys[n + 2]| + |data[keys[n + 2]]|
  {
  }

  lemma SizeOfNothing()
    ensures DataSize(map[]) == 0
  {
  }

  /** Every entry of `m` is in one of the bins. */
  ghost predicate Covers(bins: seq<CertsData>, m: CertsData) {
    forall k | k in m :: exists i :: 0 <= i < |bins| && Holds(bins[i], k, m[k])
  }

  predicate Holds(bin: CertsData, k: string, v: Bytes) {
    k in bin && bin[k] == v
  }

  function Outside(m: CertsData, bin: CertsData): CertsData {
    map k | k in m && !Holds(bin, k, m[k]) :: m[k]
  }

  /** What one bin holds of `m` is no larger than the bin. */
  lemma {:induction false} OneBinHolds(m: CertsData, bin: CertsData)
    ensures DataSize(m) <= DataSize(Outside(m, bin)) + DataSize(bin)
    decreases |m|
  {
    hide DataSize;
    SizeOfNothing();
    if m != map[] {
      var k :| k in m;
      var m' := m - {k};
      SizeWithout(m, k);
      if Holds(bin, k, m[k]) {
        OneBinHolds(m', bin - {k});
        SizeWithout(bin, k);
        assert Outside(m', bin - {k}) == Outside(m, bin);
      } else {
        OneBinHolds(m', bin);
        SizeWithout(Outside(m, bin), k);
        assert Outside(m, bin) - {k} == Outside(m', bin);
      }
    }
  }

  lemma {:induction false} BinsHoldAtMost(bins: seq<CertsData>, m: CertsData, max: int)
    requires Covers(bins, m) && forall i | 0 <= i < |bins| :: DataSize(bins[i]) <= max
    ensures DataSize(m) <= |bins| * max
    decreases |bins|
  {
    hide DataSize, Holds;
    if bins == [] {
      assert m == map[];
      SizeOfNothing();
    } else {
      var n := |bins| - 1;
      var rest := Outside(m, bins[n]);
      forall k | k in rest
        ensures exists i :: 0 <= i < n && Holds(bins[..n][i], k, rest[k])
      {
        var i :| 0 <= i < |bins| && Holds(bins[i], k, m[k]);
        assert bins[..n][i] == bins[i];
      }
      BinsHoldAtMost(bins[..n], rest, max);
      OneBinHolds(m, bins[n]);
      OneMore(n, max);
    }
  }

  lemma SomethingKept(data: CertsData)
    requires |data| >= 3
    ensures exists k :: k in Kept(data)
  {
    KeptCount(data);
    assert Kept(data).Keys != {};
    var k :| k in Kept(data).Keys;
    assert k in Kept(data);
  }

  /** Fewer than twice as many secrets as any secrets of that size that together hold the entries,
      however they split the triples. */
  lemma PackingIsWithinTwice(data: CertsData, max: int, bins: seq<CertsData>)
    requires |data| >= 3 && Covers(bins, Kept(data)) && forall i | 0 <= i < |bins| :: DataSize(bins[i]) <= max
    ensures |Packed(max, data)| < 2 * |bins|
  {
    var keys := Sorted(data.Keys);
    SortedIncreasing(data.Keys);
    IncreasingDistinct(keys);
    KeptCount(data);
    hide Sorted, Increasing;
    var triples := Triples(keys, data, |keys| / 3);
    var groups := Packed(max, data);
    TriplesHaveSize(keys, data, |keys| / 3);
    hide Triples, Restrict, DataSize;
    GreedyCuts(triples, max);
    BinsHoldAtMost(bins, Kept(data), max);
    TightHoldsMore(groups, max);
    hide Greedy, Tight, WithinLimit, Concat, TotalSize;
    SomethingKept(data);
    assert DataSize(bins[0]) <= max;
    CountBound(|groups| / 2, |bins|, max);
  }
}
