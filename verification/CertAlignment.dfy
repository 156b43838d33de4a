/**
 Three keys per node: whether the byte order keeps the CA, the certificate and the key of
 each node together, so that packing by threes puts them into one secret
 (pkg/deployment/cert.go).
 */
module CertAlignment {
  import opened SortedKeys
  import opened CertPacking
  import opened CertPackingTheorems

  /** What the keys of a node add to its base name and a dash, in byte order. */
  function Tail(i: nat): string {
    if i == 0 then "ca.crt" else if i == 1 then "tls.crt" else "tls.key"
  }

  function KeyAt(base: string, i: nat): string {
    base + "-" + Tail(i)
  }

  function AllKeys(bases: set<string>): set<string> {
    set b, i: nat | b in bases && i < 3 :: KeyAt(b, i)
  }

  lemma KeyNames(base: string)
    ensures KeyAt(base, 0) == base + "-ca.crt" && KeyAt(base, 1) == base + "-tls.crt"
            && KeyAt(base, 2) == base + "-tls.key"
  {
  }

  /** The keys of `b` fall between the keys of `a`: `b` extends `a` by a dash and a rest that
      lies between the two ends. */
  predicate Straddles(a: string, b: string) {
    |b| > |a| && b[..|a| + 1] == a + "-" && Less("ca.crt", b[|a| + 1..] + "-") && Less(b[|a| + 1..] + "-", "tls.key")
  }

  // ---------- strings between two others ----------

  lemma {:induction false} BetweenHasPrefix(p: string, u: string, v: string, x: string)
    requires Less(p + u, x) && Less(x, p + v)
    ensures |x| >= |p| && x[..|p|] == p
  {
    if p != [] {
      assert (p + u)[1..] == p[1..] + u && (p + v)[1..] == p[1..] + v;
      BetweenHasPrefix(p[1..], u, v, x[1..]);
      assert x == [x[0]] + x[1..] && p == [p[0]] + p[1..];
      assert x[..|p|] == [x[0]] + x[1..][..|p| - 1];
    }
  }

  /** A string without a dash compares with `rest + "-" + tail` as it does with `rest + "-"`. */
  lemma {:induction false} DashDecides(point: string, rest: string, tail: string)
    requires '-' !in point
    ensures Less(point, rest + "-" + tail) <==> Less(point, rest + "-")
    ensures Less(rest + "-" + tail, point) <==> Less(rest + "-", point)
  {
    if rest == [] {
      assert ([] + "-" + tail)[0] == '-' && ([] + "-")[0] == '-';
      assert point != [] ==> point[0] in point && point[0] != '-';
    } else {
      assert (rest + "-" + tail)[1..] == rest[1..] + "-" + tail && (rest + "-")[1..] == rest[1..] + "-";
      if point != [] {
        assert forall c :: c in point[1..] ==> c in point;
        DashDecides(point[1..], rest[1..], tail);
      }
    }
  }

  /** A key of another base that starts with `a` and a dash belongs to a base that does. */
  lemma BaseHasPrefix(a: string, b: string, i: nat)
    requires i < 3 && a != b
    requires var x := KeyAt(b, i); |x| > |a| && x[..|a| + 1] == a + "-"
    ensures |b| > |a| && b[..|a| + 1] == a + "-"
  {
    var x := KeyAt(b, i);
    assert x[..|a| + 1][|a|] == '-' && x[..|a| + 1][..|a|] == a;
    assert x[|a|] == '-' && x[..|a|] == a && x[..|b|] == b;
    assert '-' !in Tail(i);
    assert forall k | |b| + 1 <= k < |x| :: x[k] == Tail(i)[k - |b| - 1];
    assert |a| < |b|;
    assert b[..|a| + 1] == x[..|a| + 1];
  }

  /** A key of another base lies between the first and the last key of `a` if and only if that
      base straddles `a`. */
  lemma BetweenIff(a: string, b: string, i: nat)
    requires i < 3 && a != b
    ensures Less(KeyAt(a, 0), KeyAt(b, i)) && Less(KeyAt(b, i), KeyAt(a, 2)) <==> Straddles(a, b)
  {
    var p, x := a + "-", KeyAt(b, i);
    if Less(KeyAt(a, 0), x) && Less(x, KeyAt(a, 2)) {
      BetweenHasPrefix(p, "ca.crt", "tls.key", x);
      BaseHasPrefix(a, b, i);
      StraddlesIff(a, b, i);
    } else if |b| > |a| && b[..|a| + 1] == p {
      StraddlesIff(a, b, i);
    }
  }

  lemma StraddlesIff(a: string, b: string, i: nat)
    requires i < 3 && |b| > |a| && b[..|a| + 1] == a + "-"
    ensures Less(KeyAt(a, 0), KeyAt(b, i)) && Less(KeyAt(b, i), KeyAt(a, 2)) <==> Straddles(a, b)
  {
    hide Less;
    var p, rest := a + "-", b[|a| + 1..];
    assert KeyAt(b, i) == p + (rest + "-" + Tail(i));
    LessAfterPrefix(p, "ca.crt", rest + "-" + Tail(i));
    LessAfterPrefix(p, rest + "-" + Tail(i), "tls.key");
    DashDecides("ca.crt", rest, Tail(i));
    DashDecides("tls.key", rest, Tail(i));
  }

  // ---------- the keys of one base, and of two ----------

  lemma OwnOrder(a: string)
    ensures Less(KeyAt(a, 0), KeyAt(a, 1)) && Less(KeyAt(a, 1), KeyAt(a, 2)) && Less(KeyAt(a, 0), KeyAt(a, 2))
  {
    LessAfterPrefix(a + "-", "ca.crt", "tls.crt");
    assert Less("tls.crt", "tls.key") by {
      LessAfterPrefix("tls.", "crt", "key");
      assert "tls." + "crt" == "tls.crt" && "tls." + "key" == "tls.key";
    }
    LessAfterPrefix(a + "-", "tls.crt", "tls.key");
    LessTransitive(KeyAt(a, 0), KeyAt(a, 1), KeyAt(a, 2));
  }

  /** The ends of the tails tell them apart. */
  lemma TailsDiffer(p: string, q: string, i: nat, j: nat)
    requires i < 3 && j < 3 && i != j
    ensures p + Tail(i) != q + Tail(j)
  {
    var x, y := p + Tail(i), q + Tail(j);
    assert x[|x| - 1] == Tail(i)[|Tail(i)| - 1] && y[|y| - 1] == Tail(j)[|Tail(j)| - 1];
    assert x[|x| - 5] == Tail(i)[|Tail(i)| - 5] && y[|y| - 5] == Tail(j)[|Tail(j)| - 5];
  }

  /** A key tells its base and its place. */
  lemma KeysDiffer(a: string, b: string, i: nat, j: nat)
    requires i < 3 && j < 3 && KeyAt(a, i) == KeyAt(b, j)
    ensures a == b && i == j
  {
    if i != j { TailsDiffer(a + "-", b + "-", i, j); }
    var x := KeyAt(a, i);
    assert x[..|x| - |Tail(i)| - 1] == a && KeyAt(b, i)[..|KeyAt(b, i)| - |Tail(i)| - 1] == b;
  }

  // ---------- alignment ----------

  /** The `i`-th triple of the sorted keys holds the three keys of the base `b`. */
  predicate HoldsBase(keys: seq<string>, i: int, b: string) {
    0 <= i && 3 * i + 3 <= |keys| && keys[3 * i] == KeyAt(b, 0) && keys[3 * i + 1] == KeyAt(b, 1)
      && keys[3 * i + 2] == KeyAt(b, 2)
  }

  ghost predicate SortedOf(keys: seq<string>, bases: set<string>) {
    Increasing(keys) && forall k :: k in keys <==> k in AllKeys(bases)
  }

  lemma OrderOfPlaces(keys: seq<string>, i: nat, j: nat)
    requires Increasing(keys) && i < |keys| && j < |keys|
    ensures Less(keys[i], keys[j]) <==> i < j
  {
    if j < i { LessAsymmetric(keys[j], keys[i]); }
    if i == j { LessIrreflexive(keys[i]); }
  }

  lemma PlaceOf(keys: seq<string>, bases: set<string>, b: string, i: nat) returns (j: nat)
    requires SortedOf(keys, bases) && b in bases && i < 3
    ensures j < |keys| && keys[j] == KeyAt(b, i)
  {
    assert KeyAt(b, i) in keys;
    j :| 0 <= j < |keys| && keys[j] == KeyAt(b, i);
  }

  lemma BaseOf(keys: seq<string>, bases: set<string>, j: nat) returns (b: string, i: nat)
    requires SortedOf(keys, bases) && j < |keys|
    ensures b in bases && i < 3 && keys[j] == KeyAt(b, i)
  {
    assert keys[j] in AllKeys(bases);
    b, i :| b in bases && i < 3 && keys[j] == KeyAt(b, i);
  }

  lemma StraddlingBreaks(bases: set<string>, keys: seq<string>, a: string, b: string, i: int)
    requires SortedOf(keys, bases) && b in bases && Straddles(a, b)
    ensures !HoldsBase(keys, i, a)
  {
    hide Less, KeyAt;
    if HoldsBase(keys, i, a) {
      BetweenIff(a, b, 0);
      var j := PlaceOf(keys, bases, b, 0);
      hide SortedOf, Straddles;
      OrderOfPlaces(keys, 3 * i, j);
      OrderOfPlaces(keys, j, 3 * i + 2);
      KeysDiffer(b, a, 0, 1);
    }
  }

  /** When nothing straddles `b`, a key of `b` is directly followed by its next one. */
  lemma NextKey(keys: seq<string>, bases: set<string>, b: string, p: nat, i: nat)
    requires SortedOf(keys, bases) && b in bases && (forall a | a in bases :: !Straddles(b, a))
    requires i < 2 && p < |keys| && keys[p] == KeyAt(b, i)
    ensures p + 1 < |keys| && keys[p + 1] == KeyAt(b, i + 1)
  {
    hide Less, KeyAt, Straddles;
    var next := i + 1;
    var j := PlaceOf(keys, bases, b, next);
    OwnOrder(b);
    assert Less(keys[p], keys[j]);
    OrderOfPlaces(keys, p, j);
    if p + 1 < j {
      var c, m := BaseOf(keys, bases, p + 1);
      OrderOfPlaces(keys, p, p + 1);
      OrderOfPlaces(keys, p + 1, j);
      Enclosed(b, i, c, m);
    }
  }

  /** No key of any base that does not straddle `b` lies between two consecutive keys of `b`. */
  lemma Enclosed(b: string, i: nat, c: string, m: nat)
    requires i < 2 && m < 3 && !Straddles(b, c)
    ensures !(Less(KeyAt(b, i), KeyAt(c, m)) && Less(KeyAt(c, m), KeyAt(b, i + 1)))
  {
    hide KeyAt, Less, Straddles;
    var next := i + 1;
    var x := KeyAt(c, m);
    if Less(KeyAt(b, i), x) && Less(x, KeyAt(b, next)) {
      OwnOrder(b);
      if i == 1 { LessTransitive(KeyAt(b, 0), KeyAt(b, 1), x); }
      if i == 0 { LessTransitive(x, KeyAt(b, 1), KeyAt(b, 2)); }
      if c == b {
        if m <= i {
          if m < i { LessAsymmetric(x, KeyAt(b, i)); } else { LessIrreflexive(x); }
        } else {
          if next < m { LessAsymmetric(KeyAt(b, next), x); } else { LessIrreflexive(x); }
        }
      } else {
        BetweenIff(b, c, m);
      }
    }
  }

  ghost predicate NoStraddling(bases: set<string>) {
    forall a, b | a in bases && b in bases :: !Straddles(a, b)
  }

  /** Each base has a triple of its own. */
  ghost predicate Aligned(keys: seq<string>, bases: set<string>) {
    forall b | b in bases :: exists i :: HoldsBase(keys, i, b)
  }

  ghost predicate Whole(keys: seq<string>, i: int) {
    exists c :: HoldsBase(keys, i, c)
  }

  lemma InTriple(keys: seq<string>, i: nat, c: string, p: nat, b: string, m: nat)
    requires HoldsBase(keys, i, c) && 3 * i <= p < 3 * i + 3 && m < 3 && keys[p] == KeyAt(b, m)
    ensures c == b && p == 3 * i + m
  {
    hide KeyAt;
    KeysDiffer(c, b, p - 3 * i, m);
  }

  /** A key that starts a triple, when all triples before are whole, is the first of its base. */
  lemma StartsItsBase(keys: seq<string>, bases: set<string>, i: nat, b: string, m: nat)
    requires SortedOf(keys, bases) && 3 * i < |keys| && b in bases && m < 3 && keys[3 * i] == KeyAt(b, m)
    requires forall i' | 0 <= i' < i :: Whole(keys, i')
    ensures m == 0
  {
    hide KeyAt, Less;
    if m > 0 {
      var p := PlaceOf(keys, bases, b, 0);
      OwnOrder(b);
      OrderOfPlaces(keys, p, 3 * i);
      var i' := p / 3;
      assert Whole(keys, i');
      var c :| HoldsBase(keys, i', c);
      InTriple(keys, i', c, p, b, 0);
      var q := p + m;
      assert keys[q] == keys[3 * i];
      IncreasingDistinct(keys);
    }
  }

  lemma {:induction false} WholeTriple(keys: seq<string>, bases: set<string>, i: nat)
    requires SortedOf(keys, bases) && NoStraddling(bases) && 3 * i < |keys|
    ensures exists b :: b in bases && HoldsBase(keys, i, b)
    decreases i
  {
    forall i' | 0 <= i' < i
      ensures Whole(keys, i')
    {
      WholeTriple(keys, bases, i');
    }
    hide KeyAt, Less, Straddles;
    var b, m := BaseOf(keys, bases, 3 * i);
    StartsItsBase(keys, bases, i, b, m);
    NextKey(keys, bases, b, 3 * i, 0);
    NextKey(keys, bases, b, 3 * i + 1, 1);
    assert HoldsBase(keys, i, b);
  }

  /** Sorting keeps the three keys of every node in one aligned triple if and only if no base
      name extends another one by a dash and a rest that lies between "ca.crt" and "tls.key". */
  lemma AlignedIff(bases: set<string>)
    ensures Aligned(Sorted(AllKeys(bases)), bases) <==> NoStraddling(bases)
  {
    var keys := Sorted(AllKeys(bases));
    SortedIncreasing(AllKeys(bases));
    hide Sorted, Straddles, KeyAt, Increasing;
    assert SortedOf(keys, bases);
    if NoStraddling(bases) {
      forall b | b in bases
        ensures exists i :: HoldsBase(keys, i, b)
      {
        var p := PlaceOf(keys, bases, b, 0);
        WholeTriple(keys, bases, p / 3);
        var c :| c in bases && HoldsBase(keys, p / 3, c);
        InTriple(keys, p / 3, c, p, b, 0);
      }
    }
    if Aligned(keys, bases) {
      forall a, b | a in bases && b in bases
        ensures !Straddles(a, b)
      {
        var i :| HoldsBase(keys, i, a);
        if Straddles(a, b) { StraddlingBreaks(bases, keys, a, b, i); }
      }
    }
  }

  /** Base names none of which extends another one by a dash never straddle. */
  lemma NoExtensionNoStraddling(bases: set<string>)
    requires forall a, b | a in bases && b in bases :: !(a + "-" <= b)
    ensures NoStraddling(bases)
  {
  }

  // ---------- into one secret ----------

  lemma {:induction false} InSomeGroup(groups: seq<Group>, t: Triple) returns (g: nat)
    requires t in Concat(groups)
    ensures g < |groups| && t in groups[g]
  {
    var n := |groups| - 1;
    if t in groups[n] {
      g := n;
    } else {
      g := InSomeGroup(groups[..n], t);
    }
  }

  lemma {:induction false} EntriesInContents(g: Group, t: Triple)
    requires t in g
    ensures {t.ca.key, t.crt.key, t.tlsKey.key} <= Contents(g).Keys
  {
    var n := |g| - 1;
    if t != g[n] {
      assert t in g[..n];
      EntriesInContents(g[..n], t);
    }
  }

  /** When no base straddles another, one secret holds all three keys of a node. */
  lemma NodeInOneSecret(data: CertsData, max: int, bases: set<string>, b: string) returns (g: nat)
    requires data.Keys == AllKeys(bases) && NoStraddling(bases) && b in bases
    ensures g < |Packed(max, data)|
    ensures {KeyAt(b, 0), KeyAt(b, 1), KeyAt(b, 2)} <= Contents(Packed(max, data)[g]).Keys
  {
    AlignedIff(bases);
    hide Sorted, Straddles, KeyAt, AllKeys, Greedy, Contents, Tight, WithinLimit;
    var keys := Sorted(data.Keys);
    var m := |keys| / 3;
    var i :| HoldsBase(keys, i, b);
    var triples := Triples(keys, data, m);
    TriplesAt(keys, data, m, i);
    GreedyCuts(triples, max);
    hide Concat, Triples;
    g := InSomeGroup(Packed(max, data), triples[i]);
    EntriesInContents(Packed(max, data)[g], triples[i]);
  }

  // ---------- only then ----------

  /** Some secret of the packing holds all three keys of the node. */
  ghost predicate InOneSecret(data: CertsData, max: int, b: string) {
    exists g :: 0 <= g < |Packed(max, data)| && {KeyAt(b, 0), KeyAt(b, 1),
                                 KeyAt(b, 2)} <= Contents(Packed(max, data)[g]).Keys
  }

  /** Whatever the certificates and the size limit are, no node is split over two secrets. */
  ghost predicate NeverSplit(bases: set<string>) {
    forall data: CertsData, max: int, b | data.Keys == AllKeys(bases) && b in bases :: InOneSecret(data, max, b)
  }

  lemma {:induction false} GroupSizeAtLeast(g: Group, i: nat)
    requires i < |g|
    ensures GroupSize(g) >= g[i].Size()
  {
    hide Triple.Size;
    if i < |g| - 1 {
      GroupSizeAtLeast(g[..|g| - 1], i);
    } else {
      GroupSizePositive(g[..|g| - 1]);
    }
  }

  /** With no room at all every triple gets a secret of its own. */
  lemma NoRoomNoSharing(triples: seq<Triple>, g: nat)
    requires (forall t | t in triples :: t.ca.key != "") && g < |Greedy(triples, 0)|
    ensures var group := Greedy(triples, 0)[g]; |group| == 1 && group[0] in triples
  {
    GreedyCuts(triples, 0);
    hide Greedy, GroupSize, Contents, Tight;
    var groups := Greedy(triples, 0);
    ElementsOfConcat(groups, g, 0);
    GroupSizeAtLeast(groups[g], 0);
  }

  lemma {:induction false} ElementsOfConcat(groups: seq<Group>, g: nat, i: nat)
    requires g < |groups| && i < |groups[g]|
    ensures groups[g][i] in Concat(groups)
  {
    if g < |groups| - 1 { ElementsOfConcat(groups[..|groups| - 1], g, i); }
  }

  lemma ContentsOfOne(t: Triple)
    ensures Contents([t]).Keys == {t.ca.key, t.crt.key, t.tlsKey.key}
  {
    assert [t] == [] + [t];
    ContentsSnoc([], t);
    assert Contents([]) == map[];
  }

  /** Three increasing keys that are those of a node are in the order of its keys. */
  lemma SameThreeSameOrder(x: string, y: string, z: string, b: string)
    requires Less(x, y) && Less(y, z) && {KeyAt(b, 0), KeyAt(b, 1), KeyAt(b, 2)} <= {x, y, z}
    ensures x == KeyAt(b, 0) && y == KeyAt(b, 1) && z == KeyAt(b, 2)
  {
    hide Less, KeyAt;
    var k0, k1, k2 := KeyAt(b, 0), KeyAt(b, 1), KeyAt(b, 2);
    OwnOrder(b);
    LessTransitive(x, y, z);
    LessAsymmetric(x, y);
    LessAsymmetric(y, z);
    LessAsymmetric(x, z);
    LessAsymmetric(k0, k1);
    LessAsymmetric(k1, k2);
    LessAsymmetric(k0, k2);
  }

  lemma TripleOfNode(keys: seq<string>, data: CertsData, m: nat, t: Triple, b: string)
    requires 3 * m <= |keys| && (forall k | k in keys :: k in data) && Increasing(keys)
    requires t in Triples(keys, data, m) && {KeyAt(b, 0), KeyAt(b, 1), KeyAt(b, 2)} <= {t.ca.key, t.crt.key,
             t.tlsKey.key}
    ensures exists i :: HoldsBase(keys, i, b)
  {
    hide KeyAt, Less;
    var i :| 0 <= i < m && Triples(keys, data, m)[i] == t;
    TriplesAt(keys, data, m, i);
    SameThreeSameOrder(keys[3 * i], keys[3 * i + 1], keys[3 * i + 2], b);
    assert HoldsBase(keys, i, b);
  }

  /** No node is ever split over two secrets if and only if no base name straddles another. */
  lemma NeverSplitIff(bases: set<string>)
    ensures NeverSplit(bases) <==> NoStraddling(bases)
  {
    if NoStraddling(bases) {
      forall data: CertsData, max: int, b | data.Keys == AllKeys(bases) && b in bases
        ensures InOneSecret(data, max, b)
      {
        var g := NodeInOneSecret(data, max, bases, b);
      }
    }
    if NeverSplit(bases) { TightLimitAligns(bases); }
  }

  lemma TightLimitAligns(bases: set<string>)
    requires NeverSplit(bases)
    ensures NoStraddling(bases)
  {
    hide Sorted, Straddles, KeyAt, Greedy, Contents, Triples;
    var data: CertsData := map k | k in AllKeys(bases) :: [];
    assert data.Keys == AllKeys(bases);
    var keys := Sorted(data.Keys);
    var triples := Triples(keys, data, |keys| / 3);
    SortedIncreasing(data.Keys);
    forall t | t in triples
      ensures t.ca.key != ""
    {
      var i :| 0 <= i < |triples| && triples[i] == t;
      TriplesAt(keys, data, |keys| / 3, i);
      NoKeyIsEmpty(bases, keys[3 * i]);
    }
    forall b | b in bases
      ensures exists i :: HoldsBase(keys, i, b)
    {
      assert InOneSecret(data, 0, b);
      var g :| 0 <= g < |Packed(0, data)| && {KeyAt(b, 0), KeyAt(b, 1),
          KeyAt(b, 2)} <= Contents(Packed(0, data)[g]).Keys;
      NoRoomNoSharing(triples, g);
      var t := Packed(0, data)[g][0];
      assert Packed(0, data)[g] == [t];
      ContentsOfOne(t);
      TripleOfNode(keys, data, |keys| / 3, t, b);
    }
    hide HoldsBase, AllKeys;
    AlignedIff(bases);
  }

  lemma NoKeyIsEmpty(bases: set<string>, k: string)
    requires k in AllKeys(bases)
    ensures k != ""
  {
  }
}
