/**
 Strings in byte order, the sorted keys of a map, and decimal numerals: what the operator
 takes from Go's sort and strconv packages.
 */
module SortedKeys {

  /** The byte order of strings: a proper prefix comes first, then the first difference decides. */
  predicate Less(a: string, b: string) {
    b != [] && (a == [] || a[0] < b[0] || (a[0] == b[0] && Less(a[1..], b[1..])))
  }

  lemma {:induction false} LessTotal(a: string, b: string)
    ensures Less(a, b) || a == b || Less(b, a)
  {
    if a != [] && b != [] && a[0] == b[0] {
      LessTotal(a[1..], b[1..]);
      assert a == [a[0]] + a[1..] && b == [b[0]] + b[1..];
    }
  }

  lemma {:induction false} LessIrreflexive(a: string)
    ensures !Less(a, a)
  {
    if a != [] { LessIrreflexive(a[1..]); }
  }

  lemma {:induction false} LessTransitive(a: string, b: string, c: string)
    requires Less(a, b) && Less(b, c)
    ensures Less(a, c)
  {
    if a != [] && a[0] == b[0] && b[0] == c[0] { LessTransitive(a[1..], b[1..], c[1..]); }
  }

  lemma LessAsymmetric(a: string, b: string)
    requires Less(a, b)
    ensures !Less(b, a) && a != b
  {
    LessIrreflexive(a);
    if Less(b, a) { LessTransitive(a, b, a); }
  }

  /** What two strings start with in common does not matter to their order. */
  lemma {:induction false} LessAfterPrefix(p: string, a: string, b: string)
    ensures Less(p + a, p + b) <==> Less(a, b)
  {
    if p == [] {
      assert p + a == a && p + b == b;
    } else {
      assert (p + a)[1..] == p[1..] + a && (p + b)[1..] == p[1..] + b;
      LessAfterPrefix(p[1..], a, b);
    }
  }

  // ---------- sorted sequences ----------

  ghost predicate Increasing(s: seq<string>) {
    forall i, j | 0 <= i < j < |s| :: Less(s[i], s[j])
  }

  predicate IsLeast(s: set<string>, m: string) {
    m in s && forall x | x in s && x != m :: Less(m, x)
  }

  lemma {:induction false} LeastExists(s: set<string>)
    requires s != {}
    ensures exists m :: IsLeast(s, m)
    decreases |s|
  {
    var x :| x in s;
    var rest := s - {x};
    if rest == {} {
      assert s == {x} + rest;
      assert IsLeast(s, x);
    } else {
      LeastExists(rest);
      var m :| IsLeast(rest, m);
      LessTotal(x, m);
      if Less(x, m) {
        forall y | y in s && y != x ensures Less(x, y) {
          if y != m { LessTransitive(x, m, y); }
        }
        assert IsLeast(s, x);
      } else {
        assert IsLeast(s, m);
      }
    }
  }

  lemma LeastUnique(s: set<string>, m: string, m': string)
    requires IsLeast(s, m) && IsLeast(s, m')
    ensures m == m'
  {
    if m != m' { LessAsymmetric(m, m'); }
  }

  /** The elements of a set in byte order. */
  function Sorted(s: set<string>): (r: seq<string>)
    ensures forall x :: x in r <==> x in s
    ensures |r| == |s|
  {
    if s == {} then []
    else
      LeastExists(s);
      assert forall m, m' | IsLeast(s, m) && IsLeast(s, m') :: m == m' by {
        forall m, m' | IsLeast(s, m) && IsLeast(s, m') ensures m == m' { LeastUnique(s, m, m'); }
      }
      var m :| IsLeast(s, m);
      [m] + Sorted(s - {m})
  }

  lemma {:induction false} SortedIncreasing(s: set<string>)
    ensures Increasing(Sorted(s))
    decreases |s|
  {
    if s != {} {
      var r := Sorted(s);
      LeastExists(s);
      var m := r[0];
      assert r[1..] == Sorted(s - {m});
      SortedIncreasing(s - {m});
      forall i, j | 0 <= i < j < |r|
        ensures Less(r[i], r[j])
      {
        if i == 0 {
          assert r[1..][j - 1] in s - {m};
        } else {
          assert r[1..][i - 1] == r[i] && r[1..][j - 1] == r[j];
        }
      }
    }
  }

  lemma IncreasingDistinct(r: seq<string>)
    requires Increasing(r)
    ensures forall i, j | 0 <= i < j < |r| :: r[i] != r[j]
  {
    forall i, j | 0 <= i < j < |r| ensures r[i] != r[j] { LessIrreflexive(r[i]); }
  }

  lemma FirstIsLeast(r: seq<string>, x: string)
    requires Increasing(r) && x in r
    ensures x == r[0] || Less(r[0], x)
  {
    var i :| 0 <= i < |r| && r[i] == x;
  }

  /** There is only one way to sort: any increasing sequence of these elements is this one. */
  lemma {:induction false} SortedUnique(r: seq<string>, r': seq<string>)
    requires Increasing(r) && Increasing(r')
    requires forall x :: x in r <==> x in r'
    ensures r == r'
    decreases |r|
  {
    assert r' != [] ==> r'[0] in r';
    if r != [] {
      assert r[0] in r && r[0] in r';
      assert r'[0] in r' && r'[0] in r;
      FirstIsLeast(r, r'[0]);
      FirstIsLeast(r', r[0]);
      if Less(r[0], r'[0]) { LessAsymmetric(r[0], r'[0]); }
      assert r[0] == r'[0];
      IncreasingDistinct(r);
      IncreasingDistinct(r');
      forall x ensures x in r[1..] <==> x in r'[1..] {
        TailElements(r, x);
        TailElements(r', x);
      }
      SortedUnique(r[1..], r'[1..]);
      assert r == [r[0]] + r[1..] && r' == [r'[0]] + r'[1..];
    }
  }

  lemma TailElements(r: seq<string>, x: string)
    requires r != [] && forall i, j | 0 <= i < j < |r| :: r[i] != r[j]
    ensures x in r[1..] <==> x in r && x != r[0]
  {
    if x in r[1..] {
      var i :| 0 <= i < |r[1..]| && r[1..][i] == x;
      assert r[i + 1] == x;
    }
    if x in r && x != r[0] {
      var i :| 0 <= i < |r| && r[i] == x;
      assert r[1..][i - 1] == x;
    }
  }

  // ---------- decimal numerals ----------

  const DIGITS := "0123456789"

  function Itoa(n: nat): (s: string)
    ensures s != [] && forall c | c in s :: c in DIGITS
  {
    if n < 10 then [DIGITS[n]] else Itoa(n / 10) + [DIGITS[n % 10]]
  }

  function DigitValue(c: char): nat
    requires c in DIGITS
  {
    (c as int) - ('0' as int)
  }

  /** The number a numeral stands for. A string that is no numeral reads as zero, which is
      what is left of the result when the error is dropped. */
  function Atoi(s: string): nat {
    if s == [] || exists c | c in s :: c !in DIGITS then 0 else Value(s)
  }

  function Value(s: string): nat
    requires forall c | c in s :: c in DIGITS
  {
    if s == [] then 0 else Value(s[..|s| - 1]) * 10 + DigitValue(s[|s| - 1])
  }

  lemma {:induction false} ValueOfItoa(n: nat)
    ensures Value(Itoa(n)) == n
  {
    if n < 10 {
      assert Itoa(n)[..0] == [];
      assert Value(Itoa(n)[..0]) == 0;
      assert DIGITS[n] as int == ('0' as int) + n;
    } else {
      ValueOfItoa(n / 10);
      assert Itoa(n)[..|Itoa(n)| - 1] == Itoa(n / 10);
      assert DIGITS[n % 10] as int == ('0' as int) + n % 10;
    }
  }

  /** Reading a numeral back gives the number, so different numbers have different numerals. */
  lemma AtoiOfItoa(n: nat)
    ensures Atoi(Itoa(n)) == n
  {
    ValueOfItoa(n);
  }

  lemma ItoaInjective(n: nat, m: nat)
    requires Itoa(n) == Itoa(m)
    ensures n == m
  {
    AtoiOfItoa(n);
    AtoiOfItoa(m);
  }
}
