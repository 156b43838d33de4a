/**
 Fully qualified host names: the regular expression of the operator, what it accepts, and the
 split of a name into its first label and its domain
 (api/v1beta1/openstackdataplanenodeset.go, pkg/deployment/inventory.go).
 */
module HostNames {

  // ---------- regular expressions ----------

  datatype Regex = Class(chars: char -> bool) | Then(first: Regex, second: Regex) | Star(each: Regex)

  ghost predicate Matches(r: Regex, s: string)
    decreases r, |s|
  {
    match r
    case Class(chars) => |s| == 1 && chars(s[0])
    case Then(a, b) => exists i :: 0 <= i <= |s| && Matches(a, s[..i]) && Matches(b, s[i..])
    case Star(a) => s == [] || exists i :: 0 < i <= |s| && Matches(a, s[..i]) && Matches(r, s[i..])
  }

  const LETTERS: char -> bool := (c: char) => 'a' <= c <= 'z' || 'A' <= c <= 'Z'
  const LABEL_CHARS: char -> bool := (c: char) => LETTERS(c) || '0' <= c <= '9' || c == '-'

  /** One or more, and two or more. */
  function Plus(r: Regex): Regex { Then(r, Star(r)) }
  function TwoOrMore(r: Regex): Regex { Then(r, Plus(r)) }

  const LABEL := Plus(Class(LABEL_CHARS))
  const DOT := Class((c: char) => c == '.')
  const LAST := Then(LABEL, Then(DOT, TwoOrMore(Class(LETTERS))))

  /** `^([a-zA-Z0-9-]+\.)*[a-zA-Z0-9-]+\.[a-zA-Z]{2,}$` */
  const FQDN := Then(Star(Then(LABEL, DOT)), LAST)

  // ---------- labels ----------

  function FirstDot(s: string): (i: nat)
    ensures i <= |s| && (forall k | 0 <= k < i :: s[k] != '.') && (i < |s| ==> s[i] == '.')
  {
    if s == [] || s[0] == '.' then 0 else 1 + FirstDot(s[1..])
  }

  /** The labels between the dots. */
  function Split(s: string): (labels: seq<string>)
    ensures labels != []
    decreases |s|
  {
    var i := FirstDot(s);
    if i == |s| then [s] else [s[..i]] + Split(s[i + 1..])
  }

  /** At most two parts: before the first dot and after it. */
  function SplitInTwo(s: string): seq<string> {
    var i := FirstDot(s);
    if i == |s| then [s] else [s[..i], s[i + 1..]]
  }

  function ShortName(s: string): string {
    Split(s)[0]
  }

  predicate AllIn(s: string, chars: char -> bool) {
    forall i | 0 <= i < |s| :: chars(s[i])
  }

  predicate IsLabel(s: string) {
    s != [] && AllIn(s, LABEL_CHARS)
  }

  predicate IsTopLevel(s: string) {
    |s| >= 2 && AllIn(s, LETTERS)
  }

  /** Two labels or more, the last of two letters or more, the others of letters, digits and
      hyphens. */
  predicate NodeHostNameIsFQDN(hostName: string) {
    var labels := Split(hostName);
    var n := |labels| - 1;
    n >= 1 && IsTopLevel(labels[n]) && forall i | 0 <= i < n :: IsLabel(labels[i])
  }

  // ---------- what the parts of the expression match ----------

  lemma {:induction false} StarOfClass(chars: char -> bool, s: string)
    ensures Matches(Star(Class(chars)), s) <==> AllIn(s, chars)
    decreases |s|
  {
    if s != [] {
      StarOfClass(chars, s[1..]);
      assert s[..1] == [s[0]];
      assert AllIn(s, chars) <==> chars(s[0]) && AllIn(s[1..], chars);
      if AllIn(s, chars) {
        assert Matches(Class(chars), s[..1]);
      }
    }
  }

  lemma PlusOfClass(chars: char -> bool, s: string)
    ensures Matches(Plus(Class(chars)), s) <==> s != [] && AllIn(s, chars)
  {
    if s != [] {
      StarOfClass(chars, s[1..]);
      assert s[..1] == [s[0]];
      assert AllIn(s, chars) <==> chars(s[0]) && AllIn(s[1..], chars);
      if AllIn(s, chars) {
        assert Matches(Class(chars), s[..1]);
      }
    }
  }

  lemma TwoOrMoreOfClass(chars: char -> bool, s: string)
    ensures Matches(TwoOrMore(Class(chars)), s) <==> |s| >= 2 && AllIn(s, chars)
  {
    if s != [] {
      PlusOfClass(chars, s[1..]);
      assert s[..1] == [s[0]];
      assert AllIn(s, chars) <==> chars(s[0]) && AllIn(s[1..], chars);
      if AllIn(s, chars) {
        assert Matches(Class(chars), s[..1]);
      }
    }
  }

  /** The dot after a label is the first one. */
  lemma FirstDotAt(s: string, i: nat)
    requires i < |s| && s[i] == '.' && AllIn(s[..i], LABEL_CHARS)
    ensures FirstDot(s) == i
  {
    assert forall k | 0 <= k < i :: s[..i][k] == s[k];
  }

  lemma LabelThenDot(s: string)
    ensures Matches(Then(LABEL, DOT), s) <==> s != [] && s[|s| - 1] == '.' && IsLabel(s[..|s| - 1])
  {
    assert Matches(Then(LABEL, DOT), s) <==> exists i ::
        0 <= i <= |s| && Matches(LABEL, s[..i]) && Matches(DOT, s[i..]);
    assert forall i | 0 <= i <= |s| :: Matches(DOT, s[i..]) <==> i == |s| - 1 && s[i] == '.';
    if s != [] {
      PlusOfClass(LABEL_CHARS, s[..|s| - 1]);
    }
    hide Matches;
  }

  lemma DotThen(r: Regex, s: string)
    ensures Matches(Then(DOT, r), s) <==> s != [] && s[0] == '.' && Matches(r, s[1..])
  {
    assert Matches(Then(DOT, r), s) <==> exists i :: 0 <= i <= |s| && Matches(DOT, s[..i]) && Matches(r, s[i..]);
    assert forall i | 0 <= i <= |s| :: Matches(DOT, s[..i]) <==> i == 1 && s[0] == '.';
    if s != [] && s[0] == '.' && Matches(r, s[1..]) {
      assert Matches(DOT, s[..1]);
    }
  }

  const END := Then(DOT, TwoOrMore(Class(LETTERS)))

  ghost predicate EndsAt(s: string, i: int) {
    0 <= i <= |s| && Matches(LABEL, s[..i]) && Matches(END, s[i..])
  }

  lemma LastMatches(s: string)
    ensures Matches(LAST, s) <==> exists i :: EndsAt(s, i)
  {
    assert Matches(LAST, s) <==> exists i :: 0 <= i <= |s| && Matches(LABEL, s[..i]) && Matches(END, s[i..]);
    hide Matches;
    if i :| EndsAt(s, i) {
      assert Matches(END, s[i..]);
    }
    if i :| 0 <= i <= |s| && Matches(LABEL, s[..i]) && Matches(END, s[i..]) {
      assert EndsAt(s, i);
    }
  }

  lemma EndsAtIff(s: string, i: nat)
    requires i <= |s|
    ensures EndsAt(s, i) <==> i < |s| && s[i] == '.' && IsLabel(s[..i]) && IsTopLevel(s[i + 1..])
  {
    PlusOfClass(LABEL_CHARS, s[..i]);
    DotThen(TwoOrMore(Class(LETTERS)), s[i..]);
    hide Matches;
    if i < |s| {
      assert s[i..][1..] == s[i + 1..];
      TwoOrMoreOfClass(LETTERS, s[i + 1..]);
    }
  }

  /** The last two labels. */
  lemma LastIff(s: string)
    ensures Matches(LAST, s) <==> var d := FirstDot(s); d < |s| && IsLabel(s[..d]) && IsTopLevel(s[d + 1..])
  {
    hide Matches, FirstDot, AllIn, EndsAt;
    LastMatches(s);
    if i :| EndsAt(s, i) {
      assert 0 <= i <= |s| by { EndsWithin(s, i); }
      EndsAtIff(s, i);
      FirstDotAt(s, i);
    }
    EndsAtIff(s, FirstDot(s));
  }

  lemma EndsWithin(s: string, i: int)
    requires EndsAt(s, i)
    ensures 0 <= i <= |s|
  {
  }

  // ---------- the whole expression ----------

  /** The names that are accepted, label by label. */
  predicate Accepted(s: string)
    decreases |s|
  {
    var d := FirstDot(s);
    d < |s| && IsLabel(s[..d]) && (IsTopLevel(s[d + 1..]) || Accepted(s[d + 1..]))
  }

  ghost predicate MatchesAt(s: string, i: int) {
    0 <= i <= |s| && Matches(Star(Then(LABEL, DOT)), s[..i]) && Matches(LAST, s[i..])
  }

  lemma FqdnMatches(s: string)
    ensures Matches(FQDN, s) <==> exists i :: MatchesAt(s, i)
  {
    assert Matches(FQDN, s) <==> exists i ::
        0 <= i <= |s| && Matches(Star(Then(LABEL, DOT)), s[..i]) && Matches(LAST, s[i..]);
    hide Matches;
    if i :| MatchesAt(s, i) {
      assert Matches(LAST, s[i..]);
    }
    if i :| 0 <= i <= |s| && Matches(Star(Then(LABEL, DOT)), s[..i]) && Matches(LAST, s[i..]) {
      assert MatchesAt(s, i);
    }
  }

  ghost predicate LabelAt(s: string, i: int) {
    0 < i <= |s| && Matches(Then(LABEL, DOT), s[..i]) && Matches(Star(Then(LABEL, DOT)), s[i..])
  }

  lemma StarMatches(s: string)
    requires s != []
    ensures Matches(Star(Then(LABEL, DOT)), s) <==> exists i :: LabelAt(s, i)
  {
    var r := Then(LABEL, DOT);
    assert Matches(Star(r), s) <==> exists i :: 0 < i <= |s| && Matches(r, s[..i]) && Matches(Star(r), s[i..]);
    hide Matches;
    if i :| LabelAt(s, i) {
      assert Matches(Star(r), s[i..]);
    }
    if i :| 0 < i <= |s| && Matches(r, s[..i]) && Matches(Star(r), s[i..]) {
      assert LabelAt(s, i);
    }
  }

  lemma LabelAtIff(s: string, i: int)
    requires 0 < i <= |s|
    ensures LabelAt(s, i) <==> s[i - 1] == '.' && IsLabel(s[..i - 1]) && Matches(Star(Then(LABEL, DOT)), s[i..])
    ensures LabelAt(s, i) ==> i == FirstDot(s) + 1
  {
    hide Matches, FirstDot;
    LabelThenDot(s[..i]);
    assert s[..i][..i - 1] == s[..i - 1];
    if s[i - 1] == '.' && IsLabel(s[..i - 1]) { FirstDotAt(s, i - 1); }
  }

  /** A non-empty sequence of labels with dots begins with one of them. */
  lemma StarOfLabels(s: string)
    requires s != []
    ensures Matches(Star(Then(LABEL, DOT)), s) <==>
              var d := FirstDot(s); d < |s| && IsLabel(s[..d]) && Matches(Star(Then(LABEL, DOT)), s[d + 1..])
  {
    hide Matches, FirstDot, IsLabel;
    StarMatches(s);
    if i :| LabelAt(s, i) {
      LabelAtIff(s, i);
    }
    hide LabelAt;
    var d := FirstDot(s);
    if d < |s| {
      LabelAtIff(s, d + 1);
    }
  }

  lemma {:induction false} MatchIsAccepted(s: string, i: int)
    requires MatchesAt(s, i)
    ensures Accepted(s)
    decreases |s|
  {
    hide Matches, FirstDot;
    if i == 0 {
      assert s[0..] == s;
      LastIff(s);
    } else {
      StarOfLabels(s[..i]);
      LastIff(s[i..]);
      var d := FirstDot(s[..i]);
      assert s[..i][..d] == s[..d];
      FirstDotAt(s, d);
      assert s[..i][d + 1..] == s[d + 1..][..i - d - 1] && s[d + 1..][i - d - 1..] == s[i..];
      MatchIsAccepted(s[d + 1..], i - d - 1);
    }
  }

  lemma {:induction false} AcceptedMatches(s: string) returns (i: int)
    requires Accepted(s)
    ensures MatchesAt(s, i)
    decreases |s|
  {
    var d := FirstDot(s);
    var rest := s[d + 1..];
    if IsTopLevel(rest) {
      i := 0;
      LastIff(s);
      assert s[0..] == s;
      assert Matches(Star(Then(LABEL, DOT)), s[..0]);
    } else {
      hide Matches;
      var j := AcceptedMatches(rest);
      hide FirstDot;
      i := d + 1 + j;
      assert s[i..] == rest[j..];
      assert s[..i][..d] == s[..d] && s[..i][d + 1..] == rest[..j];
      FirstDotAt(s[..i], d);
      StarOfLabels(s[..i]);
    }
  }

  lemma NoDotOneLabel(s: string)
    requires IsTopLevel(s)
    ensures Split(s) == [s]
  {
  }

  lemma LabelsFollow(labels: seq<string>, first: string, rest: seq<string>)
    requires labels == [first] + rest && rest != []
    ensures (forall i | 0 <= i < |labels| - 1 :: IsLabel(labels[i]))
       <==> IsLabel(first) && forall i | 0 <= i < |rest| - 1 :: IsLabel(rest[i])
  {
    hide IsLabel;
    assert labels[0] == first;
    assert forall i | 0 <= i < |rest| :: rest[i] == labels[i + 1];
    if forall i | 0 <= i < |labels| - 1 :: IsLabel(labels[i]) {
      forall i | 0 <= i < |rest| - 1 ensures IsLabel(rest[i]) {
        assert IsLabel(labels[i + 1]);
      }
    }
  }

  lemma {:induction false} AcceptedIffLabels(s: string)
    ensures Accepted(s) <==> NodeHostNameIsFQDN(s)
    decreases |s|
  {
    hide IsTopLevel, IsLabel;
    var d := FirstDot(s);
    if d < |s| {
      var rest := s[d + 1..];
      AcceptedIffLabels(rest);
      var labels, inner := Split(s), Split(rest);
      assert labels == [s[..d]] + inner;
      if IsTopLevel(rest) {
        NoDotOneLabel(rest);
      }
      assert |inner| == 1 ==> inner[0] == rest;
      hide Split;
      LabelsFollow(labels, s[..d], inner);
    }
  }

  /** The expression accepts exactly the names of two labels or more, whose last one has two
      letters or more and whose others are not empty and made of letters, digits and hyphens. */
  lemma RegexAcceptsFQDNs(s: string)
    ensures Matches(FQDN, s) <==> NodeHostNameIsFQDN(s)
  {
    hide Matches, NodeHostNameIsFQDN, Accepted;
    FqdnMatches(s);
    AcceptedIffLabels(s);
    if i :| MatchesAt(s, i) {
      MatchIsAccepted(s, i);
    }
    if Accepted(s) {
      var i := AcceptedMatches(s);
    }
  }

  /** A fully qualified name splits in two, and the short name and the domain make it up. */
  lemma FQDNSplits(s: string)
    requires NodeHostNameIsFQDN(s)
    ensures |SplitInTwo(s)| == 2
    ensures ShortName(s) + "." + SplitInTwo(s)[1] == s
    ensures ShortName(s) != "" && '.' !in ShortName(s)
  {
    var d := FirstDot(s);
    assert d < |s|;
    assert s == s[..d] + [s[d]] + s[d + 1..];
    assert Split(s)[0] == s[..d];
  }

  /** A label before a domain makes a fully qualified name. */
  lemma LabelInDomain(name: string, domain: string)
    requires IsLabel(name) && (NodeHostNameIsFQDN(domain) || IsTopLevel(domain))
    ensures NodeHostNameIsFQDN(name + "." + domain)
  {
    hide NodeHostNameIsFQDN;
    AcceptedIffLabels(domain);
    AcceptedIffLabels(name + "." + domain);
    var host := name + "." + domain;
    assert host[..|name|] == name && host[|name|] == '.' && host[|name| + 1..] == domain;
    FirstDotAt(host, |name|);
  }
}
