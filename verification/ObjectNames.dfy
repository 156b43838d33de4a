/**
 The rules for names: host names as the validation library takes them, and what the API server
 accepts as the name of an object and as the value of a label.
 */
module ObjectNames {
  import opened HostNames

  const LOWER_OR_DIGIT: char -> bool := (c: char) => 'a' <= c <= 'z' || '0' <= c <= '9'
  const LETTER_OR_DIGIT: char -> bool := (c: char) => LETTERS(c) || '0' <= c <= '9'

  const LABEL_LEN := 63
  const SUBDOMAIN_LEN := 253

  /** Starts and ends with one of the given characters. */
  predicate Bounded(s: string, chars: char -> bool) {
    s != [] && chars(s[0]) && chars(s[|s| - 1])
  }

  predicate IsHostLabel(s: string) {
    0 < |s| <= LABEL_LEN && LETTER_OR_DIGIT(s[0]) && AllIn(s, LABEL_CHARS)
  }

  /** `hostname_rfc1123`: labels of at most 63 letters, digits and dashes, no dash in front. */
  predicate IsRFC1123HostName(s: string) {
    forall i | 0 <= i < |Split(s)| :: IsHostLabel(Split(s)[i])
  }

  /** The name of an object: lower-case labels of letters, digits and inner dashes. */
  predicate IsObjectName(s: string) {
    |s| <= SUBDOMAIN_LEN
    && forall i | 0 <= i < |Split(s)| ::
      Bounded(Split(s)[i], LOWER_OR_DIGIT) && AllIn(Split(s)[i], (c: char) => LOWER_OR_DIGIT(c) || c == '-')
  }

  /** The value of a label: at most 63 characters. */
  predicate IsLabelValue(s: string) {
    s == [] || (|s| <= LABEL_LEN && Bounded(s, LETTER_OR_DIGIT)
                && AllIn(s, (c: char) => LABEL_CHARS(c) || c == '_' || c == '.'))
  }

  lemma {:induction false} NoDotNoSplit(s: string)
    requires '.' !in s
    ensures Split(s) == [s]
  {
    assert FirstDot(s) == |s|;
  }

  ghost predicate LowerLetters(s: string) {
    forall i | 0 <= i < |s| :: 'a' <= s[i] <= 'z'
  }

  lemma LettersDoNotSplit(s: string)
    requires LowerLetters(s)
    ensures Split(s) == [s]
  {
    NoDotNoSplit(s);
  }

  /** How long a name of letters may be. */
  lemma LengthRules(s: string)
    requires LowerLetters(s)
    ensures IsRFC1123HostName(s) <==> 0 < |s| <= 63
    ensures IsObjectName(s) <==> 0 < |s| <= 253
    ensures IsLabelValue(s) <==> |s| <= 63
  {
    LettersDoNotSplit(s);
    assert Split(s)[0] == s;
  }

  /** A dash at the end suits a host name only, one in front suits none. */
  lemma DashRules(s: string)
    requires LowerLetters(s) && 0 < |s| < 63
    ensures IsRFC1123HostName(s + "-") && !IsObjectName(s + "-") && !IsLabelValue(s + "-")
    ensures !IsRFC1123HostName("-" + s) && !IsObjectName("-" + s) && !IsLabelValue("-" + s)
  {
    var last, front := s + "-", "-" + s;
    NoDotNoSplit(last);
    NoDotNoSplit(front);
    assert Split(last)[0] == last && Split(front)[0] == front;
    assert !LOWER_OR_DIGIT(last[|last| - 1]) && !LETTER_OR_DIGIT(last[|last| - 1]);
    assert !LOWER_OR_DIGIT(front[0]) && !LETTER_OR_DIGIT(front[0]);
  }

  /** Capitals suit host names and labels, underscores labels only. */
  lemma CharacterRules(c: char, d: char)
    requires 'a' <= d <= 'z'
    ensures 'A' <= c <= 'Z' ==> IsRFC1123HostName([d, c, d]) && !IsObjectName([d, c, d]) && IsLabelValue([d, c, d])
    ensures c == '_' ==> !IsRFC1123HostName([d, c, d]) && !IsObjectName([d, c, d]) && IsLabelValue([d, c, d])
    ensures '0' <= c <= '9' || c == '-' ==>
              IsRFC1123HostName([d, c, d]) && IsObjectName([d, c, d]) && IsLabelValue([d, c, d])
  {
    var s := [d, c, d];
    if c != '.' { NoDotNoSplit(s); }
    assert c != '.' ==> Split(s)[0] == s && s[1] == c;
  }

  lemma SplitAtDot(a: string, b: string)
    requires '.' !in a
    ensures Split(a) == [a] && Split(a + "." + b) == [a] + Split(b)
  {
    var s := a + "." + b;
    NoDotNoSplit(a);
    assert s[|a|] == '.' && forall k | 0 <= k < |a| :: s[k] == a[k];
    assert FirstDot(s) == |a|;
    assert s[..|a|] == a && s[|a| + 1..] == b;
  }

  /** A dot joins two names, both of which count. */
  lemma DotRules(a: string, b: string)
    requires '.' !in a
    ensures IsRFC1123HostName(a + "." + b) <==> IsRFC1123HostName(a) && IsRFC1123HostName(b)
    ensures |a| + |b| < 253 ==> (IsObjectName(a + "." + b) <==> IsObjectName(a) && IsObjectName(b))
  {
    hide Split, IsHostLabel, Bounded, AllIn;
    SplitAtDot(a, b);
    var labels, rest := Split(a + "." + b), Split(b);
    assert labels[0] == a && forall i | 0 <= i < |rest| :: labels[i + 1] == rest[i];
    assert forall i | 0 < i < |labels| :: labels[i] == rest[i - 1];
  }
}
