/**
 What the check of the deployments comes to, in the fields of the deployments: the flags, and the
 record of the newest ones.
 */
module CheckVerdicts {
  import opened Conditions
  import opened CheckDeployments

  // ---------- deployments that do not count ----------

  /** The list without the deployments that are being deleted or do not name the nodeset. */
  function Live(ns: string, rs: seq<Record>): seq<Record> {
    if rs == [] then []
    else if rs[0].deleting || ns !in rs[0].nodeSets then Live(ns, rs[1..])
    else [rs[0]] + Live(ns, rs[1..])
  }

  lemma {:induction false} LiveElements(ns: string, rs: seq<Record>, r: Record)
    ensures multiset(Live(ns, rs))[r] == if r.deleting || ns !in r.nodeSets then 0 else multiset(rs)[r]
  {
    if rs != [] {
      assert rs == [rs[0]] + rs[1..];
      LiveElements(ns, rs[1..], r);
    }
  }

  lemma LiveOfPermutation(ns: string, rs: seq<Record>, s: seq<Record>)
    requires multiset(rs) == multiset(s)
    ensures multiset(Live(ns, rs)) == multiset(Live(ns, s))
  {
    forall r
      ensures multiset(Live(ns, rs))[r] == multiset(Live(ns, s))[r]
    {
      LiveElements(ns, rs, r);
      LiveElements(ns, s, r);
    }
  }

  lemma {:induction false} LiveInTimeOrder(ns: string, s: seq<Record>)
    requires InTimeOrder(s)
    ensures InTimeOrder(Live(ns, s)) && forall r | r in Live(ns, s) :: r in s
  {
    if s != [] {
      assert forall i, j | 0 <= i < j < |s[1..]| :: Before(s[1..][i], s[1..][j]);
      LiveInTimeOrder(ns, s[1..]);
      assert forall r | r in s[1..] :: Before(s[0], r);
    }
  }

  lemma {:induction false} LiveTimesDistinct(ns: string, rs: seq<Record>)
    requires TimesDistinct(rs)
    ensures TimesDistinct(Live(ns, rs)) && forall r | r in Live(ns, rs) :: r in rs
  {
    if rs != [] {
      var rest := rs[1..];
      assert forall i, j | 0 <= i < j < |rest| :: rest[i].transition != rest[j].transition;
      assert forall r | r in rest :: r in rs;
      LiveTimesDistinct(ns, rest);
      assert forall r | r in rest :: r.transition != rs[0].transition;
    }
  }

  /** The fold passes over deployments that do not count. */
  lemma {:induction false} FoldIgnoresOthers(ns: string, s: seq<Record>, i: nat, j: nat, flags: Flags, st: Recorded)
    requires i <= |s| && j <= |Live(ns, s)| && Live(ns, s)[j..] == Live(ns, s[i..])
    ensures FoldFrom(ns, s, i, flags, st) == FoldFrom(ns, Live(ns, s), j, flags, st)
    decreases |s| - i
  {
    hide Note;
    var live := Live(ns, s);
    if i < |s| {
      assert s[i..][1..] == s[i + 1..] && s[i..][0] == s[i];
      if s[i].deleting || ns !in s[i].nodeSets {
        FoldIgnoresOthers(ns, s, i + 1, j, flags, st);
      } else {
        assert live[j..] == [s[i]] + Live(ns, s[i + 1..]);
        assert live[j] == live[j..][0] && live[j + 1..] == live[j..][1..];
        var c := s[i].ConditionFor(ns);
        if !IsError(c) {
          FoldIgnoresOthers(ns, s, i + 1, j + 1, Flags(c.True?, c.False?, false), Note(ns, s[i], st));
        }
      }
    } else {
      assert s[i..] == [] && live[j..] == [];
    }
  }

  /** Deployments that are being deleted, or do not name the nodeset, change neither flags nor record. */
  lemma CheckIgnoresOthers(ns: string, rs: seq<Record>, st: Recorded)
    requires TimesDistinct(rs)
    ensures Check(ns, rs, st) == Check(ns, Live(ns, rs), st)
  {
    hide FoldFrom;
    var s := SortByTransition(rs);
    SortSorts(rs);
    LiveTimesDistinct(ns, rs);
    SortSorts(Live(ns, rs));
    LiveOfPermutation(ns, rs, s);
    LiveInTimeOrder(ns, s);
    SortedIsUnique(Live(ns, s), SortByTransition(Live(ns, rs)));
    assert s[0..] == s && Live(ns, s)[0..] == Live(ns, s);
    FoldIgnoresOthers(ns, s, 0, 0, NO_FLAGS, st);
  }

  // ---------- the flags ----------

  /** The deployment is not being deleted and names the nodeset. */
  ghost predicate Names(ns: string, r: Record) {
    !r.deleting && ns in r.nodeSets
  }

  /** What the deployment says of the nodeset. */
  ghost function Says(ns: string, r: Record): Condition {
    if ns in r.nodeSetConditions && NodeSetDeploymentReadyCondition in r.nodeSetConditions[ns]
    then r.nodeSetConditions[ns][NodeSetDeploymentReadyCondition] else Unknown
  }

  ghost predicate SaysError(ns: string, r: Record) {
    match Says(ns, r)
    case False(_, severity) => severity == Error
    case _ => false
  }

  /** `r` is the deployment with the last transition among those that name the nodeset. */
  ghost predicate Latest(ns: string, rs: seq<Record>, r: Record) {
    && r in rs && Names(ns, r) && r.transition.Some?
    && forall x | x in rs && Names(ns, x) && x != r :: x.transition.Some? && x.transition.value < r.transition.value
  }

  /** The nodeset has failed if and only if a deployment that names it and is not being deleted is in
      error, whatever the times of the deployments; and no flag is set when there is none. */
  lemma FailedIff(ns: string, rs: seq<Record>, st: Recorded)
    ensures var f := Check(ns, rs, st).0;
            && (f.failed <==> exists r | r in rs :: Names(ns, r) && SaysError(ns, r))
            && (f.failed ==> f == Flags(false, false, true))
            && ((forall r | r in rs :: !Names(ns, r)) ==> f == Flags(false, false, false))
  {
    var s := SortByTransition(rs);
    SameElements(rs, s);
    FoldVerdict(ns, s, 0, NO_FLAGS, st);
    assert forall r: Record :: r.Concerns(ns) <==> Names(ns, r);
    assert forall r: Record :: InError(ns, r) <==> Names(ns, r) && SaysError(ns, r);
    hide Record.Concerns, InError, SaysError, Names, FoldFrom, SortByTransition;
    assert forall k | 0 <= k < |s| :: s[k] in s;
  }

  /** When the nodeset has not failed, the latest of these deployments decides: ready when it says True, and
      running when it says False. */
  lemma FlagsInFields(ns: string, rs: seq<Record>, st: Recorded)
    requires TimesDistinct(rs)
    ensures var f := Check(ns, rs, st).0;
            forall r | Latest(ns, rs, r) && !f.failed ::
              f == Flags(Says(ns, r) == True, Says(ns, r).False?, false)
  {
    VerdictOfNewest(ns, rs, st);
    hide Check, TimesDistinct;
    assert forall r: Record :: r.Concerns(ns) <==> Names(ns, r);
    assert forall r: Record :: r.ConditionFor(ns) == Says(ns, r);
    assert forall r: Record :: InError(ns, r) <==> Names(ns, r) && SaysError(ns, r);
    hide Record.Concerns, Record.ConditionFor, InError, Says, SaysError, Names;
  }

  // ---------- the record ----------

  /** The fold reaches the deployment at `k`: none before it is in error. */
  ghost predicate Reaches(ns: string, s: seq<Record>, i: int, k: int) {
    0 <= i <= k < |s| && Names(ns, s[k]) && forall j | i <= j < k :: !(Names(ns, s[j]) && SaysError(ns, s[j]))
  }

  /** The last finished deployment that the fold reaches. */
  ghost predicate LastFinished(ns: string, s: seq<Record>, i: int, k: int) {
    && Reaches(ns, s, i, k) && Says(ns, s[k]) == True
    && forall j | k < j && Reaches(ns, s, i, j) :: Says(ns, s[j]) != True
  }

  /** The last deployment of this name that the fold reaches. */
  ghost predicate LastOfName(ns: string, s: seq<Record>, i: int, k: int, name: string) {
    && Reaches(ns, s, i, k) && s[k].name == name
    && forall j | k < j && Reaches(ns, s, i, j) :: s[j].name != name
  }

  /** The version and the hash are those of the last finished deployment, else the old ones. */
  ghost predicate VersionTells(ns: string, s: seq<Record>, i: int, st: Recorded, st': Recorded) {
    && (forall k | LastFinished(ns, s, i, k) ::
          && st'.deployedVersion == s[k].deployedVersion
          && st'.deployedConfigHash == if ns in s[k].nodeSetHashes then s[k].nodeSetHashes[ns] else "")
    && ((forall k :: !LastFinished(ns, s, i, k)) ==>
          st'.deployedVersion == st.deployedVersion && st'.deployedConfigHash == st.deployedConfigHash)
  }

  /** The status under a name is that of the last deployment of this name, else the old one. */
  ghost predicate StatusTells(ns: string, s: seq<Record>, i: int, st: Recorded, st': Recorded, name: string) {
    && (forall k | LastOfName(ns, s, i, k, name) ::
          && name in st'.deploymentStatuses
          && st'.deploymentStatuses[name] == if ns in s[k].nodeSetConditions then s[k].nodeSetConditions[ns] else map[])
    && ((forall k :: !LastOfName(ns, s, i, k, name)) ==>
          && (name in st'.deploymentStatuses <==> name in st.deploymentStatuses)
          && (name in st.deploymentStatuses ==> st'.deploymentStatuses[name] == st.deploymentStatuses[name]))
  }

  lemma ReachesStep(ns: string, s: seq<Record>, i: nat, next: nat)
    requires i < |s| && next == i + 1
    ensures forall k :: Reaches(ns, s, i, k) <==>
              (k == i && Names(ns, s[i])) || (Reaches(ns, s, next, k) && !(Names(ns, s[i]) && SaysError(ns, s[i])))
    ensures forall k :: Reaches(ns, s, next, k) ==> i < k < |s|
  {
    hide Names, SaysError;
  }

  /** What noting one deployment does to the record. */
  lemma NoteTells(ns: string, r: Record, st: Recorded)
    ensures var st' := Note(ns, r, st);
            var done := Says(ns, r) == True;
            && st'.deployedVersion == (if done then r.deployedVersion else st.deployedVersion)
            && st'.deployedConfigHash == (if !done then st.deployedConfigHash
                                          else if ns in r.nodeSetHashes then r.nodeSetHashes[ns] else "")
            && st'.deploymentStatuses == st.deploymentStatuses[r.name :=
                 if ns in r.nodeSetConditions then r.nodeSetConditions[ns] else map[]]
  {
  }

  lemma FinishedStep(ns: string, s: seq<Record>, i: nat, next: nat)
    requires i < |s| && next == i + 1
    ensures !Names(ns, s[i]) ==> forall k :: LastFinished(ns, s, i, k) <==> LastFinished(ns, s, next, k)
    ensures Names(ns, s[i]) && SaysError(ns, s[i]) ==> forall k :: !LastFinished(ns, s, i, k)
    ensures Names(ns, s[i]) && !SaysError(ns, s[i]) ==>
              forall k :: LastFinished(ns, s, i, k) <==>
                LastFinished(ns, s, next, k)
                || (k == i && Says(ns, s[i]) == True && forall m :: !LastFinished(ns, s, next, m))
    ensures Names(ns, s[i]) && !SaysError(ns, s[i]) ==>
              (LastFinished(ns, s, i, i) <==> Says(ns, s[i]) == True && forall m :: !LastFinished(ns, s, next, m))
  {
    assert SaysError(ns, s[i]) ==> Says(ns, s[i]) != True;
    ReachesStep(ns, s, i, next);
    hide Reaches, Names, SaysError, Says;
    if exists k :: Reaches(ns, s, next, k) && Says(ns, s[k]) == True {
      var k := LastSuch(ns, s, next, (k: int) => 0 <= k < |s| && Says(ns, s[k]) == True);
      assert LastFinished(ns, s, next, k);
    }
  }

  lemma OfNameStep(ns: string, s: seq<Record>, i: nat, next: nat, name: string)
    requires i < |s| && next == i + 1
    ensures !Names(ns, s[i]) ==> forall k :: LastOfName(ns, s, i, k, name) <==> LastOfName(ns, s, next, k, name)
    ensures Names(ns, s[i]) && SaysError(ns, s[i]) ==>
              forall k :: LastOfName(ns, s, i, k, name) <==> k == i && s[i].name == name
    ensures Names(ns, s[i]) && !SaysError(ns, s[i]) ==>
              forall k :: LastOfName(ns, s, i, k, name) <==>
                LastOfName(ns, s, next, k, name)
                || (k == i && s[i].name == name && forall m :: !LastOfName(ns, s, next, m, name))
    ensures Names(ns, s[i]) && SaysError(ns, s[i]) ==> (LastOfName(ns, s, i, i, name) <==> s[i].name == name)
    ensures Names(ns, s[i]) && !SaysError(ns, s[i]) ==>
              (LastOfName(ns, s, i, i, name) <==>
                 s[i].name == name && forall m :: !LastOfName(ns, s, next, m, name))
  {
    ReachesStep(ns, s, i, next);
    hide Reaches, Names, SaysError, Says;
    if exists k :: Reaches(ns, s, next, k) && s[k].name == name {
      var k := LastSuch(ns, s, next, (k: int) => 0 <= k < |s| && s[k].name == name);
      assert LastOfName(ns, s, next, k, name);
    }
  }

  lemma {:induction false} VersionFollows(ns: string, s: seq<Record>, i: nat, flags: Flags, st: Recorded)
    requires i <= |s|
    ensures VersionTells(ns, s, i, st, FoldFrom(ns, s, i, flags, st).1)
    decreases |s| - i
  {
    hide Note;
    assert i == |s| ==> forall k :: !LastFinished(ns, s, i, k);
    hide Reaches;
    if i < |s| {
      var c := s[i].ConditionFor(ns);
      FinishedStep(ns, s, i, i + 1);
      NoteTells(ns, s[i], st);
      assert s[i].Concerns(ns) <==> Names(ns, s[i]);
      assert IsError(c) <==> SaysError(ns, s[i]);
      hide LastFinished, Names, SaysError, Says;
      if !s[i].Concerns(ns) {
        VersionFollows(ns, s, i + 1, flags, st);
      } else if !IsError(c) {
        VersionFollows(ns, s, i + 1, Flags(c.True?, c.False?, false), Note(ns, s[i], st));
      }
    }
  }

  lemma {:induction false} StatusFollows(ns: string, s: seq<Record>, i: nat, flags: Flags, st: Recorded, name: string)
    requires i <= |s|
    ensures StatusTells(ns, s, i, st, FoldFrom(ns, s, i, flags, st).1, name)
    decreases |s| - i
  {
    hide Note;
    assert i == |s| ==> forall k :: !LastOfName(ns, s, i, k, name);
    hide Reaches;
    if i < |s| {
      var c := s[i].ConditionFor(ns);
      OfNameStep(ns, s, i, i + 1, name);
      NoteTells(ns, s[i], st);
      assert s[i].Concerns(ns) <==> Names(ns, s[i]);
      assert IsError(c) <==> SaysError(ns, s[i]);
      hide LastOfName, Names, SaysError, Says;
      if !s[i].Concerns(ns) {
        StatusFollows(ns, s, i + 1, flags, st, name);
      } else if !IsError(c) {
        StatusFollows(ns, s, i + 1, Flags(c.True?, c.False?, false), Note(ns, s[i], st), name);
      }
    }
  }

  /** Of those that are reached and have a property, one is the last. */
  lemma LastSuch(ns: string, s: seq<Record>, i: int, has: int -> bool) returns (k: int)
    requires exists k :: Reaches(ns, s, i, k) && has(k)
    ensures Reaches(ns, s, i, k) && has(k) && forall j | k < j && Reaches(ns, s, i, j) :: !has(j)
  {
    var first :| Reaches(ns, s, i, first) && has(first);
    k := LastFrom(ns, s, i, has, first);
  }

  lemma {:induction false} LastFrom(ns: string, s: seq<Record>, i: int, has: int -> bool, m: int) returns (k: int)
    requires Reaches(ns, s, i, m) && has(m)
    ensures Reaches(ns, s, i, k) && has(k) && forall j | k < j && Reaches(ns, s, i, j) :: !has(j)
    decreases |s| - m
  {
    k := m;
    if j :| m < j && Reaches(ns, s, i, j) && has(j) {
      k := LastFrom(ns, s, i, has, j);
    }
  }

  /** The version, the hash and the statuses that the check records: those of the last finished
      deployment, and of the last one of each name, that no earlier error keeps from being reached. */
  lemma RecordInFields(ns: string, rs: seq<Record>, st: Recorded, name: string)
    ensures var s, st' := SortByTransition(rs), Check(ns, rs, st).1;
            VersionTells(ns, s, 0, st, st') && StatusTells(ns, s, 0, st, st', name)
  {
    VersionFollows(ns, SortByTransition(rs), 0, NO_FLAGS, st);
    StatusFollows(ns, SortByTransition(rs), 0, NO_FLAGS, st, name);
  }
}
