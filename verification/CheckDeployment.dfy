/**
 How a nodeset looks at the deployments that name it: they are sorted from oldest to newest
 and folded, stopping at the first one in error (checkDeployment in
 controllers/openstackdataplanenodeset_controller.go).
 */
module CheckDeployments {
  import opened Conditions

  type Hashes = map<string, string>

  /** What a nodeset reads of a deployment. `transition` is the last transition time of its
      DeploymentReady condition, if it has that condition. */
  datatype Record = Record(name: string, deleting: bool, nodeSets: seq<string>, transition: Option<int>,
                           nodeSetConditions: map<string, Conditions>,
                           configMapHashes: Hashes, secretHashes: Hashes, containerImages: Hashes,
                           nodeSetHashes: Hashes, deployedVersion: string)
  {
    /** The deployment is live and names the nodeset. */
    predicate Concerns(ns: string) {
      !deleting && ns in nodeSets
    }

    function ConditionsFor(ns: string): Conditions {
      if ns in nodeSetConditions then nodeSetConditions[ns] else map[]
    }

    function ConditionFor(ns: string): Condition {
      Get(ConditionsFor(ns), NodeSetDeploymentReadyCondition)
    }

    function HashFor(ns: string): string {
      if ns in nodeSetHashes then nodeSetHashes[ns] else ""
    }
  }

  // ---------- the order ----------

  predicate Before(a: Record, b: Record) {
    a.transition.Some? && b.transition.Some? && a.transition.value < b.transition.value
  }

  /** Every deployment has its condition, and no two have the same transition time. */
  predicate TimesDistinct(rs: seq<Record>) {
    && (forall r | r in rs :: r.transition.Some?)
    && (forall i, j | 0 <= i < j < |rs| :: rs[i].transition != rs[j].transition)
  }

  predicate InTimeOrder(rs: seq<Record>) {
    forall i, j | 0 <= i < j < |rs| :: Before(rs[i], rs[j])
  }

  function Insert(r: Record, rs: seq<Record>): (s: seq<Record>)
    ensures multiset(s) == multiset(rs) + multiset{r}
    ensures |s| == |rs| + 1
  {
    if rs == [] || Before(r, rs[0]) then [r] + rs
    else
      assert rs == [rs[0]] + rs[1..];
      [rs[0]] + Insert(r, rs[1..])
  }

  /** The sort by the comparator of the source. */
  function SortByTransition(rs: seq<Record>): (s: seq<Record>)
    ensures multiset(s) == multiset(rs)
    ensures |s| == |rs|
  {
    if rs == [] then []
    else
      assert rs == [rs[0]] + rs[1..];
      Insert(rs[0], SortByTransition(rs[1..]))
  }

  lemma {:induction false} InsertSorts(r: Record, rs: seq<Record>)
    requires InTimeOrder(rs) && r.transition.Some?
    requires forall x | x in rs :: x.transition.Some? && x.transition != r.transition
    ensures InTimeOrder(Insert(r, rs))
  {
    if rs == [] {
    } else if Before(r, rs[0]) {
      assert forall i | 0 <= i < |rs| :: rs[i] in rs && (i == 0 || Before(rs[0], rs[i]));
    } else {
      assert rs[0] in rs;
      InsertSorts(r, rs[1..]);
      var s := Insert(r, rs[1..]);
      forall i | 0 <= i < |s|
        ensures Before(rs[0], s[i])
      {
        assert s[i] in multiset(s);
        assert s[i] in multiset(rs[1..]) + multiset{r};
        if s[i] != r {
          assert s[i] in rs[1..];
        }
      }
    }
  }

  lemma {:induction false} SortSorts(rs: seq<Record>)
    requires TimesDistinct(rs)
    ensures InTimeOrder(SortByTransition(rs))
  {
    if rs != [] {
      assert forall r | r in rs[1..] :: r in rs;
      SortSorts(rs[1..]);
      var s := SortByTransition(rs[1..]);
      forall x | x in s
        ensures x.transition.Some? && x.transition != rs[0].transition
      {
        assert x in multiset(rs[1..]);
        var i :| 0 <= i < |rs[1..]| && rs[1..][i] == x;
        assert rs[i + 1] == x;
      }
      assert rs[0] in rs;
      InsertSorts(rs[0], s);
    }
  }

  lemma SortedHeads(s: seq<Record>, s': seq<Record>)
    requires InTimeOrder(s) && InTimeOrder(s') && multiset(s) == multiset(s') && s != [] && s' != []
    ensures s[0] == s'[0]
  {
    assert s[0] in multiset(s') && s'[0] in multiset(s);
    var i :| 0 <= i < |s'| && s'[i] == s[0];
    var j :| 0 <= j < |s| && s[j] == s'[0];
    assert i == 0 || Before(s'[0], s[0]);
    assert j == 0 || Before(s[0], s'[0]);
  }

  lemma {:induction false} SortedIsUnique(s: seq<Record>, s': seq<Record>)
    requires InTimeOrder(s) && InTimeOrder(s') && multiset(s) == multiset(s')
    ensures s == s'
  {
    assert |s| == |multiset(s)| == |multiset(s')| == |s'|;
    if s != [] {
      SortedHeads(s, s');
      assert s == [s[0]] + s[1..] && s' == [s'[0]] + s'[1..];
      assert multiset(s[1..]) == multiset(s) - multiset{s[0]};
      assert multiset(s'[1..]) == multiset(s') - multiset{s[0]};
      SortedIsUnique(s[1..], s'[1..]);
    }
  }

  /** With distinct transition times the sort does not depend on the order of the list. */
  lemma SortIgnoresListOrder(rs: seq<Record>, rs': seq<Record>)
    requires TimesDistinct(rs) && multiset(rs) == multiset(rs')
    ensures SortByTransition(rs) == SortByTransition(rs')
  {
    SortSorts(rs);
    DistinctUnderPermutation(rs, rs');
    SortSorts(rs');
    SortedIsUnique(SortByTransition(rs), SortByTransition(rs'));
  }

  lemma DistinctUnderPermutation(rs: seq<Record>, rs': seq<Record>)
    requires TimesDistinct(rs) && multiset(rs) == multiset(rs')
    ensures TimesDistinct(rs')
  {
    forall r | r in rs'
      ensures r.transition.Some?
    {
      assert r in multiset(rs');
      assert r in rs;
    }
    forall i, j | 0 <= i < j < |rs'|
      ensures rs'[i].transition != rs'[j].transition
    {
      var a, b := rs'[i], rs'[j];
      assert a in multiset(rs') && b in multiset(rs');
      assert a in rs && b in rs;
      if a == b {
        TwiceInMultiset(rs', i, j);
        OnceInMultiset(rs, a);
        assert false;
      } else {
        var k :| 0 <= k < |rs| && rs[k] == a;
        var m :| 0 <= m < |rs| && rs[m] == b;
        assert rs[if k < m then k else m].transition != rs[if k < m then m else k].transition;
      }
    }
  }

  lemma TwiceInMultiset(rs: seq<Record>, i: nat, j: nat)
    requires i < j < |rs| && rs[i] == rs[j]
    ensures multiset(rs)[rs[i]] >= 2
  {
    assert rs == rs[..j] + [rs[j]] + rs[j + 1..];
    assert rs[..j][i] == rs[i];
    assert rs[i] in multiset(rs[..j]);
  }

  lemma OnceInMultiset(rs: seq<Record>, r: Record)
    requires TimesDistinct(rs) && r in rs
    ensures multiset(rs)[r] == 1
  {
    var k :| 0 <= k < |rs| && rs[k] == r;
    assert rs == rs[..k] + [rs[k]] + rs[k + 1..];
    assert r !in rs[..k] && r !in rs[k + 1..];
    assert r !in multiset(rs[..k]) && r !in multiset(rs[k + 1..]);
  }

  // ---------- the fold ----------

  datatype Flags = Flags(ready: bool, running: bool, failed: bool)

  /** What a nodeset records of the deployments it has been through. */
  datatype Recorded = Recorded(configMapHashes: Hashes, secretHashes: Hashes, containerImages: Hashes,
                               deployedConfigHash: string, deployedVersion: string,
                               deploymentStatuses: map<string, Conditions>)

  function Note(ns: string, r: Record, st: Recorded): Recorded {
    var st := st.(deploymentStatuses := st.deploymentStatuses[r.name := r.ConditionsFor(ns)]);
    if r.ConditionFor(ns).True? then
      st.(configMapHashes := st.configMapHashes + r.configMapHashes,
          secretHashes := st.secretHashes + r.secretHashes,
          containerImages := st.containerImages + r.containerImages,
          deployedConfigHash := r.HashFor(ns),
          deployedVersion := r.deployedVersion)
    else st
  }

  function FoldFrom(ns: string, rs: seq<Record>, i: nat, flags: Flags, st: Recorded): (Flags, Recorded)
    requires i <= |rs|
    decreases |rs| - i
  {
    if i == |rs| then (flags, st)
    else if !rs[i].Concerns(ns) then FoldFrom(ns, rs, i + 1, flags, st)
    else
      var c := rs[i].ConditionFor(ns);
      if IsError(c) then (Flags(false, false, true), Note(ns, rs[i], st))
      else FoldFrom(ns, rs, i + 1, Flags(c.True?, c.False?, false), Note(ns, rs[i], st))
  }

  const NO_FLAGS := Flags(false, false, false)

  function Check(ns: string, rs: seq<Record>, st: Recorded): (Flags, Recorded) {
    FoldFrom(ns, SortByTransition(rs), 0, NO_FLAGS, st)
  }

  /** The part of a nodeset's status that the check updates in place. */
  class NodeSetStatus {
    var configMapHashes: Hashes
    var secretHashes: Hashes
    var containerImages: Hashes
    var deployedConfigHash: string
    var deployedVersion: string
    var deploymentStatuses: map<string, Conditions>

    constructor (st: Recorded)
      ensures Contents() == st
    {
      configMapHashes, secretHashes, containerImages := st.configMapHashes, st.secretHashes, st.containerImages;
      deployedConfigHash, deployedVersion := st.deployedConfigHash, st.deployedVersion;
      deploymentStatuses := st.deploymentStatuses;
    }

    ghost function Contents(): Recorded
      reads this
    {
      Recorded(configMapHashes, secretHashes, containerImages, deployedConfigHash, deployedVersion, deploymentStatuses)
    }

    method CheckDeployment(ns: string, deployments: seq<Record>) returns (isReady: bool, isRunning: bool,
                           isFailed: bool)
      modifies this
      ensures (Flags(isReady, isRunning, isFailed), Contents()) == Check(ns, deployments, old(Contents()))
    {
      isReady, isRunning, isFailed := false, false, false;
      var items := SortByTransition(deployments);
      for i := 0 to |items|
        invariant !isFailed
        invariant FoldFrom(ns, items, 0, NO_FLAGS, old(Contents()))
               == FoldFrom(ns, items, i, Flags(isReady, isRunning, isFailed), Contents())
      {
        var deployment := items[i];
        if deployment.deleting || ns !in deployment.nodeSets {
          continue;
        }
        isReady, isRunning := false, false;
        deploymentStatuses := deploymentStatuses[deployment.name := deployment.ConditionsFor(ns)];
        var c := deployment.ConditionFor(ns);
        if IsError(c) {
          isFailed := true;
          return;
        } else if c.False? {
          isRunning := true;
        } else if c.True? {
          isReady := true;
        }
        if isReady {
          configMapHashes := configMapHashes + deployment.configMapHashes;
          secretHashes := secretHashes + deployment.secretHashes;
          containerImages := containerImages + deployment.containerImages;
          deployedConfigHash := deployment.HashFor(ns);
          deployedVersion := deployment.deployedVersion;
        }
      }
    }
  }

  // ---------- the verdict ----------

  ghost predicate InError(ns: string, r: Record) {
    r.Concerns(ns) && IsError(r.ConditionFor(ns))
  }

  /** `k` is the last index whose deployment concerns the nodeset. */
  ghost predicate LastConcerned(ns: string, rs: seq<Record>, k: int) {
    0 <= k < |rs| && rs[k].Concerns(ns) && forall j | k < j < |rs| :: !rs[j].Concerns(ns)
  }

  lemma {:induction false} FoldVerdict(ns: string, rs: seq<Record>, i: nat, flags: Flags, st: Recorded)
    requires i <= |rs| && !flags.failed
    ensures var f := FoldFrom(ns, rs, i, flags, st).0;
            && (f.failed <==> exists k | i <= k < |rs| :: InError(ns, rs[k]))
            && (f.failed ==> !f.ready && !f.running)
            && (!f.failed && (forall k | i <= k < |rs| :: !rs[k].Concerns(ns)) ==> f == flags)
            && (forall k | LastConcerned(ns, rs, k) && i <= k && !f.failed ::
                  f == Flags(rs[k].ConditionFor(ns).True?, rs[k].ConditionFor(ns).False?, false))
    decreases |rs| - i
  {
    if i < |rs| {
      var c := rs[i].ConditionFor(ns);
      if !rs[i].Concerns(ns) {
        FoldVerdict(ns, rs, i + 1, flags, st);
      } else if IsError(c) {
        assert InError(ns, rs[i]);
      } else {
        FoldVerdict(ns, rs, i + 1, Flags(c.True?, c.False?, false), Note(ns, rs[i], st));
      }
    }
  }

  /** The verdict on a nodeset: at most one flag is set; it has failed if and only if some live
      deployment that names it is in error; otherwise the flags are those of the newest live
      deployment that names it, and none is set when there is no such deployment. */
  lemma VerdictOfNewest(ns: string, rs: seq<Record>, st: Recorded)
    requires TimesDistinct(rs)
    ensures var f := Check(ns, rs, st).0;
            && !(f.ready && f.running) && !(f.ready && f.failed) && !(f.running && f.failed)
            && (f.failed <==> exists r | r in rs :: InError(ns, r))
            && ((forall r | r in rs :: !r.Concerns(ns)) ==> f == NO_FLAGS)
            && (forall r | r in rs && r.Concerns(ns) && !f.failed
                           && (forall x | x in rs && x.Concerns(ns) && x != r :: Before(x, r)) ::
                  f == Flags(r.ConditionFor(ns).True?, r.ConditionFor(ns).False?, false))
  {
    var s := SortByTransition(rs);
    SortSorts(rs);
    SameElements(rs, s);
    FoldVerdict(ns, s, 0, NO_FLAGS, st);
    hide FoldFrom, SortByTransition, TimesDistinct;
    if k :| LastConcerned(ns, s, k) {
      forall r | r in rs && r.Concerns(ns) && (forall x | x in rs && x.Concerns(ns) && x != r :: Before(x, r))
        ensures r == s[k]
      {
        var j :| 0 <= j < |s| && s[j] == r;
        assert j == k || Before(s[j], s[k]);
      }
    } else {
      NoLastConcerned(ns, s);
    }
  }

  lemma SameElements(rs: seq<Record>, s: seq<Record>)
    requires multiset(rs) == multiset(s)
    ensures forall r :: r in rs <==> r in s
  {
    forall r
      ensures r in rs <==> r in s
    {
      assert r in rs <==> r in multiset(rs);
      assert r in s <==> r in multiset(s);
    }
  }

  lemma {:induction false} NoLastConcerned(ns: string, rs: seq<Record>)
    requires forall k :: !LastConcerned(ns, rs, k)
    ensures forall r | r in rs :: !r.Concerns(ns)
  {
    if rs != [] {
      var n := |rs| - 1;
      assert !LastConcerned(ns, rs, n);
      forall k
        ensures !LastConcerned(ns, rs[..n], k)
      {
        assert !LastConcerned(ns, rs, k);
      }
      NoLastConcerned(ns, rs[..n]);
      assert rs == rs[..n] + [rs[n]];
    }
  }

  // ---------- the recorded maps ----------

  /** What one run of the check adds to the record. */
  datatype Delta = Delta(configMapHashes: Hashes, secretHashes: Hashes, containerImages: Hashes,
                         deployed: Option<(string, string)>, deploymentStatuses: map<string, Conditions>)

  function DeltaFrom(ns: string, rs: seq<Record>, i: nat): Delta
    requires i <= |rs|
    decreases |rs| - i
  {
    if i == |rs| then Delta(map[], map[], map[], None, map[])
    else if !rs[i].Concerns(ns) then DeltaFrom(ns, rs, i + 1)
    else
      var r := rs[i];
      var own := map[r.name := r.ConditionsFor(ns)];
      if IsError(r.ConditionFor(ns)) then Delta(map[], map[], map[], None, own)
      else
        var d := DeltaFrom(ns, rs, i + 1);
        if r.ConditionFor(ns).True? then
          Delta(r.configMapHashes + d.configMapHashes, r.secretHashes + d.secretHashes,
            r.containerImages + d.containerImages,
                if d.deployed.Some? then d.deployed else Some((r.HashFor(ns), r.deployedVersion)),
                own + d.deploymentStatuses)
        else d.(deploymentStatuses := own + d.deploymentStatuses)
  }

  function Apply(st: Recorded, d: Delta): Recorded {
    Recorded(st.configMapHashes + d.configMapHashes, st.secretHashes + d.secretHashes,
      st.containerImages + d.containerImages,
             if d.deployed.Some? then d.deployed.value.0 else st.deployedConfigHash,
             if d.deployed.Some? then d.deployed.value.1 else st.deployedVersion,
             st.deploymentStatuses + d.deploymentStatuses)
  }

  lemma {:induction false} FoldAppliesDelta(ns: string, rs: seq<Record>, i: nat, flags: Flags, st: Recorded)
    requires i <= |rs|
    ensures FoldFrom(ns, rs, i, flags, st).1 == Apply(st, DeltaFrom(ns, rs, i))
    decreases |rs| - i
  {
    hide Apply, Note;
    NothingToApply(st);
    if i < |rs| {
      var c := rs[i].ConditionFor(ns);
      if !rs[i].Concerns(ns) {
        FoldAppliesDelta(ns, rs, i + 1, flags, st);
      } else if IsError(c) {
        NoteOfError(ns, rs[i], st);
      } else {
        FoldAppliesDelta(ns, rs, i + 1, Flags(c.True?, c.False?, false), Note(ns, rs[i], st));
        ApplyAfterNote(ns, rs[i], st, DeltaFrom(ns, rs, i + 1), DeltaFrom(ns, rs, i));
      }
    }
  }

  lemma NothingToApply(st: Recorded)
    ensures Apply(st, Delta(map[], map[], map[], None, map[])) == st
  {
  }

  lemma NoteOfError(ns: string, r: Record, st: Recorded)
    requires IsError(r.ConditionFor(ns))
    ensures Note(ns, r, st) == Apply(st, Delta(map[], map[], map[], None, map[r.name := r.ConditionsFor(ns)]))
  {
  }

  lemma OverlayAssociates<V>(a: map<string, V>, b: map<string, V>, c: map<string, V>)
    ensures (a + b) + c == a + (b + c)
  {
  }

  lemma ApplyAfterNote(ns: string, r: Record, st: Recorded, d: Delta, d': Delta)
    requires !IsError(r.ConditionFor(ns))
    requires var own := map[r.name := r.ConditionsFor(ns)];
             d' == if r.ConditionFor(ns).True? then
                     Delta(r.configMapHashes + d.configMapHashes, r.secretHashes + d.secretHashes,
                       r.containerImages + d.containerImages,
                           if d.deployed.Some? then d.deployed else Some((r.HashFor(ns), r.deployedVersion)),
                           own + d.deploymentStatuses)
                   else d.(deploymentStatuses := own + d.deploymentStatuses)
    ensures Apply(Note(ns, r, st), d) == Apply(st, d')
  {
    hide Record.ConditionFor, Record.ConditionsFor, Record.HashFor, IsError;
    OverlayAssociates(st.configMapHashes, r.configMapHashes, d.configMapHashes);
    OverlayAssociates(st.secretHashes, r.secretHashes, d.secretHashes);
    OverlayAssociates(st.containerImages, r.containerImages, d.containerImages);
    OneStatusMore(st.deploymentStatuses, r.name, r.ConditionsFor(ns), d.deploymentStatuses);
  }

  lemma OneStatusMore<V>(m: map<string, V>, k: string, v: V, d: map<string, V>)
    ensures m[k := v] + d == m + (map[k := v] + d)
  {
  }

  /** `rs[k]` is reached by the fold from `i` on, and its deployment is done. */
  ghost predicate Counts(ns: string, rs: seq<Record>, i: int, k: int) {
    && 0 <= i <= k < |rs| && rs[k].Concerns(ns) && rs[k].ConditionFor(ns).True?
    && forall j | i <= j < k :: !InError(ns, rs[j])
  }

  /** `m` holds, for each key, the value of the last deployment that counts and has it. */
  ghost predicate LastValues(ns: string, rs: seq<Record>, i: int, f: Record -> Hashes, m: Hashes) {
    && (forall key | key in m :: exists k :: Counts(ns, rs, i, k) && key in f(rs[k]))
    && (forall k, key | Counts(ns, rs, i, k) && key in f(rs[k]) :: key in m)
    && (forall k, key | Counts(ns, rs, i, k) && key in f(rs[k])
                        && (forall j | k < j && Counts(ns, rs, i, j) :: key !in f(rs[j])) :: m[key] == f(rs[k])[key])
  }

  lemma CountsStep(ns: string, rs: seq<Record>, i: nat)
    requires i < |rs|
    ensures InError(ns, rs[i]) ==> forall k :: !Counts(ns, rs, i, k)
    ensures !InError(ns, rs[i]) ==>
              forall k :: Counts(ns, rs, i, k) <==>
                          Counts(ns, rs, i + 1, k) || (k == i && rs[i].Concerns(ns) && rs[i].ConditionFor(ns).True?)
  {
  }

  ghost predicate Adds(ns: string, r: Record) {
    r.Concerns(ns) && r.ConditionFor(ns).True?
  }

  lemma LastValuesSkip(ns: string, rs: seq<Record>, i: nat, f: Record -> Hashes, m: Hashes)
    requires i < |rs| && LastValues(ns, rs, i + 1, f, m) && !InError(ns, rs[i]) && !Adds(ns, rs[i])
    ensures LastValues(ns, rs, i, f, m)
  {
    hide Counts;
    CountsStep(ns, rs, i);
  }

  lemma LastValuesAdd(ns: string, rs: seq<Record>, i: nat, f: Record -> Hashes, m: Hashes)
    requires i < |rs| && LastValues(ns, rs, i + 1, f, m) && !InError(ns, rs[i]) && Adds(ns, rs[i])
    ensures LastValues(ns, rs, i, f, f(rs[i]) + m)
  {
    CountsStep(ns, rs, i);
    assert Counts(ns, rs, i, i);
    var next := i + 1;
    assert forall k | Counts(ns, rs, next, k) :: i < k;
    hide Counts;
    var m' := f(rs[i]) + m;
    forall k, key | Counts(ns, rs, i, k) && key in f(rs[k])
                           && (forall j | k < j && Counts(ns, rs, i, j) :: key !in f(rs[j]))
      ensures m'[key] == f(rs[k])[key]
    {
      if k == i {
        assert key !in m;
      } else {
        assert forall j | k < j && Counts(ns, rs, i + 1, j) :: Counts(ns, rs, i, j);
        assert key in m;
      }
    }
  }

  lemma LastValuesStep(ns: string, rs: seq<Record>, i: nat, f: Record -> Hashes, m: Hashes)
    requires i < |rs| && LastValues(ns, rs, i + 1, f, m) && !InError(ns, rs[i])
    ensures LastValues(ns, rs, i, f, if Adds(ns, rs[i]) then f(rs[i]) + m else m)
  {
    hide LastValues;
    if Adds(ns, rs[i]) {
      LastValuesAdd(ns, rs, i, f, m);
    } else {
      LastValuesSkip(ns, rs, i, f, m);
    }
  }

  lemma {:induction false} DeltaHoldsLastValues(ns: string, rs: seq<Record>, i: nat)
    requires i <= |rs|
    ensures LastValues(ns, rs, i, (r: Record) => r.configMapHashes, DeltaFrom(ns, rs, i).configMapHashes)
    ensures LastValues(ns, rs, i, (r: Record) => r.secretHashes, DeltaFrom(ns, rs, i).secretHashes)
    ensures LastValues(ns, rs, i, (r: Record) => r.containerImages, DeltaFrom(ns, rs, i).containerImages)
    decreases |rs| - i
  {
    if i < |rs| {
      DeltaHoldsLastValues(ns, rs, i + 1);
      var d := DeltaFrom(ns, rs, i + 1);
      if InError(ns, rs[i]) {
        CountsStep(ns, rs, i);
      } else {
        LastValuesStep(ns, rs, i, (r: Record) => r.configMapHashes, d.configMapHashes);
        LastValuesStep(ns, rs, i, (r: Record) => r.secretHashes, d.secretHashes);
        LastValuesStep(ns, rs, i, (r: Record) => r.containerImages, d.containerImages);
      }
    }
  }

  /** The recorded maps are the old maps overlaid, oldest to newest, by the maps of every
      finished deployment before the first one in error; no key is lost. */
  lemma RecordIsOverlay(ns: string, rs: seq<Record>, st: Recorded) returns (d: Delta)
    ensures var st' := Check(ns, rs, st).1;
            var s := SortByTransition(rs);
            && st'.configMapHashes == st.configMapHashes + d.configMapHashes
            && st'.secretHashes == st.secretHashes + d.secretHashes
            && st'.containerImages == st.containerImages + d.containerImages
            && LastValues(ns, s, 0, (r: Record) => r.configMapHashes, d.configMapHashes)
            && LastValues(ns, s, 0, (r: Record) => r.secretHashes, d.secretHashes)
            && LastValues(ns, s, 0, (r: Record) => r.containerImages, d.containerImages)
            && st.configMapHashes.Keys <= st'.configMapHashes.Keys
            && st.secretHashes.Keys <= st'.secretHashes.Keys
            && st.containerImages.Keys <= st'.containerImages.Keys
  {
    d := DeltaFrom(ns, SortByTransition(rs), 0);
    FoldAppliesDelta(ns, SortByTransition(rs), 0, NO_FLAGS, st);
    DeltaHoldsLastValues(ns, SortByTransition(rs), 0);
  }

  /** Checking the same deployments again gives the same verdict and changes nothing. */
  lemma CheckIsIdempotent(ns: string, rs: seq<Record>, st: Recorded)
    ensures Check(ns, rs, Check(ns, rs, st).1) == Check(ns, rs, st)
  {
    var s := SortByTransition(rs);
    var st' := Check(ns, rs, st).1;
    FoldAppliesDelta(ns, s, 0, NO_FLAGS, st);
    FoldAppliesDelta(ns, s, 0, NO_FLAGS, st');
    FlagsIgnoreRecord(ns, s, 0, NO_FLAGS, st, st');
    var d := DeltaFrom(ns, s, 0);
    OverlayTwice(st.configMapHashes, d.configMapHashes);
    OverlayTwice(st.secretHashes, d.secretHashes);
    OverlayTwice(st.containerImages, d.containerImages);
    OverlayTwice(st.deploymentStatuses, d.deploymentStatuses);
  }

  lemma OverlayTwice<V>(m: map<string, V>, d: map<string, V>)
    ensures (m + d) + d == m + d
  {
  }

  lemma {:induction false} FlagsIgnoreRecord(ns: string, rs: seq<Record>, i: nat, flags: Flags, st: Recorded,
                                             st': Recorded)
    requires i <= |rs|
    ensures FoldFrom(ns, rs, i, flags, st).0 == FoldFrom(ns, rs, i, flags, st').0
    decreases |rs| - i
  {
    if i < |rs| {
      var c := rs[i].ConditionFor(ns);
      if !rs[i].Concerns(ns) {
        FlagsIgnoreRecord(ns, rs, i + 1, flags, st, st');
      } else if !IsError(c) {
        FlagsIgnoreRecord(ns, rs, i + 1, Flags(c.True?, c.False?, false), Note(ns, rs[i], st), Note(ns, rs[i], st'));
      }
    }
  }

  /** With distinct transition times neither the verdict nor the record depends on the order
      in which the deployments are listed. */
  lemma CheckIgnoresListOrder(ns: string, rs: seq<Record>, rs': seq<Record>, st: Recorded)
    requires TimesDistinct(rs) && multiset(rs) == multiset(rs')
    ensures Check(ns, rs, st) == Check(ns, rs', st)
  {
    SortIgnoresListOrder(rs, rs');
  }
}
