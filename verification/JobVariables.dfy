/**
 What the jobs of a deployment hold, literally: their variables, and the mounts of their secrets.
 */
module JobVariables {
  import opened SortedKeys
  import opened AeeSpecs

  // ---------- variables ----------

  /** The variables of a job are those of the deployment, but for three of them: the hosts it runs on are
      all of them for a service that is deployed on all nodesets and else its nodeset, its service type
      is the one given or else the name of the service, and the override is listed if there is one. */
  ghost predicate VariablesAre(vars: Vars, r: Request, shared: Shared, vars': Vars) {
    && "edpm_override_hosts" in vars'
    && vars'["edpm_override_hosts"] == (if r.deployOnAllNodeSets then "\"all\"" else "\"" + r.nodeSet + "\"")
    && "edpm_service_type" in vars'
    && vars'["edpm_service_type"] == "\"" + (if r.edpmServiceType == "" then r.service else r.edpmServiceType) + "\""
    && (shared.servicesOverride != [] ==>
          && "edpm_services_override" in vars'
          && vars'["edpm_services_override"] == "\"[" + Joined(shared.servicesOverride) + "]\"")
    && forall k | k != "edpm_override_hosts" && k != "edpm_service_type"
                  && (k != "edpm_services_override" || shared.servicesOverride == []) ::
         (k in vars' <==> k in vars) && (k in vars ==> vars'[k] == vars[k])
  }

  lemma OverlayIs(vars: Vars, r: Request, shared: Shared)
    ensures VariablesAre(vars, r, shared, vars + OverrideVars(r, shared))
  {
    assert |"edpm_override_hosts"| == 19 && |"edpm_service_type"| == 17 && |"edpm_services_override"| == 22;
    OverlayInSteps(vars, r, shared);
  }

  /** Every job that is not written again holds these variables, whatever was served before it. */
  lemma JobVariablesAre(jobs: map<string, Contents>, vars: Vars, plans: seq<Plan>, shared: Shared, i: nat, j: nat)
    requires i < |plans| && j < |plans[i].requests| && plans[i].requests[j].attempt.Written?
    requires forall j' | j < j' < |plans[i].requests| && plans[i].requests[j'].attempt.Written? ::
             plans[i].requests[j'].name != plans[i].requests[j].name
    requires forall i', r | i < i' < |plans| && r in plans[i'].requests
             && r.attempt.Written? :: r.name != plans[i].requests[j].name
    requires vars == map[] ==> CleanAt(jobs, plans[i].requests[j].name, shared)
    ensures var jobs' := WriteNodeSets(jobs, vars, plans, shared);
            var r := plans[i].requests[j];
            r.name in jobs' && VariablesAre(vars, r, shared, jobs'[r.name].vars)
  {
    hide OverrideVars, OwnMounts, WriteNodeSets, CleanAt, VariablesAre;
    JobHasItsOwnContents(jobs, vars, plans, shared, i, j);
    OverlayIs(vars, plans[i].requests[j], shared);
  }

  /** A job runs on "all" if and only if its service is deployed on all nodesets, or its nodeset happens to
      have that name. */
  lemma RunsOnAllIff(vars: Vars, r: Request, shared: Shared, vars': Vars)
    requires VariablesAre(vars, r, shared, vars')
    ensures vars'["edpm_override_hosts"] == "\"all\"" <==> r.deployOnAllNodeSets || r.nodeSet == "all"
  {
    var quoted := "\"" + r.nodeSet + "\"";
    assert r.nodeSet == quoted[1..|quoted| - 1];
    assert "all" == "\"all\""[1..4];
  }

  /** The job holds this value under this key. */
  ghost predicate HasVariable(jobs: map<string, Contents>, n: string, key: string, value: string) {
    n in jobs && key in jobs[n].vars && jobs[n].vars[key] == value
  }

  ghost predicate Overridden(key: string) {
    key == "edpm_override_hosts" || key == "edpm_service_type" || key == "edpm_services_override"
  }

  lemma {:induction false} ServingKeepsVariable(jobs: map<string, Contents>, mounts: seq<VolMounts>, tlsEnabled: bool,
                                                requests: seq<Request>, shared: Shared, n: string, key: string,
                                                value: string)
    requires HasVariable(jobs, n, key, value) && !Overridden(key)
    ensures HasVariable(WriteAll(jobs, map[], mounts, tlsEnabled, requests, shared), n, key, value)
  {
    if requests != [] {
      var k := |requests| - 1;
      ServingKeepsVariable(jobs, mounts, tlsEnabled, requests[..k], shared, n, key, value);
      var before := WriteAll(jobs, map[], mounts, tlsEnabled, requests[..k], shared);
      OverlayIs(BaseVars(map[], before, requests[k]), requests[k], shared);
      hide OverrideVars, OwnMounts;
    }
  }

  /** A deployment without variables of its own leaves what a job has under other keys. */
  lemma {:induction false} OtherVariablesStay(jobs: map<string, Contents>, plans: seq<Plan>, shared: Shared, n: string,
                                              key: string, value: string)
    requires HasVariable(jobs, n, key, value) && !Overridden(key)
    ensures HasVariable(WriteNodeSets(jobs, map[], plans, shared), n, key, value)
  {
    hide WriteAll, HasVariable, Overridden;
    if plans != [] {
      var k := |plans| - 1;
      OtherVariablesStay(jobs, plans[..k], shared, n, key, value);
      ServingKeepsVariable(WriteNodeSets(jobs, map[], plans[..k], shared), plans[k].mounts, plans[k].tlsEnabled,
        plans[k].requests, shared, n, key, value);
    }
  }

  /** The words of an override are separated by spaces. */
  lemma JoinedBySpaces(first: string, rest: seq<string>)
    ensures Joined([]) == "" && Joined([first]) == first
    ensures rest != [] ==> Joined([first] + rest) == first + " " + Joined(rest)
  {
    assert rest != [] ==> ([first] + rest)[1..] == rest;
  }

  // ---------- secrets ----------

  /** The job of one nodeset has its ssh key and its inventory where the runner looks for them. */
  lemma SecretsOfOneNodeSet(r: Request, shared: Shared)
    requires !r.deployOnAllNodeSets && r.nodeSet in shared.sshKeys && r.nodeSet in shared.inventories
    ensures OwnMounts(r, shared)
         == [Mount("ssh-key", "/runner/env/ssh_key", "ssh_key", shared.sshKeys[r.nodeSet], "ssh-privatekey"),
             Mount("inventory", "/runner/inventory/hosts", "inventory", shared.inventories[r.nodeSet], "inventory")]
  {
    hide OwnMounts;
    JobOfOneNodeSetMountsItsOwn(r, shared);
  }

  /** The job of all nodesets has the ssh key of each under its name, and the inventories by number, in the
      order of the names. */
  lemma SecretsOfAllNodeSets(r: Request, shared: Shared, i: nat)
    requires r.deployOnAllNodeSets
    ensures var own, sshKeys, invKeys := OwnMounts(r, shared), Sorted(shared.sshKeys.Keys),
                Sorted(shared.inventories.Keys);
            && |own| == |sshKeys| + |invKeys|
            && (i < |sshKeys| ==>
                  var k := sshKeys[i];
                  own[i] == Mount("ssh-key-" + k, "/runner/env/ssh_key/ssh_key_" + k, "ssh_key_" + k,
                                  shared.sshKeys[k], "ssh-privatekey"))
            && (i < |invKeys| ==>
                  var name := "inventory-" + Itoa(i);
                  own[|sshKeys| + i] == Mount(name, "/runner/inventory/" + name, name,
                                              shared.inventories[invKeys[i]], "inventory"))
  {
    hide OwnMounts, Sorted, Itoa;
    OwnMountsOfAll(r, shared, OwnMounts(r, shared), Sorted(shared.sshKeys.Keys), Sorted(shared.inventories.Keys));
  }
}
