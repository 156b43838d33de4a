/**
 Services and the check that a service deployed on all nodesets is listed only once
 (pkg/deployment/service.go).
 */
module Services {
  import opened Conditions

  /** The fields of a service that steer the deployment: `tlsCerts` and `caCerts` tell whether
      they are given, and `certsFrom` is another service to take the certificates of. */
  datatype ServiceSpec = ServiceSpec(deployOnAllNodeSets: bool, addCertMounts: bool, tlsCerts: bool, caCerts: bool,
                                     certsFrom: Option<string>)

  type ServiceStore = map<string, ServiceSpec>

  predicate IsGlobal(services: ServiceStore, name: string) {
    name in services && services[name].deployOnAllNodeSets
  }

  function Globals(services: ServiceStore): set<string> {
    set s | s in services && services[s].deployOnAllNodeSets
  }

  function Flatten(lists: seq<seq<string>>): seq<string> {
    if lists == [] then [] else Flatten(lists[..|lists| - 1]) + lists[|lists| - 1]
  }

  method ServiceInList(service: string, services: seq<string>) returns (found: bool)
    ensures found <==> service in services
  {
    for i := 0 to |services|
      invariant service !in services[..i]
    {
      if services[i] == service {
        return true;
      }
    }
    return false;
  }

  // ---------- the services behind the certificate mounts ----------

  /** A service takes the certificates of another one when it has none of its own. */
  predicate Borrows(spec: ServiceSpec) {
    spec.certsFrom.Some? && !spec.tlsCerts && !spec.caCerts
  }

  /** The certificates of one service: its own, those of another one that is listed anyway, or
      those of another one that is there. A nodeset without nodes has published none. */
  predicate SourceKnown(services: ServiceStore, listed: seq<string>, hasNodes: bool, spec: ServiceSpec) {
    if !Borrows(spec) then spec.tlsCerts ==> hasNodes
    else
      var source := spec.certsFrom.value;
      source in listed || (source in services && (services[source].tlsCerts ==> hasNodes))
  }

  /** Whether the certificate mounts for these services can be built, as far as services go. */
  predicate CertSourcesKnown(services: ServiceStore, listed: seq<string>, hasNodes: bool) {
    forall s | s in listed :: s in services && SourceKnown(services, listed, hasNodes, services[s])
  }

  /** In the fields: a service without certificates of its own that names another service takes those of this one,
      which is listed or else there; and whoever is to have certificates needs nodes. */
  lemma CertSourcesInFields(services: ServiceStore, listed: seq<string>, hasNodes: bool)
    ensures CertSourcesKnown(services, listed, hasNodes) <==>
              forall s | s in listed ::
                && s in services
                && match services[s]
                   case ServiceSpec(_, _, false, false, Some(source)) =>
                     source in listed || (source in services && (services[source].tlsCerts ==> hasNodes))
                   case ServiceSpec(_, _, tlsCerts, _, _) => tlsCerts ==> hasNodes
  {
  }

  // ---------- global services ----------

  /** Every listed service can be read, and no global one is listed twice. `readable(i)` tells
      whether the i-th read succeeds. */
  predicate Consistent(services: ServiceStore, listed: seq<string>, readable: nat -> bool) {
    && (forall i: nat | i < |listed| :: readable(i) && listed[i] in services)
    && (forall i, j | 0 <= i < j < |listed| :: listed[i] == listed[j] ==> !IsGlobal(services, listed[i]))
  }

  const ALL_READABLE: nat -> bool := (i: nat) => true

  /** The check passes if and only if the listed services are consistent. */
  method CheckGlobalServiceExecutionConsistency(services: ServiceStore, nodeSets: seq<seq<string>>,
                                                readable: nat -> bool)
    returns (ok: bool)
    ensures ok <==> Consistent(services, Flatten(nodeSets), readable)
  {
    var allServices := [];
    for k := 0 to |nodeSets|
      invariant allServices == Flatten(nodeSets[..k])
    {
      assert nodeSets[..k + 1][..k] == nodeSets[..k];
      allServices := allServices + nodeSets[k];
    }
    assert nodeSets[..|nodeSets|] == nodeSets;

    var globalServices := [];
    for i := 0 to |allServices|
      invariant forall j: nat | j < i :: readable(j) && allServices[j] in services
      invariant forall s :: s in globalServices <==> s in allServices[..i] && IsGlobal(services, s)
      invariant forall j, k | 0 <= j < k < i :: allServices[j] == allServices[k] ==> !IsGlobal(services, allServices[j])
    {
      var svc := allServices[i];
      if !readable(i) || svc !in services {
        return false;
      }
      if services[svc].deployOnAllNodeSets {
        var listed := ServiceInList(svc, globalServices);
        if listed {
          return false;
        }
        globalServices := globalServices + [svc];
      }
    }
    return true;
  }

  lemma {:induction false} FlattenContains(lists: seq<seq<string>>, k: nat, s: string)
    requires k < |lists| && s in lists[k]
    ensures s in Flatten(lists)
  {
    if k < |lists| - 1 {
      FlattenContains(lists[..|lists| - 1], k, s);
    }
  }

  /** When the lists are consistent, a global service occurs in at most one of them. */
  lemma {:induction false} GlobalServiceInOneList(services: ServiceStore, lists: seq<seq<string>>,
      readable: nat -> bool, k: nat, k': nat, s: string)
    requires Consistent(services, Flatten(lists), readable) && IsGlobal(services, s)
    requires k < |lists| && k' < |lists| && s in lists[k] && s in lists[k']
    ensures k == k'
  {
    var init, last := Flatten(lists[..|lists| - 1]), lists[|lists| - 1];
    var flat := Flatten(lists);
    if k < |lists| - 1 && k' < |lists| - 1 {
      assert forall i | 0 <= i < |init| :: flat[i] == init[i];
      GlobalServiceInOneList(services, lists[..|lists| - 1], readable, k, k', s);
    } else {
      var m := if k < k' then k else k';
      assert m == |lists| - 1 || s in init by {
        if m < |lists| - 1 { FlattenContains(lists[..|lists| - 1], m, s); }
      }
      var j :| 0 <= j < |last| && last[j] == s;
      assert flat[|init| + j] == s;
      assert forall i | 0 <= i < |init| :: flat[i] == init[i];
    }
  }
}
