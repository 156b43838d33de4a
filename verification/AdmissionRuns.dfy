/**
 The nodesets of a cluster over any sequence of creations and deletions: no address is
 claimed by two pre-provisioned nodesets (api/v1beta1/openstackdataplanenodeset_webhook.go).
 */
module AdmissionRuns {
  import opened HostNames
  import opened Admission

  type NodeSetStore = map<string, Spec>

  datatype Request =
    | Create(name: string, spec: Spec, order: seq<string>)
    | Delete(name: string)

  /** The orders in a request are orders of its nodes. */
  ghost predicate WellFormed(r: Request) {
    r.Create? ==> forall n :: n in r.order <==> n in r.spec.nodes
  }

  /** Only pre-provisioned nodesets are checked, against all stored ones. */
  ghost predicate Refused(spec: Spec, store: NodeSetStore) {
    spec.preProvisioned && exists m | m in store :: Overlap(spec.nodes, store[m].nodes)
                                  || BlankMeetsBlank(spec.nodes, store[m].nodes)
  }

  /** The store after one request; a creation needs a free name that is valid. */
  ghost function Next(store: NodeSetStore, r: Request, validName: string -> bool): NodeSetStore
    requires WellFormed(r)
  {
    match r
    case Delete(name) => store - {name}
    case Create(name, spec, order) =>
      var s := Defaulted(spec, order);
      if name in store || !validName(name) || Refused(s, store) then store else store[name := s]
  }

  ghost function Run(store: NodeSetStore, requests: seq<Request>, validName: string -> bool): NodeSetStore
    requires forall r | r in requests :: WellFormed(r)
    decreases |requests|
  {
    if requests == [] then store else Run(Next(store, requests[0], validName), requests[1..], validName)
  }

  /** The nodesets of a namespace, with the webhook in front of them. */
  class Namespace {
    const validName: string -> bool
    var nodeSets: NodeSetStore

    constructor (validName: string -> bool, nodeSets: NodeSetStore)
      ensures this.validName == validName && this.nodeSets == nodeSets
    {
      this.validName, this.nodeSets := validName, nodeSets;
    }

    /** `items` is the list of the stored nodesets, and `orders` the walks over their nodes. */
    method ValidateCreate(name: string, spec: Spec, items: seq<string>, orders: seq<seq<string>>,
                          order: seq<string>) returns (ok: bool)
      requires forall m :: m in items <==> m in nodeSets
      requires |orders| == |items| && forall i | 0 <= i < |items| :: forall n ::
          n in orders[i] <==> n in nodeSets[items[i]].nodes
      requires forall n :: n in order <==> n in spec.nodes
      ensures ok <==> validName(name) && !Refused(spec, nodeSets)
    {
      ok := validName(name);
      if spec.preProvisioned && |items| != 0 {
        var stored := seq(|items|,
            i requires 0 <= i < |items| reads this requires items[i] in nodeSets => nodeSets[items[i]].nodes);
        var errors := DuplicateNodeCheck(spec.nodes, stored, orders, order);
        ItemsAreStored(nodeSets, items, stored, spec);
        if errors != [] {
          ok := false;
        }
      }
    }

    /** A creation: the defaults first, then the check, then the store. */
    method CreateNodeSet(name: string, spec: NodeSetSpec, first: seq<string>, second: seq<string>, items: seq<string>,
                         orders: seq<seq<string>>)
      returns (created: bool)
      requires (forall n :: n in first <==> n in spec.nodes)
               && forall i, j | 0 <= i < j < |first| :: first[i] != first[j]
      requires forall n :: n in second <==> n in spec.nodes
      requires forall m :: m in items <==> m in nodeSets
      requires |orders| == |items| && forall i | 0 <= i < |items| :: forall n ::
          n in orders[i] <==> n in nodeSets[items[i]].nodes
      modifies this, spec
      ensures nodeSets == Next(old(nodeSets), Create(name, old(spec.View()), second), validName)
      ensures created <==> name !in old(nodeSets) && validName(name) && !Refused(spec.View(), old(nodeSets))
    {
      hide Overlap, BlankMeetsBlank, Refused, DefaultNodes, HostMap;
      spec.Default(first, second);
      SameNodes(old(spec.View()), second);
      var s := Spec(spec.preProvisioned, spec.nodes, spec.domain, spec.ansibleUser, spec.cloudUserName,
          spec.deploymentSSHSecret,
                    spec.ansibleSSHSecret, spec.baremetalHosts);
      var ok := ValidateCreate(name, s, items, orders, second);
      created := ok && name !in nodeSets;
      if created {
        nodeSets := nodeSets[name := s];
      }
    }
  }

  lemma SameNodes(spec: Spec, order: seq<string>)
    requires forall n :: n in order <==> n in spec.nodes
    ensures Defaulted(spec, order).nodes.Keys == spec.nodes.Keys
  {
  }

  lemma ItemsAreStored(store: NodeSetStore, items: seq<string>, stored: seq<map<string, Node>>, spec: Spec)
    requires forall m :: m in items <==> m in store
    requires |stored| == |items| && forall i | 0 <= i < |items| :: stored[i] == store[items[i]].nodes
    ensures (exists i | 0 <= i < |stored| :: Overlap(spec.nodes, stored[i]) || BlankMeetsBlank(spec.nodes, stored[i]))
       <==> exists m | m in store :: Overlap(spec.nodes, store[m].nodes) || BlankMeetsBlank(spec.nodes, store[m].nodes)
  {
    hide Overlap, BlankMeetsBlank;
    if m :| m in store && (Overlap(spec.nodes, store[m].nodes) || BlankMeetsBlank(spec.nodes, store[m].nodes)) {
      var i :| 0 <= i < |items| && items[i] == m;
      assert stored[i] == store[m].nodes;
    }
    if i :| 0 <= i < |stored| && (Overlap(spec.nodes, stored[i]) || BlankMeetsBlank(spec.nodes, stored[i])) {
      assert items[i] in store;
    }
  }

  // ---------- what every run keeps ----------

  /** No two pre-provisioned nodesets have a node with a common address. */
  ghost predicate NoDoubleClaims(store: NodeSetStore) {
    forall a, b | a in store && b in store && a != b && store[a].preProvisioned && store[b].preProvisioned ::
      !Overlap(store[a].nodes, store[b].nodes)
  }

  lemma OverlapSymmetric(nodes: map<string, Node>, other: map<string, Node>)
    ensures Overlap(nodes, other) <==> Overlap(other, nodes)
  {
    if n, m :| n in nodes && m in other && Addresses(nodes[n]) * Addresses(other[m]) != {} {
      assert Addresses(other[m]) * Addresses(nodes[n]) == Addresses(nodes[n]) * Addresses(other[m]);
    }
    if n, m :| n in other && m in nodes && Addresses(other[n]) * Addresses(nodes[m]) != {} {
      assert Addresses(nodes[m]) * Addresses(other[n]) == Addresses(other[n]) * Addresses(nodes[m]);
    }
  }

  lemma RequestKeepsClaims(store: NodeSetStore, r: Request, validName: string -> bool)
    requires NoDoubleClaims(store) && WellFormed(r)
    ensures NoDoubleClaims(Next(store, r, validName))
  {
    hide Overlap, BlankMeetsBlank, Defaulted;
    if r.Create? {
      var s := Defaulted(r.spec, r.order);
      forall m | m in store ensures Overlap(s.nodes, store[m].nodes) <==> Overlap(store[m].nodes, s.nodes) {
        OverlapSymmetric(s.nodes, store[m].nodes);
      }
    }
  }

  /** From an empty cluster, no sequence of creations and deletions ever leaves two
      pre-provisioned nodesets that share a host name or an Ansible host, or have the one as the
      other. */
  lemma {:induction false} NoAddressIsClaimedTwice(requests: seq<Request>, validName: string -> bool)
    requires forall r | r in requests :: WellFormed(r)
    ensures NoDoubleClaims(Run(map[], requests, validName))
  {
    ClaimsStayApart(map[], requests, validName);
  }

  lemma {:induction false} ClaimsStayApart(store: NodeSetStore, requests: seq<Request>, validName: string -> bool)
    requires NoDoubleClaims(store) && forall r | r in requests :: WellFormed(r)
    ensures NoDoubleClaims(Run(store, requests, validName))
    decreases |requests|
  {
    hide NoDoubleClaims, Next;
    if requests != [] {
      RequestKeepsClaims(store, requests[0], validName);
      ClaimsStayApart(Next(store, requests[0], validName), requests[1..], validName);
    }
  }

  // ---------- when a creation is refused ----------

  ghost predicate NamedNodes(r: Request) {
    r.Create? ==> "" !in r.spec.nodes
  }

  ghost predicate NamedHosts(store: NodeSetStore) {
    forall m, n | m in store && n in store[m].nodes :: store[m].nodes[n].hostName != ""
  }

  lemma DefaultNamesHosts(spec: Spec, order: seq<string>)
    requires (forall n :: n in order <==> n in spec.nodes) && "" !in spec.nodes
    ensures forall n | n in Defaulted(spec, order).nodes :: Defaulted(spec, order).nodes[n].hostName != ""
  {
    hide HostMap, NodeHostNameIsFQDN;
  }

  lemma {:induction false} HostsStayNamed(store: NodeSetStore, requests: seq<Request>, validName: string -> bool)
    requires NamedHosts(store) && forall r | r in requests :: WellFormed(r) && NamedNodes(r)
    ensures NamedHosts(Run(store, requests, validName))
    decreases |requests|
  {
    hide Defaulted, Refused;
    if requests != [] {
      var r := requests[0];
      assert WellFormed(r) && NamedNodes(r);
      if r.Create? { DefaultNamesHosts(r.spec, r.order); }
      HostsStayNamed(Next(store, r, validName), requests[1..], validName);
    }
  }

  /** Once the nodes have names, the check refuses a pre-provisioned nodeset exactly when one of
      its nodes shares an address with a stored one, whatever was created and deleted before. */
  lemma RefusedIffOverlapping(requests: seq<Request>, validName: string -> bool, spec: Spec)
    requires forall r | r in requests :: WellFormed(r) && NamedNodes(r)
    requires spec.preProvisioned
    ensures var store := Run(map[], requests, validName);
            Refused(spec, store) <==> exists m | m in store :: Overlap(spec.nodes, store[m].nodes)
  {
    hide Overlap, Run;
    HostsStayNamed(map[], requests, validName);
    var store := Run(map[], requests, validName);
    forall m | m in store
      ensures !BlankMeetsBlank(spec.nodes, store[m].nodes)
    {
    }
  }

  /** The new node has an address of the stored one, or none where the stored one has no host name. */
  ghost predicate Conflicts(node: Node, stored: Node) {
    || node.hostName == stored.hostName || node.ansibleHost == stored.hostName
    || (stored.ansibleHost != ""
        && (node.hostName == stored.ansibleHost || node.ansibleHost == stored.ansibleHost))
  }

  ghost predicate AnyConflict(nodes: map<string, Node>, other: map<string, Node>) {
    exists n, m | n in nodes && m in other :: Conflicts(nodes[n], other[m])
  }

  lemma ConflictsMean(nodes: map<string, Node>, other: map<string, Node>)
    ensures Overlap(nodes, other) || BlankMeetsBlank(nodes, other) <==> AnyConflict(nodes, other)
  {
    if n, m :| n in nodes && m in other && Addresses(nodes[n]) * Addresses(other[m]) != {} {
      var a :| a in Addresses(nodes[n]) * Addresses(other[m]);
      assert Conflicts(nodes[n], other[m]);
    }
    if BlankMeetsBlank(nodes, other) {
      var n, m :| n in nodes && nodes[n].ansibleHost == "" && m in other && other[m].hostName == "";
      assert Conflicts(nodes[n], other[m]);
    }
    if n, m :| n in nodes && m in other && Conflicts(nodes[n], other[m]) {
      OneConflict(nodes, other, n, m);
    }
  }

  lemma OneConflict(nodes: map<string, Node>, other: map<string, Node>, n: string, m: string)
    requires n in nodes && m in other && Conflicts(nodes[n], other[m])
    ensures Overlap(nodes, other) || BlankMeetsBlank(nodes, other)
  {
    var a, b := nodes[n], other[m];
    if a.ansibleHost == "" && b.hostName == "" {
      assert BlankMeetsBlank(nodes, other);
    } else {
      assert {a.hostName, a.ansibleHost} * Addresses(b) <= Addresses(a) * Addresses(b) + {""};
      var x := if a.hostName == b.hostName || (b.ansibleHost != "" && a.hostName == b.ansibleHost) then a.hostName
               else a.ansibleHost;
      assert x in Addresses(a) && x in Addresses(b);
      assert x in Addresses(a) * Addresses(b);
      assert Overlap(nodes, other);
    }
  }

  /** What one request does: a creation stores the defaulted specification if and only if its name is free and
      valid and, for a pre-provisioned nodeset, no node of it is in conflict with a stored one; a deletion
      removes its nodeset. Other nodesets stay. */
  lemma RequestInFields(store: NodeSetStore, r: Request, validName: string -> bool, other: string)
    requires WellFormed(r)
    ensures var store' := Next(store, r, validName);
            && (other != r.name ==> (other in store' <==> other in store)
                                    && (other in store ==> store'[other] == store[other]))
            && (r.Delete? ==> r.name !in store')
            && (r.Create? ==>
                  var s := Defaulted(r.spec, r.order);
                  var fits := r.name !in store && validName(r.name)
                              && (s.preProvisioned ==> forall m | m in store :: !AnyConflict(s.nodes, store[m].nodes));
                  store' == if fits then store[r.name := s] else store)
  {
    hide Defaulted, Overlap, BlankMeetsBlank, AnyConflict;
    if r.Create? {
      forall m | m in store
        ensures Overlap(Defaulted(r.spec, r.order).nodes, store[m].nodes)
                || BlankMeetsBlank(Defaulted(r.spec, r.order).nodes, store[m].nodes)
                <==> AnyConflict(Defaulted(r.spec, r.order).nodes, store[m].nodes)
      {
        ConflictsMean(Defaulted(r.spec, r.order).nodes, store[m].nodes);
      }
    }
  }
}
