/**
 Admission of nodesets: defaults are filled in, then nodes that another nodeset already
 claims are refused (api/v1beta1/openstackdataplanenodeset_webhook.go,
 api/v1beta1/openstackdataplanenodeset_types.go).
 */
module Admission {
  import opened SortedKeys
  import opened HostNames

  /** What a baremetal host is provisioned with. */
  datatype Instance = Instance(userData: string, networkData: string, preprovisioningData: string)

  datatype Node = Node(hostName: string, ansibleHost: string, inst: Instance)

  datatype Spec = Spec(preProvisioned: bool, nodes: map<string, Node>, domain: string, ansibleUser: string,
                       cloudUserName: string,
                       deploymentSSHSecret: string, ansibleSSHSecret: string, baremetalHosts: map<string, Instance>)

  // ---------- defaults ----------

  /** A node without a host name takes its own name; where the nodes are provisioned, one that
      is not fully qualified takes its name in the domain. */
  function DefaultNode(name: string, node: Node, preProvisioned: bool, domain: string): Node {
    var host := if node.hostName == "" then name else node.hostName;
    node.(hostName := if !preProvisioned && !NodeHostNameIsFQDN(host)
      && domain != "" then name + "." + domain else host)
  }

  function DefaultNodes(spec: Spec): map<string, Node> {
    map n | n in spec.nodes :: DefaultNode(n, spec.nodes[n], spec.preProvisioned, spec.domain)
  }

  /** The host map after the nodes were visited in this order. */
  function HostMap(order: seq<string>, nodes: map<string, Node>): map<string, Instance>
    requires forall n | n in order :: n in nodes
  {
    if order == [] then map[]
    else
      var last := nodes[order[|order| - 1]];
      HostMap(order[..|order| - 1], nodes)[last.hostName := last.inst]
  }

  /** The defaults, when the second walk over the nodes takes this order. */
  function Defaulted(spec: Spec, order: seq<string>): Spec
    requires forall n :: n in order <==> n in spec.nodes
  {
    var nodes := DefaultNodes(spec);
    if spec.preProvisioned then
      spec.(nodes := nodes, ansibleUser := if spec.ansibleUser == "" then "cloud-admin" else spec.ansibleUser)
    else
      spec.(nodes := nodes, ansibleUser := spec.cloudUserName,
            deploymentSSHSecret := if spec.deploymentSSHSecret == "" then spec.ansibleSSHSecret
              else spec.deploymentSSHSecret,
            baremetalHosts := HostMap(order, nodes))
  }

  /** The specification of a nodeset, defaulted in place. */
  class NodeSetSpec {
    const preProvisioned: bool
    const domain: string
    const cloudUserName: string
    const ansibleSSHSecret: string
    var nodes: map<string, Node>
    var ansibleUser: string
    var deploymentSSHSecret: string
    var baremetalHosts: map<string, Instance>

    constructor (s: Spec)
      ensures View() == s
    {
      preProvisioned, domain, cloudUserName, ansibleSSHSecret := s.preProvisioned, s.domain, s.cloudUserName,
        s.ansibleSSHSecret;
      nodes, ansibleUser, deploymentSSHSecret, baremetalHosts := s.nodes, s.ansibleUser, s.deploymentSSHSecret,
        s.baremetalHosts;
    }

    ghost function View(): Spec
      reads this
    {
      Spec(preProvisioned, nodes, domain, ansibleUser, cloudUserName, deploymentSSHSecret, ansibleSSHSecret,
        baremetalHosts)
    }

    method DefaultHostName(nodeName: string, node: Node) returns (node': Node)
      ensures node' == DefaultNode(nodeName, node, preProvisioned, domain)
    {
      hide NodeHostNameIsFQDN;
      node' := node;
      if node'.hostName == "" {
        node' := node'.(hostName := nodeName);
      }
      if !preProvisioned {
        if !NodeHostNameIsFQDN(node'.hostName) && domain != "" {
          node' := node'.(hostName := nodeName + "." + domain);
        }
      }
    }

    /** The first walk over the nodes, which overwrites the map it walks. */
    method DefaultHostNames(order: seq<string>)
      requires forall n :: n in order <==> n in nodes
      requires forall i, j | 0 <= i < j < |order| :: order[i] != order[j]
      modifies this`nodes
      ensures nodes == DefaultNodes(old(View()))
    {
      hide DefaultNode;
      ghost var before := nodes;
      for i := 0 to |order|
        invariant nodes.Keys == before.Keys
        invariant forall j | 0 <= j < i ::
            nodes[order[j]] == DefaultNode(order[j], before[order[j]], preProvisioned, domain)
        invariant forall j | i <= j < |order| :: nodes[order[j]] == before[order[j]]
      {
        var node := DefaultHostName(order[i], nodes[order[i]]);
        nodes := nodes[order[i] := node];
      }
      assert forall n | n in before :: nodes[n] == DefaultNode(n, before[n], preProvisioned, domain) by {
        forall n | n in before ensures nodes[n] == DefaultNode(n, before[n], preProvisioned, domain) {
          var j :| 0 <= j < |order| && order[j] == n;
        }
      }
    }

    /** `first` and `second` are the orders in which the map is walked, once to fill in the
        host names and once to collect the hosts. */
    method Default(first: seq<string>, second: seq<string>)
      requires (forall n :: n in first <==> n in nodes) && forall i, j | 0 <= i < j < |first| :: first[i] != first[j]
      requires forall n :: n in second <==> n in nodes
      modifies this
      ensures View() == Defaulted(old(View()), second)
    {
      hide DefaultNode;
      DefaultHostNames(first);
      if !preProvisioned {
        ansibleUser := cloudUserName;
        if deploymentSSHSecret == "" {
          deploymentSSHSecret := ansibleSSHSecret;
        }
        var nodeSetHostMap: map<string, Instance> := map[];
        for i := 0 to |second|
          invariant nodeSetHostMap == HostMap(second[..i], nodes)
        {
          assert second[..i + 1][..i] == second[..i];
          var node := nodes[second[i]];
          nodeSetHostMap := nodeSetHostMap[node.hostName := node.inst];
        }
        assert second[..|second|] == second;
        baremetalHosts := nodeSetHostMap;
      } else if ansibleUser == "" {
        ansibleUser := "cloud-admin";
      }
    }
  }

  // ---------- defaults are stable ----------

  /** Filling in a node again changes nothing. */
  lemma DefaultNodeTwice(name: string, node: Node, preProvisioned: bool, domain: string)
    ensures var once := DefaultNode(name, node, preProvisioned, domain);
            DefaultNode(name, once, preProvisioned, domain) == once
  {
    hide NodeHostNameIsFQDN;
  }

  /** A host name that was given is kept if and only if nothing is provisioned, it is fully
      qualified, there is no domain, or it is the node's name in the domain anyway; a short host
      name is otherwise lost, since its replacement starts from the name of the node. */
  lemma GivenHostNameKeptIff(name: string, node: Node, preProvisioned: bool, domain: string)
    requires node.hostName != ""
    ensures DefaultNode(name, node, preProvisioned, domain).hostName == node.hostName
       <==> preProvisioned || NodeHostNameIsFQDN(node.hostName) || domain == "" || node.hostName == name + "." + domain
  {
    hide NodeHostNameIsFQDN;
  }

  /** Where the nodes are provisioned in a proper domain and are named by labels, every host
      name is fully qualified afterwards. */
  lemma ProvisionedHostsAreQualified(spec: Spec, order: seq<string>, n: string)
    requires (forall x :: x in order <==> x in spec.nodes) && n in spec.nodes
    requires !spec.preProvisioned && IsLabel(n) && (NodeHostNameIsFQDN(spec.domain) || IsTopLevel(spec.domain))
    ensures NodeHostNameIsFQDN(Defaulted(spec, order).nodes[n].hostName)
  {
    LabelInDomain(n, spec.domain);
    assert spec.domain != "" by { EmptyIsNoDomain(); }
    hide NodeHostNameIsFQDN, IsLabel, IsTopLevel, HostMap;
  }

  lemma EmptyIsNoDomain()
    ensures !NodeHostNameIsFQDN("") && !IsTopLevel("")
  {
  }

  /** Two nodes with one host name are provisioned alike. */
  ghost predicate NoConflict(nodes: map<string, Node>) {
    forall a, b | a in nodes && b in nodes && nodes[a].hostName == nodes[b].hostName :: nodes[a].inst == nodes[b].inst
  }

  /** A host is in the map when some visited node has its name, with one of their instances. */
  lemma {:induction false} HostMapAt(order: seq<string>, nodes: map<string, Node>, h: string) returns (n: string)
    requires forall x | x in order :: x in nodes
    ensures h in HostMap(order, nodes) <==> exists x :: x in order && nodes[x].hostName == h
    ensures h in HostMap(order, nodes) ==>
        n in order && nodes[n].hostName == h && HostMap(order, nodes)[h] == nodes[n].inst
  {
    n := "";
    if order != [] {
      var k := |order| - 1;
      var m := HostMapAt(order[..k], nodes, h);
      n := if nodes[order[k]].hostName == h then order[k] else m;
      assert order == order[..k] + [order[k]];
      assert forall x :: x in order <==> x in order[..k] || x == order[k];
    }
  }

  /** An order that ends with `n`. */
  function EndingWith(nodes: map<string, Node>, n: string): (order: seq<string>)
    requires n in nodes
    ensures forall x :: x in order <==> x in nodes
  {
    Sorted(nodes.Keys - {n}) + [n]
  }

  lemma EndWins(nodes: map<string, Node>, n: string)
    requires n in nodes
    ensures nodes[n].hostName in HostMap(EndingWith(nodes, n), nodes)
    ensures HostMap(EndingWith(nodes, n), nodes)[nodes[n].hostName] == nodes[n].inst
  {
    hide Sorted;
  }

  ghost predicate SameInAnyOrder(nodes: map<string, Node>) {
    forall o: seq<string>, o': seq<string> | (forall n :: n in o <==> n in nodes)
                                  && (forall n :: n in o' <==> n in nodes) ::
      HostMap(o, nodes) == HostMap(o', nodes)
  }

  /** The host map is the same for every order of the nodes if and only if no two nodes share
      a host name and differ in what they are provisioned with. */
  lemma HostMapOrderIff(nodes: map<string, Node>)
    ensures SameInAnyOrder(nodes) <==> NoConflict(nodes)
  {
    hide HostMap, EndingWith;
    if NoConflict(nodes) {
      forall o: seq<string>, o': seq<string> | (forall n :: n in o <==> n in nodes)
                                    && (forall n :: n in o' <==> n in nodes)
        ensures HostMap(o, nodes) == HostMap(o', nodes)
      {
        HostMapOrders(o, o', nodes);
      }
    }
    if SameInAnyOrder(nodes) {
      forall a, b | a in nodes && b in nodes && nodes[a].hostName == nodes[b].hostName
        ensures nodes[a].inst == nodes[b].inst
      {
        EndWins(nodes, a);
        EndWins(nodes, b);
        assert HostMap(EndingWith(nodes, a), nodes) == HostMap(EndingWith(nodes, b), nodes);
      }
    }
  }

  lemma HostMapOrders(o: seq<string>, o': seq<string>, nodes: map<string, Node>)
    requires (forall n :: n in o <==> n in nodes) && (forall n :: n in o' <==> n in nodes) && NoConflict(nodes)
    ensures HostMap(o, nodes) == HostMap(o', nodes)
  {
    var m, m' := HostMap(o, nodes), HostMap(o', nodes);
    forall h
      ensures (h in m <==> h in m') && (h in m && h in m' ==> m[h] == m'[h])
    {
      var n := HostMapAt(o, nodes, h);
      var n' := HostMapAt(o', nodes, h);
    }
    hide HostMap;
    assert m.Keys == m'.Keys;
  }

  /** Defaulting twice is defaulting once, whatever the orders, as long as no two nodes end up
      with one host name and different provisioning. */
  lemma DefaultIsIdempotent(spec: Spec, order: seq<string>, order': seq<string>)
    requires (forall n :: n in order <==> n in spec.nodes) && (forall n :: n in order' <==> n in spec.nodes)
    requires spec.preProvisioned || NoConflict(DefaultNodes(spec))
    ensures var once := Defaulted(spec, order);
            (forall n :: n in order' <==> n in once.nodes) && Defaulted(once, order') == once
  {
    hide DefaultNode, HostMap;
    var once := Defaulted(spec, order);
    forall n | n in spec.nodes
      ensures DefaultNode(n, once.nodes[n], spec.preProvisioned, spec.domain) == once.nodes[n]
    {
      DefaultNodeTwice(n, spec.nodes[n], spec.preProvisioned, spec.domain);
    }
    assert DefaultNodes(once) == once.nodes;
    if !spec.preProvisioned {
      HostMapOrders(order, order', once.nodes);
    }
  }

  // ---------- the duplicate check ----------

  /** What a node is known by. */
  function Addresses(node: Node): set<string> {
    {node.hostName} + if node.ansibleHost != "" then {node.ansibleHost} else {}
  }

  ghost function AllAddresses(nodes: map<string, Node>): set<string> {
    set n, a | n in nodes && a in Addresses(nodes[n]) :: a
  }

  ghost predicate Overlap(nodes: map<string, Node>, other: map<string, Node>) {
    exists n, m | n in nodes && m in other :: Addresses(nodes[n]) * Addresses(other[m]) != {}
  }

  /** A node without an address of its own meets a stored node without a host name. */
  ghost predicate BlankMeetsBlank(nodes: map<string, Node>, other: map<string, Node>) {
    (exists n | n in nodes :: nodes[n].ansibleHost == "") && exists m | m in other :: other[m].hostName == ""
  }

  /** The nodes of the stored nodesets, in whatever order the lists and maps are walked. */
  method DuplicateNodeCheck(nodes: map<string, Node>, stored: seq<map<string, Node>>, orders: seq<seq<string>>,
                            order: seq<string>)
    returns (errors: seq<string>)
    requires |orders| == |stored| && forall i | 0 <= i < |stored| :: forall n :: n in orders[i] <==> n in stored[i]
    requires forall n :: n in order <==> n in nodes
    ensures errors != [] <==> exists i | 0 <= i < |stored| ::
        Overlap(nodes, stored[i]) || BlankMeetsBlank(nodes, stored[i])
  {
    var existingNodeNames: seq<string> := [];
    for i := 0 to |stored|
      invariant forall a :: a in existingNodeNames <==> exists j | 0 <= j < i :: a in AllAddresses(stored[j])
    {
      existingNodeNames := CollectNames(existingNodeNames, stored[i], orders[i]);
    }
    errors := [];
    for i := 0 to |order|
      invariant errors != [] <==> exists j | 0 <= j < i ::
                  nodes[order[j]].hostName in existingNodeNames || nodes[order[j]].ansibleHost in existingNodeNames
    {
      var newNode := nodes[order[i]];
      if newNode.hostName in existingNodeNames || newNode.ansibleHost in existingNodeNames {
        errors := errors + ["node " + newNode.hostName + " already exists in another cluster"];
      }
    }
    CheckMeansOverlap(nodes, stored, existingNodeNames);
    assert forall n | n in nodes :: exists j | 0 <= j < |order| :: order[j] == n;
  }

  method CollectNames(names: seq<string>, nodes: map<string, Node>, order: seq<string>) returns (names': seq<string>)
    requires forall n :: n in order <==> n in nodes
    ensures forall a :: a in names' <==> a in names || a in AllAddresses(nodes)
  {
    names' := names;
    for i := 0 to |order|
      invariant forall a :: a in names' <==> a in names || exists j | 0 <= j < i :: a in Addresses(nodes[order[j]])
    {
      var node := nodes[order[i]];
      names' := names' + [node.hostName];
      if node.ansibleHost != "" {
        names' := names' + [node.ansibleHost];
      }
    }
    assert forall n | n in nodes :: exists j | 0 <= j < |order| :: order[j] == n;
  }

  lemma CheckMeansOverlap(nodes: map<string, Node>, stored: seq<map<string, Node>>, existing: seq<string>)
    requires forall a :: a in existing <==> exists j | 0 <= j < |stored| :: a in AllAddresses(stored[j])
    ensures (exists n | n in nodes :: nodes[n].hostName in existing || nodes[n].ansibleHost in existing)
       <==> exists i | 0 <= i < |stored| :: Overlap(nodes, stored[i]) || BlankMeetsBlank(nodes, stored[i])
  {
    if n :| n in nodes && (nodes[n].hostName in existing || nodes[n].ansibleHost in existing) {
      var a := if nodes[n].hostName in existing then nodes[n].hostName else nodes[n].ansibleHost;
      var j :| 0 <= j < |stored| && a in AllAddresses(stored[j]);
      var m :| m in stored[j] && a in Addresses(stored[j][m]);
      if a in Addresses(nodes[n]) {
        assert a in Addresses(nodes[n]) * Addresses(stored[j][m]);
        assert Overlap(nodes, stored[j]);
      } else {
        assert BlankMeetsBlank(nodes, stored[j]);
      }
    }
    if i :| 0 <= i < |stored| && (Overlap(nodes, stored[i]) || BlankMeetsBlank(nodes, stored[i])) {
      if Overlap(nodes, stored[i]) {
        var n, m :| n in nodes && m in stored[i] && Addresses(nodes[n]) * Addresses(stored[i][m]) != {};
        var a :| a in Addresses(nodes[n]) * Addresses(stored[i][m]);
        assert a in AllAddresses(stored[i]);
      } else {
        var n :| n in nodes && nodes[n].ansibleHost == "";
        var m :| m in stored[i] && stored[i][m].hostName == "";
        assert "" in Addresses(stored[i][m]);
        assert "" in AllAddresses(stored[i]);
      }
    }
  }
}
