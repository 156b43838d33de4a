/**
 The DNS data of a nodeset, built from its IP reservations: one list of records and two maps
 per host name, which have to agree (pkg/deployment/ipam.go), and the inventory variables
 that are built from the same reservations (pkg/deployment/inventory.go).
 */
module DNSData {
  import opened Conditions
  import opened SortedKeys
  import opened HostNames

  const CTLPLANE := "ctlplane"

  datatype Node = Node(hostName: string, networks: seq<string>)

  datatype Reservation = Reservation(network: string, address: string, dnsDomain: string)

  /** The reservations of the hosts that have an IP set. */
  type IPSets = map<string, seq<Reservation>>

  datatype Record = Record(ip: string, hostNames: seq<string>)

  type NetMap = map<string, string>

  function LowerChar(c: char): char {
    if 'A' <= c <= 'Z' then c - 'A' + 'a' else c
  }

  function Lower(s: string): (r: string) {
    seq(|s|, i requires 0 <= i < |s| => LowerChar(s[i]))
  }

  function NetOf(res: Reservation): string {
    Lower(res.network)
  }

  /** The short name of the host in the domain of the reservation. */
  function DomainName(hostName: string, res: Reservation): string {
    ShortName(hostName) + "." + res.dnsDomain
  }

  /** The names of one record: the name in the reservation's domain, unless that is the host
      name itself, and the host name on the control plane if it is fully qualified. */
  function NamesOf(hostName: string, res: Reservation): seq<string> {
    (if DomainName(hostName, res) != hostName then [DomainName(hostName, res)] else [])
    + (if NodeHostNameIsFQDN(hostName) && NetOf(res) == CTLPLANE then [hostName] else [])
  }

  datatype Details = Details(records: seq<Record>, hostnames: map<string, NetMap>, allIPs: map<string, NetMap>,
                             searchDomain: string)

  predicate Has(d: Details, hostName: string) {
    hostName in d.hostnames && hostName in d.allIPs
  }

  function WithReservation(d: Details, hostName: string, res: Reservation): (d': Details)
    requires Has(d, hostName)
    ensures Has(d', hostName)
  {
    var names := NamesOf(hostName, res);
    var hosts := if names == [] then d.hostnames[hostName] else d.hostnames[hostName][NetOf(res) := names[|names| - 1]];
    Details(d.records + [Record(res.address, names)],
            d.hostnames[hostName := hosts],
            d.allIPs[hostName := d.allIPs[hostName][NetOf(res) := res.address]],
            if NetOf(res) == CTLPLANE then res.dnsDomain else d.searchDomain)
  }

  /** The reservations that count for a node: none unless it has networks and an IP set. */
  function Reserved(node: Node, template: seq<string>, ipSets: IPSets): seq<Reservation> {
    if (node.networks != [] || template != []) && node.hostName in ipSets then ipSets[node.hostName] else []
  }

  /** The details after the first `j` reservations of a node, whose maps start empty. */
  function WithNode(d: Details, hostName: string, reserved: seq<Reservation>, j: nat): (d': Details)
    requires j <= |reserved|
    ensures Has(d', hostName)
  {
    if j == 0 then d.(hostnames := d.hostnames[hostName := map[]], allIPs := d.allIPs[hostName := map[]])
    else WithReservation(WithNode(d, hostName, reserved, j - 1), hostName, reserved[j - 1])
  }

  function WithNodes(d: Details, hosts: seq<(string, seq<Reservation>)>): Details {
    if hosts == [] then d
    else
      var n := |hosts| - 1;
      WithNode(WithNodes(d, hosts[..n]), hosts[n].0, hosts[n].1, |hosts[n].1|)
  }

  /** The hosts with their reservations, in the order of the node names. */
  function HostsOf(names: seq<string>, nodes: map<string, Node>, template: seq<string>,
                   ipSets: IPSets): (hosts: seq<(string, seq<Reservation>)>)
    requires forall n | n in names :: n in nodes
    ensures |hosts| == |names|
    ensures forall i | 0 <= i < |names| :: hosts[i] == (nodes[names[i]].hostName,
            Reserved(nodes[names[i]], template, ipSets))
  {
    seq(|names|, i requires 0 <= i < |names| => (nodes[names[i]].hostName, Reserved(nodes[names[i]], template, ipSets)))
  }

  class DNSDetails {
    var hostnames: map<string, NetMap>
    var allIPs: map<string, NetMap>
    var ctlplaneSearchDomain: string

    constructor ()
      ensures hostnames == map[] && allIPs == map[] && ctlplaneSearchDomain == ""
    {
      hostnames, allIPs, ctlplaneSearchDomain := map[], map[], "";
    }

    ghost function View(records: seq<Record>): Details
      reads this
    {
      Details(records, hostnames, allIPs, ctlplaneSearchDomain)
    }

    /** One reservation of the host. */
    method AddReservation(hostName: string, res: Reservation, records: seq<Record>) returns (records': seq<Record>)
      requires hostName in hostnames && hostName in allIPs
      modifies this
      ensures View(records') == WithReservation(old(View(records)), hostName, res)
    {
      hide NodeHostNameIsFQDN, ShortName, Lower;
      var fqdnNames: seq<string> := [];
      var netLower := NetOf(res);
      var fqdnName := DomainName(hostName, res);
      if fqdnName != hostName {
        fqdnNames := fqdnNames + [fqdnName];
        hostnames := hostnames[hostName := hostnames[hostName][netLower := fqdnName]];
      }
      if NodeHostNameIsFQDN(hostName) && netLower == CTLPLANE {
        fqdnNames := fqdnNames + [hostName];
        hostnames := hostnames[hostName := hostnames[hostName][netLower := hostName]];
      }
      allIPs := allIPs[hostName := allIPs[hostName][netLower := res.address]];
      records' := records + [Record(res.address, fqdnNames)];
      // the name of the domain seen first is never kept, so the last one stays
      if netLower == CTLPLANE {
        ctlplaneSearchDomain := res.dnsDomain;
      }
      assert fqdnNames == NamesOf(hostName, res);
      ghost var before := old(hostnames);
      assert hostnames[hostName] == if fqdnNames == [] then before[hostName]
        else before[hostName][netLower := fqdnNames[|fqdnNames| - 1]];
      assert hostnames == before[hostName := hostnames[hostName]];
    }

    /** One node: its maps start empty, and its reservations follow. */
    method AddNode(hostName: string, reserved: seq<Reservation>, records: seq<Record>) returns (records': seq<Record>)
      modifies this
      ensures View(records') == WithNode(old(View(records)), hostName, reserved, |reserved|)
    {
      hide WithReservation;
      records' := records;
      hostnames := hostnames[hostName := map[]];
      allIPs := allIPs[hostName := map[]];
      for j := 0 to |reserved|
        invariant View(records') == WithNode(old(View(records)), hostName, reserved, j)
      {
        records' := AddReservation(hostName, reserved[j], records');
      }
    }

    /** `order` is the order in which the map of nodes happens to be walked. */
    method CreateOrPatchDNSData(nodes: map<string, Node>, template: seq<string>, ipSets: IPSets, order: seq<string>)
      returns (records: seq<Record>)
      requires forall n :: n in order <==> n in nodes
      modifies this
      ensures View(records) == WithNodes(Details([], map[], map[], old(ctlplaneSearchDomain)),
              HostsOf(Sorted(nodes.Keys), nodes, template, ipSets))
    {
      hide WithNode, Reserved, Sorted;
      ghost var hosts := HostsOf(Sorted(nodes.Keys), nodes, template, ipSets);
      ghost var start := Details([], map[], map[], ctlplaneSearchDomain);
      records := [];
      hostnames, allIPs := map[], map[];
      var sortedNodeNames := Sorted(set n | n in order);
      assert (set n | n in order) == nodes.Keys;
      for i := 0 to |sortedNodeNames|
        invariant View(records) == WithNodes(start, hosts[..i])
      {
        var node := nodes[sortedNodeNames[i]];
        records := AddNode(node.hostName, Reserved(node, template, ipSets), records);
        assert hosts[..i + 1][..i] == hosts[..i];
      }
      assert hosts[..|hosts|] == hosts;
    }
  }

  // ---------- one record per reservation ----------

  function RecordsOf(hostName: string, reserved: seq<Reservation>): (records: seq<Record>)
    ensures |records| == |reserved|
    ensures forall j | 0 <= j < |reserved| :: records[j] == Record(reserved[j].address, NamesOf(hostName, reserved[j]))
  {
    seq(|reserved|, j requires 0 <= j < |reserved| => Record(reserved[j].address, NamesOf(hostName, reserved[j])))
  }

  function AllRecords(hosts: seq<(string, seq<Reservation>)>): seq<Record> {
    if hosts == [] then []
    else
      var n := |hosts| - 1;
      AllRecords(hosts[..n]) + RecordsOf(hosts[n].0, hosts[n].1)
  }

  lemma {:induction false} NodeRecords(d: Details, hostName: string, reserved: seq<Reservation>, j: nat)
    requires j <= |reserved|
    ensures WithNode(d, hostName, reserved, j).records == d.records + RecordsOf(hostName, reserved)[..j]
  {
    hide NamesOf, NetOf;
    if j > 0 {
      NodeRecords(d, hostName, reserved, j - 1);
      assert RecordsOf(hostName, reserved)[..j] == RecordsOf(hostName, reserved)[..j - 1]
                       + [RecordsOf(hostName, reserved)[j - 1]];
    }
  }

  /** The list has one record per reservation, host after host in the order of the sorted node
      names, whatever the order of the map of nodes. */
  lemma {:induction false} RecordsFollowReservations(d: Details, hosts: seq<(string, seq<Reservation>)>)
    ensures WithNodes(d, hosts).records == d.records + AllRecords(hosts)
  {
    hide WithNode, NamesOf;
    if hosts != [] {
      var n := |hosts| - 1;
      RecordsFollowReservations(d, hosts[..n]);
      NodeRecords(WithNodes(d, hosts[..n]), hosts[n].0, hosts[n].1, |hosts[n].1|);
      assert RecordsOf(hosts[n].0, hosts[n].1)[..|hosts[n].1|] == RecordsOf(hosts[n].0, hosts[n].1);
    }
  }

  // ---------- the maps agree with the records ----------

  /** What the record of a reservation says the host is called on its network: its last name. */
  function NameOf(hostName: string, res: Reservation): Option<string> {
    var names := NamesOf(hostName, res);
    if names == [] then None else Some(names[|names| - 1])
  }

  function Lookup(m: NetMap, net: string): Option<string> {
    if net in m then Some(m[net]) else None
  }

  /** The maps of one host after its first `j` reservations. */
  function IPsOf(reserved: seq<Reservation>, j: nat): NetMap
    requires j <= |reserved|
  {
    if j == 0 then map[] else IPsOf(reserved, j - 1)[NetOf(reserved[j - 1]) := reserved[j - 1].address]
  }

  function HostsMap(hostName: string, reserved: seq<Reservation>, j: nat): NetMap
    requires j <= |reserved|
  {
    if j == 0 then map[]
    else
      var m := HostsMap(hostName, reserved, j - 1);
      match NameOf(hostName, reserved[j - 1])
      case None => m
      case Some(name) => m[NetOf(reserved[j - 1]) := name]
  }

  lemma {:induction false} NodeMaps(d: Details, hostName: string, reserved: seq<Reservation>, j: nat)
    requires j <= |reserved|
    ensures WithNode(d, hostName, reserved, j).hostnames[hostName] == HostsMap(hostName, reserved, j)
    ensures WithNode(d, hostName, reserved, j).allIPs[hostName] == IPsOf(reserved, j)
  {
    hide NamesOf, NetOf;
    if j > 0 {
      NodeMaps(d, hostName, reserved, j - 1);
    }
  }

  lemma {:induction false} OtherHostsKept(d: Details, hostName: string, reserved: seq<Reservation>, j: nat, h: string)
    requires j <= |reserved| && h != hostName && Has(d, h)
    ensures var d' := WithNode(d, hostName, reserved, j);
            Has(d', h) && d'.hostnames[h] == d.hostnames[h] && d'.allIPs[h] == d.allIPs[h]
  {
    hide NamesOf, NetOf;
    if j > 0 {
      OtherHostsKept(d, hostName, reserved, j - 1, h);
    }
  }

  /** Nodes that share a host name have the same reservations. */
  ghost predicate SharedHostsAgree(hosts: seq<(string, seq<Reservation>)>) {
    forall i, j | 0 <= i < j < |hosts| && hosts[i].0 == hosts[j].0 :: hosts[i].1 == hosts[j].1
  }

  /** They do as long as every node has networks, its own or those of the template. */
  lemma NetworksMakeSharedHostsAgree(names: seq<string>, nodes: map<string, Node>, template: seq<string>,
                                     ipSets: IPSets)
    requires forall n | n in names :: n in nodes && (nodes[n].networks != [] || template != [])
    ensures SharedHostsAgree(HostsOf(names, nodes, template, ipSets))
  {
  }

  /** Every host ends with the maps that its own reservations make. */
  lemma {:induction false} HostMaps(d: Details, hosts: seq<(string, seq<Reservation>)>, k: nat)
    requires k < |hosts| && SharedHostsAgree(hosts)
    ensures var d' := WithNodes(d, hosts);
            var (hostName, reserved) := hosts[k];
            && Has(d', hostName)
            && d'.hostnames[hostName] == HostsMap(hostName, reserved, |reserved|)
            && d'.allIPs[hostName] == IPsOf(reserved, |reserved|)
  {
    hide WithNode, HostsMap, IPsOf;
    var n := |hosts| - 1;
    NodeMaps(WithNodes(d, hosts[..n]), hosts[n].0, hosts[n].1, |hosts[n].1|);
    if k < n && hosts[k].0 != hosts[n].0 {
      HostMaps(d, hosts[..n], k);
      OtherHostsKept(WithNodes(d, hosts[..n]), hosts[n].0, hosts[n].1, |hosts[n].1|, hosts[k].0);
    }
  }

  // ---------- when nothing is lost ----------

  function NetsOf(reserved: seq<Reservation>): (nets: seq<string>)
    ensures |nets| == |reserved| && forall i | 0 <= i < |reserved| :: nets[i] == NetOf(reserved[i])
  {
    seq(|reserved|, i requires 0 <= i < |reserved| => NetOf(reserved[i]))
  }

  function AddressesOf(reserved: seq<Reservation>): (addresses: seq<Option<string>>)
    ensures |addresses| == |reserved| && forall i | 0 <= i < |reserved| :: addresses[i] == Some(reserved[i].address)
  {
    seq(|reserved|, i requires 0 <= i < |reserved| => Some(reserved[i].address))
  }

  function RecordNames(hostName: string, reserved: seq<Reservation>): (names: seq<Option<string>>)
    ensures |names| == |reserved| && forall i | 0 <= i < |reserved| :: names[i] == NameOf(hostName, reserved[i])
  {
    seq(|reserved|, i requires 0 <= i < |reserved| => NameOf(hostName, reserved[i]))
  }

  /** Every value is found under its network, and nothing is found where there is no value. */
  ghost predicate AllFound(m: NetMap, nets: seq<string>, values: seq<Option<string>>)
    requires |nets| == |values|
  {
    forall i | 0 <= i < |nets| :: Lookup(m, nets[i]) == values[i]
  }

  /** Equal networks have equal values. */
  ghost predicate Agreeing(nets: seq<string>, values: seq<Option<string>>)
    requires |nets| == |values|
  {
    forall i, k | 0 <= i < k < |nets| && nets[i] == nets[k] :: values[i] == values[k]
  }

  /** Under this network the map has one of the values for it. */
  ghost predicate HoldsOne(m: NetMap, nets: seq<string>, values: seq<Option<string>>, net: string)
    requires |nets| == |values|
  {
    exists k | 0 <= k < |nets| :: nets[k] == net && Lookup(m, net) == values[k]
  }

  lemma FoundIffAgreeing(m: NetMap, nets: seq<string>, values: seq<Option<string>>)
    requires |nets| == |values| && forall net | net in nets :: HoldsOne(m, nets, values, net)
    ensures AllFound(m, nets, values) <==> Agreeing(nets, values)
  {
    hide Lookup, HoldsOne;
    if Agreeing(nets, values) {
      forall i | 0 <= i < |nets|
        ensures Lookup(m, nets[i]) == values[i]
      {
        assert HoldsOne(m, nets, values, nets[i]);
        var k := HeldAt(m, nets, values, nets[i]);
        assert k < i || i < k || i == k;
      }
    }
  }

  lemma HeldAt(m: NetMap, nets: seq<string>, values: seq<Option<string>>, net: string) returns (k: nat)
    requires |nets| == |values| && HoldsOne(m, nets, values, net)
    ensures k < |nets| && nets[k] == net && Lookup(m, net) == values[k]
  {
    k :| 0 <= k < |nets| && nets[k] == net && Lookup(m, net) == values[k];
  }

  /** A network is in the map of addresses when some reservation has it, with one of theirs. */
  lemma {:induction false} IPsHoldOne(reserved: seq<Reservation>, j: nat, net: string)
    requires j <= |reserved|
    ensures net in IPsOf(reserved, j) <==> exists i | 0 <= i < j :: NetOf(reserved[i]) == net
    ensures net in IPsOf(reserved, j) ==>
              exists i | 0 <= i < j :: NetOf(reserved[i]) == net && IPsOf(reserved, j)[net] == reserved[i].address
  {
    hide NetOf;
    if j > 0 {
      IPsHoldOne(reserved, j - 1, net);
    }
  }

  /** A network is in the map of names when some reservation on it has a name, with one of theirs. */
  lemma {:induction false} HostsHoldOne(hostName: string, reserved: seq<Reservation>, j: nat, net: string)
    requires j <= |reserved|
    ensures var m := HostsMap(hostName, reserved, j);
            if net in m then exists i | 0 <= i < j :: NetOf(reserved[i]) == net
                                          && NameOf(hostName, reserved[i]) == Some(m[net])
            else forall i | 0 <= i < j && NetOf(reserved[i]) == net :: NameOf(hostName, reserved[i]).None?
  {
    hide NetOf, NameOf;
    if j > 0 {
      HostsHoldOne(hostName, reserved, j - 1, net);
    }
  }

  /** The addresses of a host are all found if and only if reservations whose networks agree in
      lower case have one address. */
  lemma AddressesKeptIff(reserved: seq<Reservation>)
    ensures AllFound(IPsOf(reserved, |reserved|), NetsOf(reserved), AddressesOf(reserved))
       <==> Agreeing(NetsOf(reserved), AddressesOf(reserved))
    ensures IPsOf(reserved, |reserved|).Keys == set net | net in NetsOf(reserved)
  {
    hide NetOf, IPsOf, AllFound, Agreeing, HoldsOne;
    var m, nets := IPsOf(reserved, |reserved|), NetsOf(reserved);
    forall net
      ensures net in m <==> net in nets
      ensures net in nets ==> HoldsOne(m, nets, AddressesOf(reserved), net)
    {
      AddressHeld(reserved, net);
    }
    FoundIffAgreeing(m, nets, AddressesOf(reserved));
  }

  lemma AddressHeld(reserved: seq<Reservation>, net: string)
    ensures net in IPsOf(reserved, |reserved|) <==> net in NetsOf(reserved)
    ensures net in NetsOf(reserved) ==> HoldsOne(IPsOf(reserved, |reserved|), NetsOf(reserved), AddressesOf(reserved),
            net)
  {
    hide NetOf, IPsOf;
    IPsHoldOne(reserved, |reserved|, net);
    var nets := NetsOf(reserved);
    if i :| 0 <= i < |reserved| && NetOf(reserved[i]) == net && net in IPsOf(reserved, |reserved|)
            && IPsOf(reserved, |reserved|)[net] == reserved[i].address {
      assert nets[i] == net && Lookup(IPsOf(reserved, |reserved|), net) == AddressesOf(reserved)[i];
    }
  }

  /** The names of a host are all found, and none where a record has none, if and only if
      reservations whose networks agree in lower case agree on the name. */
  lemma NamesKeptIff(hostName: string, reserved: seq<Reservation>)
    ensures AllFound(HostsMap(hostName, reserved, |reserved|), NetsOf(reserved), RecordNames(hostName, reserved))
       <==> Agreeing(NetsOf(reserved), RecordNames(hostName, reserved))
    ensures HostsMap(hostName, reserved, |reserved|).Keys <= set net | net in NetsOf(reserved)
  {
    hide NetOf, NameOf, HostsMap, AllFound, Agreeing, HoldsOne;
    var m, nets, names := HostsMap(hostName, reserved, |reserved|), NetsOf(reserved), RecordNames(hostName, reserved);
    forall net
      ensures net in m ==> net in nets
      ensures net in nets ==> HoldsOne(m, nets, names, net)
    {
      NameHeld(hostName, reserved, net);
    }
    FoundIffAgreeing(m, nets, names);
  }

  lemma NameHeld(hostName: string, reserved: seq<Reservation>, net: string)
    ensures net in HostsMap(hostName, reserved, |reserved|) ==> net in NetsOf(reserved)
    ensures net in NetsOf(reserved) ==>
              HoldsOne(HostsMap(hostName, reserved, |reserved|), NetsOf(reserved), RecordNames(hostName, reserved), net)
  {
    hide NetOf, NameOf, HostsMap;
    HostsHoldOne(hostName, reserved, |reserved|, net);
    var m, nets, names := HostsMap(hostName, reserved, |reserved|), NetsOf(reserved), RecordNames(hostName, reserved);
    if net in m {
      var i :| 0 <= i < |reserved| && NetOf(reserved[i]) == net && NameOf(hostName, reserved[i]) == Some(m[net]);
      assert nets[i] == net && Lookup(m, net) == names[i];
    } else if net in nets {
      var i :| 0 <= i < |nets| && nets[i] == net;
      assert Lookup(m, net) == names[i];
    }
  }

  /** For every host the maps of the DNS data agree with its records exactly when reservations on
      one network, in lower case, agree among themselves. */
  lemma MapsFollowReservationsIff(d: Details, hosts: seq<(string, seq<Reservation>)>, k: nat)
    requires k < |hosts| && SharedHostsAgree(hosts)
    ensures var d' := WithNodes(d, hosts);
            var (hostName, reserved) := hosts[k];
            var nets := NetsOf(reserved);
            && Has(d', hostName)
            && (AllFound(d'.allIPs[hostName], nets, AddressesOf(reserved)) <==> Agreeing(nets, AddressesOf(reserved)))
            && (AllFound(d'.hostnames[hostName], nets, RecordNames(hostName, reserved))
               <==> Agreeing(nets, RecordNames(hostName, reserved)))
            && d'.allIPs[hostName].Keys == (set net | net in nets)
            && d'.hostnames[hostName].Keys <= d'.allIPs[hostName].Keys
  {
    hide WithNodes, SharedHostsAgree, AllFound, Agreeing, NetsOf, AddressesOf, RecordNames, IPsOf, HostsMap;
    HostMaps(d, hosts, k);
    AddressesKeptIff(hosts[k].1);
    NamesKeptIff(hosts[k].0, hosts[k].1);
  }

  /** In particular nothing is lost when the networks of each host differ in lower case. */
  lemma DistinctNetworksAgree(hostName: string, reserved: seq<Reservation>)
    requires forall i, j | 0 <= i < j < |reserved| :: NetOf(reserved[i]) != NetOf(reserved[j])
    ensures Agreeing(NetsOf(reserved), AddressesOf(reserved))
            && Agreeing(NetsOf(reserved), RecordNames(hostName, reserved))
  {
  }

  /** Two networks that differ only in case share their entry, and the first address is lost. */
  lemma CaseCollision()
    ensures var reserved := [Reservation("InternalApi", "10.0.0.1", "a"), Reservation("internalapi", "10.0.0.2", "b")];
            && Lookup(IPsOf(reserved, 2), NetOf(reserved[0])) == Some("10.0.0.2")
            && !AllFound(IPsOf(reserved, 2), NetsOf(reserved), AddressesOf(reserved))
  {
    var reserved := [Reservation("InternalApi", "10.0.0.1", "a"), Reservation("internalapi", "10.0.0.2", "b")];
    assert NetOf(reserved[0]) == "internalapi" && NetOf(reserved[1]) == "internalapi";
    hide NetOf;
    AddressesKeptIff(reserved);
  }

  // ---------- the search domain ----------

  function AllReservations(hosts: seq<(string, seq<Reservation>)>): seq<Reservation> {
    if hosts == [] then [] else AllReservations(hosts[..|hosts| - 1]) + hosts[|hosts| - 1].1
  }

  /** The domain of the last control plane reservation. */
  function LastDomain(reserved: seq<Reservation>, before: string): string {
    if reserved == [] then before
    else
      var last := reserved[|reserved| - 1];
      if NetOf(last) == CTLPLANE then last.dnsDomain else LastDomain(reserved[..|reserved| - 1], before)
  }

  lemma {:induction false} LastDomainOfConcat(a: seq<Reservation>, b: seq<Reservation>, before: string)
    ensures LastDomain(a + b, before) == LastDomain(b, LastDomain(a, before))
    decreases |b|
  {
    hide NetOf;
    if b == [] {
      assert a + b == a;
    } else {
      assert (a + b)[..|a + b| - 1] == a + b[..|b| - 1];
      LastDomainOfConcat(a, b[..|b| - 1], before);
    }
  }

  lemma {:induction false} NodeSearchDomain(d: Details, hostName: string, reserved: seq<Reservation>, j: nat)
    requires j <= |reserved|
    ensures WithNode(d, hostName, reserved, j).searchDomain == LastDomain(reserved[..j], d.searchDomain)
  {
    hide NamesOf, NetOf;
    if j > 0 {
      NodeSearchDomain(d, hostName, reserved, j - 1);
      assert reserved[..j][..j - 1] == reserved[..j - 1];
    }
  }

  /** The search domain is that of the last control plane reservation, over all nodes. */
  lemma {:induction false} SearchDomainIsLast(d: Details, hosts: seq<(string, seq<Reservation>)>)
    ensures WithNodes(d, hosts).searchDomain == LastDomain(AllReservations(hosts), d.searchDomain)
  {
    hide WithNode, LastDomain;
    if hosts == [] {
      assert LastDomain([], d.searchDomain) == d.searchDomain by { NothingReserved(d.searchDomain); }
    } else {
      var n := |hosts| - 1;
      SearchDomainIsLast(d, hosts[..n]);
      NodeSearchDomain(WithNodes(d, hosts[..n]), hosts[n].0, hosts[n].1, |hosts[n].1|);
      assert hosts[n].1[..|hosts[n].1|] == hosts[n].1;
      LastDomainOfConcat(AllReservations(hosts[..n]), hosts[n].1, d.searchDomain);
    }
  }

  /** The control plane reservation at `i` is the first one, or the last one. */
  ghost predicate FirstOnCtlplane(reserved: seq<Reservation>, i: int) {
    0 <= i < |reserved| && NetOf(reserved[i]) == CTLPLANE && forall k | 0 <= k < i :: NetOf(reserved[k]) != CTLPLANE
  }

  ghost predicate LastOnCtlplane(reserved: seq<Reservation>, i: int) {
    0 <= i < |reserved| && NetOf(reserved[i]) == CTLPLANE
      && forall k | i < k < |reserved| :: NetOf(reserved[k]) != CTLPLANE
  }

  /** The domain of the first control plane reservation, which the guard on the unused variable
      was to keep. */
  function FirstDomain(reserved: seq<Reservation>, before: string): string {
    if reserved == [] then before
    else if NetOf(reserved[0]) == CTLPLANE then reserved[0].dnsDomain
    else FirstDomain(reserved[1..], before)
  }

  lemma {:induction false} LastDomainIs(reserved: seq<Reservation>, before: string)
    ensures forall i | LastOnCtlplane(reserved, i) :: LastDomain(reserved, before) == reserved[i].dnsDomain
    ensures (forall i :: !LastOnCtlplane(reserved, i)) ==> LastDomain(reserved, before) == before
  {
    hide NetOf;
    if reserved != [] {
      var n := |reserved| - 1;
      var init := reserved[..n];
      LastDomainIs(init, before);
      assert NetOf(reserved[n]) == CTLPLANE ==> LastOnCtlplane(reserved, n);
      assert NetOf(reserved[n]) != CTLPLANE ==> forall i :: LastOnCtlplane(reserved, i) <==> LastOnCtlplane(init, i);
    }
  }

  lemma {:induction false} FirstDomainIs(reserved: seq<Reservation>, before: string)
    ensures forall i | FirstOnCtlplane(reserved, i) :: FirstDomain(reserved, before) == reserved[i].dnsDomain
    ensures (forall i :: !FirstOnCtlplane(reserved, i)) ==> FirstDomain(reserved, before) == before
    ensures (exists i :: FirstOnCtlplane(reserved, i))
            <==> exists i | 0 <= i < |reserved| :: NetOf(reserved[i]) == CTLPLANE
  {
    hide NetOf;
    if reserved != [] {
      var rest := reserved[1..];
      FirstDomainIs(rest, before);
      assert NetOf(reserved[0]) == CTLPLANE ==> FirstOnCtlplane(reserved, 0);
      if NetOf(reserved[0]) != CTLPLANE {
        forall i
          ensures FirstOnCtlplane(reserved, i) <==> FirstOnCtlplane(rest, i - 1)
        {
          ShiftedFirst(reserved, i);
        }
        if i :| FirstOnCtlplane(rest, i) {
          assert FirstOnCtlplane(reserved, i + 1);
        }
      }
    }
  }

  lemma ShiftedFirst(reserved: seq<Reservation>, i: int)
    requires reserved != [] && NetOf(reserved[0]) != CTLPLANE
    ensures FirstOnCtlplane(reserved, i) <==> FirstOnCtlplane(reserved[1..], i - 1)
  {
    hide NetOf;
    if FirstOnCtlplane(reserved[1..], i - 1) {
      forall k | 0 <= k < i
        ensures NetOf(reserved[k]) != CTLPLANE
      {
        if k > 0 { assert NetOf(reserved[1..][k - 1]) != CTLPLANE; }
      }
    }
  }

  lemma {:induction false} LastExists(reserved: seq<Reservation>)
    ensures (exists i :: LastOnCtlplane(reserved, i)) <==> exists i | 0 <= i < |reserved| ::
            NetOf(reserved[i]) == CTLPLANE
  {
    hide NetOf;
    if reserved != [] {
      var n := |reserved| - 1;
      LastExists(reserved[..n]);
      if NetOf(reserved[n]) == CTLPLANE {
        assert LastOnCtlplane(reserved, n);
      } else if i :| LastOnCtlplane(reserved[..n], i) {
        assert LastOnCtlplane(reserved, i);
      }
    }
  }

  /** The search domain is the first one if and only if the first and the last control plane
      reservation, over all nodes, are in the same domain. */
  lemma SearchDomainIsFirstIff(d: Details, hosts: seq<(string, seq<Reservation>)>)
    ensures var all := AllReservations(hosts);
            WithNodes(d, hosts).searchDomain == FirstDomain(all, d.searchDomain) <==>
              forall i, j | FirstOnCtlplane(all, i) && LastOnCtlplane(all, j) :: all[i].dnsDomain == all[j].dnsDomain
  {
    var all := AllReservations(hosts);
    SearchDomainIsLast(d, hosts);
    FirstDomainIs(all, d.searchDomain);
    LastDomainIs(all, d.searchDomain);
    LastExists(all);
    hide WithNodes, AllReservations, FirstOnCtlplane, LastOnCtlplane, FirstDomain, LastDomain;
  }

  /** Two nodes whose control plane reservations are in different domains: the first is lost. */
  lemma SearchDomainOfSecondNode()
    ensures var hosts := [("a", [Reservation("ctlplane", "10.0.0.1", "one.org")]),
            ("b", [Reservation("ctlplane", "10.0.0.2", "two.org")])];
            && FirstDomain(AllReservations(hosts), "") == "one.org"
            && WithNodes(Details([], map[], map[], ""), hosts).searchDomain == "two.org"
  {
    var r, r' := Reservation("ctlplane", "10.0.0.1", "one.org"), Reservation("ctlplane", "10.0.0.2", "two.org");
    var hosts := [("a", [r]), ("b", [r'])];
    SearchDomainIsLast(Details([], map[], map[], ""), hosts);
    assert NetOf(r) == CTLPLANE && NetOf(r') == CTLPLANE;
    assert hosts[..1] == [("a", [r])] && [("a", [r])][..0] == [];
    assert AllReservations([("a", [r])]) == AllReservations([]) + [r];
    assert AllReservations(hosts) == [r] + [r'];
  }

  lemma NothingReserved(before: string)
    ensures LastDomain([], before) == before
  {
  }

  // ---------- the inventory ----------

  /** What the inventory takes from the reservations of one host. */
  datatype HostVars = HostVars(ips: NetMap, canonicalHostname: Option<string>, searchDomains: seq<string>)

  function WithVars(vars: HostVars, hostName: string, res: Reservation): HostVars {
    var fqdn := NodeHostNameIsFQDN(hostName);
    var parts := SplitInTwo(hostName);
    var own := if NetOf(res) == CTLPLANE && fqdn && |parts| == 2 && parts[1] != res.dnsDomain then [parts[1]] else [];
    HostVars(vars.ips[NetOf(res) := res.address],
             if NetOf(res) == CTLPLANE then Some(if fqdn then hostName else hostName + "." + res.dnsDomain)
                      else vars.canonicalHostname,
             vars.searchDomains + own + [res.dnsDomain])
  }

  function Vars(hostName: string, reserved: seq<Reservation>): HostVars {
    if reserved == [] then HostVars(map[], None, [])
    else WithVars(Vars(hostName, reserved[..|reserved| - 1]), hostName, reserved[|reserved| - 1])
  }

  method PopulateInventoryFromIPAM(reserved: seq<Reservation>, hostName: string) returns (vars: HostVars)
    ensures vars == Vars(hostName, reserved)
  {
    var ips: NetMap := map[];
    var canonicalHostname: Option<string> := None;
    var dnsSearchDomains: seq<string> := [];
    for i := 0 to |reserved|
      invariant HostVars(ips, canonicalHostname, dnsSearchDomains) == Vars(hostName, reserved[..i])
    {
      var res := reserved[i];
      var entry := NetOf(res);
      assert reserved[..i + 1][..i] == reserved[..i];
      ips := ips[entry := res.address];
      if entry == CTLPLANE {
        if NodeHostNameIsFQDN(hostName) {
          canonicalHostname := Some(hostName);
          FQDNSplits(hostName);
          var domain := SplitInTwo(hostName)[1];
          if domain != res.dnsDomain {
            dnsSearchDomains := dnsSearchDomains + [domain];
          }
        } else {
          canonicalHostname := Some(hostName + "." + res.dnsDomain);
        }
      }
      dnsSearchDomains := dnsSearchDomains + [res.dnsDomain];
    }
    assert reserved[..|reserved|] == reserved;
    vars := HostVars(ips, canonicalHostname, dnsSearchDomains);
  }

  /** Every name that the DNS has for a host is its short name in one of the domains that the
      host searches. */
  lemma {:induction false} NamesAreSearched(hostName: string, reserved: seq<Reservation>, i: nat,
                                            name: string) returns (domain: string)
    requires i < |reserved| && name in NamesOf(hostName, reserved[i])
    ensures domain in Vars(hostName, reserved).searchDomains && name == ShortName(hostName) + "." + domain
    decreases |reserved|
  {
    hide NetOf, NodeHostNameIsFQDN, ShortName, SplitInTwo;
    var n := |reserved| - 1;
    if i < n {
      domain := NamesAreSearched(hostName, reserved[..n], i, name);
    } else if name == DomainName(hostName, reserved[i]) {
      domain := reserved[i].dnsDomain;
    } else {
      FQDNSplits(hostName);
      domain := SplitInTwo(hostName)[1];
    }
  }

  /** The inventory and the DNS data have the same addresses for a host. */
  lemma {:induction false} InventoryHasTheSameIPs(d: Details, hostName: string, reserved: seq<Reservation>, j: nat)
    requires j <= |reserved|
    ensures WithNode(d, hostName, reserved, j).allIPs[hostName] == Vars(hostName, reserved[..j]).ips
  {
    hide NetOf, NamesOf, NodeHostNameIsFQDN, SplitInTwo;
    if j > 0 {
      InventoryHasTheSameIPs(d, hostName, reserved, j - 1);
      assert reserved[..j][..j - 1] == reserved[..j - 1];
    }
  }
}
