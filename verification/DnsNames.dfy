/**
 The names that hosts get, literally: in the DNS records, in the map of host names, and in the
 inventory.
 */
module DnsNames {
  import opened Conditions
  import opened HostNames
  import opened DNSData

  // ---------- records ----------

  /** A reservation gives the host its short name in the domain of the reservation, unless that is the host
      name itself, and then the host name if it is fully qualified and this is the control plane. */
  ghost predicate NamesAre(hostName: string, res: Reservation, names: seq<string>) {
    var inDomain := Split(hostName)[0] + "." + res.dnsDomain;
    var itself := NodeHostNameIsFQDN(hostName) && Lower(res.network) == "ctlplane";
    names == if inDomain != hostName && itself then [inDomain, hostName]
             else if inDomain != hostName then [inDomain]
             else if itself then [hostName] else []
  }

  lemma NamesOfIs(hostName: string, res: Reservation)
    ensures NamesAre(hostName, res, NamesOf(hostName, res))
  {
    hide NodeHostNameIsFQDN, Split, Lower;
  }

  /** One record for each reservation, host after host, with its address and its names. */
  ghost predicate RecordsAre(records: seq<Record>, hosts: seq<(string, seq<Reservation>)>)
    decreases |hosts|
  {
    if hosts == [] then records == []
    else
      var (hostName, reserved) := hosts[|hosts| - 1];
      && |reserved| <= |records|
      && (forall j | 0 <= j < |reserved| ::
            var r := records[|records| - |reserved| + j];
            r.ip == reserved[j].address && NamesAre(hostName, reserved[j], r.hostNames))
      && RecordsAre(records[..|records| - |reserved|], hosts[..|hosts| - 1])
  }

  lemma {:induction false} AllRecordsAre(hosts: seq<(string, seq<Reservation>)>)
    ensures RecordsAre(AllRecords(hosts), hosts)
    decreases |hosts|
  {
    hide NamesOf, NamesAre;
    if hosts != [] {
      var n := |hosts| - 1;
      var (hostName, reserved) := hosts[n];
      AllRecordsAre(hosts[..n]);
      forall j | 0 <= j < |reserved|
        ensures NamesAre(hostName, reserved[j], NamesOf(hostName, reserved[j]))
      {
        NamesOfIs(hostName, reserved[j]);
      }
      var before, own := AllRecords(hosts[..n]), RecordsOf(hostName, reserved);
      assert (before + own)[..|before|] == before;
    }
  }

  /** The records of the DNS data are exactly these. */
  lemma RecordsInFields(hosts: seq<(string, seq<Reservation>)>, searchDomain: string)
    ensures RecordsAre(WithNodes(Details([], map[], map[], searchDomain), hosts).records, hosts)
  {
    hide WithNodes, RecordsAre, AllRecords;
    var d := Details([], map[], map[], searchDomain);
    RecordsFollowReservations(d, hosts);
    AllRecordsAre(hosts);
    assert d.records + AllRecords(hosts) == AllRecords(hosts);
  }

  /** The hosts are those of the nodes, in the order of their names, each with the reservations of its IP set if
      it has one and networks, of its own or from the template. */
  lemma HostsInFields(names: seq<string>, nodes: map<string, Node>, template: seq<string>, ipSets: IPSets, i: nat)
    requires i < |names| && forall n | n in names :: n in nodes
    ensures var node := nodes[names[i]];
            var (hostName, reserved) := HostsOf(names, nodes, template, ipSets)[i];
            && hostName == node.hostName
            && reserved == if (node.networks == [] && template == []) || node.hostName !in ipSets then []
                           else ipSets[node.hostName]
  {
  }

  // ---------- the map of host names ----------

  /** A reservation on this network gives the host this name: its own if it is fully qualified and this is the
      control plane, else its short name in the domain if that is another one. */
  ghost predicate Gives(hostName: string, res: Reservation, net: string, name: string) {
    && Lower(res.network) == net
    && if NodeHostNameIsFQDN(hostName) && net == "ctlplane" then name == hostName
       else name == Split(hostName)[0] + "." + res.dnsDomain && name != hostName
  }

  lemma NameOfIs(hostName: string, res: Reservation, net: string, name: string)
    ensures NetOf(res) == net && NameOf(hostName, res) == Some(name) <==> Gives(hostName, res, net, name)
    ensures NetOf(res) == net && NameOf(hostName, res) == None ==> forall other :: !Gives(hostName, res, net, other)
  {
    hide NodeHostNameIsFQDN, Split, Lower;
  }

  /** Under a network the map has the name that some reservation on it gives, and it has one if and only if
      there is such a reservation. */
  lemma HostnamesInFields(d: Details, hosts: seq<(string, seq<Reservation>)>, k: nat, net: string)
    requires k < |hosts| && SharedHostsAgree(hosts)
    ensures var (hostName, reserved) := hosts[k];
            var d' := WithNodes(d, hosts);
            && Has(d', hostName)
            && (net in d'.hostnames[hostName] <==>
                  exists i, name :: 0 <= i < |reserved| && Gives(hostName, reserved[i], net, name))
            && (net in d'.hostnames[hostName] ==>
                  exists i :: 0 <= i < |reserved| && Gives(hostName, reserved[i], net, d'.hostnames[hostName][net]))
  {
    hide WithNodes, HostsMap, NetOf, NameOf, Gives;
    var (hostName, reserved) := hosts[k];
    HostMaps(d, hosts, k);
    HostsHoldOne(hostName, reserved, |reserved|, net);
    forall i, name | 0 <= i < |reserved|
      ensures NetOf(reserved[i]) == net && NameOf(hostName, reserved[i]) == Some(name)
              <==> Gives(hostName, reserved[i], net, name)
    {
      NameOfIs(hostName, reserved[i], net, name);
    }
    var m := HostsMap(hostName, reserved, |reserved|);
    if net in m {
      var i :| 0 <= i < |reserved| && NetOf(reserved[i]) == net && NameOf(hostName, reserved[i]) == Some(m[net]);
      assert Gives(hostName, reserved[i], net, m[net]);
    } else {
      forall i, name | 0 <= i < |reserved|
        ensures !Gives(hostName, reserved[i], net, name)
      {
        NameOfIs(hostName, reserved[i], net, name);
      }
    }
  }

  /** A host with a control plane reservation has a name there if and only if it is fully qualified, or one of
      these reservations is in a domain that its name does not already end with. */
  lemma ControlPlaneNameIff(d: Details, hosts: seq<(string, seq<Reservation>)>, k: nat)
    requires k < |hosts| && SharedHostsAgree(hosts)
    requires exists i :: 0 <= i < |hosts[k].1| && Lower(hosts[k].1[i].network) == "ctlplane"
    ensures var (hostName, reserved) := hosts[k];
            var d' := WithNodes(d, hosts);
            && Has(d', hostName)
            && ("ctlplane" in d'.hostnames[hostName] <==>
                  || NodeHostNameIsFQDN(hostName)
                  || exists i :: 0 <= i < |reserved| && Lower(reserved[i].network) == "ctlplane"
                                 && Split(hostName)[0] + "." + reserved[i].dnsDomain != hostName)
  {
    hide WithNodes, NodeHostNameIsFQDN, Split, Lower;
    var (hostName, reserved) := hosts[k];
    HostnamesInFields(d, hosts, k, "ctlplane");
    if NodeHostNameIsFQDN(hostName) {
      var i :| 0 <= i < |reserved| && Lower(reserved[i].network) == "ctlplane";
      assert Gives(hostName, reserved[i], "ctlplane", hostName);
    }
    if i :| 0 <= i < |reserved| && Lower(reserved[i].network) == "ctlplane"
            && Split(hostName)[0] + "." + reserved[i].dnsDomain != hostName && !NodeHostNameIsFQDN(hostName) {
      assert Gives(hostName, reserved[i], "ctlplane", Split(hostName)[0] + "." + reserved[i].dnsDomain);
    }
  }

  /** So a host that is named by one label always has one. */
  lemma OneLabelHasControlPlaneName(d: Details, hosts: seq<(string, seq<Reservation>)>, k: nat)
    requires k < |hosts| && SharedHostsAgree(hosts) && '.' !in hosts[k].0
    requires exists i :: 0 <= i < |hosts[k].1| && Lower(hosts[k].1[i].network) == "ctlplane"
    ensures var d' := WithNodes(d, hosts); Has(d', hosts[k].0) && "ctlplane" in d'.hostnames[hosts[k].0]
  {
    hide WithNodes, NodeHostNameIsFQDN, Lower;
    ControlPlaneNameIff(d, hosts, k);
    var (hostName, reserved) := hosts[k];
    var i :| 0 <= i < |reserved| && Lower(reserved[i].network) == "ctlplane";
    var inDomain := Split(hostName)[0] + "." + reserved[i].dnsDomain;
    assert inDomain[|Split(hostName)[0]|] == '.';
    assert '.' in inDomain;
  }

  /** The host "node.c1" in the domain "c1" has none: its top-level domain has a digit, so that it does not count
      as fully qualified. */
  lemma NoControlPlaneName(d: Details)
    ensures var hosts := [("node.c1", [Reservation("ctlplane", "10.0.0.1", "c1")])];
            var d' := WithNodes(d, hosts);
            Has(d', "node.c1") && "ctlplane" !in d'.hostnames["node.c1"]
  {
    var hosts: seq<(string, seq<Reservation>)> := [("node.c1", [Reservation("ctlplane", "10.0.0.1", "c1")])];
    assert Lower("ctlplane") == "ctlplane";
    assert FirstDot("node.c1") == 4 by { FirstDotAt("node.c1", 4); }
    assert "node.c1"[..4] == "node" && "node.c1"[5..] == "c1";
    assert FirstDot("c1") == 2;
    assert Split("c1") == ["c1"];
    assert Split("node.c1") == ["node", "c1"];
    assert !LETTERS("c1"[1]);
    assert !NodeHostNameIsFQDN("node.c1");
    hide WithNodes, NodeHostNameIsFQDN, Split, Lower, FirstDot;
    assert exists i :: 0 <= i < |hosts[0].1| && Lower(hosts[0].1[i].network) == "ctlplane" by {
      assert Lower(hosts[0].1[0].network) == "ctlplane";
    }
    ControlPlaneNameIff(d, hosts, 0);
  }

  // ---------- the inventory ----------

  /** The canonical name of a host: itself if it is fully qualified, else itself in the domain of its last control
      plane reservation; none without such a reservation. */
  lemma {:induction false} CanonicalNameIs(hostName: string, reserved: seq<Reservation>)
    ensures forall i | LastOnCtlplane(reserved, i) ::
              Vars(hostName, reserved).canonicalHostname
              == Some(if NodeHostNameIsFQDN(hostName) then hostName else hostName + "." + reserved[i].dnsDomain)
    ensures (forall i :: !LastOnCtlplane(reserved, i)) ==> Vars(hostName, reserved).canonicalHostname == None
    decreases |reserved|
  {
    hide NetOf, NodeHostNameIsFQDN, SplitInTwo;
    if reserved != [] {
      var n := |reserved| - 1;
      CanonicalNameIs(hostName, reserved[..n]);
      assert NetOf(reserved[n]) == CTLPLANE ==> LastOnCtlplane(reserved, n);
      assert NetOf(reserved[n]) != CTLPLANE ==>
          forall i :: LastOnCtlplane(reserved, i) <==> LastOnCtlplane(reserved[..n], i);
    }
  }

  /** The control plane is the network of this name, whatever its case. */
  lemma ControlPlaneIs(reserved: seq<Reservation>, i: int)
    ensures LastOnCtlplane(reserved, i) <==>
              && 0 <= i < |reserved| && Lower(reserved[i].network) == "ctlplane"
              && forall k | i < k < |reserved| :: Lower(reserved[k].network) != "ctlplane"
  {
    hide Lower;
  }

  /** What one reservation adds to the domains that are searched: its own and, on the control plane, before that
      the domain of a fully qualified host name if it is another one. */
  lemma SearchDomainsAre(hostName: string, reserved: seq<Reservation>, res: Reservation, domain: string)
    requires NodeHostNameIsFQDN(hostName) ==> hostName == Split(hostName)[0] + "." + domain
    ensures Vars(hostName, []).searchDomains == []
    ensures var outside := Lower(res.network) == "ctlplane" && NodeHostNameIsFQDN(hostName) && domain != res.dnsDomain;
            Vars(hostName, reserved + [res]).searchDomains
            == Vars(hostName, reserved).searchDomains + if outside then [domain, res.dnsDomain] else [res.dnsDomain]
  {
    assert (reserved + [res])[..|reserved|] == reserved;
    if NodeHostNameIsFQDN(hostName) {
      FQDNSplits(hostName);
      hide Split, SplitInTwo, NodeHostNameIsFQDN, Lower;
      assert domain == hostName[|ShortName(hostName)| + 1..];
      assert SplitInTwo(hostName)[1] == hostName[|ShortName(hostName)| + 1..];
    }
  }
}
