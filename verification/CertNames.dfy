/**
 The base names under which certificates are stored come from the DNS data: which of them keep
 the certificate of a node together (pkg/deployment/cert.go, pkg/deployment/ipam.go).
 */
module CertNames {
  import opened Conditions
  import opened SortedKeys
  import opened HostNames
  import DNS = DNSData
  import opened CertPacking
  import opened CertAlignment
  import Certs = CertPublication

  // ---------- the names in the DNS data ----------

  /** The short name of the host in some domain. */
  ghost predicate InSomeDomain(hostName: string, name: string) {
    exists domain :: name == ShortName(hostName) + "." + domain
  }

  ghost predicate NamesFormed(d: DNS.Details) {
    forall h, net | h in d.hostnames && net in d.hostnames[h] :: InSomeDomain(h, d.hostnames[h][net])
  }

  lemma NamesOfAreFormed(hostName: string, res: DNS.Reservation, name: string)
    requires name in DNS.NamesOf(hostName, res)
    ensures InSomeDomain(hostName, name)
  {
    hide ShortName, NodeHostNameIsFQDN, DNS.NetOf;
    if name == DNS.DomainName(hostName, res) {
      assert name == ShortName(hostName) + "." + res.dnsDomain;
    } else {
      FQDNSplits(hostName);
      assert name == ShortName(hostName) + "." + SplitInTwo(hostName)[1];
    }
  }

  lemma {:induction false} NodeNamesAreFormed(d: DNS.Details, hostName: string, reserved: seq<DNS.Reservation>, j: nat)
    requires j <= |reserved| && NamesFormed(d)
    ensures NamesFormed(DNS.WithNode(d, hostName, reserved, j))
  {
    hide InSomeDomain, DNS.NamesOf, DNS.NetOf;
    if j > 0 {
      NodeNamesAreFormed(d, hostName, reserved, j - 1);
      var names := DNS.NamesOf(hostName, reserved[j - 1]);
      if names != [] { NamesOfAreFormed(hostName, reserved[j - 1], names[|names| - 1]); }
    }
  }

  lemma {:induction false} AllNamesAreFormed(d: DNS.Details, hosts: seq<(string, seq<DNS.Reservation>)>)
    requires NamesFormed(d)
    ensures NamesFormed(DNS.WithNodes(d, hosts))
  {
    hide NamesFormed, DNS.WithNode;
    if hosts != [] {
      var n := |hosts| - 1;
      AllNamesAreFormed(d, hosts[..n]);
      NodeNamesAreFormed(DNS.WithNodes(d, hosts[..n]), hosts[n].0, hosts[n].1, |hosts[n].1|);
    }
  }

  // ---------- the base names ----------

  /** The base name of a node: its name on the control plane network, if it has one. */
  function BaseOf(d: DNS.Details, hostName: string): Option<string> {
    if hostName in d.hostnames && DNS.CTLPLANE in d.hostnames[hostName] then Some(d.hostnames[hostName][DNS.CTLPLANE])
                                  else None
  }

  /** The nodes of a nodeset, as the certificates see them, have their base names from the DNS
      data. */
  ghost predicate BasesFromDNS(nodes: seq<Certs.Node>, hostNames: seq<string>, d: DNS.Details) {
    |nodes| == |hostNames| && forall i | 0 <= i < |nodes| :: nodes[i].base == BaseOf(d, hostNames[i])
  }

  ghost predicate DistinctShortNames(hostNames: seq<string>) {
    forall i, j | 0 <= i < j < |hostNames| :: ShortName(hostNames[i]) != ShortName(hostNames[j])
  }

  lemma ShortNameHasNoDot(s: string)
    ensures '.' !in ShortName(s)
  {
  }

  /** Names that differ before their first dot never straddle each other. */
  lemma ShortNamesDecide(s: string, d: string, s': string, d': string)
    requires '.' !in s && '.' !in s' && s != s'
    ensures !Straddles(s + "." + d, s' + "." + d')
  {
    hide Less;
    var a, b := s + "." + d, s' + "." + d';
    if Straddles(a, b) {
      assert b[..|a| + 1][..|a|] == a && b[..|a|] == a;
      FirstDots(s, d, s', d');
    }
  }

  lemma FirstDots(s: string, d: string, s': string, d': string)
    requires '.' !in s && '.' !in s'
    requires var a, b := s + "." + d, s' + "." + d'; |a| <= |b| && b[..|a|] == a
    ensures s == s'
  {
    var a, b := s + "." + d, s' + "." + d';
    assert forall k | 0 <= k < |a| :: b[k] == a[k];
    assert a[|s|] == '.' && forall k | 0 <= k < |s| :: a[k] == s[k];
    assert b[|s'|] == '.' && forall k | 0 <= k < |s'| :: b[k] == s'[k];
    assert |s| == |s'|;
    assert s == a[..|s|] && s' == b[..|s'|];
  }

  /** Nodes with distinct short names have base names that never straddle each other. */
  lemma DNSNamesNeverStraddle(nodes: seq<Certs.Node>, hostNames: seq<string>,
                              hosts: seq<(string, seq<DNS.Reservation>)>)
    requires BasesFromDNS(nodes, hostNames, DNS.WithNodes(DNS.Details([], map[], map[], ""), hosts))
    requires DistinctShortNames(hostNames)
    ensures NoStraddling(Certs.Bases(nodes))
  {
    hide Straddles, ShortName, DNS.WithNodes;
    var d := DNS.WithNodes(DNS.Details([], map[], map[], ""), hosts);
    AllNamesAreFormed(DNS.Details([], map[], map[], ""), hosts);
    forall a, b | a in Certs.Bases(nodes) && b in Certs.Bases(nodes)
      ensures !Straddles(a, b)
    {
      var i, x := BaseAt(nodes, hostNames, d, a);
      var j, y := BaseAt(nodes, hostNames, d, b);
      ShortNameHasNoDot(hostNames[i]);
      ShortNameHasNoDot(hostNames[j]);
      if i == j {
        NeverStraddlesItself(a);
      } else {
        assert ShortName(hostNames[i]) != ShortName(hostNames[j]);
        ShortNamesDecide(ShortName(hostNames[i]), x, ShortName(hostNames[j]), y);
      }
    }
  }

  lemma BaseAt(nodes: seq<Certs.Node>, hostNames: seq<string>, d: DNS.Details, b: string) returns (i: nat,
               domain: string)
    requires BasesFromDNS(nodes, hostNames, d) && NamesFormed(d) && b in Certs.Bases(nodes)
    ensures i < |nodes| && nodes[i].base == Some(b) && b == ShortName(hostNames[i]) + "." + domain
  {
    hide ShortName;
    var n :| n in nodes && n.base == Some(b);
    i :| 0 <= i < |nodes| && nodes[i] == n;
    assert BaseOf(d, hostNames[i]) == Some(b);
    assert InSomeDomain(hostNames[i], b);
    domain :| b == ShortName(hostNames[i]) + "." + domain;
  }

  lemma NeverStraddlesItself(a: string)
    ensures !Straddles(a, a)
  {
  }

  /** So the three parts of the certificate of each node are in one published secret, for every
      size limit, as long as no two nodes of the nodeset share their short name. */
  lemma NodesOfDNSInOneSecret(nodes: seq<Certs.Node>, hostNames: seq<string>,
                              hosts: seq<(string, seq<DNS.Reservation>)>, max: int, i: nat)
    returns (g: nat)
    requires BasesFromDNS(nodes, hostNames, DNS.WithNodes(DNS.Details([], map[], map[], ""), hosts))
    requires DistinctShortNames(hostNames) && Certs.AllUsable(nodes) && i < |nodes|
    ensures var b, groups := nodes[i].base.value, Packed(max, Certs.Collect(nodes));
            && g < |groups|
            && {KeyAt(b, 0), KeyAt(b, 1), KeyAt(b, 2)} <= Contents(groups[g]).Keys
  {
    DNSNamesNeverStraddle(nodes, hostNames, hosts);
    g := Certs.EachNodeInOneSecret(nodes, max, i);
  }

  // ---------- one short name in two domains ----------

  /** A fully qualified host name is its own name on the control plane. */
  lemma QualifiedHostKeepsItsName(hostName: string, res: DNS.Reservation)
    requires NodeHostNameIsFQDN(hostName) && DNS.NetOf(res) == DNS.CTLPLANE
    ensures var names := DNS.NamesOf(hostName, res); names != [] && names[|names| - 1] == hostName
  {
    hide NodeHostNameIsFQDN, DNS.NetOf;
  }

  /** Two hosts with one short name can straddle: the keys of "node.aa-edpm.com" fall between
      those of "node.aa". */
  lemma StraddlingHappens(res: DNS.Reservation)
    requires DNS.NetOf(res) == DNS.CTLPLANE
    ensures var a, b := DNS.NamesOf("node.aa", res), DNS.NamesOf("node.aa-edpm.com", res);
            a != [] && b != [] && Straddles(a[|a| - 1], b[|b| - 1])
  {
    ExampleNames();
    QualifiedHostKeepsItsName("node.aa", res);
    QualifiedHostKeepsItsName("node.aa-edpm.com", res);
    hide DNS.NamesOf, NodeHostNameIsFQDN;
    ExampleStraddles();
  }

  lemma ExampleStraddles()
    ensures Straddles("node.aa", "node.aa-edpm.com")
  {
    assert "node.aa-edpm.com"[..8] == "node.aa" + "-" && "node.aa-edpm.com"[8..] == "edpm.com";
  }

  lemma ExampleNames()
    ensures NodeHostNameIsFQDN("node.aa") && NodeHostNameIsFQDN("node.aa-edpm.com")
  {
    hide NodeHostNameIsFQDN;
    LabelInDomain("node", "aa");
    LabelInDomain("aa-edpm", "com");
    assert "node" + "." + "aa" == "node.aa" && "aa-edpm" + "." + "com" == "aa-edpm.com";
    LabelInDomain("node", "aa-edpm.com");
    assert "node" + "." + "aa-edpm.com" == "node.aa-edpm.com";
  }
}
