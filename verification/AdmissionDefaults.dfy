/**
 What the defaults of a nodeset are, field by field, and when nodes without host names keep apart.
 */
module AdmissionDefaults {
  import opened HostNames
  import opened ObjectNames
  import opened Admission

  ghost predicate OrderOf(order: seq<string>, spec: Spec) {
    forall n :: n in order <==> n in spec.nodes
  }

  /** A node that is to be provisioned takes its own name in the domain, if there is one and its host name
      is not fully qualified; any other node keeps its host name, or takes its own name if it has none. */
  lemma HostNameAfter(spec: Spec, order: seq<string>, n: string)
    requires OrderOf(order, spec) && n in spec.nodes
    ensures n in Defaulted(spec, order).nodes
    ensures var node, node' := spec.nodes[n], Defaulted(spec, order).nodes[n];
            var given := if node.hostName == "" then n else node.hostName;
            var moved := !spec.preProvisioned && spec.domain != "" && !NodeHostNameIsFQDN(given);
            node' == node.(hostName := if moved then n + "." + spec.domain else given)
  {
    hide NodeHostNameIsFQDN, HostMap;
  }

  /** The other fields: a pre-provisioned nodeset gets the user "cloud-admin" if it has none; another one gets
      the user of its template, the ssh secret of its nodes if it has no secret for deployment, and a host for
      each host name of its nodes, with the data of such a node. */
  lemma OtherFieldsAfter(spec: Spec, order: seq<string>, h: string) returns (n: string)
    requires OrderOf(order, spec)
    ensures var s := Defaulted(spec, order);
            && s.nodes.Keys == spec.nodes.Keys && s.preProvisioned == spec.preProvisioned && s.domain == spec.domain
            && s.cloudUserName == spec.cloudUserName && s.ansibleSSHSecret == spec.ansibleSSHSecret
            && s.ansibleUser == (if !spec.preProvisioned then spec.cloudUserName
                                 else if spec.ansibleUser == "" then "cloud-admin" else spec.ansibleUser)
            && s.deploymentSSHSecret == (if !spec.preProvisioned && spec.deploymentSSHSecret == ""
                                         then spec.ansibleSSHSecret else spec.deploymentSSHSecret)
            && (spec.preProvisioned ==> s.baremetalHosts == spec.baremetalHosts)
            && (!spec.preProvisioned ==>
                  && (h in s.baremetalHosts <==> exists x :: x in s.nodes && s.nodes[x].hostName == h)
                  && (h in s.baremetalHosts ==>
                        n in s.nodes && s.nodes[n].hostName == h && s.baremetalHosts[h] == s.nodes[n].inst))
  {
    hide DefaultNode, HostMap;
    n := HostMapAt(order, DefaultNodes(spec), h);
  }

  /** Cutting the domain off again. */
  lemma SameInDomain(a: string, b: string, domain: string)
    requires a + "." + domain == b + "." + domain
    ensures a == b
  {
    var x, y := a + "." + domain, b + "." + domain;
    assert a == x[..|x| - |domain| - 1] && b == y[..|y| - |domain| - 1];
  }

  /** One node is named as the other one ends up in the domain. */
  ghost predicate NamedInDomain(a: string, b: string, domain: string) {
    NodeHostNameIsFQDN(a) && !NodeHostNameIsFQDN(b) && a == b + "." + domain
  }

  /** Two nodes without host names end with the same one if and only if they are to be provisioned, there is a
      domain, and one of them is named as the other one ends up in the domain. */
  lemma UnnamedNodesMeetIff(spec: Spec, order: seq<string>, a: string, b: string)
    requires OrderOf(order, spec) && a in spec.nodes && b in spec.nodes && a != b
    requires spec.nodes[a].hostName == "" && spec.nodes[b].hostName == ""
    ensures a in Defaulted(spec, order).nodes && b in Defaulted(spec, order).nodes
    ensures var nodes := Defaulted(spec, order).nodes;
            nodes[a].hostName == nodes[b].hostName <==>
              !spec.preProvisioned && spec.domain != ""
              && (NamedInDomain(a, b, spec.domain) || NamedInDomain(b, a, spec.domain))
  {
    HostNameAfter(spec, order, a);
    HostNameAfter(spec, order, b);
    hide Defaulted, NodeHostNameIsFQDN;
    if a + "." + spec.domain == b + "." + spec.domain { SameInDomain(a, b, spec.domain); }
  }

  /** In particular, nodes named by labels keep apart. */
  lemma LabelledNodesKeepApart(spec: Spec, order: seq<string>, a: string, b: string)
    requires OrderOf(order, spec) && a in spec.nodes && b in spec.nodes && a != b
    requires spec.nodes[a].hostName == "" && spec.nodes[b].hostName == "" && '.' !in a && '.' !in b
    ensures a in Defaulted(spec, order).nodes && b in Defaulted(spec, order).nodes
    ensures Defaulted(spec, order).nodes[a].hostName != Defaulted(spec, order).nodes[b].hostName
  {
    UnnamedNodesMeetIff(spec, order, a, b);
    hide Defaulted, NodeHostNameIsFQDN;
    assert (a + "." + spec.domain)[|a|] == '.' && (b + "." + spec.domain)[|b|] == '.';
  }

  /** The nodes "x" and "x.example.org" meet in the domain "example.org". */
  lemma UnnamedNodesMeet(inst: Instance)
    ensures var blank := Node("", "", inst);
            var spec := Spec(false, map["x" := blank, "x.example.org" := blank], "example.org", "", "", "", "", map[]);
            var nodes := Defaulted(spec, ["x", "x.example.org"]).nodes;
            && "x" in nodes && "x.example.org" in nodes
            && nodes["x"].hostName == nodes["x.example.org"].hostName == "x.example.org"
  {
    var blank := Node("", "", inst);
    var spec := Spec(false, map["x" := blank, "x.example.org" := blank], "example.org", "", "", "", "", map[]);
    var order := ["x", "x.example.org"];
    ExampleNames();
    hide NodeHostNameIsFQDN, Defaulted;
    HostNameAfter(spec, order, "x");
    HostNameAfter(spec, order, "x.example.org");
  }

  lemma ExampleNames()
    ensures !NodeHostNameIsFQDN("x") && NodeHostNameIsFQDN("x.example.org")
    ensures "x" + "." + "example.org" == "x.example.org"
  {
    hide NodeHostNameIsFQDN;
    OneLabelIsNotQualified("x");
    OrgIsDomain();
    assert IsLabel("x");
    hide IsLabel, IsTopLevel;
    LabelInDomain("x", "example.org");
    assert "x" + "." + "example.org" == "x.example.org";
  }

  lemma OneLabelIsNotQualified(s: string)
    requires '.' !in s
    ensures !NodeHostNameIsFQDN(s)
  {
    NoDotNoSplit(s);
  }

  lemma OrgIsDomain()
    ensures NodeHostNameIsFQDN("example.org")
  {
    assert IsTopLevel("org");
    LabelInDomain("example", "org");
    assert "example" + "." + "org" == "example.org";
  }
}
