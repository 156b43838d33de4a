/**
 The reservation of addresses: one IP set per node, written while the map of nodes is walked
 in any order, and a verdict on all of them (pkg/deployment/ipam.go).
 */
module IPReservations {
  import opened Conditions
  import opened DNSData

  datatype IPSet = IPSet(networks: seq<string>, reservations: seq<Reservation>, ready: Condition)

  datatype Reserving = Reserved(ipSets: map<string, IPSet>) | ReserveError

  datatype Verdict = Done | Waiting | Failed

  function NetworksOf(node: Node, template: seq<string>): seq<string> {
    if node.networks == [] then template else node.networks
  }

  /** An IP set that exists keeps its reservations and its status; a new one has none. */
  function Patched(store: map<string, IPSet>, node: Node, template: seq<string>): IPSet {
    var nets := NetworksOf(node, template);
    if node.hostName in store then store[node.hostName].(networks := nets) else IPSet(nets, [], Unknown)
  }

  predicate CanReserve(node: Node, template: seq<string>, refused: string -> bool) {
    NetworksOf(node, template) != [] && !refused(node.hostName)
  }

  ghost predicate DistinctHostNames(nodes: map<string, Node>) {
    forall a, b | a in nodes && b in nodes && a != b :: nodes[a].hostName != nodes[b].hostName
  }

  ghost function HostNamesOf(names: set<string>, nodes: map<string, Node>): set<string>
    requires names <= nodes.Keys
  {
    set n | n in names :: nodes[n].hostName
  }

  lemma OneHostMore(names: set<string>, nodes: map<string, Node>, n: string)
    requires names <= nodes.Keys && n in nodes && DistinctHostNames(nodes)
    ensures HostNamesOf(names + {n}, nodes) == HostNamesOf(names, nodes) + {nodes[n].hostName}
    ensures nodes[n].hostName in HostNamesOf(names, nodes) ==> n in names
    ensures forall m | m in names && m != n :: nodes[m].hostName != nodes[n].hostName
  {
  }

  lemma NothingReservedYet(nodes: map<string, Node>, template: seq<string>, store: map<string, IPSet>)
    ensures ReservedFor({}, nodes, template, store, map[]) && store + map[] == store
  {
  }

  /** The IP sets of these nodes, by host name, and of no others. */
  ghost predicate ReservedFor(names: set<string>, nodes: map<string, Node>, template: seq<string>, store: map<string,
                              IPSet>, ipSets: map<string, IPSet>)
    requires names <= nodes.Keys
  {
    && ipSets.Keys == HostNamesOf(names, nodes)
    && forall n | n in names ::
        nodes[n].hostName in ipSets && ipSets[nodes[n].hostName] == Patched(store, nodes[n], template)
  }

  /** Reserving for one more node, new or not. */
  lemma ReservedForOneMore(names: set<string>, nodes: map<string, Node>, template: seq<string>, store: map<string,
                           IPSet>, ipSets: map<string, IPSet>, n: string)
    requires names <= nodes.Keys && n in nodes && DistinctHostNames(nodes)
    requires ReservedFor(names, nodes, template, store, ipSets)
    ensures Patched(store + ipSets, nodes[n], template) == Patched(store, nodes[n], template)
    ensures ReservedFor(names + {n}, nodes, template, store,
            ipSets[nodes[n].hostName := Patched(store, nodes[n], template)])
  {
    OneHostMore(names, nodes, n);
    PatchedAgain(store, ipSets, nodes[n], template);
    hide HostNamesOf, DistinctHostNames, Patched;
    var ipSets' := ipSets[nodes[n].hostName := Patched(store, nodes[n], template)];
    assert ipSets'.Keys == HostNamesOf(names + {n}, nodes);
    forall m | m in names + {n}
      ensures nodes[m].hostName in ipSets' && ipSets'[nodes[m].hostName] == Patched(store, nodes[m], template)
    {
    }
  }

  /** Patching an IP set twice with the same networks is patching it once. */
  lemma PatchedAgain(store: map<string, IPSet>, ipSets: map<string, IPSet>, node: Node, template: seq<string>)
    requires node.hostName in ipSets ==> ipSets[node.hostName] == Patched(store, node, template)
    ensures Patched(store + ipSets, node, template) == Patched(store, node, template)
  {
  }

  /** The store and the IP sets once the nodes from the `i`-th of the order on were visited. */
  function ReserveFrom(order: seq<string>, i: nat, nodes: map<string, Node>, template: seq<string>,
                       refused: string -> bool,
                       store: map<string, IPSet>, done: map<string, IPSet>): (map<string, IPSet>, Reserving)
    requires i <= |order| && forall n | n in order :: n in nodes
    decreases |order| - i
  {
    if i == |order| then (store, Reserved(done))
    else
      var node := nodes[order[i]];
      if !CanReserve(node, template, refused) then (store, ReserveError)
      else
        var ipSet := Patched(store, node, template);
        ReserveFrom(order, i + 1, nodes, template, refused, store[node.hostName := ipSet], done[node.hostName := ipSet])
  }

  /** The IP sets of a cluster. */
  class IPSetStore {
    var ipSets: map<string, IPSet>

    constructor (ipSets: map<string, IPSet>)
      ensures this.ipSets == ipSets
    {
      this.ipSets := ipSets;
    }

    /** The loop over the nodes, in the order in which the map happens to be walked. */
    method ReserveIPs(netConfigs: nat, nodes: map<string, Node>, template: seq<string>, refused: string -> bool,
                      order: seq<string>)
      returns (r: Reserving)
      requires forall n :: n in order <==> n in nodes
      modifies this
      ensures (ipSets, r) == if netConfigs == 0 then (old(ipSets), ReserveError)
              else ReserveFrom(order, 0, nodes, template, refused, old(ipSets), map[])
    {
      hide CanReserve, Patched;
      if netConfigs == 0 {
        return ReserveError;
      }
      var allIPSets: map<string, IPSet> := map[];
      for i := 0 to |order|
        invariant ReserveFrom(order, 0, nodes, template, refused, old(ipSets), map[])
               == ReserveFrom(order, i, nodes, template, refused, ipSets, allIPSets)
      {
        var node := nodes[order[i]];
        if !CanReserve(node, template, refused) {
          return ReserveError;
        }
        var ipSet := Patched(ipSets, node, template);
        ipSets := ipSets[node.hostName := ipSet];
        allIPSets := allIPSets[node.hostName := ipSet];
      }
      r := Reserved(allIPSets);
    }
  }

  lemma {:induction false} ReserveFromAny(order: seq<string>, i: nat, nodes: map<string, Node>, template: seq<string>,
                                          refused: string -> bool,
                                         store: map<string, IPSet>, done: map<string, IPSet>, names: set<string>)
    requires i <= |order| && (forall n :: n in order <==> n in nodes) && DistinctHostNames(nodes)
    requires names <= nodes.Keys && (forall n :: n in names <==> n in order[..i])
             && ReservedFor(names, nodes, template, store, done)
    requires forall n | n in names :: CanReserve(nodes[n], template, refused)
    ensures var (store', r) := ReserveFrom(order, i, nodes, template, refused, store + done, done);
            && (r.Reserved? <==> forall n | n in nodes :: CanReserve(nodes[n], template, refused))
            && (r.Reserved? ==> ReservedFor(nodes.Keys, nodes, template, store, r.ipSets) && store' == store + r.ipSets)
    decreases |order| - i
  {
    hide ReservedFor, CanReserve, DistinctHostNames, Patched;
    if i == |order| {
      assert order[..i] == order;
      assert names == nodes.Keys;
    } else {
      var n := order[i];
      if CanReserve(nodes[n], template, refused) {
        ReservedForOneMore(names, nodes, template, store, done, n);
        var done' := done[nodes[n].hostName := Patched(store, nodes[n], template)];
        assert order[..i + 1] == order[..i] + [n];
        assert (store + done)[nodes[n].hostName := Patched(store, nodes[n], template)] == store + done';
        ReserveFromAny(order, i + 1, nodes, template, refused, store, done', names + {n});
      }
    }
  }

  /** With distinct host names the order does not matter: reserving succeeds if and only if every
      node has networks and no call is refused, and then every host has its IP set. */
  lemma ReservingIgnoresOrder(order: seq<string>, nodes: map<string, Node>, template: seq<string>,
                              refused: string -> bool, store: map<string, IPSet>)
    requires (forall n :: n in order <==> n in nodes) && DistinctHostNames(nodes)
    ensures var (store', r) := ReserveFrom(order, 0, nodes, template, refused, store, map[]);
            && (r.Reserved? <==> forall n | n in nodes :: CanReserve(nodes[n], template, refused))
            && (r.Reserved? ==> ReservedFor(nodes.Keys, nodes, template, store, r.ipSets) && store' == store + r.ipSets)
  {
    hide ReservedFor, CanReserve, DistinctHostNames, ReserveFrom;
    NothingReservedYet(nodes, template, store);
    ReserveFromAny(order, 0, nodes, template, refused, store, map[], {});
  }

  /** Only an IP set that says it is not ready is waited for. */
  method CheckIPSets(r: Reserving, order: seq<string>) returns (v: Verdict)
    requires r.Reserved? ==> forall h :: h in order <==> h in r.ipSets
    ensures v.Failed? <==> r.ReserveError?
    ensures v.Waiting? <==> r.Reserved? && exists h | h in r.ipSets :: r.ipSets[h].ready.False?
  {
    if r.ReserveError? {
      return Failed;
    }
    for i := 0 to |order|
      invariant forall j | 0 <= j < i :: !r.ipSets[order[j]].ready.False?
    {
      if r.ipSets[order[i]].ready.False? {
        return Waiting;
      }
    }
    v := Done;
  }

  /** What the DNS data sees of the IP sets. */
  function ReservationsOf(ipSets: map<string, IPSet>): IPSets {
    map h | h in ipSets :: ipSets[h].reservations
  }

  /** Every host finds its IP set afterwards, with the reservations it had before; a host that
      had none yet gets an empty one, which already counts as ready. */
  lemma ReservedHostsHaveIPSets(nodes: map<string, Node>, template: seq<string>, store: map<string, IPSet>,
                                ipSets: map<string, IPSet>, n: string)
    requires ReservedFor(nodes.Keys, nodes, template, store, ipSets) && n in nodes
             && NetworksOf(nodes[n], template) != []
    ensures var host := nodes[n].hostName;
            && host in ReservationsOf(ipSets)
            && DNSData.Reserved(nodes[n], template, ReservationsOf(ipSets))
               == (if host in store then store[host].reservations else [])
            && (host !in store ==> ipSets[host].ready.Unknown?)
  {
    assert ipSets[nodes[n].hostName] == Patched(store, nodes[n], template);
  }

  /** Reserving for all nodes, in the fields: it succeeds if and only if every node has networks, of its own or from
      the template, and no IP set is refused; and then the IP set of each host requests those networks and keeps
      the reservations and the condition it had. */
  lemma ReservedInFields(order: seq<string>, nodes: map<string, Node>, template: seq<string>, refused: string -> bool,
                         store: map<string, IPSet>)
    requires (forall n :: n in order <==> n in nodes) && DistinctHostNames(nodes)
    ensures var (store', r) := ReserveFrom(order, 0, nodes, template, refused, store, map[]);
            && (r.Reserved? <==> forall n | n in nodes ::
                  !(nodes[n].networks == [] && template == []) && !refused(nodes[n].hostName))
            && (r.Reserved? ==> forall n | n in nodes ::
                  var h := nodes[n].hostName;
                  && h in store' && h in r.ipSets && store'[h] == r.ipSets[h]
                  && store'[h].networks == (if nodes[n].networks == [] then template else nodes[n].networks)
                  && store'[h].reservations == (if h in store then store[h].reservations else [])
                  && store'[h].ready == (if h in store then store[h].ready else Unknown))
  {
    ReservingIgnoresOrder(order, nodes, template, refused, store);
    hide ReserveFrom, DistinctHostNames, HostNamesOf;
  }
}
