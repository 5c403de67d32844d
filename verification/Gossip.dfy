/**
Heartbeat gossip (internal/transport/heartbeat.go): merging the nodes a peer reports into
the registry.  What a registry knows of its peers, their addresses and whether they are
clients, forms a join semilattice, and merging is its join.
 */
module Gossip {
  import opened Base
  import opened Keys
  import opened NodeRegistry

  datatype Entry = Entry(id: NodeID, addresses: seq<Address>, role: int)

  /** The entry tells of a third node: neither the zero identifier nor the receiver itself. */
  predicate Speaks(self: NodeID, e: Entry) {
    e.id != ZERO_NODE_ID && e.id != self
  }

  function NewNode(e: Entry): Node {
    Node(e.id, Compact(e.addresses), [], e.role, None, Disconnected)
  }

  /** What an entry about a known node is turned into before it is merged. */
  function Updated(n: Node, e: Entry): Node {
    n.(addresses := Compact(n.addresses + e.addresses), role := e.role)
  }

  function MergeEntry(nodes: Nodes, self: NodeID, e: Entry): Nodes {
    if !Speaks(self, e) then nodes
    else if e.id in nodes then nodes[e.id := MergeNode(nodes[e.id], Updated(nodes[e.id], e))]
    else nodes[e.id := NewNode(e)]
  }

  function MergeAll(nodes: Nodes, self: NodeID, es: seq<Entry>): Nodes
    decreases |es|
  {
    if es == [] then nodes else MergeAll(MergeEntry(nodes, self, es[0]), self, es[1..])
  }

  /** The nodes that merging makes known, in the order of the entries. */
  function Discovered(nodes: Nodes, self: NodeID, es: seq<Entry>): seq<Node>
    decreases |es|
  {
    if es == [] then []
    else (if Speaks(self, es[0]) && es[0].id !in nodes then [NewNode(es[0])] else [])
         + Discovered(MergeEntry(nodes, self, es[0]), self, es[1..])
  }

  /** One iteration: an unknown node is added, a known one is updated and merged. */
  method MergeHeartbeatNode(registry: Registry, self: NodeID, e: Entry) returns (found: seq<Node>, ok: bool)
    requires Filed(registry.nodes)
    modifies registry
    ensures ok && Filed(registry.nodes)
    ensures registry.nodes == MergeEntry(old(registry.nodes), self, e)
    ensures found == if Speaks(self, e) && e.id !in old(registry.nodes) then [NewNode(e)] else []
  {
    if e.id == ZERO_NODE_ID || e.id == self {
      return [], true;
    }
    if e.id !in registry.nodes {
      ok := registry.AddNode(NewNode(e), []);
      return [NewNode(e)], ok;
    }
    var node := Updated(registry.nodes[e.id], e);
    ok := registry.AddNode(node, node.certs);
    found := [];
  }

  /** The merging loop: it never reports an error and returns the newly known nodes. */
  method MergeHeartbeatNodes(registry: Registry, self: NodeID, es: seq<Entry>) returns (discovered: seq<Node>, ok: bool)
    requires Filed(registry.nodes)
    modifies registry
    ensures ok && Filed(registry.nodes)
    ensures registry.nodes == MergeAll(old(registry.nodes), self, es)
    ensures discovered == Discovered(old(registry.nodes), self, es)
  {
    discovered := [];
    ghost var start := registry.nodes;
    assert es[0..] == es;
    for i := 0 to |es|
      invariant Filed(registry.nodes)
      invariant MergeAll(start, self, es) == MergeAll(registry.nodes, self, es[i..])
      invariant discovered + Discovered(registry.nodes, self, es[i..]) == Discovered(start, self, es)
    {
      assert es[i..][0] == es[i] && es[i..][1..] == es[i + 1..];
      var found;
      found, ok := MergeHeartbeatNode(registry, self, es[i]);
      if !ok {
        return;
      }
      ghost var rest := Discovered(registry.nodes, self, es[i + 1..]);
      assert discovered + (found + rest) == (discovered + found) + rest;
      discovered := discovered + found;
    }
    ok := true;
  }

  // ----- The abstraction -----

  datatype Peer = Peer(addresses: set<Address>, client: bool)

  type Knowledge = map<NodeID, Peer>

  function AbstractNode(n: Node): Peer {
    Peer(Reachable(n.addresses), n.role == ROLE_CLIENT)
  }

  function Abstract(nodes: Nodes): Knowledge {
    map id | id in nodes :: AbstractNode(nodes[id])
  }

  function JoinPeer(p: Peer, q: Peer): Peer {
    Peer(p.addresses + q.addresses, p.client || q.client)
  }

  function Join(a: Knowledge, b: Knowledge): Knowledge {
    map id | id in a.Keys + b.Keys ::
      if id in a && id in b then JoinPeer(a[id], b[id]) else if id in a then a[id] else b[id]
  }

  /** What one entry tells. */
  function Told(self: NodeID, e: Entry): Knowledge {
    if Speaks(self, e) then map[e.id := Peer(Reachable(e.addresses), e.role == ROLE_CLIENT)] else map[]
  }

  /** What a list of entries tells altogether. */
  function ToldAll(self: NodeID, es: seq<Entry>): Knowledge
    decreases |es|
  {
    if es == [] then map[] else Join(Told(self, es[0]), ToldAll(self, es[1..]))
  }

  predicate KnownRole(role: int) {
    role == ROLE_SERVER || role == ROLE_CLIENT
  }

  ghost predicate KnownRoles(nodes: Nodes) {
    forall id :: id in nodes ==> KnownRole(nodes[id].role)
  }

  ghost predicate EntriesKnown(es: seq<Entry>) {
    forall e :: e in es ==> KnownRole(e.role)
  }

  lemma ReachableAppend(s: seq<Address>, t: seq<Address>)
    ensures Reachable(s + t) == Reachable(s) + Reachable(t)
  {
  }

  /** Merging an entry about a known node joins the addresses and the client flag, and touches nothing else. */
  lemma MergeKnown(n: Node, e: Entry)
    requires KnownRole(n.role) && KnownRole(e.role)
    ensures var m := MergeNode(n, Updated(n, e));
            && AbstractNode(m) == JoinPeer(AbstractNode(n), Peer(Reachable(e.addresses), e.role == ROLE_CLIENT))
            && m == n.(addresses := m.addresses, role := m.role) && KnownRole(m.role)
  {
    var u := Updated(n, e);
    CompactKeepsReachable(n.addresses + e.addresses);
    ReachableAppend(n.addresses, e.addresses);
    CompactKeepsReachable(n.addresses + u.addresses);
    ReachableAppend(n.addresses, u.addresses);
    if u.addresses == [] {
      assert Reachable(u.addresses) == {};
    }
  }

  lemma AbstractUpdate(nodes: Nodes, id: NodeID, n: Node)
    ensures Abstract(nodes[id := n]) == Abstract(nodes)[id := AbstractNode(n)]
  {
  }

  lemma JoinOne(a: Knowledge, id: NodeID, p: Peer)
    ensures Join(a, map[id := p]) == a[id := if id in a then JoinPeer(a[id], p) else p]
  {
  }

  lemma MergeEntryJoins(nodes: Nodes, self: NodeID, e: Entry)
    requires KnownRoles(nodes) && KnownRole(e.role)
    ensures Abstract(MergeEntry(nodes, self, e)) == Join(Abstract(nodes), Told(self, e))
    ensures KnownRoles(MergeEntry(nodes, self, e))
  {
    if !Speaks(self, e) {
      assert Join(Abstract(nodes), map[]) == Abstract(nodes);
    } else {
      JoinOne(Abstract(nodes), e.id, Peer(Reachable(e.addresses), e.role == ROLE_CLIENT));
      if e.id in nodes {
        MergeKnown(nodes[e.id], e);
        AbstractUpdate(nodes, e.id, MergeNode(nodes[e.id], Updated(nodes[e.id], e)));
      } else {
        CompactKeepsReachable(e.addresses);
        AbstractUpdate(nodes, e.id, NewNode(e));
      }
    }
  }

  // ----- The semilattice -----

  lemma JoinPeerLaws(p: Peer, q: Peer, r: Peer)
    ensures JoinPeer(p, q) == JoinPeer(q, p)
    ensures JoinPeer(JoinPeer(p, q), r) == JoinPeer(p, JoinPeer(q, r))
    ensures JoinPeer(p, p) == p
  {
    assert p.addresses + q.addresses == q.addresses + p.addresses;
    assert (p.addresses + q.addresses) + r.addresses == p.addresses + (q.addresses + r.addresses);
    assert p.addresses + p.addresses == p.addresses;
  }

  lemma JoinCommutes(a: Knowledge, b: Knowledge)
    ensures Join(a, b) == Join(b, a)
  {
    assert Join(a, b).Keys == Join(b, a).Keys;
    forall id | id in a && id in b
      ensures Join(a, b)[id] == Join(b, a)[id]
    {
      JoinPeerLaws(a[id], b[id], a[id]);
    }
  }

  lemma JoinAssociates(a: Knowledge, b: Knowledge, c: Knowledge)
    ensures Join(Join(a, b), c) == Join(a, Join(b, c))
  {
    assert Join(Join(a, b), c).Keys == Join(a, Join(b, c)).Keys;
    forall id | id in a && id in b && id in c
      ensures Join(Join(a, b), c)[id] == Join(a, Join(b, c))[id]
    {
      JoinPeerLaws(a[id], b[id], c[id]);
    }
  }

  lemma JoinIdempotent(a: Knowledge)
    ensures Join(a, a) == a
  {
    forall id | id in a
      ensures Join(a, a)[id] == a[id]
    {
      JoinPeerLaws(a[id], a[id], a[id]);
    }
  }

  /** Merging a heartbeat is joining what it tells. */
  lemma {:induction false} MergeAllJoins(nodes: Nodes, self: NodeID, es: seq<Entry>)
    requires KnownRoles(nodes) && EntriesKnown(es)
    ensures Abstract(MergeAll(nodes, self, es)) == Join(Abstract(nodes), ToldAll(self, es))
    ensures KnownRoles(MergeAll(nodes, self, es))
    decreases |es|
  {
    if es == [] {
      assert Join(Abstract(nodes), map[]) == Abstract(nodes);
    } else {
      MergeEntryJoins(nodes, self, es[0]);
      MergeAllJoins(MergeEntry(nodes, self, es[0]), self, es[1..]);
      JoinAssociates(Abstract(nodes), Told(self, es[0]), ToldAll(self, es[1..]));
    }
  }

  /** A repeated entry tells nothing new. */
  lemma {:induction false} ToldAbsorbs(self: NodeID, es: seq<Entry>, e: Entry)
    requires e in es
    ensures Join(Told(self, e), ToldAll(self, es)) == ToldAll(self, es)
    decreases |es|
  {
    var t, h, r := Told(self, e), Told(self, es[0]), ToldAll(self, es[1..]);
    if e == es[0] {
      JoinAssociates(t, t, r);
      JoinIdempotent(t);
    } else {
      ToldAbsorbs(self, es[1..], e);
      JoinAssociates(t, h, r);
      JoinCommutes(t, h);
      JoinAssociates(h, t, r);
    }
  }

  lemma {:induction false} ToldContained(self: NodeID, es: seq<Entry>, fs: seq<Entry>)
    requires forall e :: e in es ==> e in fs
    ensures Join(ToldAll(self, es), ToldAll(self, fs)) == ToldAll(self, fs)
    decreases |es|
  {
    if es == [] {
      assert Join(map[], ToldAll(self, fs)) == ToldAll(self, fs);
    } else {
      assert es[0] in es && forall e :: e in es[1..] ==> e in es;
      ToldContained(self, es[1..], fs);
      ToldAbsorbs(self, fs, es[0]);
      JoinAssociates(Told(self, es[0]), ToldAll(self, es[1..]), ToldAll(self, fs));
    }
  }

  /** Only the set of entries matters. */
  lemma ToldBySet(self: NodeID, es: seq<Entry>, fs: seq<Entry>)
    requires forall e :: e in es <==> e in fs
    ensures ToldAll(self, es) == ToldAll(self, fs)
  {
    ToldContained(self, es, fs);
    ToldContained(self, fs, es);
    JoinCommutes(ToldAll(self, es), ToldAll(self, fs));
  }

  // ----- Convergence -----

  /** Heartbeats arriving one after the other. */
  function MergeBatches(nodes: Nodes, self: NodeID, batches: seq<seq<Entry>>): Nodes
    decreases |batches|
  {
    if batches == [] then nodes else MergeBatches(MergeAll(nodes, self, batches[0]), self, batches[1..])
  }

  function Flatten(batches: seq<seq<Entry>>): seq<Entry> {
    if batches == [] then [] else batches[0] + Flatten(batches[1..])
  }

  lemma {:induction false} MergeAllAppend(nodes: Nodes, self: NodeID, es: seq<Entry>, fs: seq<Entry>)
    ensures MergeAll(nodes, self, es + fs) == MergeAll(MergeAll(nodes, self, es), self, fs)
    decreases |es|
  {
    if es == [] {
      assert es + fs == fs;
    } else {
      assert (es + fs)[0] == es[0] && (es + fs)[1..] == es[1..] + fs;
      MergeAllAppend(MergeEntry(nodes, self, es[0]), self, es[1..], fs);
    }
  }

  /** How entries are grouped into heartbeats makes no difference at all. */
  lemma {:induction false} RegroupingIsInvisible(nodes: Nodes, self: NodeID, batches: seq<seq<Entry>>)
    ensures MergeBatches(nodes, self, batches) == MergeAll(nodes, self, Flatten(batches))
    decreases |batches|
  {
    if batches != [] {
      RegroupingIsInvisible(MergeAll(nodes, self, batches[0]), self, batches[1..]);
      MergeAllAppend(nodes, self, batches[0], Flatten(batches[1..]));
    }
  }

  /**
  Any two runs of heartbeats that carry the same entries, in whatever order, grouping and
  number, reach the same knowledge.
   */
  lemma GossipConverges(nodes: Nodes, self: NodeID, batches: seq<seq<Entry>>, batches': seq<seq<Entry>>)
    requires KnownRoles(nodes) && EntriesKnown(Flatten(batches))
    requires forall e :: e in Flatten(batches) <==> e in Flatten(batches')
    ensures Abstract(MergeBatches(nodes, self, batches)) == Abstract(MergeBatches(nodes, self, batches'))
  {
    RegroupingIsInvisible(nodes, self, batches);
    RegroupingIsInvisible(nodes, self, batches');
    MergeAllJoins(nodes, self, Flatten(batches));
    MergeAllJoins(nodes, self, Flatten(batches'));
    ToldBySet(self, Flatten(batches), Flatten(batches'));
  }

  /** Entries of this role commute with entries of a known role, wherever they are merged. */
  ghost predicate RoleCommutes(role: int) {
    forall nodes: Nodes, self: NodeID, e: Entry, f: Entry ::
      KnownRoles(nodes) && e.role == role && KnownRole(f.role) ==>
      Abstract(MergeAll(nodes, self, [e, f])) == Abstract(MergeAll(nodes, self, [f, e]))
  }

  lemma MergePair(nodes: Nodes, self: NodeID, e: Entry, f: Entry)
    ensures MergeAll(nodes, self, [e, f]) == MergeEntry(MergeEntry(nodes, self, e), self, f)
  {
    assert [e, f][1..] == [f] && [f][1..] == [];
    assert MergeAll(MergeEntry(nodes, self, e), self, [f]) == MergeEntry(MergeEntry(nodes, self, e), self, f);
  }

  lemma KnownRoleCommutes(nodes: Nodes, self: NodeID, e: Entry, f: Entry)
    requires KnownRoles(nodes) && KnownRole(e.role) && KnownRole(f.role)
    ensures Abstract(MergeAll(nodes, self, [e, f])) == Abstract(MergeAll(nodes, self, [f, e]))
  {
    MergeAllJoins(nodes, self, [e, f]);
    MergeAllJoins(nodes, self, [f, e]);
    ToldBySet(self, [e, f], [f, e]);
  }

  /** An entry of another role and one that says client leave different knowledge in the two orders. */
  lemma OtherRoleMatters(self: NodeID, id: NodeID, role: int)
    requires id != ZERO_NODE_ID && id != self && !KnownRole(role)
    ensures var e, f := Entry(id, [], role), Entry(id, [], ROLE_CLIENT);
            Abstract(MergeAll(map[], self, [e, f])) != Abstract(MergeAll(map[], self, [f, e]))
  {
    var e, f := Entry(id, [], role), Entry(id, [], ROLE_CLIENT);
    MergePair(map[], self, e, f);
    MergePair(map[], self, f, e);
    assert Abstract(MergeAll(map[], self, [e, f]))[id].client;
    assert !Abstract(MergeAll(map[], self, [f, e]))[id].client;
  }

  /** Merging entries of a role is independent of the order exactly when the role is server or client. */
  lemma RoleCommutesIff(role: int)
    ensures RoleCommutes(role) <==> KnownRole(role)
  {
    if KnownRole(role) {
      forall nodes: Nodes, self: NodeID, e: Entry, f: Entry | KnownRoles(nodes) && e.role == role && KnownRole(f.role)
        ensures Abstract(MergeAll(nodes, self, [e, f])) == Abstract(MergeAll(nodes, self, [f, e]))
      {
        KnownRoleCommutes(nodes, self, e, f);
      }
    } else {
      var id: NodeID := [1] + Zeros(31);
      assert id[0] != ZERO_NODE_ID[0];
      OtherRoleMatters(ZERO_NODE_ID, id, role);
      assert KnownRoles(map[]);
    }
  }

  // ----- What merging keeps -----

  /** The node is as it was, except for further addresses and possibly another role. */
  ghost predicate Keeps(n: Node, m: Node) {
    && m == n.(addresses := m.addresses, role := m.role)
    && Reachable(n.addresses) <= Reachable(m.addresses)
  }

  lemma MergeEntryKeeps(nodes: Nodes, self: NodeID, e: Entry, id: NodeID)
    requires id in nodes
    ensures id in MergeEntry(nodes, self, e) && Keeps(nodes[id], MergeEntry(nodes, self, e)[id])
  {
    if e.id == id && Speaks(self, e) {
      var n := nodes[id];
      var u := Updated(n, e);
      CompactKeepsReachable(n.addresses + u.addresses);
      ReachableAppend(n.addresses, u.addresses);
    }
  }

  /** No node is lost, and none loses an address, its status, its last contact or its certificates. */
  lemma {:induction false} MergeAllKeeps(nodes: Nodes, self: NodeID, es: seq<Entry>, id: NodeID)
    requires id in nodes
    ensures id in MergeAll(nodes, self, es) && Keeps(nodes[id], MergeAll(nodes, self, es)[id])
    decreases |es|
  {
    if es != [] {
      MergeEntryKeeps(nodes, self, es[0], id);
      MergeAllKeeps(MergeEntry(nodes, self, es[0]), self, es[1..], id);
    }
  }

  function IDs(ns: seq<Node>): set<NodeID> {
    set n | n in ns :: n.id
  }

  /** Exactly the newly known nodes are returned, each once, and never the zero identifier or the receiver. */
  lemma {:induction false} DiscoveredIsExact(nodes: Nodes, self: NodeID, es: seq<Entry>)
    ensures IDs(Discovered(nodes, self, es)) == MergeAll(nodes, self, es).Keys - nodes.Keys
    ensures forall i, j :: 0 <= i < j < |Discovered(nodes, self, es)| ==>
      Discovered(nodes, self, es)[i].id != Discovered(nodes, self, es)[j].id
    ensures MergeAll(nodes, self, es).Keys >= nodes.Keys
    ensures ZERO_NODE_ID !in IDs(Discovered(nodes, self, es)) && self !in IDs(Discovered(nodes, self, es))
    decreases |es|
  {
    if es != [] {
      var next := MergeEntry(nodes, self, es[0]);
      var rest := Discovered(next, self, es[1..]);
      DiscoveredIsExact(next, self, es[1..]);
      if Speaks(self, es[0]) && es[0].id !in nodes {
        assert next.Keys == nodes.Keys + {es[0].id};
        var ds := [NewNode(es[0])] + rest;
        assert Discovered(nodes, self, es) == ds;
        assert IDs(ds) == {es[0].id} + IDs(rest) by {
          assert ds[0] == NewNode(es[0]) && ds[1..] == rest;
        }
        forall i, j | 0 <= i < j < |ds|
          ensures ds[i].id != ds[j].id
        {
          if i == 0 {
            assert ds[j] in rest && ds[j].id in IDs(rest);
          }
        }
      } else {
        assert next.Keys == nodes.Keys;
        assert Discovered(nodes, self, es) == rest;
      }
    }
  }
}
