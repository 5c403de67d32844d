/**
The node registry of the carrier (internal/transport/node_registry.go) and the address
compaction it relies on (internal/transport/carrier.go).
 */
module NodeRegistry {
  import opened Base
  import opened Keys
  import opened Canonical

  type Address = string

  datatype Status = Disconnected | Connecting | Connected | Failed

  /** Roles arrive as integers; only these two have a meaning. */
  const ROLE_SERVER := 0
  const ROLE_CLIENT := 1

  /** A known peer.  No time of last contact stands for the zero time. */
  datatype Node = Node(
    id: NodeID,
    addresses: seq<Address>,
    certs: seq<NodeCert>,
    role: int,
    lastSeen: Option<int>,
    status: Status)

  type Nodes = map<NodeID, Node>

  // ----- Addresses -----

  /** Drops empty addresses and those already seen. */
  function CompactFrom(seen: set<Address>, addresses: seq<Address>): seq<Address>
    decreases |addresses|
  {
    if addresses == [] then []
    else if addresses[0] == "" || addresses[0] in seen then CompactFrom(seen, addresses[1..])
    else [addresses[0]] + CompactFrom(seen + {addresses[0]}, addresses[1..])
  }

  function Compact(addresses: seq<Address>): seq<Address> {
    CompactFrom({}, addresses)
  }

  method CompactAddresses(addresses: seq<Address>) returns (out: seq<Address>)
    ensures out == Compact(addresses)
  {
    out := [];
    var seen: set<Address> := {};
    ghost var rest := Compact(addresses);
    assert addresses[0..] == addresses;
    for i := 0 to |addresses|
      invariant rest == CompactFrom(seen, addresses[i..])
      invariant out + rest == Compact(addresses)
    {
      assert addresses[i..][0] == addresses[i] && addresses[i..][1..] == addresses[i + 1..];
      if addresses[i] == "" || addresses[i] in seen {
        continue;
      }
      seen := seen + {addresses[i]};
      rest := CompactFrom(seen, addresses[i + 1..]);
      Reassociate(out, addresses[i], rest);
      out := out + [addresses[i]];
    }
    assert out == out + rest;
  }

  /** The addresses that count: all but the empty one. */
  function Reachable(addresses: seq<Address>): set<Address> {
    set a | a in addresses && a != ""
  }

  lemma {:induction false} CompactFromMembers(seen: set<Address>, addresses: seq<Address>, a: Address)
    ensures a in CompactFrom(seen, addresses) <==> a in addresses && a != "" && a !in seen
    decreases |addresses|
  {
    if addresses != [] {
      assert a in addresses <==> a == addresses[0] || a in addresses[1..];
      if addresses[0] == "" || addresses[0] in seen {
        CompactFromMembers(seen, addresses[1..], a);
      } else {
        CompactFromMembers(seen + {addresses[0]}, addresses[1..], a);
      }
    }
  }

  ghost predicate Distinct<T>(s: seq<T>) {
    forall i, j :: 0 <= i < j < |s| ==> s[i] != s[j]
  }

  lemma {:induction false} CompactFromDistinct(seen: set<Address>, addresses: seq<Address>)
    ensures Distinct(CompactFrom(seen, addresses))
    decreases |addresses|
  {
    if addresses != [] {
      if addresses[0] == "" || addresses[0] in seen {
        CompactFromDistinct(seen, addresses[1..]);
      } else {
        CompactFromDistinct(seen + {addresses[0]}, addresses[1..]);
        CompactFromMembers(seen + {addresses[0]}, addresses[1..], addresses[0]);
      }
    }
  }

  /** Compaction keeps exactly the non-empty addresses, each once. */
  lemma CompactKeepsReachable(addresses: seq<Address>)
    ensures Reachable(Compact(addresses)) == Reachable(addresses) && Distinct(Compact(addresses))
      && "" !in Compact(addresses)
  {
    CompactFromDistinct({}, addresses);
    CompactFromMembers({}, addresses, "");
    forall a
      ensures a in Compact(addresses) <==> a in addresses && a != ""
    {
      CompactFromMembers({}, addresses, a);
    }
  }

  // ----- Updates of the node map -----

  /** The role that a report leaves for a node of a given role: a client is not turned into a server. */
  function MergedRole(existing: int, incoming: int): int {
    if incoming == ROLE_SERVER && existing == ROLE_CLIENT then existing else incoming
  }

  /** The rule by which a new report about a known node is merged. */
  function MergeNode(existing: Node, incoming: Node): Node {
    incoming.(
      addresses := if incoming.addresses == [] then existing.addresses
        else Compact(existing.addresses + incoming.addresses),
      certs := if incoming.certs == [] then existing.certs else incoming.certs,
      lastSeen := if incoming.lastSeen.None? then existing.lastSeen else incoming.lastSeen,
      role := MergedRole(existing.role, incoming.role),
      status := if incoming.status == Disconnected then existing.status else incoming.status)
  }

  function WithNode(nodes: Nodes, node: Node): Option<Nodes> {
    if node.id == ZERO_NODE_ID then None
    else Some(nodes[node.id := if node.id in nodes then MergeNode(nodes[node.id], node) else node])
  }

  function WithStatus(nodes: Nodes, id: NodeID, status: Status): Nodes {
    if id in nodes then nodes[id := nodes[id].(status := status)] else nodes
  }

  function WithLastSeen(nodes: Nodes, id: NodeID, seenAt: int): Nodes {
    if id in nodes then nodes[id := nodes[id].(lastSeen := Some(seenAt))] else nodes
  }

  function WithRole(nodes: Nodes, id: NodeID, role: int): Nodes {
    if id in nodes then nodes[id := nodes[id].(role := role)] else nodes
  }

  /** Nodes are filed under their own identifier, which is never zero. */
  ghost predicate Filed(nodes: Nodes) {
    forall id :: id in nodes ==> nodes[id].id == id && id != ZERO_NODE_ID
  }

  /** The known nodes that are not connected. */
  ghost function Unreachable(nodes: Nodes): set<Node> {
    set id | id in nodes && nodes[id].status != Connected :: nodes[id]
  }

  /** A listing of some nodes of the registry: each once, in some order. */
  ghost predicate ListsKeys(out: seq<Node>, nodes: Nodes, keys: set<NodeID>) {
    && (forall i :: 0 <= i < |out| ==> out[i].id in keys && out[i].id in nodes && nodes[out[i].id] == out[i])
    && (forall i, j :: 0 <= i < j < |out| ==> out[i].id != out[j].id)
    && (forall id :: id in keys ==> exists i :: 0 <= i < |out| && out[i].id == id)
  }

  ghost predicate Lists(out: seq<Node>, nodes: Nodes) {
    ListsKeys(out, nodes, nodes.Keys)
  }

  lemma ListsNext(out: seq<Node>, nodes: Nodes, keys: set<NodeID>, id: NodeID)
    requires ListsKeys(out, nodes, keys) && id in nodes && id !in keys && nodes[id].id == id
    ensures ListsKeys(out + [nodes[id]], nodes, keys + {id})
  {
    var longer := out + [nodes[id]];
    forall x | x in keys + {id}
      ensures exists i :: 0 <= i < |longer| && longer[i].id == x
    {
      if x == id {
        assert longer[|out|].id == x;
      } else {
        var i :| 0 <= i < |out| && out[i].id == x;
        assert longer[i].id == x;
      }
    }
  }

  class Registry {
    var nodes: Nodes

    constructor ()
      ensures nodes == map[]
    {
      nodes := map[];
    }

    /** Returns whether the node was accepted; the zero identifier is refused. */
    method AddNode(node: Node, certs: seq<NodeCert>) returns (ok: bool)
      modifies this
      ensures var n := if certs == [] then node else node.(certs := certs);
              ok == WithNode(old(nodes), n).Some? && nodes == if ok then WithNode(old(nodes), n).value else old(nodes)
    {
      if node.id == ZERO_NODE_ID {
        return false;
      }
      var n := if certs == [] then node else node.(certs := certs);
      if node.id in nodes {
        n := MergeNode(nodes[node.id], n);
      }
      nodes := nodes[node.id := n];
      return true;
    }

    method RemoveNode(id: NodeID) returns (ok: bool)
      modifies this
      ensures ok == (id in old(nodes)) && nodes == old(nodes) - {id}
    {
      if id !in nodes {
        assert nodes - {id} == nodes;
        return false;
      }
      nodes := nodes - {id};
      return true;
    }

    method SetStatus(id: NodeID, status: Status) returns (ok: bool)
      modifies this
      ensures ok == (id in old(nodes)) && nodes == WithStatus(old(nodes), id, status)
    {
      if id !in nodes {
        return false;
      }
      nodes := nodes[id := nodes[id].(status := status)];
      return true;
    }

    method UpdateLastSeen(id: NodeID, seenAt: int) returns (ok: bool)
      modifies this
      ensures ok == (id in old(nodes)) && nodes == WithLastSeen(old(nodes), id, seenAt)
    {
      if id !in nodes {
        return false;
      }
      nodes := nodes[id := nodes[id].(lastSeen := Some(seenAt))];
      return true;
    }

    method SetRole(id: NodeID, role: int) returns (ok: bool)
      modifies this
      ensures ok == (id in old(nodes)) && nodes == WithRole(old(nodes), id, role)
    {
      if id !in nodes {
        return false;
      }
      nodes := nodes[id := nodes[id].(role := role)];
      return true;
    }

    /** All nodes, in the unspecified order of map iteration. */
    method GetAllNodes() returns (out: seq<Node>)
      requires Filed(nodes)
      ensures Lists(out, nodes)
    {
      out := [];
      var rest := nodes.Keys;
      while rest != {}
        invariant rest <= nodes.Keys
        invariant ListsKeys(out, nodes, nodes.Keys - rest)
        decreases |rest|
      {
        var id :| id in rest;
        ListsNext(out, nodes, nodes.Keys - rest, id);
        assert nodes.Keys - rest + {id} == nodes.Keys - (rest - {id});
        out := out + [nodes[id]];
        rest := rest - {id};
      }
      assert nodes.Keys - rest == nodes.Keys;
    }

    /** The nodes that are not connected, each once. */
    method GetUnreachableNodes() returns (out: seq<Node>)
      requires Filed(nodes)
      ensures forall n :: n in out <==> n in Unreachable(nodes)
      ensures forall i, j :: 0 <= i < j < |out| ==> out[i].id != out[j].id
    {
      var all := GetAllNodes();
      out := [];
      for i := 0 to |all|
        invariant forall n :: n in out <==> n in all[..i] && n.status != Connected
        invariant forall a, b :: 0 <= a < b < |out| ==> out[a].id != out[b].id
      {
        assert all[..i + 1] == all[..i] + [all[i]];
        if all[i].status != Connected {
          forall a | 0 <= a < |out|
            ensures out[a].id != all[i].id
          {
            assert out[a] in all[..i];
          }
          out := out + [all[i]];
        }
      }
      assert all[..|all|] == all;
      ListedUnreachable(all, nodes);
    }
  }

  lemma ListedUnreachable(all: seq<Node>, nodes: Nodes)
    requires Lists(all, nodes) && Filed(nodes)
    ensures forall n :: n in Unreachable(nodes) <==> n in all && n.status != Connected
  {
    forall n | n in Unreachable(nodes)
      ensures n in all
    {
      var i :| 0 <= i < |all| && all[i].id == n.id;
      assert all[i] == n;
    }
    forall n | n in all && n.status != Connected
      ensures n in Unreachable(nodes)
    {
      assert n.id in nodes && nodes[n.id] == n;
    }
  }
}
