/**
The carrier (internal/transport): registration and removal of peers, heartbeats, eviction
of silent peers, accepted and dialled connections, and the bootstrap retries.
 */
module Carrier {
  import opened Base
  import opened Keys
  import opened Access
  import opened NodeRegistry
  import opened Gossip
  import opened CarrierState

  // ----- The carrier object -----

  class CarrierImpl {
    const self: NodeID
    const registry: Registry
    var connections: map<NodeID, Conn>
    var scopes: map<NodeID, Scope>
    var closed: set<Conn>
    var offline: bool

    ghost function State(): Net
      reads this, registry
    {
      Net(connections, scopes, registry.nodes, closed)
    }

    constructor (self: NodeID)
      ensures this.self == self && State() == EMPTY_NET && !offline && fresh(registry)
    {
      this.self := self;
      registry := new Registry();
      connections, scopes, closed, offline := map[], map[], {}, false;
    }

    method RegisterPeer(peer: Authenticated, conn: Conn, addresses: seq<Address>, now: int) returns (ok: bool)
      modifies this, registry
      ensures offline == old(offline)
      ensures ok == Register(old(State()), peer, conn, addresses, now).Some?
      ensures State() == if ok then Register(old(State()), peer, conn, addresses, now).value else old(State())
    {
      var compacted := CompactAddresses(addresses);
      var node := Node(peer.id, compacted, peer.certs, ROLE_SERVER, Some(now), Connected);
      ok := registry.AddNode(node, peer.certs);
      if ok {
        connections := connections[peer.id := conn];
        scopes := scopes[peer.id := peer.scope];
      }
    }

    method LeaveCluster(id: NodeID, closes: bool) returns (ok: bool)
      modifies this
      ensures offline == old(offline) && State() == Leave(old(State()), id, closes)
      ensures ok == (id in old(connections) && closes)
    {
      if id !in connections || !closes {
        return false;
      }
      closed := closed + {connections[id]};
      connections := connections - {id};
      scopes := scopes - {id};
      return true;
    }

    method RemoveNode(id: NodeID) returns (ok: bool)
      modifies this, registry
      ensures offline == old(offline) && State() == Remove(old(State()), id)
      ensures ok == (id in old(registry.nodes))
    {
      if id in connections {
        closed := closed + {connections[id]};
        connections := connections - {id};
      }
      assert connections == old(connections) - {id};
      scopes := scopes - {id};
      ok := registry.RemoveNode(id);
    }

    method DropConnection(id: NodeID, conn: Conn)
      modifies this, registry
      ensures offline == old(offline) && State() == Drop(old(State()), id, conn)
    {
      if id !in connections || connections[id] != conn {
        return;
      }
      connections := connections - {id};
      scopes := scopes - {id};
      closed := closed + {conn};
      var _ := registry.SetStatus(id, Disconnected);
    }

    method MarkPeerSeen(id: NodeID, seenAt: int)
      modifies registry
      ensures State() == MarkSeen(old(State()), id, seenAt)
    {
      var _ := registry.UpdateLastSeen(id, seenAt);
      var _ := registry.SetStatus(id, Connected);
    }

    method MarkPeerFailed(id: NodeID, conn: Conn)
      modifies this, registry
      ensures offline == old(offline) && State() == MarkFailed(old(State()), id, conn)
    {
      DropConnection(id, conn);
      var _ := registry.SetStatus(id, Failed);
    }

    method HandleHeartbeatMessage(sender: NodeID, role: int, entries: seq<Entry>, now: int)
      returns (discovered: seq<Node>, ok: bool)
      requires Filed(registry.nodes)
      modifies registry
      ensures State() == HandleHeartbeat(old(State()), self, sender, role, entries, now)
      ensures ok == (sender in old(registry.nodes))
      ensures discovered == if !ok then []
                            else Discovered(WithRole(MarkSeen(old(State()), sender, now).nodes, sender, role), self,
                                            entries)
    {
      discovered := [];
      MarkPeerSeen(sender, now);
      ok := registry.SetRole(sender, role);
      if ok {
        discovered, ok := MergeHeartbeatNodes(registry, self, entries);
      }
    }

    /** The sweep over a listing of the registry, in whatever order the listing has. */
    method FailStalePeers(now: int, timeout: Int64)
      requires Filed(registry.nodes)
      modifies this, registry
      ensures offline == old(offline)
      ensures State() == Evict(old(State()), Stale(old(State()), now, timeout))
    {
      ghost var start := State();
      ghost var stale := Stale(start, now, timeout);
      var peers := registry.GetAllNodes();
      EvictNone(start, stale);
      for i := 0 to |peers|
        invariant offline == old(offline)
        invariant State() == EvictListed(start, stale, peers[..i])
      {
        var peer := peers[i];
        EvictNext(start, stale, peers, i);
        if peer.lastSeen.None? || Age(now, peer.lastSeen.value) <= timeout || peer.id !in connections {
          continue;
        }
        MarkPeerFailed(peer.id, connections[peer.id]);
      }
      EvictAll(start, stale, peers);
    }

    /** One round of heartbeats; a peer that cannot be reached over its current connection fails. */
    method SendHeartbeatBatch(delivered: set<NodeID>)
      requires Filed(registry.nodes)
      modifies this, registry
      ensures offline == old(offline)
      ensures State() == Evict(old(State()), Unanswered(old(State()), delivered))
    {
      ghost var start := State();
      ghost var lost := Unanswered(start, delivered);
      var peers := registry.GetAllNodes();
      EvictNone(start, lost);
      for i := 0 to |peers|
        invariant offline == old(offline)
        invariant State() == EvictListed(start, lost, peers[..i])
      {
        var peer := peers[i];
        EvictNext(start, lost, peers, i);
        if peer.id !in connections || peer.role == ROLE_CLIENT || peer.id in delivered {
          continue;
        }
        MarkPeerFailed(peer.id, connections[peer.id]);
      }
      EvictAll(start, lost, peers);
    }

    method HandleIncomingConn(conn: Conn, peer: Option<Authenticated>, remote: Address, now: int, replied: bool)
      modifies this, registry
      ensures offline == old(offline) && State() == Incoming(old(State()), conn, peer, remote, now, replied)
    {
      if peer.None? {
        closed := closed + {conn};
        return;
      }
      var ok := RegisterPeer(peer.value, conn, [remote], now);
      if !ok || !replied {
        closed := closed + {conn};
      }
    }

    /** Tries the known addresses in order, each once, up to the first that answers. */
    method DialKnownAddresses(addresses: seq<Address>, answers: map<Address, Conn>)
      returns (found: Option<Address>, tried: seq<Address>)
      ensures found == FirstAnswer(Compact(addresses), answers)
      ensures tried <= Compact(addresses)
      ensures found.None? ==> tried == Compact(addresses) && forall a :: a in tried ==> a !in answers
      ensures found.Some? ==> |tried| > 0 && tried[|tried| - 1] == found.value && found.value in answers
      ensures forall i :: 0 <= i < |tried| - 1 ==> tried[i] !in answers
    {
      var known := CompactAddresses(addresses);
      tried := [];
      assert known[0..] == known;
      for i := 0 to |known|
        invariant tried == known[..i] && forall a :: a in tried ==> a !in answers
        invariant FirstAnswer(known, answers) == FirstAnswer(known[i..], answers)
      {
        assert known[i..][0] == known[i] && known[i..][1..] == known[i + 1..];
        tried := tried + [known[i]];
        if known[i] in answers {
          return Some(known[i]), tried;
        }
      }
      return None, tried;
    }

    method EstablishPeer(conn: Conn, peer: Option<Authenticated>, address: Address, now: int) returns (ok: bool)
      modifies this, registry
      ensures offline == old(offline) && (State(), ok) == Establish(old(State()), conn, peer, address, now)
    {
      ok := false;
      if peer.Some? {
        ok := RegisterPeer(peer.value, conn, [address], now);
      }
      if !ok {
        closed := closed + {conn};
      }
    }

    method ConnectNode(addresses: seq<Address>, answers: map<Address, Conn>, peer: Option<Authenticated>, now: int)
      returns (ok: bool)
      modifies this, registry
      ensures offline == old(offline) && (State(), ok) == Connect(old(State()), addresses, answers, peer, now)
    {
      var found, _ := DialKnownAddresses(addresses, answers);
      if found.None? {
        return false;
      }
      ok := EstablishPeer(answers[found.value], peer, found.value, now);
    }

    method DialBootstrapAddr(address: Address, d: Dial) returns (ok: bool)
      modifies this, registry
      ensures offline == old(offline) && (State(), ok) == DialAddress(old(State()), address, d)
    {
      if d.answer.None? {
        return false;
      }
      if d.peer.Some? && d.peer.value.id in connections {
        closed := closed + {d.answer.value};
        return true;
      }
      ok := EstablishPeer(d.answer.value, d.peer, address, d.now);
    }

    /** One round over all bootstrap addresses. */
    method DialBootstrapAll(addresses: seq<Address>, round: seq<Dial>) returns (connected: nat, dialled: seq<Address>)
      requires |round| == |addresses|
      modifies this, registry
      ensures offline == old(offline) && dialled == addresses
      ensures (State(), connected) == DialFirst(old(State()), addresses, round, |addresses|)
    {
      connected, dialled := 0, [];
      ghost var start, here := State(), State();
      for i := 0 to |addresses|
        invariant offline == old(offline) && dialled == addresses[..i]
        invariant State() == here && (here, connected) == DialFirst(start, addresses, round, i)
      {
        var ok := DialBootstrapAddr(addresses[i], round[i]);
        dialled := dialled + [addresses[i]];
        here := DialAddress(here, addresses[i], round[i]).0;
        if ok {
          connected := connected + 1;
        }
      }
    }

    /**
    Rounds are repeated until one reaches a peer, the wait before a retry is cancelled, or
    the retries are used up; only the last puts the node offline.  The cancellations are the
    rounds whose preceding wait is cut short.
     */
    method AttemptBootstrap(addresses: seq<Address>, configured: int, rounds: seq<seq<Dial>>, cancelled: set<nat>)
      returns (joined: bool, reached: seq<nat>, dialled: seq<Address>)
      requires Answering(rounds, addresses) && |rounds| > if configured > 0 then configured else 4
      modifies this, registry
      ensures Attempted(if configured > 0 then configured else 4, cancelled, joined, reached)
      ensures (State(), reached) == DialRounds(old(State()), addresses, rounds, |reached|)
      ensures dialled == Repeat(addresses, |reached|)
      ensures offline ==
        (old(offline) || (!joined && |reached| == (if configured > 0 then configured else 4) + 1))
    {
      var limit := BootstrapRetries(configured) + 1;
      reached, dialled := [], [];
      ghost var start, here := State(), State();
      for attempt := 0 to limit
        invariant offline == old(offline) && |reached| == attempt
        invariant dialled == Repeat(addresses, attempt)
        invariant State() == here && (here, reached) == DialRounds(start, addresses, rounds, attempt)
        invariant forall k | 0 <= k < attempt :: reached[k] == 0
        invariant forall k | 0 < k < attempt :: k !in cancelled
      {
        if attempt > 0 && attempt in cancelled {
          return false, reached, dialled;
        }
        var connected, round := DialBootstrapAll(addresses, rounds[attempt]);
        here := DialFirst(here, addresses, rounds[attempt], |addresses|).0;
        reached, dialled := reached + [connected], dialled + round;
        if connected > 0 {
          return true, reached, dialled;
        }
      }
      offline := true;
      return false, reached, dialled;
    }

    /** Going back online, and bootstrapping again. */
    method Reconnect(addresses: seq<Address>, configured: int, rounds: seq<seq<Dial>>, cancelled: set<nat>)
      returns (ok: bool, reached: seq<nat>)
      requires Answering(rounds, addresses) && |rounds| > if configured > 0 then configured else 4
      modifies this, registry
      ensures |reached| <= |rounds| && (State(), reached) == DialRounds(old(State()), addresses, rounds, |reached|)
      ensures |reached| == 0 <==> addresses == []
      ensures addresses == [] ==> !ok
      ensures addresses != [] ==> Attempted(if configured > 0 then configured else 4, cancelled, ok, reached)
      ensures offline <==> !ok && |reached| == (if configured > 0 then configured else 4) + 1
    {
      offline := false;
      if addresses == [] {
        return false, [];
      }
      var dialled;
      ok, reached, dialled := AttemptBootstrap(addresses, configured, rounds, cancelled);
    }
  }

  // ----- Lemmas about eviction -----

  ghost function Listed(peers: seq<Node>): set<NodeID> {
    set n | n in peers :: n.id
  }

  lemma ListedNext(peers: seq<Node>, i: nat)
    requires i < |peers|
    requires forall a, b :: 0 <= a < b < |peers| ==> peers[a].id != peers[b].id
    ensures Listed(peers[..i + 1]) == Listed(peers[..i]) + {peers[i].id} && peers[i].id !in Listed(peers[..i])
  {
    assert peers[..i + 1] == peers[..i] + [peers[i]];
  }

  lemma ListedAll(peers: seq<Node>, nodes: Nodes)
    requires Lists(peers, nodes)
    ensures Listed(peers) == nodes.Keys
  {
    forall id | id in nodes
      ensures id in Listed(peers)
    {
      var i :| 0 <= i < |peers| && peers[i].id == id;
      assert peers[i] in peers;
    }
  }

  /** A sweep that has got as far as some prefix of its listing. */
  ghost function EvictListed(n: Net, ids: set<NodeID>, listed: seq<Node>): Net {
    Evict(n, ids * Listed(listed))
  }

  lemma EvictNone(n: Net, ids: set<NodeID>)
    ensures EvictListed(n, ids, []) == n
  {
    assert ids * Listed([]) == {};
    assert Evict(n, {}).nodes == n.nodes;
  }

  lemma EvictAll(n: Net, ids: set<NodeID>, peers: seq<Node>)
    requires Lists(peers, n.nodes) && ids <= n.nodes.Keys
    ensures EvictListed(n, ids, peers[..|peers|]) == Evict(n, ids)
  {
    ListedAll(peers, n.nodes);
    assert peers[..|peers|] == peers;
    assert ids * Listed(peers) == ids;
  }

  /** Failing one more current connection evicts one more peer. */
  lemma EvictOne(n: Net, ids: set<NodeID>, id: NodeID)
    requires id in n.connections && id !in ids
    ensures MarkFailed(Evict(n, ids), id, n.connections[id]) == Evict(n, ids + {id})
  {
    var l, r := MarkFailed(Evict(n, ids), id, n.connections[id]), Evict(n, ids + {id});
    assert l.connections == r.connections;
    assert l.scopes == r.scopes;
    assert l.nodes == r.nodes;
    assert l.closed == r.closed;
  }

  /** One step of a sweep. */
  lemma EvictNext(n: Net, ids: set<NodeID>, peers: seq<Node>, i: nat)
    requires i < |peers| && Lists(peers, n.nodes) && ids <= n.connections.Keys
    ensures var (here, next, id) := (EvictListed(n, ids, peers[..i]), EvictListed(n, ids, peers[..i + 1]), peers[i].id);
            && (id in here.connections <==> id in n.connections)
            && (id in n.connections ==> here.connections[id] == n.connections[id])
            && (id in ids ==> next == MarkFailed(here, id, n.connections[id]))
            && (id !in ids ==> next == here)
            && n.nodes[id] == peers[i]
  {
    var id := peers[i].id;
    ListedNext(peers, i);
    var done := ids * Listed(peers[..i]);
    if id in ids {
      assert ids * Listed(peers[..i + 1]) == done + {id};
      EvictOne(n, done, id);
    } else {
      assert ids * Listed(peers[..i + 1]) == done;
    }
  }
}
