/**
The carrier's operations at lock granularity (internal/transport): what each critical
section does, what every interleaving of them keeps, and which interleavings break the
invariant that holds when operations are atomic.
 */
module CarrierLocks {
  import opened Base
  import opened Keys
  import opened Access
  import opened NodeRegistry
  import opened CarrierState
  import opened CarrierTheorems

  /** One critical section, under the carrier's lock or the registry's. */
  datatype Action =
    | AddNode(node: Node)
    | Install(id: NodeID, conn: Conn, scope: Scope)
    | Release(id: NodeID, closes: bool)
    | Forget(id: NodeID)
    | Detach(id: NodeID, conn: Conn)
    | Touch(id: NodeID, seenAt: int)
    | Mark(id: NodeID, status: Status)
    | Recast(id: NodeID, role: int)

  function Added(nodes: Nodes, node: Node): Nodes {
    match WithNode(nodes, node)
    case None => nodes
    case Some(m) => m
  }

  function Act(n: Net, a: Action): Net {
    match a
    case AddNode(node) => n.(nodes := Added(n.nodes, node))
    case Install(id, conn, scope) => n.(connections := n.connections[id := conn], scopes := n.scopes[id := scope])
    case Release(id, closes) => Leave(n, id, closes)
    case Forget(id) => Remove(n, id)
    case Detach(id, conn) => Drop(n, id, conn)
    case Touch(id, seenAt) => n.(nodes := WithLastSeen(n.nodes, id, seenAt))
    case Mark(id, status) => n.(nodes := WithStatus(n.nodes, id, status))
    case Recast(id, role) => n.(nodes := WithRole(n.nodes, id, role))
  }

  function Acts(n: Net, run: seq<Action>): Net {
    if run == [] then n else Act(Acts(n, run[..|run| - 1]), run[|run| - 1])
  }

  // ----- The operations as sequences of critical sections -----

  function Registering(peer: Authenticated, conn: Conn, addresses: seq<Address>, now: int): seq<Action> {
    [AddNode(PeerNode(peer, addresses, now))]
    + if peer.id == ZERO_NODE_ID then [] else [Install(peer.id, conn, peer.scope)]
  }

  function Seeing(id: NodeID, seenAt: int): seq<Action> {
    [Touch(id, seenAt), Mark(id, Connected)]
  }

  function Failing(id: NodeID, conn: Conn): seq<Action> {
    [Detach(id, conn), Mark(id, Failed)]
  }

  lemma ActsPair(n: Net, a: Action, b: Action)
    ensures Acts(n, [a]) == Act(n, a) && Acts(n, [a, b]) == Act(Act(n, a), b)
  {
    assert [a][..0] == [] && [a, b][..1] == [a];
  }

  /** Uninterrupted, the critical sections of an operation amount to the operation. */
  lemma UninterruptedOperations(n: Net, peer: Authenticated, conn: Conn, addresses: seq<Address>, now: int)
    ensures Acts(n, Registering(peer, conn, addresses, now)) ==
      match Register(n, peer, conn, addresses, now) case None => n case Some(m) => m
    ensures Acts(n, Seeing(peer.id, now)) == MarkSeen(n, peer.id, now)
    ensures Acts(n, Failing(peer.id, conn)) == MarkFailed(n, peer.id, conn)
  {
    var add := AddNode(PeerNode(peer, addresses, now));
    ActsPair(n, add, Install(peer.id, conn, peer.scope));
    assert Registering(peer, conn, addresses, now) ==
      if peer.id == ZERO_NODE_ID then [add] else [add, Install(peer.id, conn, peer.scope)];
    ActsPair(n, Touch(peer.id, now), Mark(peer.id, Connected));
    ActsPair(n, Detach(peer.id, conn), Mark(peer.id, Failed));
  }

  /** A heartbeat without entries is its three critical sections. */
  lemma UninterruptedHeartbeat(n: Net, self: NodeID, sender: NodeID, role: int, now: int)
    ensures Act(Acts(n, Seeing(sender, now)), Recast(sender, role)) == HandleHeartbeat(n, self, sender, role, [], now)
  {
    ActsPair(n, Touch(sender, now), Mark(sender, Connected));
  }

  // ----- What every interleaving keeps -----

  ghost predicate Aligned(n: Net) {
    n.connections.Keys == n.scopes.Keys && Filed(n.nodes)
  }

  lemma RegistryAligned(n: Net, a: Action)
    requires Aligned(n) && (a.AddNode? || a.Touch? || a.Mark? || a.Recast?)
    ensures Aligned(Act(n, a))
  {
  }

  lemma MapsAligned(n: Net, a: Action)
    requires Aligned(n) && (a.Install? || a.Release? || a.Forget? || a.Detach?)
    ensures Aligned(Act(n, a))
  {
  }

  /**
  However critical sections interleave, every connection has a scope, every scope a
  connection, and the registry stays well filed.
   */
  lemma {:induction false} InterleavingsKeepAligned(n: Net, run: seq<Action>)
    requires Aligned(n)
    ensures Aligned(Acts(n, run))
  {
    if run != [] {
      var m, a := Acts(n, run[..|run| - 1]), run[|run| - 1];
      InterleavingsKeepAligned(n, run[..|run| - 1]);
      if a.AddNode? || a.Touch? || a.Mark? || a.Recast? {
        RegistryAligned(m, a);
      } else {
        MapsAligned(m, a);
      }
    }
  }

  /** When a critical section may run without breaking the invariant. */
  ghost predicate Safe(n: Net, a: Action) {
    match a
    case AddNode(node) =>
      node.id == ZERO_NODE_ID || node.id !in n.connections || node.status == Connected || node.status == Disconnected
    case Install(id, _, _) => Live(n.nodes, id)
    case Mark(id, status) => id !in n.connections || status == Connected
    case _ => true
  }

  lemma AddKeepsIff(n: Net, node: Node)
    requires Invariant(n)
    ensures Invariant(Act(n, AddNode(node))) <==> Safe(n, AddNode(node))
  {
    var m := Act(n, AddNode(node));
    if !Safe(n, AddNode(node)) {
      assert !Live(m.nodes, node.id);
    }
  }

  lemma InstallKeepsIff(n: Net, id: NodeID, conn: Conn, scope: Scope)
    requires Invariant(n)
    ensures Invariant(Act(n, Install(id, conn, scope))) <==> Live(n.nodes, id)
  {
    assert id in Act(n, Install(id, conn, scope)).connections;
  }

  lemma MarkKeepsIff(n: Net, id: NodeID, status: Status)
    requires Invariant(n)
    ensures Invariant(Act(n, Mark(id, status))) <==> Safe(n, Mark(id, status))
  {
    if !Safe(n, Mark(id, status)) {
      assert !Live(Act(n, Mark(id, status)).nodes, id);
    }
  }

  lemma TouchKeeps(n: Net, id: NodeID, seenAt: int, role: int)
    requires Invariant(n)
    ensures Invariant(Act(n, Touch(id, seenAt))) && Invariant(Act(n, Recast(id, role)))
  {
  }

  /** A critical section keeps the invariant exactly when it is safe. */
  lemma ActKeepsIff(n: Net, a: Action)
    requires Invariant(n)
    ensures Invariant(Act(n, a)) <==> Safe(n, a)
  {
    match a
    case AddNode(node) => AddKeepsIff(n, node);
    case Install(id, conn, scope) => InstallKeepsIff(n, id, conn, scope);
    case Release(id, closes) => LeaveKeeps(n, id, closes);
    case Forget(id) => LeaveKeeps(n, id, true);
    case Detach(id, conn) => DropKeeps(n, id, conn);
    case Touch(id, seenAt) => TouchKeeps(n, id, seenAt, 0);
    case Mark(id, status) => MarkKeepsIff(n, id, status);
    case Recast(id, role) => TouchKeeps(n, id, 0, role);
  }

  // ----- Which interleavings keep the invariant -----

  lemma ActsPrefix(n: Net, run: seq<Action>, k: nat)
    requires k < |run|
    ensures Acts(n, run[..k + 1]) == Act(Acts(n, run[..k]), run[k])
  {
    assert run[..k + 1][..k] == run[..k];
  }

  /** Every critical section of the interleaving is safe when it runs. */
  ghost predicate AllSafe(n: Net, run: seq<Action>) {
    forall k | 0 <= k < |run| :: Safe(Acts(n, run[..k]), run[k])
  }

  lemma {:induction false} SafeKeeps(n: Net, run: seq<Action>, k: nat)
    requires Invariant(n) && AllSafe(n, run) && k <= |run|
    ensures Invariant(Acts(n, run[..k]))
  {
    if k > 0 {
      SafeKeeps(n, run, k - 1);
      ActsPrefix(n, run, k - 1);
      assert Safe(Acts(n, run[..k - 1]), run[k - 1]);
      ActKeepsIff(Acts(n, run[..k - 1]), run[k - 1]);
    }
  }

  /**
  The invariant holds throughout an interleaving, of any length and of any operations, exactly
  when every section is safe when it runs.
   */
  lemma InterleavingKeepsIff(n: Net, run: seq<Action>)
    requires Invariant(n)
    ensures (forall k | 0 <= k <= |run| :: Invariant(Acts(n, run[..k]))) <==> AllSafe(n, run)
  {
    if AllSafe(n, run) {
      forall k | 0 <= k <= |run|
        ensures Invariant(Acts(n, run[..k]))
      {
        SafeKeeps(n, run, k);
      }
    } else {
      var k :| 0 <= k < |run| && !Safe(Acts(n, run[..k]), run[k]);
      if Invariant(Acts(n, run[..k])) {
        ActKeepsIff(Acts(n, run[..k]), run[k]);
        ActsPrefix(n, run, k);
        assert !Invariant(Acts(n, run[..k + 1]));
      }
    }
  }

  lemma {:induction false} ActsAppend(n: Net, run: seq<Action>, more: seq<Action>)
    ensures Acts(n, run + more) == Acts(Acts(n, run), more)
  {
    if more == [] {
      assert run + more == run;
    } else {
      ActsAppend(n, run, more[..|more| - 1]);
      assert (run + more)[..|run + more| - 1] == run + more[..|more| - 1];
    }
  }

  /**
  Any number of critical sections between the two halves of a registration: if they are
  safe, the invariant holds afterwards exactly when the peer is live as the second half runs.
   */
  lemma InterleavedRegistrationIff(n: Net, peer: Authenticated, conn: Conn, addresses: seq<Address>, now: int,
                                   between: seq<Action>)
    requires Invariant(n) && peer.id != ZERO_NODE_ID
    requires AllSafe(Act(n, AddNode(PeerNode(peer, addresses, now))), between)
    ensures var last := Acts(Act(n, AddNode(PeerNode(peer, addresses, now))), between);
            && Invariant(last)
            && (Invariant(Act(last, Install(peer.id, conn, peer.scope))) <==> Live(last.nodes, peer.id))
  {
    var mid := Act(n, AddNode(PeerNode(peer, addresses, now)));
    AddKeepsIff(n, PeerNode(peer, addresses, now));
    SafeKeeps(mid, between, |between|);
    assert between[..|between|] == between;
    ActKeepsIff(Acts(mid, between), Install(peer.id, conn, peer.scope));
  }

  /**
  A peer that reconnects while its old connection is being failed: the report named the
  connection in use, yet its second half marks the reconnected peer as failed.
   */
  lemma ReconnectedWhileFailing(n: Net, peer: Authenticated, conn: Conn, addresses: seq<Address>, now: int)
    requires Invariant(n) && peer.id in n.connections
    ensures var run := [Detach(peer.id, n.connections[peer.id])] + Registering(peer, conn, addresses, now);
            && Invariant(Acts(n, run))
            && peer.id in Acts(n, run).connections
            && !Safe(Acts(n, run), Mark(peer.id, Failed))
            && !Invariant(Act(Acts(n, run), Mark(peer.id, Failed)))
  {
    var drop := Detach(peer.id, n.connections[peer.id]);
    var m := Act(n, drop);
    var registering := Registering(peer, conn, addresses, now);
    ActsPair(n, drop, drop);
    ActsAppend(n, [drop], registering);
    UninterruptedOperations(m, peer, conn, addresses, now);
    DropKeeps(n, peer.id, n.connections[peer.id]);
    RegisterKeeps(m, peer, conn, addresses, now);
    ActKeepsIff(Acts(n, [drop] + registering), Mark(peer.id, Failed));
  }

  // ----- Registration interrupted by one critical section -----

  /** Whether an action leaves a peer live that is live. */
  ghost predicate Spares(n: Net, id: NodeID, a: Action) {
    match a
    case AddNode(node) => node.id != id || node.status == Connected || node.status == Disconnected
    case Forget(x) => x != id
    case Detach(x, conn) => x != id || x !in n.connections || n.connections[x] != conn
    case Mark(x, status) => x != id || status == Connected
    case _ => true
  }

  lemma SparesIff(n: Net, id: NodeID, a: Action)
    requires Live(n.nodes, id) && id != ZERO_NODE_ID
    ensures Live(Act(n, a).nodes, id) <==> Spares(n, id, a)
  {
  }

  /**
  Another critical section between the two halves of a registration: the invariant holds
  afterwards exactly when that section is safe and does not take down the peer being registered.
   */
  lemma InterruptedRegistrationIff(n: Net, peer: Authenticated, conn: Conn, addresses: seq<Address>, now: int,
                                   a: Action)
    requires Invariant(n) && peer.id != ZERO_NODE_ID
    ensures var mid := Act(n, AddNode(PeerNode(peer, addresses, now)));
            Invariant(Act(Act(mid, a), Install(peer.id, conn, peer.scope))) <==> Safe(mid, a) && Spares(mid, peer.id, a)
  {
    var mid := Act(n, AddNode(PeerNode(peer, addresses, now)));
    var last := Act(mid, a);
    var end := Act(last, Install(peer.id, conn, peer.scope));
    AddKeepsIff(n, PeerNode(peer, addresses, now));
    ActKeepsIff(mid, a);
    SparesIff(mid, peer.id, a);
    assert peer.id in end.connections;
    if Safe(mid, a) {
      ActKeepsIff(last, Install(peer.id, conn, peer.scope));
    } else {
      var id := if a.AddNode? then a.node.id else a.id;
      assert id in last.connections && !Live(last.nodes, id);
      assert id in end.connections && !Live(end.nodes, id);
    }
  }

  /** A peer that is removed while it registers ends up connected and unknown. */
  lemma RemovedWhileRegistering(peer: Authenticated, conn: Conn, addresses: seq<Address>, now: int)
    requires peer.id != ZERO_NODE_ID
    ensures var n := Acts(EMPTY_NET,
                          [AddNode(PeerNode(peer, addresses, now)), Forget(peer.id),
                           Install(peer.id, conn, peer.scope)]);
            peer.id in n.connections && peer.id !in n.nodes
  {
    var add, forget, install := AddNode(PeerNode(peer, addresses, now)), Forget(peer.id),
      Install(peer.id, conn, peer.scope);
    ActsPair(EMPTY_NET, add, forget);
    assert [add, forget, install][..2] == [add, forget];
  }
}
