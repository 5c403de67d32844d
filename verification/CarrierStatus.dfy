/**
The status of peers that have no connection (internal/transport): when a peer that the
registry marks as connected really has a connection, so that the reconnect loop, which
looks only at the peers not so marked, overlooks nobody.
 */
module CarrierStatus {
  import opened Base
  import opened Keys
  import opened NodeRegistry
  import opened Gossip
  import opened CarrierState
  import opened CarrierTheorems

  /** A peer marked as connected has a connection. */
  ghost predicate Marked(n: Net) {
    forall id :: id in n.nodes && n.nodes[id].status == Connected ==> id in n.connections
  }

  /**
  The event leaves no mark behind: it does not take the connection of a marked peer without
  telling the registry, and does not mark a known peer that has no connection.
   */
  ghost predicate Honest(n: Net, e: Event) {
    match e
    case Leaves(id, closes) => !(closes && id in n.connections && id in n.nodes && n.nodes[id].status == Connected)
    case Sees(id, _) => id in n.nodes ==> id in n.connections
    case Hears(sender, _, _, _) => sender in n.nodes ==> sender in n.connections
    case _ => true
  }

  /** The reconnect loop sees every known peer that has no connection exactly when the marks are right. */
  lemma NobodyOverlookedIff(n: Net)
    requires Filed(n.nodes)
    ensures Marked(n) <==> forall id :: id in n.nodes && id !in n.connections ==> n.nodes[id] in Unreachable(n.nodes)
  {
    if Marked(n) {
      forall id | id in n.nodes && id !in n.connections
        ensures n.nodes[id] in Unreachable(n.nodes)
      {
        assert n.nodes[id].status != Connected;
      }
    }
  }

  lemma ArrivalMarks(n: Net, self: NodeID, e: Event)
    requires Marked(n) && Arrival(e)
    ensures Marked(Step(n, self, e))
  {
    ArrivalShape(n, self, e);
  }

  lemma LeaveMarksIff(n: Net, id: NodeID, closes: bool)
    requires Marked(n)
    ensures Marked(Leave(n, id, closes)) <==>
      !(closes && id in n.connections && id in n.nodes && n.nodes[id].status == Connected)
  {
  }

  lemma DepartureMarks(n: Net, id: NodeID, conn: Conn)
    requires Marked(n)
    ensures Marked(Remove(n, id)) && Marked(Drop(n, id, conn)) && Marked(MarkFailed(n, id, conn))
  {
  }

  lemma EvictMarks(n: Net, ids: set<NodeID>)
    requires Marked(n)
    ensures Marked(Evict(n, ids))
  {
  }

  lemma SeenMarksIff(n: Net, id: NodeID, seenAt: int)
    requires Marked(n)
    ensures Marked(MarkSeen(n, id, seenAt)) <==> (id in n.nodes ==> id in n.connections)
  {
    if id in n.nodes {
      assert MarkSeen(n, id, seenAt).nodes[id].status == Connected;
    }
  }

  /** What gossip makes known is not marked as connected. */
  lemma {:induction false} MergedStatus(nodes: Nodes, self: NodeID, es: seq<Entry>, id: NodeID)
    requires id in MergeAll(nodes, self, es)
    ensures MergeAll(nodes, self, es)[id].status == if id in nodes then nodes[id].status else Disconnected
    decreases |es|
  {
    if id in nodes {
      MergeAllKeeps(nodes, self, es, id);
    } else if es != [] {
      MergedStatus(MergeEntry(nodes, self, es[0]), self, es[1..], id);
    }
  }

  lemma HeartbeatMarksIff(n: Net, self: NodeID, sender: NodeID, role: int, es: seq<Entry>, now: int)
    requires Marked(n)
    ensures Marked(HandleHeartbeat(n, self, sender, role, es, now)) <==> (sender in n.nodes ==> sender in n.connections)
  {
    SeenMarksIff(n, sender, now);
    var m := MarkSeen(n, sender, now);
    if sender in m.nodes {
      var nodes := WithRole(m.nodes, sender, role);
      var merged := MergeAll(nodes, self, es);
      forall id | id in merged
        ensures merged[id].status == if id in m.nodes then m.nodes[id].status else Disconnected
      {
        MergedStatus(nodes, self, es, id);
      }
      MergeAllKeeps(nodes, self, es, sender);
    }
  }

  /** Given right marks, an event keeps them right exactly when it is honest. */
  lemma StepMarksIff(n: Net, self: NodeID, e: Event)
    requires Marked(n)
    ensures Marked(Step(n, self, e)) <==> Honest(n, e)
  {
    if Arrival(e) {
      ArrivalMarks(n, self, e);
    } else {
      match e
      case Leaves(id, closes) => LeaveMarksIff(n, id, closes);
      case Removes(id) => DepartureMarks(n, id, 0);
      case Drops(id, conn) => DepartureMarks(n, id, conn);
      case Fails(id, conn) => DepartureMarks(n, id, conn);
      case Sees(id, seenAt) => SeenMarksIff(n, id, seenAt);
      case Hears(sender, role, entries, now) => HeartbeatMarksIff(n, self, sender, role, entries, now);
      case Sweeps(now, timeout) => EvictMarks(n, Stale(n, now, timeout));
      case Beats(delivered) => EvictMarks(n, Unanswered(n, delivered));
    }
  }

  ghost predicate AllHonest(self: NodeID, es: seq<Event>) {
    forall k | 0 <= k < |es| :: Honest(Run(EMPTY_NET, self, es[..k]), es[k])
  }

  lemma {:induction false} HonestRunMarks(self: NodeID, es: seq<Event>, k: nat)
    requires AllHonest(self, es) && k <= |es|
    ensures Marked(Run(EMPTY_NET, self, es[..k]))
  {
    if k > 0 {
      HonestRunMarks(self, es, k - 1);
      RunPrefix(EMPTY_NET, self, es, k - 1);
      assert Honest(Run(EMPTY_NET, self, es[..k - 1]), es[k - 1]);
      StepMarksIff(Run(EMPTY_NET, self, es[..k - 1]), self, es[k - 1]);
    }
  }

  /** The marks are right throughout a run exactly when every event of it is honest. */
  lemma RunMarksIff(self: NodeID, es: seq<Event>)
    ensures (forall k | 0 <= k <= |es| :: Marked(Run(EMPTY_NET, self, es[..k]))) <==> AllHonest(self, es)
  {
    if AllHonest(self, es) {
      forall k | 0 <= k <= |es|
        ensures Marked(Run(EMPTY_NET, self, es[..k]))
      {
        HonestRunMarks(self, es, k);
      }
    } else {
      var k :| 0 <= k < |es| && !Honest(Run(EMPTY_NET, self, es[..k]), es[k]);
      if Marked(Run(EMPTY_NET, self, es[..k])) {
        StepMarksIff(Run(EMPTY_NET, self, es[..k]), self, es[k]);
        RunPrefix(EMPTY_NET, self, es, k);
        assert !Marked(Run(EMPTY_NET, self, es[..k + 1]));
      }
    }
  }

  /** A peer that was accepted and then left stays marked, so the reconnect loop overlooks it. */
  lemma LeftPeerIsOverlooked(self: NodeID, peer: Authenticated, conn: Conn, remote: Address, now: int)
    requires peer.id != ZERO_NODE_ID
    ensures var n := Run(EMPTY_NET, self, [Accepts(conn, Some(peer), remote, now, true), Leaves(peer.id, true)]);
            && peer.id in n.nodes && peer.id !in n.connections && n.nodes[peer.id].status == Connected
            && n.nodes[peer.id] !in Unreachable(n.nodes)
  {
    var accept, leave := Accepts(conn, Some(peer), remote, now, true), Leaves(peer.id, true);
    RunPair(EMPTY_NET, self, accept, leave);
    RegistrationRecords(EMPTY_NET, peer, conn, [remote], now);
  }
}
