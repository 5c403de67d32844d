/**
What single operations of the carrier do to one peer, and that they touch no other
(internal/transport): heartbeats, departures, arrivals, and the addresses they record.
 */
module CarrierEffects {
  import opened Base
  import opened Keys
  import opened NodeRegistry
  import opened Gossip
  import opened CarrierState
  import opened CarrierTheorems

  // ----- Heartbeats -----

  /**
  A heartbeat of a known peer records the time, the connection and the role of the sender
  and joins what it tells to what is known; an unknown sender changes nothing.
   */
  lemma HeartbeatJoins(n: Net, self: NodeID, sender: NodeID, role: int, es: seq<Entry>, now: int)
    ensures var m := HandleHeartbeat(n, self, sender, role, es, now);
            && (sender !in n.nodes ==> m == n)
            && (sender in n.nodes ==>
                  var node := n.nodes[sender].(lastSeen := Some(now), status := Connected, role := role);
                  var marked := n.nodes[sender := node];
                  && m.(nodes := n.nodes) == n && m.nodes == MergeAll(marked, self, es)
                  && sender in m.nodes && m.nodes[sender].lastSeen == Some(now) && m.nodes[sender].status == Connected
                  && (KnownRoles(marked) && EntriesKnown(es) ==>
                        Abstract(m.nodes) == Join(Abstract(marked), ToldAll(self, es))))
  {
    if sender in n.nodes {
      var node := n.nodes[sender].(lastSeen := Some(now), status := Connected, role := role);
      var marked := n.nodes[sender := node];
      assert WithRole(MarkSeen(n, sender, now).nodes, sender, role) == marked;
      MergeAllKeeps(marked, self, es, sender);
      if KnownRoles(marked) && EntriesKnown(es) {
        MergeAllJoins(marked, self, es);
      }
    }
  }

  /** What gossip makes known has never been seen, is not connected and has no certificates. */
  lemma {:induction false} GossipedNode(nodes: Nodes, self: NodeID, es: seq<Entry>, id: NodeID)
    requires id in MergeAll(nodes, self, es) && id !in nodes
    ensures var node := MergeAll(nodes, self, es)[id];
            node.id == id && node.status == Disconnected && node.lastSeen.None? && node.certs == []
    decreases |es|
  {
    if es != [] {
      var next := MergeEntry(nodes, self, es[0]);
      if id in next {
        MergeAllKeeps(next, self, es[1..], id);
      } else {
        GossipedNode(next, self, es[1..], id);
      }
    }
  }

  // ----- Departures -----

  /** Nothing changes for any other peer. */
  ghost predicate OthersUntouched(n: Net, m: Net, id: NodeID) {
    forall x :: x != id ==>
      && (x in m.connections <==> x in n.connections) && (x in n.connections ==> m.connections[x] == n.connections[x])
      && (x in m.scopes <==> x in n.scopes) && (x in n.scopes ==> m.scopes[x] == n.scopes[x])
      && (x in m.nodes <==> x in n.nodes) && (x in n.nodes ==> m.nodes[x] == n.nodes[x])
  }

  /** The connection is closed and forgotten with its scope. */
  ghost predicate Gone(n: Net, m: Net, id: NodeID, conn: Conn) {
    id !in m.connections && id !in m.scopes && m.closed == n.closed + {conn}
  }

  /** The peer's entry, if it has one, differs at most in the status, which is the given one. */
  ghost predicate Restated(n: Net, m: Net, id: NodeID, status: Status) {
    && (id in m.nodes <==> id in n.nodes)
    && (id in n.nodes ==> m.nodes[id] == n.nodes[id].(status := status))
  }

  /**
  Leaving takes the connection and tells the registry nothing; without a connection, or if it
  does not close, nothing happens.
   */
  lemma LeaveEffect(n: Net, id: NodeID, closes: bool)
    ensures var m := Leave(n, id, closes);
            if id in n.connections && closes
            then OthersUntouched(n, m, id) && Gone(n, m, id, n.connections[id]) && m.nodes == n.nodes
            else m == n
  {
  }

  /** Removing takes the connection, if any, the scope and the entry. */
  lemma RemoveEffect(n: Net, id: NodeID)
    ensures var m := Remove(n, id);
            && OthersUntouched(n, m, id) && id !in m.connections && id !in m.scopes && id !in m.nodes
            && m.closed == n.closed + (if id in n.connections then {n.connections[id]} else {})
  {
  }

  /** Dropping the connection in use leaves the peer disconnected; any other changes nothing. */
  lemma DropEffect(n: Net, id: NodeID, conn: Conn)
    ensures var m := Drop(n, id, conn);
            if id in n.connections && n.connections[id] == conn
            then OthersUntouched(n, m, id) && Gone(n, m, id, conn) && Restated(n, m, id, Disconnected)
            else m == n
  {
  }

  /** A failure takes the connection if it is the one in use, and marks the peer as failed in any case. */
  lemma FailEffect(n: Net, id: NodeID, conn: Conn)
    ensures var m := MarkFailed(n, id, conn);
            && OthersUntouched(n, m, id) && Restated(n, m, id, Failed)
            && (if id in n.connections && n.connections[id] == conn then Gone(n, m, id, conn)
                else m.connections == n.connections && m.scopes == n.scopes && m.closed == n.closed)
  {
  }

  /** A message records its time and marks the peer as connected; it makes and takes no connection. */
  lemma SeenEffect(n: Net, id: NodeID, seenAt: int)
    ensures var m := MarkSeen(n, id, seenAt);
            && m.(nodes := n.nodes) == n && OthersUntouched(n, m, id)
            && (id in m.nodes <==> id in n.nodes)
            && (id in n.nodes ==> m.nodes[id] == n.nodes[id].(lastSeen := Some(seenAt), status := Connected))
  {
  }

  // ----- Arrivals -----

  /** The address stands at this position and answers, and none before it does. */
  ghost predicate AnswersAt(addresses: seq<Address>, answers: map<Address, Conn>, a: Address, i: int) {
    && 0 <= i < |addresses| && addresses[i] == a && a in answers
    && forall j :: 0 <= j < i ==> addresses[j] !in answers
  }

  /** The address found is the first that answers. */
  lemma {:induction false} FirstAnswerIff(addresses: seq<Address>, answers: map<Address, Conn>, a: Address)
    ensures FirstAnswer(addresses, answers) == Some(a) <==> exists i :: AnswersAt(addresses, answers, a, i)
    decreases |addresses|
  {
    if addresses != [] {
      var rest := addresses[1..];
      FirstAnswerIff(rest, answers, a);
      if addresses[0] !in answers {
        if exists i :: AnswersAt(rest, answers, a, i) {
          var i :| AnswersAt(rest, answers, a, i);
          assert forall j :: 0 < j < i + 1 ==> addresses[j] == rest[j - 1];
          assert AnswersAt(addresses, answers, a, i + 1);
        }
        if exists i :: AnswersAt(addresses, answers, a, i) {
          var i :| AnswersAt(addresses, answers, a, i);
          assert rest[i - 1] == a;
          assert forall j :: 0 <= j < i - 1 ==> rest[j] == addresses[j + 1];
          assert AnswersAt(rest, answers, a, i - 1);
        }
      } else {
        assert addresses[0] == a ==> AnswersAt(addresses, answers, a, 0);
      }
    }
  }

  /** Where and when an arriving connection was made. */
  ghost function Origin(e: Event): (Address, int)
    requires Arrival(e)
  {
    match e
    case Accepts(_, _, remote, now, _) => (remote, now)
    case Connects(addresses, answers, _, now) =>
      var found := FirstAnswer(Compact(addresses), answers);
      (if found.Some? then found.value else "", now)
    case Bootstraps(address, dial) => (address, dial.now)
  }

  lemma ArrivalIsRegistration(n: Net, self: NodeID, e: Event)
    requires Arrival(e) && Registered(n, e).Some?
    ensures var (peer, conn) := Registered(n, e).value;
            Some(Step(n, self, e).(closed := n.closed)) == Register(n, peer, conn, [Origin(e).0], Origin(e).1)
  {
  }

  /**
  A registered arrival records the address it came over beside those known, its time, and
  its connection and scope, and touches no other peer.
   */
  lemma ArrivalRecords(n: Net, self: NodeID, e: Event)
    requires Arrival(e) && Registered(n, e).Some?
    ensures var (m, (peer, conn)) := (Step(n, self, e), Registered(n, e).value);
            && OthersUntouched(n, m, peer.id) && peer.id in m.nodes
            && peer.id in m.connections && m.connections[peer.id] == conn
            && peer.id in m.scopes && m.scopes[peer.id] == peer.scope
            && m.nodes[peer.id].lastSeen == Some(Origin(e).1) && m.nodes[peer.id].status == Connected
            && Reachable(m.nodes[peer.id].addresses) ==
               Reachable([Origin(e).0]) + (if peer.id in n.nodes then Reachable(n.nodes[peer.id].addresses) else {})
  {
    var (peer, conn) := Registered(n, e).value;
    ArrivalShape(n, self, e);
    ArrivalIsRegistration(n, self, e);
    RegistrationRecords(n, peer, conn, [Origin(e).0], Origin(e).1);
  }

  // ----- Addresses -----

  /** The position at which an address first occurs. */
  ghost function FirstAt(addresses: seq<Address>, a: Address): nat
    requires a in addresses
  {
    if addresses[0] == a then 0 else 1 + FirstAt(addresses[1..], a)
  }

  lemma {:induction false} CompactFromInOrder(seen: set<Address>, addresses: seq<Address>, i: nat, j: nat)
    requires i < j < |CompactFrom(seen, addresses)|
    ensures var c := CompactFrom(seen, addresses);
            c[i] in addresses && c[j] in addresses && FirstAt(addresses, c[i]) < FirstAt(addresses, c[j])
    decreases |addresses|
  {
    var c := CompactFrom(seen, addresses);
    CompactFromMembers(seen, addresses, c[i]);
    CompactFromMembers(seen, addresses, c[j]);
    CompactFromDistinct(seen, addresses);
    assert c[i] in c && c[j] in c && c[i] != c[j];
    if addresses[0] == "" || addresses[0] in seen {
      CompactFromInOrder(seen, addresses[1..], i, j);
    } else if i > 0 {
      var rest := CompactFrom(seen + {addresses[0]}, addresses[1..]);
      assert c == [addresses[0]] + rest && c[i] == rest[i - 1] && c[j] == rest[j - 1];
      assert c[0] in c && c[0] == addresses[0] != c[i] && c[0] != c[j];
      CompactFromInOrder(seen + {addresses[0]}, addresses[1..], i - 1, j - 1);
    }
  }

  /** Compaction keeps the order in which addresses first occur. */
  lemma CompactInOrder(addresses: seq<Address>, i: nat, j: nat)
    requires i < j < |Compact(addresses)|
    ensures var c := Compact(addresses);
            c[i] in addresses && c[j] in addresses && FirstAt(addresses, c[i]) < FirstAt(addresses, c[j])
  {
    CompactFromInOrder({}, addresses, i, j);
  }

  lemma {:induction false} CompactFromPrefix(seen: set<Address>, s: seq<Address>, t: seq<Address>)
    ensures CompactFrom(seen, s) <= CompactFrom(seen, s + t)
    decreases |s|
  {
    if s == [] {
      assert CompactFrom(seen, s) == [];
    } else {
      assert (s + t)[0] == s[0] && (s + t)[1..] == s[1..] + t;
      CompactFromPrefix(if s[0] == "" || s[0] in seen then seen else seen + {s[0]}, s[1..], t);
    }
  }

  /** In a merged entry the known addresses come first, in their order. */
  lemma KnownAddressesFirst(existing: Node, incoming: Node)
    requires incoming.addresses != []
    ensures Compact(existing.addresses) <= MergeNode(existing, incoming).addresses
  {
    CompactFromPrefix({}, existing.addresses, incoming.addresses);
  }
}
