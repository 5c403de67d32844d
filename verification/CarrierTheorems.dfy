/**
What holds over every run of the carrier (internal/transport): the invariant of its maps
and registry, where connections come from and where they end, exact eviction of stale
peers, and what bootstrapping guarantees.
 */
module CarrierTheorems {
  import opened Base
  import opened Keys
  import opened NodeRegistry
  import opened Gossip
  import opened CarrierState

  datatype Event =
    | Accepts(conn: Conn, peer: Option<Authenticated>, remote: Address, now: int, replied: bool)
    | Connects(addresses: seq<Address>, answers: map<Address, Conn>, peer: Option<Authenticated>, now: int)
    | Bootstraps(address: Address, dial: Dial)
    | Leaves(id: NodeID, closes: bool)
    | Removes(id: NodeID)
    | Drops(id: NodeID, conn: Conn)
    | Sees(id: NodeID, seenAt: int)
    | Fails(id: NodeID, conn: Conn)
    | Hears(sender: NodeID, role: int, entries: seq<Entry>, now: int)
    | Sweeps(now: int, timeout: Int64)
    | Beats(delivered: set<NodeID>)

  function Step(n: Net, self: NodeID, e: Event): Net {
    match e
    case Accepts(conn, peer, remote, now, replied) => Incoming(n, conn, peer, remote, now, replied)
    case Connects(addresses, answers, peer, now) => Connect(n, addresses, answers, peer, now).0
    case Bootstraps(address, dial) => DialAddress(n, address, dial).0
    case Leaves(id, closes) => Leave(n, id, closes)
    case Removes(id) => Remove(n, id)
    case Drops(id, conn) => Drop(n, id, conn)
    case Sees(id, seenAt) => MarkSeen(n, id, seenAt)
    case Fails(id, conn) => MarkFailed(n, id, conn)
    case Hears(sender, role, entries, now) => HandleHeartbeat(n, self, sender, role, entries, now)
    case Sweeps(now, timeout) => Evict(n, Stale(n, now, timeout))
    case Beats(delivered) => Evict(n, Unanswered(n, delivered))
  }

  function Run(n: Net, self: NodeID, es: seq<Event>): Net {
    if es == [] then n else Step(Run(n, self, es[..|es| - 1]), self, es[|es| - 1])
  }

  // ----- Arriving and departing connections -----

  /** The peer and connection that an event registers. */
  function Registered(n: Net, e: Event): Option<(Authenticated, Conn)> {
    match e
    case Accepts(conn, Some(peer), _, _, _) => if peer.id == ZERO_NODE_ID then None else Some((peer, conn))
    case Connects(addresses, answers, Some(peer), _) =>
      var found := FirstAnswer(Compact(addresses), answers);
      if peer.id == ZERO_NODE_ID || found.None? || found.value !in answers then None
      else Some((peer, answers[found.value]))
    case Bootstraps(_, Dial(Some(conn), Some(peer), _)) =>
      if peer.id == ZERO_NODE_ID || peer.id in n.connections then None else Some((peer, conn))
    case _ => None
  }

  predicate Arrival(e: Event) {
    e.Accepts? || e.Connects? || e.Bootstraps?
  }

  /** A connection that arrives is registered, or nothing but the set of closed connections changes. */
  lemma ArrivalShape(n: Net, self: NodeID, e: Event)
    requires Arrival(e)
    ensures var m := Step(n, self, e).(closed := n.closed);
            match Registered(n, e)
            case None => m == n
            case Some((peer, conn)) =>
              peer.id != ZERO_NODE_ID && exists address, now :: Some(m) == Register(n, peer, conn, [address], now)
  {
    var r := Registered(n, e);
    if r.Some? {
      var (address, now) :=
        match e
        case Accepts(_, _, remote, t, _) => (remote, t)
        case Connects(addresses, answers, _, t) => (FirstAnswer(Compact(addresses), answers).value, t)
        case Bootstraps(a, dial) => (a, dial.now);
      assert Some(Step(n, self, e).(closed := n.closed)) == Register(n, r.value.0, r.value.1, [address], now);
    }
  }

  // ----- The invariant -----

  /** A connected peer is known, marked as connected, and has been seen. */
  ghost predicate Live(nodes: Nodes, id: NodeID) {
    id in nodes && nodes[id].status == Connected && nodes[id].lastSeen.Some?
  }

  ghost predicate Invariant(n: Net) {
    && n.connections.Keys == n.scopes.Keys
    && Filed(n.nodes)
    && forall id :: id in n.connections ==> Live(n.nodes, id)
  }

  /** A failure is reported against the connection in use, or when there is none. */
  predicate Current(n: Net, e: Event) {
    e.Fails? ==> e.id !in n.connections || n.connections[e.id] == e.conn
  }

  lemma RegisterKeeps(n: Net, peer: Authenticated, conn: Conn, addresses: seq<Address>, now: int)
    requires Invariant(n)
    ensures match Register(n, peer, conn, addresses, now)
            case None => peer.id == ZERO_NODE_ID
            case Some(m) => Invariant(m) && peer.id != ZERO_NODE_ID
  {
  }

  lemma EvictKeeps(n: Net, ids: set<NodeID>)
    requires Invariant(n)
    ensures Invariant(Evict(n, ids))
  {
  }

  lemma {:induction false} MergeAllFiled(nodes: Nodes, self: NodeID, es: seq<Entry>)
    requires Filed(nodes)
    ensures Filed(MergeAll(nodes, self, es))
    decreases |es|
  {
    if es != [] {
      MergeAllFiled(MergeEntry(nodes, self, es[0]), self, es[1..]);
    }
  }

  lemma HeartbeatKeeps(n: Net, self: NodeID, sender: NodeID, role: int, es: seq<Entry>, now: int)
    requires Invariant(n)
    ensures Invariant(HandleHeartbeat(n, self, sender, role, es, now))
  {
    var m := MarkSeen(n, sender, now);
    if sender in m.nodes {
      var nodes := WithRole(m.nodes, sender, role);
      MergeAllFiled(nodes, self, es);
      forall id | id in n.connections
        ensures Live(MergeAll(nodes, self, es), id)
      {
        assert Live(nodes, id);
        MergeAllKeeps(nodes, self, es, id);
      }
    }
  }

  lemma ArrivalKeeps(n: Net, self: NodeID, e: Event)
    requires Invariant(n) && Arrival(e)
    ensures Invariant(Step(n, self, e))
  {
    ArrivalShape(n, self, e);
    var r := Registered(n, e);
    if r.Some? {
      var address, now :| Some(Step(n, self, e).(closed := n.closed)) ==
        Register(n, r.value.0, r.value.1, [address], now);
      RegisterKeeps(n, r.value.0, r.value.1, [address], now);
    }
  }

  lemma LeaveKeeps(n: Net, id: NodeID, closes: bool)
    requires Invariant(n)
    ensures Invariant(Leave(n, id, closes)) && Invariant(Remove(n, id))
  {
  }

  /** Dropping a connection changes nothing exactly when it is not the one in use. */
  lemma DropKeeps(n: Net, id: NodeID, conn: Conn)
    requires Invariant(n)
    ensures Invariant(Drop(n, id, conn))
    ensures Drop(n, id, conn) == n <==> id !in n.connections || n.connections[id] != conn
  {
    if id in n.connections && n.connections[id] == conn {
      assert id !in Drop(n, id, conn).connections;
    }
  }

  lemma SeenKeeps(n: Net, id: NodeID, seenAt: int)
    requires Invariant(n)
    ensures Invariant(MarkSeen(n, id, seenAt))
  {
  }

  /** A failure report leaves the peer marked as failed, even while a newer connection stays in use. */
  lemma FailureKeepsIff(n: Net, id: NodeID, conn: Conn)
    requires Invariant(n)
    ensures Invariant(MarkFailed(n, id, conn)) <==> id !in n.connections || n.connections[id] == conn
  {
    DropKeeps(n, id, conn);
    var m := Drop(n, id, conn);
    if id in m.connections {
      assert !Live(MarkFailed(n, id, conn).nodes, id);
    }
  }

  /** Only a failure report against a superseded connection breaks the invariant, and it always does. */
  lemma StepKeepsIff(n: Net, self: NodeID, e: Event)
    requires Invariant(n)
    ensures Invariant(Step(n, self, e)) <==> Current(n, e)
  {
    if Arrival(e) {
      ArrivalKeeps(n, self, e);
    } else {
      match e
      case Leaves(id, closes) => LeaveKeeps(n, id, closes);
      case Removes(id) => LeaveKeeps(n, id, true);
      case Drops(id, conn) => DropKeeps(n, id, conn);
      case Sees(id, seenAt) => SeenKeeps(n, id, seenAt);
      case Fails(id, conn) => FailureKeepsIff(n, id, conn);
      case Hears(sender, role, entries, now) => HeartbeatKeeps(n, self, sender, role, entries, now);
      case Sweeps(now, timeout) => EvictKeeps(n, Stale(n, now, timeout));
      case Beats(delivered) => EvictKeeps(n, Unanswered(n, delivered));
    }
  }

  lemma RunPrefix(n: Net, self: NodeID, es: seq<Event>, k: nat)
    requires k < |es|
    ensures Run(n, self, es[..k + 1]) == Step(Run(n, self, es[..k]), self, es[k])
  {
    assert es[..k + 1][..k] == es[..k];
  }

  lemma {:induction false} RunKeeps(n: Net, self: NodeID, es: seq<Event>, k: nat)
    requires Invariant(n) && k <= |es|
    requires forall i | 0 <= i < k :: Current(Run(n, self, es[..i]), es[i])
    ensures Invariant(Run(n, self, es[..k]))
  {
    if k > 0 {
      RunKeeps(n, self, es, k - 1);
      RunPrefix(n, self, es, k - 1);
      assert Current(Run(n, self, es[..k - 1]), es[k - 1]);
      StepKeepsIff(Run(n, self, es[..k - 1]), self, es[k - 1]);
    }
  }

  /** The invariant holds throughout a run exactly when every failure report names the connection in use. */
  lemma RunKeepsIff(n: Net, self: NodeID, es: seq<Event>)
    requires Invariant(n)
    ensures (forall k | 0 <= k <= |es| :: Invariant(Run(n, self, es[..k])))
       <==> (forall k | 0 <= k < |es| :: Current(Run(n, self, es[..k]), es[k]))
  {
    if forall k | 0 <= k < |es| :: Current(Run(n, self, es[..k]), es[k]) {
      forall k | 0 <= k <= |es|
        ensures Invariant(Run(n, self, es[..k]))
      {
        RunKeeps(n, self, es, k);
      }
    } else {
      var k :| 0 <= k < |es| && !Current(Run(n, self, es[..k]), es[k]);
      if Invariant(Run(n, self, es[..k])) {
        StepKeepsIff(Run(n, self, es[..k]), self, es[k]);
        RunPrefix(n, self, es, k);
        assert !Invariant(Run(n, self, es[..k + 1]));
      }
    }
  }

  lemma RunPair(n: Net, self: NodeID, e: Event, f: Event)
    ensures Run(n, self, [e]) == Step(n, self, e) && Run(n, self, [e, f]) == Step(Step(n, self, e), self, f)
  {
    assert [e][..0] == [] && [e, f][..1] == [e];
  }

  /** A peer that connects twice and is then reported as failed on its first connection breaks the invariant. */
  lemma SupersededFailure(self: NodeID, peer: Authenticated, first: Conn, second: Conn, remote: Address, now: int)
    requires peer.id != ZERO_NODE_ID && first != second
    ensures var es := [Accepts(first, Some(peer), remote, now, true), Accepts(second, Some(peer), remote, now, true)];
            && Invariant(Run(EMPTY_NET, self, es))
            && !Invariant(Run(EMPTY_NET, self, es + [Fails(peer.id, first)]))
  {
    var a, b := Accepts(first, Some(peer), remote, now, true), Accepts(second, Some(peer), remote, now, true);
    RunPair(EMPTY_NET, self, a, b);
    StepKeepsIff(EMPTY_NET, self, a);
    StepKeepsIff(Step(EMPTY_NET, self, a), self, b);
    StepConnections(Step(EMPTY_NET, self, a), self, b, peer.id);
    var n := Run(EMPTY_NET, self, [a, b]);
    assert ([a, b] + [Fails(peer.id, first)])[..2] == [a, b];
    assert peer.id in n.connections && n.connections[peer.id] == second;
    StepKeepsIff(n, self, Fails(peer.id, first));
  }

  // ----- Where connections come from -----

  /** The last registration of a peer in a run. */
  function LastRegistered(n: Net, self: NodeID, es: seq<Event>, id: NodeID): Option<(Authenticated, Conn)> {
    if es == [] then None
    else
      var r := Registered(Run(n, self, es[..|es| - 1]), es[|es| - 1]);
      if r.Some? && r.value.0.id == id then r else LastRegistered(n, self, es[..|es| - 1], id)
  }

  lemma StepConnections(n: Net, self: NodeID, e: Event, id: NodeID)
    requires n.connections.Keys == n.scopes.Keys
    ensures var (m, r) := (Step(n, self, e), Registered(n, e));
            && m.connections.Keys == m.scopes.Keys
            && (id in m.connections ==>
                  if r.Some? && r.value.0.id == id
                  then m.connections[id] == r.value.1 && m.scopes[id] == r.value.0.scope
                  else id in n.connections && m.connections[id] == n.connections[id] && m.scopes[id] == n.scopes[id])
  {
    if Arrival(e) {
      ArrivalShape(n, self, e);
    }
  }

  /**
  In every run, a connected peer is one that authenticated, on the connection and with the
  scope of its last registration.
   */
  lemma {:induction false} ConnectionsAreAuthenticated(self: NodeID, es: seq<Event>, id: NodeID)
    ensures var m := Run(EMPTY_NET, self, es);
            && m.connections.Keys == m.scopes.Keys
            && (id in m.connections ==>
                  && LastRegistered(EMPTY_NET, self, es, id).Some?
                  && var (peer, conn) := LastRegistered(EMPTY_NET, self, es, id).value;
                     peer.id == id && m.connections[id] == conn && m.scopes[id] == peer.scope)
  {
    if es != [] {
      ConnectionsAreAuthenticated(self, es[..|es| - 1], id);
      StepConnections(Run(EMPTY_NET, self, es[..|es| - 1]), self, es[|es| - 1], id);
    }
  }

  // ----- Where connections end -----

  /** The connections that an event hands to the carrier. */
  function Handed(e: Event): set<Conn> {
    match e
    case Accepts(conn, _, _, _, _) => {conn}
    case Connects(addresses, answers, _, _) =>
      var found := FirstAnswer(Compact(addresses), answers);
      if found.None? || found.value !in answers then {} else {answers[found.value]}
    case Bootstraps(_, dial) => if dial.answer.None? then {} else {dial.answer.value}
    case _ => {}
  }

  /**
  The connections whose fate an event leaves open: one that a newer registration
  supersedes is neither used nor closed, and one whose reply could not be sent is closed
  but stays in use.
   */
  function Loose(n: Net, e: Event): set<Conn> {
    match Registered(n, e)
    case None => {}
    case Some((peer, conn)) =>
      (if peer.id in n.connections then {n.connections[peer.id]} else {})
      + (if e.Accepts? && !e.replied then {conn} else {})
  }

  function AllHanded(es: seq<Event>): set<Conn> {
    if es == [] then {} else AllHanded(es[..|es| - 1]) + Handed(es[|es| - 1])
  }

  function AllLoose(n: Net, self: NodeID, es: seq<Event>): set<Conn> {
    if es == [] then {}
    else AllLoose(n, self, es[..|es| - 1]) + Loose(Run(n, self, es[..|es| - 1]), es[|es| - 1])
  }

  ghost predicate InUse(n: Net, c: Conn) {
    exists id :: id in n.connections && n.connections[id] == c
  }

  /** Every connection is either in use or closed, and not both, unless its fate was left open. */
  ghost predicate Accounted(n: Net, handed: set<Conn>, loose: set<Conn>) {
    && (forall id :: id in n.connections ==> n.connections[id] in handed)
    && n.closed <= handed
    && (forall id, id' :: id in n.connections && id' in n.connections && n.connections[id] == n.connections[id'] ==>
        id == id')
    && forall c :: c in handed && c !in loose ==> (InUse(n, c) <==> c !in n.closed)
  }

  /** Each connection is handed over once. */
  ghost predicate Distinctly(handed: set<Conn>, es: seq<Event>) {
    forall k | 0 <= k < |es| :: Handed(es[k]) !! (handed + AllHanded(es[..k]))
  }

  lemma CloseAccounts(n: Net, handed: set<Conn>, loose: set<Conn>, c: Conn)
    requires Accounted(n, handed, loose) && c !in handed
    ensures Accounted(Close(n, c), handed + {c}, loose)
  {
    forall x
      ensures InUse(Close(n, c), x) <==> InUse(n, x)
    {
    }
  }

  lemma RegisterAccounts(n: Net, m: Net, handed: set<Conn>, loose: set<Conn>, id: NodeID, c: Conn)
    requires Accounted(n, handed, loose) && c !in handed
    requires m.connections == n.connections[id := c] && m.closed == n.closed
    ensures Accounted(m, handed + {c}, loose + if id in n.connections then {n.connections[id]} else {})
  {
    assert m.connections[id] == c;
    forall x | x in handed && (id in n.connections ==> n.connections[id] != x)
      ensures InUse(m, x) <==> InUse(n, x)
    {
      if InUse(n, x) {
        var i :| i in n.connections && n.connections[i] == x;
        assert i in m.connections && m.connections[i] == x;
      }
    }
  }

  /** Some peers lose their connection, which is closed. */
  lemma DetachAccounts(n: Net, m: Net, handed: set<Conn>, loose: set<Conn>, ids: set<NodeID>)
    requires Accounted(n, handed, loose)
    requires m.connections == n.connections - ids
    requires m.closed == n.closed + set id | id in ids && id in n.connections :: n.connections[id]
    ensures Accounted(m, handed, loose)
  {
    forall c | c in handed && c !in loose
      ensures InUse(m, c) <==> c !in m.closed
    {
      if InUse(n, c) {
        var id :| id in n.connections && n.connections[id] == c;
        if id !in ids {
          assert id in m.connections && m.connections[id] == c;
        }
      }
    }
  }

  /** What an arriving connection adds to the closed ones. */
  lemma ArrivalCloses(n: Net, self: NodeID, e: Event)
    requires Arrival(e)
    ensures match Registered(n, e)
            case None => Step(n, self, e).closed == n.closed + Handed(e)
            case Some((_, conn)) =>
              && Handed(e) == {conn}
              && Step(n, self, e).closed == n.closed + if e.Accepts? && !e.replied then {conn} else {}
  {
  }

  lemma ArrivalAccounts(n: Net, self: NodeID, e: Event, handed: set<Conn>, loose: set<Conn>)
    requires Accounted(n, handed, loose) && Arrival(e) && Handed(e) !! handed
    ensures Accounted(Step(n, self, e), handed + Handed(e), loose + Loose(n, e))
  {
    ArrivalShape(n, self, e);
    ArrivalCloses(n, self, e);
    var r := Registered(n, e);
    if r.Some? {
      var (peer, conn) := r.value;
      var m := Step(n, self, e).(closed := n.closed);
      RegisterAccounts(n, m, handed, loose, peer.id, conn);
      forall c
        ensures InUse(m, c) <==> InUse(Step(n, self, e), c)
      {
      }
    } else if Handed(e) != {} {
      var c :| c in Handed(e);
      assert Handed(e) == {c};
      CloseAccounts(n, handed, loose, c);
      assert Step(n, self, e) == Close(n, c);
    }
  }

  lemma StepAccounts(n: Net, self: NodeID, e: Event, handed: set<Conn>, loose: set<Conn>)
    requires Accounted(n, handed, loose) && Handed(e) !! handed
    ensures Accounted(Step(n, self, e), handed + Handed(e), loose + Loose(n, e))
  {
    if Arrival(e) {
      ArrivalAccounts(n, self, e, handed, loose);
    } else {
      var m := Step(n, self, e);
      var ids := Departed(n, e);
      assert handed + Handed(e) == handed && loose + Loose(n, e) == loose;
      DepartureShape(n, self, e);
      DetachAccounts(n, m, handed, loose, ids);
    }
  }

  /** The peers that an event disconnects. */
  function Departed(n: Net, e: Event): set<NodeID> {
    match e
    case Leaves(id, closes) => if closes then {id} else {}
    case Removes(id) => {id}
    case Drops(id, conn) => if id in n.connections && n.connections[id] == conn then {id} else {}
    case Fails(id, conn) => if id in n.connections && n.connections[id] == conn then {id} else {}
    case Sweeps(now, timeout) => Stale(n, now, timeout)
    case Beats(delivered) => Unanswered(n, delivered)
    case _ => {}
  }

  lemma DepartureShape(n: Net, self: NodeID, e: Event)
    requires !Arrival(e)
    ensures Step(n, self, e).connections == n.connections - Departed(n, e)
    ensures Step(n, self, e).closed ==
      n.closed + set id | id in Departed(n, e) && id in n.connections :: n.connections[id]
  {
  }

  /**
  In every run in which each connection is handed over once, every connection ends up in
  use or closed, and not both, unless it was superseded or its reply failed.
   */
  lemma {:induction false} ConnectionsAreAccounted(n: Net, self: NodeID, es: seq<Event>, handed: set<Conn>)
    requires Accounted(n, handed, {}) && Distinctly(handed, es)
    ensures Accounted(Run(n, self, es), handed + AllHanded(es), AllLoose(n, self, es))
  {
    if es == [] {
      assert handed + AllHanded(es) == handed;
    } else {
      var init, last := es[..|es| - 1], es[|es| - 1];
      forall k | 0 <= k < |init|
        ensures Handed(init[k]) !! (handed + AllHanded(init[..k]))
      {
        assert init[..k] == es[..k] && init[k] == es[k];
      }
      ConnectionsAreAccounted(n, self, init, handed);
      StepAccounts(Run(n, self, init), self, last, handed + AllHanded(init), AllLoose(n, self, init));
      assert handed + AllHanded(init) + Handed(last) == handed + AllHanded(es);
    }
  }

  /**
  A new connection ends either in use or closed, and leaves every other one so, exactly
  when its peer had no connection yet and its reply could be sent.
   */
  lemma ArrivalSettlesIff(n: Net, self: NodeID, e: Event, handed: set<Conn>)
    requires Accounted(n, handed, {}) && Arrival(e) && Handed(e) !! handed
    ensures Accounted(Step(n, self, e), handed + Handed(e), {}) <==> Loose(n, e) == {}
  {
    ArrivalAccounts(n, self, e, handed, {});
    ArrivalShape(n, self, e);
    ArrivalCloses(n, self, e);
    var m, r := Step(n, self, e), Registered(n, e);
    if Loose(n, e) != {} {
      var (peer, conn) := r.value;
      assert m.connections[peer.id] == conn && InUse(m, conn);
      if peer.id in n.connections {
        var c := n.connections[peer.id];
        assert InUse(n, c);
        assert !InUse(m, c);
      }
    } else {
      assert {} + Loose(n, e) == {};
    }
  }

  // ----- What holds in every run -----

  /** Without the statuses: every connected peer is known under its non-zero identifier and has been seen. */
  ghost predicate Tracked(n: Net) {
    && n.connections.Keys == n.scopes.Keys
    && Filed(n.nodes)
    && forall id :: id in n.connections ==> Seen(n.nodes, id)
  }

  ghost predicate Seen(nodes: Nodes, id: NodeID) {
    id in nodes && nodes[id].lastSeen.Some?
  }

  lemma ArrivalTracks(n: Net, self: NodeID, e: Event)
    requires Tracked(n) && Arrival(e)
    ensures Tracked(Step(n, self, e))
  {
    ArrivalShape(n, self, e);
  }

  lemma HeartbeatTracks(n: Net, self: NodeID, sender: NodeID, role: int, es: seq<Entry>, now: int)
    requires Tracked(n)
    ensures Tracked(HandleHeartbeat(n, self, sender, role, es, now))
  {
    var m := MarkSeen(n, sender, now);
    if sender in m.nodes {
      var nodes := WithRole(m.nodes, sender, role);
      MergeAllFiled(nodes, self, es);
      forall id | id in n.connections
        ensures Seen(MergeAll(nodes, self, es), id)
      {
        assert Seen(nodes, id);
        MergeAllKeeps(nodes, self, es, id);
      }
    }
  }

  lemma LeaveTracks(n: Net, id: NodeID, closes: bool)
    requires Tracked(n)
    ensures Tracked(Leave(n, id, closes)) && Tracked(Remove(n, id))
  {
  }

  lemma DropTracks(n: Net, id: NodeID, conn: Conn)
    requires Tracked(n)
    ensures Tracked(Drop(n, id, conn))
  {
  }

  lemma MarkTracks(n: Net, id: NodeID, seenAt: int, status: Status)
    requires Tracked(n)
    ensures Tracked(MarkSeen(n, id, seenAt)) && Tracked(n.(nodes := WithStatus(n.nodes, id, status)))
  {
  }

  lemma EvictTracks(n: Net, ids: set<NodeID>)
    requires Tracked(n)
    ensures Tracked(Evict(n, ids))
  {
  }

  lemma StepTracks(n: Net, self: NodeID, e: Event)
    requires Tracked(n)
    ensures Tracked(Step(n, self, e))
  {
    if Arrival(e) {
      ArrivalTracks(n, self, e);
    } else {
      match e
      case Leaves(id, closes) => LeaveTracks(n, id, closes);
      case Removes(id) => LeaveTracks(n, id, true);
      case Drops(id, conn) => DropTracks(n, id, conn);
      case Sees(id, seenAt) => MarkTracks(n, id, seenAt, Connected);
      case Fails(id, conn) =>
        DropTracks(n, id, conn);
        MarkTracks(Drop(n, id, conn), id, 0, Failed);
      case Hears(sender, role, entries, now) => HeartbeatTracks(n, self, sender, role, entries, now);
      case Sweeps(now, timeout) => EvictTracks(n, Stale(n, now, timeout));
      case Beats(delivered) => EvictTracks(n, Unanswered(n, delivered));
    }
  }

  /** In every run whatsoever, every connected peer is known, seen and non-zero, and the two maps agree. */
  lemma {:induction false} RunTracks(self: NodeID, es: seq<Event>)
    ensures Tracked(Run(EMPTY_NET, self, es)) && ZERO_NODE_ID !in Run(EMPTY_NET, self, es).connections
  {
    if es != [] {
      RunTracks(self, es[..|es| - 1]);
      StepTracks(Run(EMPTY_NET, self, es[..|es| - 1]), self, es[|es| - 1]);
    }
  }

  // ----- Eviction -----

  /** Exactly the chosen connected peers are evicted: closed and failed, but still known; all else is as it was. */
  ghost predicate Evicted(n: Net, m: Net, ids: set<NodeID>) {
    && m.nodes.Keys == n.nodes.Keys && n.connections.Keys == n.scopes.Keys
    && m.connections.Keys == m.scopes.Keys == n.connections.Keys - ids
    && (forall id :: id in m.connections ==> m.connections[id] == n.connections[id] && m.scopes[id] == n.scopes[id])
    && (forall id :: id in n.nodes ==>
          m.nodes[id] == if id in n.connections && id in ids then n.nodes[id].(status := Failed) else n.nodes[id])
    && (forall id :: id in n.connections && id in ids ==>
          id in n.nodes && n.connections[id] in m.closed && n.nodes[id].(status := Failed) in Unreachable(m.nodes))
  }

  lemma EvictIsExact(n: Net, ids: set<NodeID>)
    requires Tracked(n) && ids <= n.connections.Keys
    ensures Evicted(n, Evict(n, ids), ids)
  {
    var m := Evict(n, ids);
    forall id | id in n.connections && id in ids
      ensures n.nodes[id].(status := Failed) in Unreachable(m.nodes)
    {
      assert m.nodes[id].status != Connected;
    }
  }

  /** The connected peers last seen longer ago than the timeout; the longest possible timeout is never exceeded. */
  ghost function Silent(n: Net, now: int, timeout: Int64): set<NodeID>
    requires Tracked(n)
  {
    set id | id in n.connections && now - n.nodes[id].lastSeen.value > timeout && timeout < 0x7FFF_FFFF_FFFF_FFFF
  }

  /** The connected peers, clients apart, that no heartbeat reached. */
  ghost function Unreached(n: Net, delivered: set<NodeID>): set<NodeID>
    requires Tracked(n)
  {
    set id | id in n.connections && id !in delivered && n.nodes[id].role != 1
  }

  lemma EvictionSets(n: Net, now: int, timeout: Int64, delivered: set<NodeID>)
    requires Tracked(n)
    ensures Stale(n, now, timeout) == Silent(n, now, timeout) && Unanswered(n, delivered) == Unreached(n, delivered)
  {
  }

  /**
  After any run, a sweep leaves exactly the connections that were heard of within the
  timeout; an evicted peer keeps everything the registry knows about it, is marked as
  failed and becomes a candidate for reconnection.
   */
  lemma StaleEvictionIsExact(self: NodeID, es: seq<Event>, now: int, timeout: Int64)
    ensures var n := Run(EMPTY_NET, self, es);
            && Tracked(n) && Tracked(Step(n, self, Sweeps(now, timeout)))
            && Evicted(n, Step(n, self, Sweeps(now, timeout)), Silent(n, now, timeout))
  {
    var n := Run(EMPTY_NET, self, es);
    RunTracks(self, es);
    StepTracks(n, self, Sweeps(now, timeout));
    EvictionSets(n, now, timeout, {});
    EvictIsExact(n, Silent(n, now, timeout));
  }

  /** After any run, a round of heartbeats leaves exactly the connections that were reached or belong to clients. */
  lemma BatchEvictionIsExact(self: NodeID, es: seq<Event>, delivered: set<NodeID>)
    ensures var n := Run(EMPTY_NET, self, es);
            && Tracked(n) && Tracked(Step(n, self, Beats(delivered)))
            && Evicted(n, Step(n, self, Beats(delivered)), Unreached(n, delivered))
  {
    var n := Run(EMPTY_NET, self, es);
    RunTracks(self, es);
    StepTracks(n, self, Beats(delivered));
    EvictionSets(n, 0, 0, delivered);
    EvictIsExact(n, Unreached(n, delivered));
  }

  // ----- Registration -----

  /**
  What a registration records: the peer is connected and seen now, its addresses are those
  known before together with the new ones, a client stays a client, presented certificates
  replace the known ones, and nobody else is touched.
   */
  lemma RegistrationRecords(n: Net, peer: Authenticated, conn: Conn, addresses: seq<Address>, now: int)
    requires peer.id != ZERO_NODE_ID
    ensures var m := Register(n, peer, conn, addresses, now);
            && m.Some? && peer.id in m.value.nodes
            && var node := m.value.nodes[peer.id];
               && node.id == peer.id && node.status == Connected && node.lastSeen == Some(now)
               && Reachable(node.addresses) ==
                 Reachable(addresses) + (if peer.id in n.nodes then Reachable(n.nodes[peer.id].addresses) else {})
               && (node.role == ROLE_CLIENT <==> peer.id in n.nodes && n.nodes[peer.id].role == ROLE_CLIENT)
               && (node.certs == if peer.certs == [] && peer.id in n.nodes then n.nodes[peer.id].certs else peer.certs)
               && m.value == n.(nodes := n.nodes[peer.id := node], connections := n.connections[peer.id := conn],
                                scopes := n.scopes[peer.id := peer.scope])
  {
    var compact := Compact(addresses);
    CompactKeepsReachable(addresses);
    if peer.id in n.nodes {
      var known := n.nodes[peer.id].addresses;
      CompactKeepsReachable(known + compact);
      ReachableAppend(known, compact);
    }
  }

  // ----- Bootstrap -----

  /** A dial that reaches a peer. */
  predicate Answers(d: Dial) {
    d.answer.Some? && d.peer.Some? && d.peer.value.id != ZERO_NODE_ID
  }

  /**
  The given peers are connected in addition, no earlier connection is disturbed, and the
  invariant is kept if it held.
   */
  ghost predicate Joins(n: Net, m: Net, ids: set<NodeID>) {
    && (Invariant(n) ==> Invariant(m))
    && ZERO_NODE_ID !in ids
    && m.connections.Keys == n.connections.Keys + ids
    && forall id :: id in n.connections ==> m.connections[id] == n.connections[id]
  }

  lemma JoinsCompose(n: Net, m: Net, l: Net, ids: set<NodeID>, more: set<NodeID>)
    requires Joins(n, m, ids) && Joins(m, l, more)
    ensures Joins(n, l, ids + more)
  {
  }

  /** The peer that a dial reaches. */
  function ReachedPeer(d: Dial): set<NodeID> {
    if Answers(d) then {d.peer.value.id} else {}
  }

  /** A dial connects the peer it reaches, unless that was connected, and succeeds exactly when there is one. */
  lemma DialAddressIff(n: Net, address: Address, d: Dial)
    requires ZERO_NODE_ID !in n.connections
    ensures var (m, ok) := DialAddress(n, address, d);
            Joins(n, m, ReachedPeer(d)) && (ok <==> Answers(d))
  {
    DialAddressReaches(n, address, d);
    if Invariant(n) {
      ArrivalKeeps(n, ZERO_NODE_ID, Bootstraps(address, d));
    }
  }

  lemma DialAddressReaches(n: Net, address: Address, d: Dial)
    requires ZERO_NODE_ID !in n.connections
    ensures var (m, ok) := DialAddress(n, address, d);
            && (ok <==> Answers(d))
            && m.connections.Keys == n.connections.Keys + ReachedPeer(d)
            && forall id :: id in n.connections ==> m.connections[id] == n.connections[id]
  {
    ArrivalShape(n, ZERO_NODE_ID, Bootstraps(address, d));
  }

  /** The peers reached by the first k dials of a round. */
  ghost function ReachedPeers(round: seq<Dial>, k: nat): set<NodeID>
    requires k <= |round|
  {
    if k == 0 then {}
    else ReachedPeers(round, k - 1) + ReachedPeer(round[k - 1])
  }

  ghost function ReachedInRounds(rounds: seq<seq<Dial>>, k: nat): set<NodeID>
    requires k <= |rounds|
  {
    if k == 0 then {} else ReachedInRounds(rounds, k - 1) + ReachedPeers(rounds[k - 1], |rounds[k - 1]|)
  }

  lemma DialNext(n: Net, addresses: seq<Address>, round: seq<Dial>, k: nat)
    requires 0 < k <= |addresses| == |round|
    ensures var (m, count) := DialFirst(n, addresses, round, k - 1);
            var (m', ok) := DialAddress(m, addresses[k - 1], round[k - 1]);
            DialFirst(n, addresses, round, k) == (m', if ok then count + 1 else count)
  {
  }

  lemma {:induction false} DialFirstJoins(n: Net, addresses: seq<Address>, round: seq<Dial>, k: nat)
    requires ZERO_NODE_ID !in n.connections && k <= |addresses| == |round|
    ensures Joins(n, DialFirst(n, addresses, round, k).0, ReachedPeers(round, k))
  {
    if k > 0 {
      var m := DialFirst(n, addresses, round, k - 1).0;
      DialFirstJoins(n, addresses, round, k - 1);
      DialAddressIff(m, addresses[k - 1], round[k - 1]);
      DialNext(n, addresses, round, k);
      JoinsCompose(n, m, DialFirst(n, addresses, round, k).0, ReachedPeers(round, k - 1), ReachedPeer(round[k - 1]));
    }
  }

  lemma {:induction false} DialFirstCountIff(n: Net, addresses: seq<Address>, round: seq<Dial>, k: nat)
    requires ZERO_NODE_ID !in n.connections && k <= |addresses| == |round|
    ensures DialFirst(n, addresses, round, k).1 > 0 <==> ReachedPeers(round, k) != {}
  {
    if k > 0 {
      DialFirstCountIff(n, addresses, round, k - 1);
      DialFirstJoins(n, addresses, round, k - 1);
      DialAddressIff(DialFirst(n, addresses, round, k - 1).0, addresses[k - 1], round[k - 1]);
      DialNext(n, addresses, round, k);
    }
  }

  /** A round connects exactly the peers it reaches, and counts some exactly when it reaches one. */
  lemma DialFirstIff(n: Net, addresses: seq<Address>, round: seq<Dial>, k: nat)
    requires ZERO_NODE_ID !in n.connections && k <= |addresses| == |round|
    ensures Joins(n, DialFirst(n, addresses, round, k).0, ReachedPeers(round, k))
    ensures DialFirst(n, addresses, round, k).1 > 0 <==> ReachedPeers(round, k) != {}
  {
    DialFirstJoins(n, addresses, round, k);
    DialFirstCountIff(n, addresses, round, k);
  }

  /** The dials of a round that reach a peer. */
  ghost function Hits(round: seq<Dial>, k: nat): set<nat>
    requires k <= |round|
  {
    set i: nat | i < k && Answers(round[i])
  }

  lemma HitsNext(round: seq<Dial>, k: nat)
    requires 0 < k <= |round|
    ensures |Hits(round, k)| == |Hits(round, k - 1)| + if Answers(round[k - 1]) then 1 else 0
  {
    assert Hits(round, k) == Hits(round, k - 1) + if Answers(round[k - 1]) then {k - 1} else {};
  }

  lemma CountNext(n: Net, addresses: seq<Address>, round: seq<Dial>, k: nat)
    requires ZERO_NODE_ID !in n.connections && 0 < k <= |addresses| == |round|
    ensures DialFirst(n, addresses, round, k).1 ==
      DialFirst(n, addresses, round, k - 1).1 + if Answers(round[k - 1]) then 1 else 0
  {
    DialFirstJoins(n, addresses, round, k - 1);
    DialAddressIff(DialFirst(n, addresses, round, k - 1).0, addresses[k - 1], round[k - 1]);
    DialNext(n, addresses, round, k);
  }

  /** A round counts exactly the dials that reach a peer. */
  lemma {:induction false} DialFirstCounts(n: Net, addresses: seq<Address>, round: seq<Dial>, k: nat)
    requires ZERO_NODE_ID !in n.connections && k <= |addresses| == |round|
    ensures DialFirst(n, addresses, round, k).1 == |Hits(round, k)|
  {
    if k > 0 {
      DialFirstCounts(n, addresses, round, k - 1);
      CountNext(n, addresses, round, k);
      HitsNext(round, k);
    }
  }

  /** Any number of rounds connects exactly the peers they reach. */
  lemma {:induction false} DialRoundsJoin(n: Net, addresses: seq<Address>, rounds: seq<seq<Dial>>, k: nat)
    requires ZERO_NODE_ID !in n.connections && k <= |rounds| && Answering(rounds, addresses)
    ensures Joins(n, DialRounds(n, addresses, rounds, k).0, ReachedInRounds(rounds, k))
  {
    if k > 0 {
      DialRoundsJoin(n, addresses, rounds, k - 1);
      var m := DialRounds(n, addresses, rounds, k - 1).0;
      var round := rounds[k - 1];
      DialFirstIff(m, addresses, round, |addresses|);
      JoinsCompose(n, m, DialFirst(m, addresses, round, |addresses|).0, ReachedInRounds(rounds, k - 1),
                   ReachedPeers(round, |addresses|));
    }
  }

  /** A round counts as successful exactly when it reaches a peer. */
  lemma {:induction false} DialRoundsCountIff(n: Net, addresses: seq<Address>, rounds: seq<seq<Dial>>, k: nat, j: nat)
    requires ZERO_NODE_ID !in n.connections && j < k <= |rounds| && Answering(rounds, addresses)
    ensures DialRounds(n, addresses, rounds, k).1[j] > 0 <==> ReachedPeers(rounds[j], |addresses|) != {}
  {
    if j < k - 1 {
      DialRoundsCountIff(n, addresses, rounds, k - 1, j);
    } else {
      DialRoundsJoin(n, addresses, rounds, j);
      DialFirstIff(DialRounds(n, addresses, rounds, j).0, addresses, rounds[j], |addresses|);
    }
  }

  lemma RoundsReach(rounds: seq<seq<Dial>>, k: nat)
    requires 0 < k <= |rounds|
    ensures ReachedPeers(rounds[k - 1], |rounds[k - 1]|) <= ReachedInRounds(rounds, k)
  {
  }

  /** Round j is reached without a cancelled wait. */
  ghost predicate Uncancelled(cancelled: set<nat>, j: nat) {
    forall k | 0 < k <= j :: k !in cancelled
  }

  ghost predicate Reaches(rounds: seq<seq<Dial>>, j: nat) {
    j < |rounds| && ReachedPeers(rounds[j], |rounds[j]|) != {}
  }

  lemma AttemptedIff(rounds: seq<seq<Dial>>, retries: nat, cancelled: set<nat>, joined: bool, reached: seq<nat>)
    requires Attempted(retries, cancelled, joined, reached)
    requires forall j: nat :: j < |reached| ==> (reached[j] > 0 <==> Reaches(rounds, j))
    ensures joined <==> exists j: nat :: j <= retries && Reaches(rounds, j) && Uncancelled(cancelled, j)
    ensures !joined && |reached| == retries + 1 <==>
      Uncancelled(cancelled, retries) && forall j: nat :: j <= retries ==> !Reaches(rounds, j)
  {
    var last := |reached| - 1;
    if joined {
      assert Reaches(rounds, last) && Uncancelled(cancelled, last);
    }
    forall j: nat | j <= retries && Reaches(rounds, j) && Uncancelled(cancelled, j)
      ensures joined
    {
      if j > last {
        assert last + 1 !in cancelled;
      }
    }
  }

  /**
  An attempt joins exactly when some permitted round reaches a peer; it gives up, and puts
  the node offline, exactly when no wait is cancelled and no round reaches anyone.
   */
  lemma BootstrapOutcomeIff(n: Net, addresses: seq<Address>, rounds: seq<seq<Dial>>, retries: nat,
                            cancelled: set<nat>, joined: bool, reached: seq<nat>)
    requires ZERO_NODE_ID !in n.connections && Answering(rounds, addresses) && |rounds| > retries
    requires Attempted(retries, cancelled, joined, reached) && reached == DialRounds(n, addresses, rounds, |reached|).1
    ensures joined <==> exists j: nat :: j <= retries && Reaches(rounds, j) && Uncancelled(cancelled, j)
    ensures !joined && |reached| == retries + 1 <==>
      Uncancelled(cancelled, retries) && forall j: nat :: j <= retries ==> !Reaches(rounds, j)
  {
    forall j: nat | j < |reached|
      ensures reached[j] > 0 <==> Reaches(rounds, j)
    {
      DialRoundsCountIff(n, addresses, rounds, |reached|, j);
    }
    AttemptedIff(rounds, retries, cancelled, joined, reached);
  }

  /** After an attempt whose last round reached someone, those it reached are connected. */
  lemma JoinedIsConnected(n: Net, addresses: seq<Address>, rounds: seq<seq<Dial>>, k: nat)
    requires ZERO_NODE_ID !in n.connections && 0 < k <= |rounds| && Answering(rounds, addresses)
    requires DialRounds(n, addresses, rounds, k).1[k - 1] > 0
    ensures Reaches(rounds, k - 1)
      && ReachedPeers(rounds[k - 1], |addresses|) <= DialRounds(n, addresses, rounds, k).0.connections.Keys
  {
    DialRoundsCountIff(n, addresses, rounds, k, k - 1);
    DialRoundsJoin(n, addresses, rounds, k);
    RoundsReach(rounds, k);
  }

  /** The known connections after the first k dials of a round. */
  ghost function Opened(handed: set<Conn>, round: seq<Dial>, k: nat): set<Conn>
    requires k <= |round|
  {
    if k == 0 then handed else Opened(handed, round, k - 1) + Handed(Bootstraps("", round[k - 1]))
  }

  ghost function OpenedInRounds(handed: set<Conn>, rounds: seq<seq<Dial>>, k: nat): set<Conn>
    requires k <= |rounds|
  {
    if k == 0 then handed else Opened(OpenedInRounds(handed, rounds, k - 1), rounds[k - 1], |rounds[k - 1]|)
  }

  /** The connections opened in a round are new and distinct. */
  ghost predicate OpensNew(handed: set<Conn>, round: seq<Dial>) {
    forall i | 0 <= i < |round| :: Handed(Bootstraps("", round[i])) !! Opened(handed, round, i)
  }

  lemma DialAccounts(n: Net, address: Address, d: Dial, handed: set<Conn>, loose: set<Conn>)
    requires Accounted(n, handed, loose) && Handed(Bootstraps("", d)) !! handed
    ensures Accounted(DialAddress(n, address, d).0, handed + Handed(Bootstraps("", d)), loose)
  {
    ArrivalAccounts(n, ZERO_NODE_ID, Bootstraps(address, d), handed, loose);
    assert loose + Loose(n, Bootstraps(address, d)) == loose;
  }

  lemma {:induction false} DialFirstAccounts(n: Net, addresses: seq<Address>, round: seq<Dial>, k: nat,
                                             handed: set<Conn>, loose: set<Conn>)
    requires Accounted(n, handed, loose) && k <= |addresses| == |round| && OpensNew(handed, round)
    ensures Accounted(DialFirst(n, addresses, round, k).0, Opened(handed, round, k), loose)
  {
    if k > 0 {
      DialFirstAccounts(n, addresses, round, k - 1, handed, loose);
      DialAccounts(DialFirst(n, addresses, round, k - 1).0, addresses[k - 1], round[k - 1],
                   Opened(handed, round, k - 1), loose);
    }
  }

  lemma RoundAccounts(n: Net, m: Net, addresses: seq<Address>, round: seq<Dial>, handed: set<Conn>, known: set<Conn>,
                      loose: set<Conn>)
    requires |addresses| == |round| && m == DialFirst(n, addresses, round, |addresses|).0
      && known == Opened(handed, round, |round|)
    requires Accounted(n, handed, loose) && OpensNew(handed, round)
    ensures Accounted(m, known, loose)
  {
    DialFirstAccounts(n, addresses, round, |addresses|, handed, loose);
  }

  lemma RoundsNext(n: Net, addresses: seq<Address>, rounds: seq<seq<Dial>>, k: nat, handed: set<Conn>)
    requires 0 < k <= |rounds| && Answering(rounds, addresses)
    ensures DialRounds(n, addresses, rounds, k).0 ==
      DialFirst(DialRounds(n, addresses, rounds, k - 1).0, addresses, rounds[k - 1], |addresses|).0
    ensures OpenedInRounds(handed, rounds, k) ==
      Opened(OpenedInRounds(handed, rounds, k - 1), rounds[k - 1], |rounds[k - 1]|)
  {
  }

  /** Every one of the first k rounds opens new connections. */
  ghost predicate RoundsOpenNew(handed: set<Conn>, rounds: seq<seq<Dial>>, k: nat)
    requires k <= |rounds|
  {
    k == 0 || (RoundsOpenNew(handed, rounds, k - 1) && OpensNew(OpenedInRounds(handed, rounds, k - 1), rounds[k - 1]))
  }

  /**
  Over any number of bootstrap rounds every connection they open ends up in use or closed,
  never both, and none becomes loose.
   */
  lemma {:induction false} DialRoundsAccounts(n: Net, addresses: seq<Address>, rounds: seq<seq<Dial>>, k: nat,
                                              handed: set<Conn>, loose: set<Conn>)
    requires Accounted(n, handed, loose) && k <= |rounds| && Answering(rounds, addresses)
    requires RoundsOpenNew(handed, rounds, k)
    ensures Accounted(DialRounds(n, addresses, rounds, k).0, OpenedInRounds(handed, rounds, k), loose)
  {
    if k > 0 {
      DialRoundsAccounts(n, addresses, rounds, k - 1, handed, loose);
      RoundsNext(n, addresses, rounds, k, handed);
      RoundAccounts(DialRounds(n, addresses, rounds, k - 1).0, DialRounds(n, addresses, rounds, k).0, addresses,
                    rounds[k - 1], OpenedInRounds(handed, rounds, k - 1), OpenedInRounds(handed, rounds, k), loose);
    }
  }
}
