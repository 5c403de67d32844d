/**
The carrier's connection state (internal/transport) as values: the connection and scope
maps, the registry, and what each operation does to them.
 */
module CarrierState {
  import opened Base
  import opened Keys
  import opened Canonical
  import opened Access
  import opened NodeRegistry
  import opened Gossip

  /** Connections are compared by identity. */
  type Conn = nat

  datatype Net = Net(
    connections: map<NodeID, Conn>,
    scopes: map<NodeID, Scope>,
    nodes: Nodes,
    closed: set<Conn>)

  const EMPTY_NET := Net(map[], map[], map[], {})

  /** A peer that has passed authentication. */
  datatype Authenticated = Authenticated(id: NodeID, scope: Scope, certs: seq<NodeCert>)

  // ----- Operations -----

  function PeerNode(peer: Authenticated, addresses: seq<Address>, now: int): Node {
    Node(peer.id, Compact(addresses), peer.certs, ROLE_SERVER, Some(now), Connected)
  }

  /** Registration fails only for the zero identifier; it supersedes an earlier connection without closing it. */
  function Register(n: Net, peer: Authenticated, conn: Conn, addresses: seq<Address>, now: int): Option<Net> {
    match WithNode(n.nodes, PeerNode(peer, addresses, now))
    case None => None
    case Some(nodes) =>
      Some(n.(nodes := nodes, connections := n.connections[peer.id := conn], scopes := n.scopes[peer.id := peer.scope]))
  }

  function Close(n: Net, conn: Conn): Net {
    n.(closed := n.closed + {conn})
  }

  function Disconnect(n: Net, id: NodeID): Net {
    n.(connections := n.connections - {id}, scopes := n.scopes - {id})
  }

  /** Leaving closes and forgets the connection, unless closing fails; the registry is not told. */
  function Leave(n: Net, id: NodeID, closes: bool): Net {
    if id !in n.connections || !closes then n else Disconnect(Close(n, n.connections[id]), id)
  }

  function Remove(n: Net, id: NodeID): Net {
    var m := if id in n.connections then Close(n, n.connections[id]) else n;
    Disconnect(m, id).(nodes := n.nodes - {id})
  }

  /** A superseded connection is left alone. */
  function Drop(n: Net, id: NodeID, conn: Conn): Net {
    if id !in n.connections || n.connections[id] != conn then n
    else Disconnect(Close(n, conn), id).(nodes := WithStatus(n.nodes, id, Disconnected))
  }

  function MarkSeen(n: Net, id: NodeID, seenAt: int): Net {
    n.(nodes := WithStatus(WithLastSeen(n.nodes, id, seenAt), id, Connected))
  }

  /** Failure is recorded even when the connection was not the current one. */
  function MarkFailed(n: Net, id: NodeID, conn: Conn): Net {
    var m := Drop(n, id, conn);
    m.(nodes := WithStatus(m.nodes, id, Failed))
  }

  /** A heartbeat marks its sender, overwrites the sender's role and merges the reported nodes. */
  function HandleHeartbeat(n: Net, self: NodeID, sender: NodeID, role: int, entries: seq<Entry>, now: int): Net {
    var m := MarkSeen(n, sender, now);
    if sender !in m.nodes then m else m.(nodes := MergeAll(WithRole(m.nodes, sender, role), self, entries))
  }

  const MAX_DURATION := 0x7FFF_FFFF_FFFF_FFFF
  const MIN_DURATION := -0x8000_0000_0000_0000

  /** Time differences saturate at the range of a 64-bit duration. */
  function Age(now: int, seenAt: int): int {
    var d := now - seenAt;
    if d > MAX_DURATION then MAX_DURATION else if d < MIN_DURATION then MIN_DURATION else d
  }

  /** Connected peers that have been silent for longer than the timeout. */
  function Stale(n: Net, now: int, timeout: Int64): set<NodeID> {
    set id | id in n.nodes && id in n.connections && n.nodes[id].lastSeen.Some?
      && Age(now, n.nodes[id].lastSeen.value) > timeout
  }

  /** Connected non-client peers to which a heartbeat could not be delivered. */
  function Unanswered(n: Net, delivered: set<NodeID>): set<NodeID> {
    set id | id in n.nodes && id in n.connections && n.nodes[id].role != ROLE_CLIENT && id !in delivered
  }

  /** Some peers lose their connection and are marked as failed. */
  function Evict(n: Net, ids: set<NodeID>): Net {
    Net(n.connections - ids,
        n.scopes - ids,
        map id | id in n.nodes :: if id in ids then n.nodes[id].(status := Failed) else n.nodes[id],
        n.closed + set id | id in ids && id in n.connections :: n.connections[id])
  }

  // ----- Connections that are accepted or dialled -----

  /**
  An accepted connection: its peer, if it authenticated, and whether our own credentials
  could be sent back.  A reply that fails closes the connection without taking the peer back out.
   */
  function Incoming(n: Net, conn: Conn, peer: Option<Authenticated>, remote: Address, now: int, replied: bool): Net {
    if peer.None? then Close(n, conn)
    else
      match Register(n, peer.value, conn, [remote], now)
      case None => Close(n, conn)
      case Some(m) => if replied then m else Close(m, conn)
  }

  /** The first address that answers. */
  function FirstAnswer(addresses: seq<Address>, answers: map<Address, Conn>): Option<Address> {
    if addresses == [] then None
    else if addresses[0] in answers then Some(addresses[0])
    else FirstAnswer(addresses[1..], answers)
  }

  /** A dialled connection: authenticate both ways, then register, or close it. */
  function Establish(n: Net, conn: Conn, peer: Option<Authenticated>, address: Address, now: int): (r: (Net, bool)) {
    if peer.None? then (Close(n, conn), false)
    else
      match Register(n, peer.value, conn, [address], now)
      case None => (Close(n, conn), false)
      case Some(m) => (m, true)
  }

  /** Connecting to a known node over the first of its addresses that answers. */
  function Connect(n: Net, addresses: seq<Address>, answers: map<Address, Conn>, peer: Option<Authenticated>,
                   now: int): (r: (Net, bool)) {
    match FirstAnswer(Compact(addresses), answers)
    case None => (n, false)
    case Some(a) => if a in answers then Establish(n, answers[a], peer, a, now) else (n, false)
  }

  /** What the dialling of one bootstrap address meets. */
  datatype Dial = Dial(answer: Option<Conn>, peer: Option<Authenticated>, now: int)

  /** A bootstrap peer that is already connected counts as reached, and the new connection is closed. */
  function DialAddress(n: Net, address: Address, d: Dial): (r: (Net, bool)) {
    if d.answer.None? then (n, false)
    else if d.peer.Some? && d.peer.value.id in n.connections then (Close(n, d.answer.value), true)
    else Establish(n, d.answer.value, d.peer, address, d.now)
  }

  /** The first k addresses of one bootstrap round: the state reached and the number of peers reached. */
  function DialFirst(n: Net, addresses: seq<Address>, round: seq<Dial>, k: nat): (r: (Net, nat))
    requires k <= |addresses| == |round|
  {
    if k == 0 then (n, 0)
    else
      var (m, count) := DialFirst(n, addresses, round, k - 1);
      var (m', ok) := DialAddress(m, addresses[k - 1], round[k - 1]);
      (m', if ok then count + 1 else count)
  }

  /** What each dial of each round meets, for every bootstrap address. */
  predicate Answering(rounds: seq<seq<Dial>>, addresses: seq<Address>) {
    forall k | 0 <= k < |rounds| :: |rounds[k]| == |addresses|
  }

  /** The state after k bootstrap rounds, and the number of peers that each round reached. */
  function DialRounds(n: Net, addresses: seq<Address>, rounds: seq<seq<Dial>>, k: nat): (r: (Net, seq<nat>))
    requires k <= |rounds| && Answering(rounds, addresses)
    ensures |r.1| == k
  {
    if k == 0 then (n, [])
    else
      var (m, counts) := DialRounds(n, addresses, rounds, k - 1);
      var (m', count) := DialFirst(m, addresses, rounds[k - 1], |addresses|);
      (m', counts + [count])
  }

  const DEFAULT_BOOTSTRAP_RETRIES := 4

  function BootstrapRetries(configured: int): nat {
    if configured > 0 then configured else DEFAULT_BOOTSTRAP_RETRIES
  }

  /**
  How a bootstrap attempt may end, given the peers that each of its rounds reached: it goes
  on while rounds reach nobody, and stops at a round that does, at a cancelled wait, or
  when the retries are used up.
   */
  ghost predicate Attempted(retries: nat, cancelled: set<nat>, joined: bool, reached: seq<nat>) {
    && 1 <= |reached| <= retries + 1
    && (joined <==> reached[|reached| - 1] > 0)
    && (forall k | 0 <= k < |reached| - 1 :: reached[k] == 0)
    && (forall k | 0 < k < |reached| :: k !in cancelled)
    && (!joined && |reached| <= retries ==> |reached| in cancelled)
  }

  function Repeat<T>(s: seq<T>, k: nat): seq<T> {
    if k == 0 then [] else Repeat(s, k - 1) + s
  }
}
