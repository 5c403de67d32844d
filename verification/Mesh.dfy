/**
The carrier together with the trust store: runs in which store operations alternate with
connections whose peers are authenticated from the bytes they sent, against the store of
that moment (internal/transport/carrier_cluster.go, carrier_connection.go, bootstrap.go).
 */
module Mesh {
  import opened Base
  import opened Keys
  import opened Canonical
  import opened NodeRegistry
  import opened CarrierState
  import S = TrustStore
  import P = PeerVerification
  import H = Handshake
  import R = CarrierTheorems
  import A = PeerTheorems
  import Snapshot = TrustSnapshot
  import Q = Certification
  import F = WireForms

  /** What a peer sent on its authentication stream, the TLS session it came over, and the clock at its verification. */
  datatype Credentials = Credentials(stream: Bytes, session: H.Connection, clock: Int64)

  function Certs(certs: seq<Option<NodeCert>>): seq<NodeCert> {
    if certs == [] then []
    else (if certs[0].Some? then [certs[0].value] else []) + Certs(certs[1..])
  }

  /** Nothing is lost when every entry is there, as it is in what a reader returns. */
  lemma {:induction false} CertsOfAll(certs: seq<Option<NodeCert>>)
    requires forall i :: 0 <= i < |certs| ==> certs[i].Some?
    ensures |Certs(certs)| == |certs| && forall i :: 0 <= i < |certs| ==> Certs(certs)[i] == certs[i].value
  {
    if certs != [] {
      CertsOfAll(certs[1..]);
    }
  }

  /** The peer that the credentials authenticate against a store, if any. */
  function Authenticate(k: Crypto, t: S.Trust, from: Option<Credentials>): Option<Authenticated> {
    match from
    case None => None
    case Some(c) =>
      match H.ReadAuthHandshake(k, c.stream, c.session)
      case None => None
      case Some(hs) =>
        match P.Verify(k, t, hs, c.clock)
        case Err(_) => None
        case Ok(ctx) => Some(Authenticated(ctx.nodeID, ctx.scope, Certs(hs.certs)))
  }

  /** No credentials stand for a stream that failed, or for a handshake of our own that could not be sent. */
  datatype Event =
    | Operates(op: S.Op)
    | Takes(conn: Conn, from: Option<Credentials>, remote: Address, now: int, replied: bool)
    | Dials(addresses: seq<Address>, answers: map<Address, Conn>, from: Option<Credentials>, now: int)
    | Boots(address: Address, answer: Option<Conn>, from: Option<Credentials>, now: int)
    | Other(event: R.Event)

  function CredentialsOf(e: Event): Option<Credentials> {
    match e
    case Takes(_, from, _, _, _) => from
    case Dials(_, _, from, _) => from
    case Boots(_, _, from, _) => from
    case _ => None
  }

  /** The carrier event, with the peer as the store authenticates it. */
  function Carried(k: Crypto, t: S.Trust, e: Event): Option<R.Event> {
    match e
    case Operates(_) => None
    case Takes(conn, from, remote, now, replied) =>
      Some(R.Accepts(conn, Authenticate(k, t, from), remote, now, replied))
    case Dials(addresses, answers, from, now) => Some(R.Connects(addresses, answers, Authenticate(k, t, from), now))
    case Boots(address, answer, from, now) => Some(R.Bootstraps(address, Dial(answer, Authenticate(k, t, from), now)))
    case Other(event) => if R.Arrival(event) then None else Some(event)
  }

  datatype World = World(trust: S.Trust, net: Net)

  function Next(k: Crypto, self: NodeID, w: World, e: Event): World {
    if e.Operates? then w.(trust := S.Apply(k, w.trust, e.op).trust)
    else
      match Carried(k, w.trust, e)
      case None => w
      case Some(event) => w.(net := R.Step(w.net, self, event))
  }

  /** The world after a run from nothing. */
  function After(k: Crypto, self: NodeID, es: seq<Event>): World {
    if es == [] then World(S.EMPTY_TRUST, EMPTY_NET)
    else Next(k, self, After(k, self, es[..|es| - 1]), es[|es| - 1])
  }

  function Operations(es: seq<Event>): seq<S.Op> {
    if es == [] then []
    else Operations(es[..|es| - 1]) + if es[|es| - 1].Operates? then [es[|es| - 1].op] else []
  }

  /** The registration that an event makes. */
  function Registers(k: Crypto, w: World, e: Event): Option<(Authenticated, Conn)> {
    match Carried(k, w.trust, e)
    case None => None
    case Some(event) => R.Registered(w.net, event)
  }

  ghost predicate RegistersPeer(k: Crypto, w: World, e: Event, id: NodeID) {
    Registers(k, w, e).Some? && Registers(k, w, e).value.0.id == id
  }

  /** The store is where its operations alone take it. */
  lemma {:induction false} StoreFollowsOperations(k: Crypto, self: NodeID, es: seq<Event>)
    ensures After(k, self, es).trust == S.Run(k, S.EMPTY_TRUST, Operations(es))
  {
    if es != [] {
      var init, last := es[..|es| - 1], es[|es| - 1];
      StoreFollowsOperations(k, self, init);
      if last.Operates? {
        S.RunAppend(k, S.EMPTY_TRUST, Operations(init), [last.op]);
        S.RunOne(k, S.Run(k, S.EMPTY_TRUST, Operations(init)), last.op);
      } else {
        assert Operations(es) == Operations(init);
      }
    }
  }

  /** The maps agree, and a connected peer was just registered, or was connected before with the same scope. */
  ghost predicate Follows(n: Net, m: Net, r: Option<(Authenticated, Conn)>, id: NodeID) {
    && m.connections.Keys == m.scopes.Keys
    && (id in m.connections ==>
          if r.Some? && r.value.0.id == id then m.connections[id] == r.value.1 && m.scopes[id] == r.value.0.scope
          else
            && id in n.connections && m.connections[id] == n.connections[id]
            && id in n.scopes && m.scopes[id] == n.scopes[id])
  }

  lemma StepFollows(n: Net, self: NodeID, e: R.Event, id: NodeID)
    requires n.connections.Keys == n.scopes.Keys
    ensures Follows(n, R.Step(n, self, e), R.Registered(n, e), id)
  {
    R.StepConnections(n, self, e, id);
  }

  lemma NextConnections(k: Crypto, self: NodeID, w: World, e: Event, id: NodeID)
    requires w.net.connections.Keys == w.net.scopes.Keys
    ensures Follows(w.net, Next(k, self, w, e).net, Registers(k, w, e), id)
  {
    var event := Carried(k, w.trust, e);
    if event.Some? {
      StepFollows(w.net, self, event.value, id);
    }
  }

  /** A registration is of the peer that the event's credentials authenticate. */
  lemma RegisteredIsAuthenticated(k: Crypto, w: World, e: Event)
    ensures Registers(k, w, e).Some? ==> Authenticate(k, w.trust, CredentialsOf(e)) == Some(Registers(k, w, e).value.0)
  {
  }

  lemma {:induction false} MapsAgree(k: Crypto, self: NodeID, es: seq<Event>)
    ensures After(k, self, es).net.connections.Keys == After(k, self, es).net.scopes.Keys
  {
    if es != [] {
      MapsAgree(k, self, es[..|es| - 1]);
      NextConnections(k, self, After(k, self, es[..|es| - 1]), es[|es| - 1], ZERO_NODE_ID);
    }
  }

  /** Event i made the registration by which the peer is connected, and no later event registers it. */
  ghost predicate LastRegistration(k: Crypto, self: NodeID, es: seq<Event>, id: NodeID, i: nat) {
    && i < |es|
    && RegistersPeer(k, After(k, self, es[..i]), es[i], id)
    && (forall l | i < l < |es| :: !RegistersPeer(k, After(k, self, es[..l]), es[l], id))
  }

  ghost predicate ConnectedAs(w: World, id: NodeID, r: (Authenticated, Conn)) {
    && id in w.net.connections && w.net.connections[id] == r.1
    && id in w.net.scopes && w.net.scopes[id] == r.0.scope
  }

  lemma LastStays(k: Crypto, self: NodeID, es: seq<Event>, id: NodeID, i: nat)
    requires es != [] && LastRegistration(k, self, es[..|es| - 1], id, i)
    requires !RegistersPeer(k, After(k, self, es[..|es| - 1]), es[|es| - 1], id)
    ensures LastRegistration(k, self, es, id, i) && es[..|es| - 1][i] == es[i] && es[..|es| - 1][..i] == es[..i]
  {
    var init := es[..|es| - 1];
    assert init[..i] == es[..i];
    forall l | i < l < |es|
      ensures !RegistersPeer(k, After(k, self, es[..l]), es[l], id)
    {
      assert l < |init| ==> init[..l] == es[..l] && init[l] == es[l];
    }
  }

  lemma {:induction false} FindRegistration(k: Crypto, self: NodeID, es: seq<Event>, id: NodeID) returns (i: nat)
    requires id in After(k, self, es).net.connections
    ensures LastRegistration(k, self, es, id, i)
    ensures ConnectedAs(After(k, self, es), id, Registers(k, After(k, self, es[..i]), es[i]).value)
  {
    var init, last := es[..|es| - 1], es[|es| - 1];
    var w := After(k, self, init);
    MapsAgree(k, self, init);
    NextConnections(k, self, w, last, id);
    if RegistersPeer(k, w, last, id) {
      i := |es| - 1;
    } else {
      i := FindRegistration(k, self, init, id);
      LastStays(k, self, es, id, i);
    }
  }

  /**
  In every run of store operations and carrier events, a connected peer has the scope that
  verification gave it at its last registration, from the bytes it sent over that session
  and against the store of that moment.
   */
  lemma ConnectionsAreVerified(k: Crypto, self: NodeID, es: seq<Event>, id: NodeID)
    returns (i: nat, c: Credentials, hs: P.PeerHandshake)
    requires id in After(k, self, es).net.connections
    ensures LastRegistration(k, self, es, id, i) && CredentialsOf(es[i]) == Some(c)
    ensures H.ReadAuthHandshake(k, c.stream, c.session) == Some(hs)
    ensures var r := P.Verify(k, S.Run(k, S.EMPTY_TRUST, Operations(es[..i])), hs, c.clock);
            && r.Ok? && r.value.nodeID == id
            && id in After(k, self, es).net.scopes && After(k, self, es).net.scopes[id] == r.value.scope
    ensures var certs := Registers(k, After(k, self, es[..i]), es[i]).value.0.certs;
            |certs| == |hs.certs| && forall j :: 0 <= j < |certs| ==> hs.certs[j] == Some(certs[j])
  {
    i := FindRegistration(k, self, es, id);
    RegisteredIsAuthenticated(k, After(k, self, es[..i]), es[i]);
    StoreFollowsOperations(k, self, es[..i]);
    c := CredentialsOf(es[i]).value;
    hs := H.ReadAuthHandshake(k, c.stream, c.session).value;
    F.ReadIsConsistent(k, c.stream, c.session);
    CertsOfAll(hs.certs);
  }

  /**
  So every connected peer was certified, at its last registration, by a trusted admin or a
  user CA shown to be anchored to one.
   */
  lemma ConnectedIsCertified(k: Crypto, self: NodeID, es: seq<Event>, id: NodeID)
    returns (i: nat, hs: P.PeerHandshake, p: Snapshot.Pair, ca: PublicKey)
    requires id in After(k, self, es).net.connections
    ensures LastRegistration(k, self, es, id, i) && |hs.certs| == |hs.caSigs| && p in P.Pairs(hs)
    ensures CredentialsOf(es[i]).Some?
    ensures var c := CredentialsOf(es[i]).value; H.ReadAuthHandshake(k, c.stream, c.session) == Some(hs)
    ensures k.nodeID(p.body.pub) == Some(id)
    ensures Q.CertifiedBy(k, S.Run(k, S.EMPTY_TRUST, Operations(es[..i])), hs.authorities, ca, p)
  {
    var c;
    i, c, hs := ConnectionsAreVerified(k, self, es, id);
    var ops := Operations(es[..i]);
    A.AcceptedIsCertified(k, ops, hs, c.clock);
    p, ca :| p in P.Pairs(hs) && k.nodeID(p.body.pub) == Some(id)
          && Q.CertifiedBy(k, S.Run(k, S.EMPTY_TRUST, ops), hs.authorities, ca, p);
  }
}
