/**
The trust store of internal/auth: admin CAs, user CAs anchored by an admin, and three
capped revocation sets.  Trust is the value of the store; CarrierAuth is the object that
updates it; Run is an arbitrary history of updates.
 */
module TrustStore {
  import opened Base
  import opened Wire
  import opened Keys
  import opened Canonical

  datatype AuthError =
    | ErrInvalidKey
    | ErrNoCerts
    | ErrBundleTooLarge
    | ErrSignatureCountMismatch
    | ErrNilDelegationProof
    | ErrInvalidDelegationSig
    | ErrNilCertEntry
    | ErrUnsupportedCertVersion
    | ErrNodeIDDerivation
    | ErrStatefulCert
    | ErrUnknownIssuer
    | ErrNoValidCerts
    | ErrMismatchedNodeID
    | ErrInvalidBindingField
    | ErrTLSBindingMismatch
    | ErrCanonicalEncoding
    | ErrBundleHashMismatch
    | ErrDelegationExpired
    | ErrDelegationTooLong
    | ErrCAAlreadyExists
    | ErrCARevoked
    | ErrCANotFound
    | ErrAnchorAdminNotFound
    | ErrAnchorAdminRevoked
    | ErrInvalidAnchorSig
    | ErrRevocationStoreFull

  const MAX_REVOCATION_ENTRIES := 100_000

  // ----- Signature contexts -----

  function Ascii(s: string): (b: Bytes)
    ensures |b| == |s| && forall i :: 0 <= i < |s| && s[i] as int < 0x80 ==> b[i] == s[i] as int
  {
    seq(|s|, i requires 0 <= i < |s| => if s[i] as int < 0x80 then s[i] as int else 0)
  }

  const CTX_NODE_ADMISSION: Bytes := Ascii("OUROBOROS_NODE_ADMISSION_V1")
  const CTX_USER_CA_ANCHOR: Bytes := Ascii("OUROBOROS_USER_CA_ANCHOR_V1")
  const CTX_NODE_DELEGATION: Bytes := Ascii("OUROBOROS_NODE_DELEGATION_V1")

  /** A message signed for one purpose is never a message of another purpose. */
  lemma ContextsSeparate(x: Bytes, y: Bytes)
    ensures DomainSeparate(CTX_NODE_ADMISSION, x) != DomainSeparate(CTX_USER_CA_ANCHOR, y)
    ensures DomainSeparate(CTX_NODE_ADMISSION, x) != DomainSeparate(CTX_NODE_DELEGATION, y)
    ensures DomainSeparate(CTX_USER_CA_ANCHOR, x) != DomainSeparate(CTX_NODE_DELEGATION, y)
  {
    assert CTX_NODE_ADMISSION[10] == 'N' as int && CTX_USER_CA_ANCHOR[10] == 'U' as int;
    assert |CTX_NODE_ADMISSION| == 27 && |CTX_USER_CA_ANCHOR| == 27 && |CTX_NODE_DELEGATION| == 28;
    if DomainSeparate(CTX_NODE_ADMISSION, x) == DomainSeparate(CTX_USER_CA_ANCHOR, y) {
      DomainSeparateInjective(CTX_NODE_ADMISSION, x, CTX_USER_CA_ANCHOR, y);
    }
    if DomainSeparate(CTX_NODE_ADMISSION, x) == DomainSeparate(CTX_NODE_DELEGATION, y) {
      DomainSeparateInjective(CTX_NODE_ADMISSION, x, CTX_NODE_DELEGATION, y);
    }
    if DomainSeparate(CTX_USER_CA_ANCHOR, x) == DomainSeparate(CTX_NODE_DELEGATION, y) {
      DomainSeparateInjective(CTX_USER_CA_ANCHOR, x, CTX_NODE_DELEGATION, y);
    }
  }

  // ----- Certificate authorities -----

  datatype AdminCA = AdminCA(pub: PublicKey, hash: Bytes)

  datatype UserCA = UserCA(pub: PublicKey, hash: Bytes, anchorSig: Bytes, anchorAdmin: Bytes)

  function NewAdminCA(k: Crypto, pubKey: Bytes): Option<AdminCA> {
    match SplitAndParsePubKey(k, pubKey)
    case None => None
    case Some(pub) => Some(AdminCA(pub, CAHash(k, pub)))
  }

  function NewUserCA(k: Crypto, pubKey: Bytes, anchorSig: Bytes, anchorAdmin: Bytes): Option<UserCA> {
    match SplitAndParsePubKey(k, pubKey)
    case None => None
    case Some(pub) => Some(UserCA(pub, CAHash(k, pub), anchorSig, anchorAdmin))
  }

  /** The message an admin signs to anchor a user CA. */
  function AnchorMessage(pub: PublicKey): Bytes {
    DomainSeparate(CTX_USER_CA_ANCHOR, MarshalPubKey(pub))
  }

  /**
  The fields that a CA fills in from a certificate, independently of the canonical encoder, to
  rebuild the signed message.
   */
  function AdmissionFields(c: CertBody): seq<Field> {
    [ Field(1, VarintValue(c.version)),
      Field(2, LenValue(MarshalPubKey(c.pub))),
      Field(3, LenValue(c.issuer)),
      Field(4, VarintValue(Uint64(c.validFrom))),
      Field(5, VarintValue(Uint64(c.validUntil))),
      Field(6, LenValue(c.serial)),
      Field(7, LenValue(c.nonce)) ]
  }

  /** The message a CA signs to admit a node. */
  function AdmissionMessage(c: CertBody): Bytes {
    DomainSeparate(CTX_NODE_ADMISSION, EncodeMessage(AdmissionFields(c)))
  }

  /** A CA's check of its signature on a certificate; yields the node identifier of the certified key. */
  function VerifyNodeCert(k: Crypto, ca: PublicKey, c: CertBody, sig: Bytes): Option<NodeID> {
    if ValidUtf8(c.issuer) && k.verify(ca, AdmissionMessage(c), sig) then k.nodeID(c.pub) else None
  }

  /** The check succeeds exactly when the CA's key verifies the canonical certificate, and that can be built. */
  lemma VerifyNodeCertIff(k: Crypto, ca: PublicKey, c: CertBody, sig: Bytes)
    ensures VerifyNodeCert(k, ca, c, sig) ==
            var enc := CanonicalNodeCert(c);
            if enc.Some? && k.verify(ca, DomainSeparate(CTX_NODE_ADMISSION, enc.value), sig)
            then k.nodeID(c.pub)
            else None
  {
    assert AdmissionFields(c) == CertSlots(c);
  }

  /** One CA signature covers one certificate: the signed message fixes all seven fields. */
  lemma AdmissionMessageInjective(c: CertBody, d: CertBody)
    ensures AdmissionMessage(c) == AdmissionMessage(d) <==> c == d
  {
    assert |CTX_NODE_ADMISSION| == 27;
    assert AdmissionFields(c) == CertSlots(c) && AdmissionFields(d) == CertSlots(d);
    if AdmissionMessage(c) == AdmissionMessage(d) {
      DomainSeparateInjective(CTX_NODE_ADMISSION, CertBytes(c), CTX_NODE_ADMISSION, CertBytes(d));
      CertBytesInjective(c, d);
    }
  }

  // ----- The store as a value -----

  datatype Trust = Trust(
    adminCAs: map<Bytes, AdminCA>,
    userCAs: map<Bytes, UserCA>,
    revokedAdmins: set<Bytes>,
    revokedUsers: set<Bytes>,
    revokedNodes: set<NodeID>)

  const EMPTY_TRUST := Trust(map[], map[], {}, {}, {})

  /** The store after an operation, and the error it returned, if any. */
  datatype Outcome = Outcome(trust: Trust, error: Option<AuthError>)

  function Fail(t: Trust, e: AuthError): Outcome {
    Outcome(t, Some(e))
  }

  function AddAdmin(k: Crypto, t: Trust, pubKey: Bytes): Outcome {
    match NewAdminCA(k, pubKey)
    case None => Fail(t, ErrInvalidKey)
    case Some(admin) =>
      if admin.hash in t.adminCAs then Fail(t, ErrCAAlreadyExists)
      else if admin.hash in t.revokedAdmins then Fail(t, ErrCARevoked)
      else Outcome(t.(adminCAs := t.adminCAs[admin.hash := admin]), None)
  }

  function VerifyAnchor(k: Crypto, t: Trust, user: UserCA): Option<AuthError> {
    if user.anchorAdmin !in t.adminCAs then Some(ErrAnchorAdminNotFound)
    else if user.anchorAdmin in t.revokedAdmins then Some(ErrAnchorAdminRevoked)
    else if !k.verify(t.adminCAs[user.anchorAdmin].pub, AnchorMessage(user.pub), user.anchorSig)
    then Some(ErrInvalidAnchorSig)
    else None
  }

  function AddUser(k: Crypto, t: Trust, pubKey: Bytes, anchorSig: Bytes, anchorAdmin: Bytes): Outcome {
    match NewUserCA(k, pubKey, anchorSig, anchorAdmin)
    case None => Fail(t, ErrInvalidKey)
    case Some(user) =>
      if user.hash in t.userCAs then Fail(t, ErrCAAlreadyExists)
      else if user.hash in t.revokedUsers then Fail(t, ErrCARevoked)
      else
        match VerifyAnchor(k, t, user)
        case Some(e) => Fail(t, e)
        case None => Outcome(t.(userCAs := t.userCAs[user.hash := user]), None)
  }

  /** Adds to a revocation set unless it is full. */
  function Capped<T>(s: set<T>, x: T): set<T> {
    if |s| < MAX_REVOCATION_ENTRIES then s + {x} else s
  }

  /** Removal revokes only while there is room: a full set leaves the CA unlisted. */
  function RemoveAdmin(t: Trust, hash: Bytes): Outcome {
    if hash !in t.adminCAs then Fail(t, ErrCANotFound)
    else Outcome(t.(adminCAs := t.adminCAs - {hash}, revokedAdmins := Capped(t.revokedAdmins, hash)), None)
  }

  function RemoveUser(t: Trust, hash: Bytes): Outcome {
    if hash !in t.userCAs then Fail(t, ErrCANotFound)
    else Outcome(t.(userCAs := t.userCAs - {hash}, revokedUsers := Capped(t.revokedUsers, hash)), None)
  }

  function RevokeAdmin(t: Trust, hash: Bytes): Outcome {
    if |t.revokedAdmins| >= MAX_REVOCATION_ENTRIES then Fail(t, ErrRevocationStoreFull)
    else Outcome(t.(revokedAdmins := t.revokedAdmins + {hash}, adminCAs := t.adminCAs - {hash}), None)
  }

  function RevokeUser(t: Trust, hash: Bytes): Outcome {
    if |t.revokedUsers| >= MAX_REVOCATION_ENTRIES then Fail(t, ErrRevocationStoreFull)
    else Outcome(t.(revokedUsers := t.revokedUsers + {hash}, userCAs := t.userCAs - {hash}), None)
  }

  function RevokeNode(t: Trust, node: NodeID): Outcome {
    if |t.revokedNodes| >= MAX_REVOCATION_ENTRIES then Fail(t, ErrRevocationStoreFull)
    else Outcome(t.(revokedNodes := t.revokedNodes + {node}), None)
  }

  // ----- The store as an object -----

  /** A map that is shared by reference; a set is a map to nothing. */
  class Table<K(==), V> {
    var entries: map<K, V>

    constructor ()
      ensures entries == map[]
    {
      entries := map[];
    }
  }

  /** The five maps of a store or of a snapshot of one. */
  datatype Tables = Tables(
    admins: Table<Bytes, AdminCA>,
    users: Table<Bytes, UserCA>,
    revokedAdmins: Table<Bytes, ()>,
    revokedUsers: Table<Bytes, ()>,
    revokedNodes: Table<NodeID, ()>)

  ghost function Cells(ts: Tables): set<object> {
    {ts.admins as object, ts.users as object, ts.revokedAdmins as object, ts.revokedUsers as object,
     ts.revokedNodes as object}
  }

  /** No map is used for two purposes. */
  ghost predicate Separate(ts: Tables) {
    var nodes: object := ts.revokedNodes;
    ts.revokedAdmins != ts.revokedUsers && nodes != ts.revokedAdmins && nodes != ts.revokedUsers
  }

  function Read(ts: Tables): Trust
    reads ts.admins, ts.users, ts.revokedAdmins, ts.revokedUsers, ts.revokedNodes
  {
    Trust(ts.admins.entries, ts.users.entries, ts.revokedAdmins.entries.Keys, ts.revokedUsers.entries.Keys,
          ts.revokedNodes.entries.Keys)
  }

  class CarrierAuth {
    const k: Crypto
    const maps: Tables

    ghost predicate Valid() {
      Separate(maps)
    }

    ghost function State(): Trust
      reads Cells(maps)
    {
      Read(maps)
    }

    constructor (k: Crypto)
      ensures this.k == k && Valid() && State() == EMPTY_TRUST && fresh(Cells(maps))
    {
      this.k := k;
      var admins := new Table<Bytes, AdminCA>();
      var users := new Table<Bytes, UserCA>();
      var revokedAdmins := new Table<Bytes, ()>();
      var revokedUsers := new Table<Bytes, ()>();
      var revokedNodes := new Table<NodeID, ()>();
      maps := Tables(admins, users, revokedAdmins, revokedUsers, revokedNodes);
    }

    method AddAdminPubKey(pubKey: Bytes) returns (err: Option<AuthError>)
      requires Valid()
      modifies maps.admins
      ensures Outcome(State(), err) == AddAdmin(k, old(State()), pubKey)
    {
      var parsed := NewAdminCA(k, pubKey);
      if parsed.None? {
        return Some(ErrInvalidKey);
      }
      var admin := parsed.value;
      if admin.hash in maps.admins.entries {
        return Some(ErrCAAlreadyExists);
      }
      if admin.hash in maps.revokedAdmins.entries {
        return Some(ErrCARevoked);
      }
      maps.admins.entries := maps.admins.entries[admin.hash := admin];
      return None;
    }

    method AddUserPubKey(pubKey: Bytes, anchorSig: Bytes, anchorAdmin: Bytes) returns (err: Option<AuthError>)
      requires Valid()
      modifies maps.users
      ensures Outcome(State(), err) == AddUser(k, old(State()), pubKey, anchorSig, anchorAdmin)
    {
      var parsed := NewUserCA(k, pubKey, anchorSig, anchorAdmin);
      if parsed.None? {
        return Some(ErrInvalidKey);
      }
      var user := parsed.value;
      if user.hash in maps.users.entries {
        return Some(ErrCAAlreadyExists);
      }
      if user.hash in maps.revokedUsers.entries {
        return Some(ErrCARevoked);
      }
      err := VerifyAnchor(k, Read(maps), user);
      if err.None? {
        maps.users.entries := maps.users.entries[user.hash := user];
      }
    }

    method RemoveAdminPubKey(hash: Bytes) returns (err: Option<AuthError>)
      requires Valid()
      modifies maps.admins, maps.revokedAdmins
      ensures Outcome(State(), err) == RemoveAdmin(old(State()), hash)
    {
      if hash !in maps.admins.entries {
        return Some(ErrCANotFound);
      }
      maps.admins.entries := maps.admins.entries - {hash};
      if |maps.revokedAdmins.entries| < MAX_REVOCATION_ENTRIES {
        maps.revokedAdmins.entries := maps.revokedAdmins.entries[hash := ()];
      }
      return None;
    }

    method RemoveUserPubKey(hash: Bytes) returns (err: Option<AuthError>)
      requires Valid()
      modifies maps.users, maps.revokedUsers
      ensures Outcome(State(), err) == RemoveUser(old(State()), hash)
    {
      if hash !in maps.users.entries {
        return Some(ErrCANotFound);
      }
      maps.users.entries := maps.users.entries - {hash};
      if |maps.revokedUsers.entries| < MAX_REVOCATION_ENTRIES {
        maps.revokedUsers.entries := maps.revokedUsers.entries[hash := ()];
      }
      return None;
    }

    method RevokeUserCA(hash: Bytes) returns (err: Option<AuthError>)
      requires Valid()
      modifies maps.users, maps.revokedUsers
      ensures Outcome(State(), err) == RevokeUser(old(State()), hash)
    {
      if |maps.revokedUsers.entries| >= MAX_REVOCATION_ENTRIES {
        return Some(ErrRevocationStoreFull);
      }
      maps.revokedUsers.entries := maps.revokedUsers.entries[hash := ()];
      maps.users.entries := maps.users.entries - {hash};
      return None;
    }

    method RevokeAdminCA(hash: Bytes) returns (err: Option<AuthError>)
      requires Valid()
      modifies maps.admins, maps.revokedAdmins
      ensures Outcome(State(), err) == RevokeAdmin(old(State()), hash)
    {
      if |maps.revokedAdmins.entries| >= MAX_REVOCATION_ENTRIES {
        return Some(ErrRevocationStoreFull);
      }
      maps.revokedAdmins.entries := maps.revokedAdmins.entries[hash := ()];
      maps.admins.entries := maps.admins.entries - {hash};
      return None;
    }

    method RevokeNodeID(node: NodeID) returns (err: Option<AuthError>)
      requires Valid()
      modifies maps.revokedNodes
      ensures Outcome(State(), err) == RevokeNode(old(State()), node)
    {
      if |maps.revokedNodes.entries| >= MAX_REVOCATION_ENTRIES {
        return Some(ErrRevocationStoreFull);
      }
      maps.revokedNodes.entries := maps.revokedNodes.entries[node := ()];
      return None;
    }
  }

  // ----- Histories -----

  datatype Op =
    | OpAddAdmin(pubKey: Bytes)
    | OpAddUser(pubKey: Bytes, anchorSig: Bytes, anchorAdmin: Bytes)
    | OpRemoveAdmin(hash: Bytes)
    | OpRemoveUser(hash: Bytes)
    | OpRevokeAdmin(hash: Bytes)
    | OpRevokeUser(hash: Bytes)
    | OpRevokeNode(node: NodeID)

  function Apply(k: Crypto, t: Trust, op: Op): Outcome {
    match op
    case OpAddAdmin(pubKey) => AddAdmin(k, t, pubKey)
    case OpAddUser(pubKey, sig, anchor) => AddUser(k, t, pubKey, sig, anchor)
    case OpRemoveAdmin(hash) => RemoveAdmin(t, hash)
    case OpRemoveUser(hash) => RemoveUser(t, hash)
    case OpRevokeAdmin(hash) => RevokeAdmin(t, hash)
    case OpRevokeUser(hash) => RevokeUser(t, hash)
    case OpRevokeNode(node) => RevokeNode(t, node)
  }

  function Run(k: Crypto, t: Trust, ops: seq<Op>): Trust
    decreases |ops|
  {
    if ops == [] then t else Run(k, Apply(k, t, ops[0]).trust, ops[1..])
  }

  lemma RunHead(k: Crypto, t: Trust, op: Op, rest: seq<Op>)
    ensures Run(k, t, [op] + rest) == Run(k, Apply(k, t, op).trust, rest)
  {
    assert ([op] + rest)[1..] == rest;
  }

  lemma RunOne(k: Crypto, t: Trust, op: Op)
    ensures Run(k, t, [op]) == Apply(k, t, op).trust
  {
    assert [op] + [] == [op];
    RunHead(k, t, op, []);
  }

  lemma {:induction false} RunAppend(k: Crypto, t: Trust, ops: seq<Op>, more: seq<Op>)
    ensures Run(k, t, ops + more) == Run(k, Run(k, t, ops), more)
    decreases |ops|
  {
    if ops == [] {
      assert ops + more == more;
    } else {
      var op, rest := ops[0], ops[1..];
      assert ops == [op] + rest && ops + more == [op] + (rest + more);
      RunHead(k, t, op, rest);
      RunHead(k, t, op, rest + more);
      RunAppend(k, Apply(k, t, op).trust, rest, more);
    }
  }

  /** Some key filed under the anchor hash signed this user CA. */
  ghost predicate Anchored(k: Crypto, user: UserCA) {
    exists admin: PublicKey :: CAHash(k, admin) == user.anchorAdmin
      && k.verify(admin, AnchorMessage(user.pub), user.anchorSig)
  }

  /** What every history keeps. */
  ghost predicate Consistent(k: Crypto, t: Trust) {
    && t.adminCAs.Keys !! t.revokedAdmins
    && t.userCAs.Keys !! t.revokedUsers
    && |t.revokedAdmins| <= 100_000 && |t.revokedUsers| <= 100_000 && |t.revokedNodes| <= 100_000
    && (forall h :: h in t.adminCAs ==> t.adminCAs[h].hash == h == CAHash(k, t.adminCAs[h].pub))
    && (forall h :: h in t.userCAs ==> t.userCAs[h].hash == h == CAHash(k, t.userCAs[h].pub))
    && (forall h :: h in t.userCAs ==> Anchored(k, t.userCAs[h]))
  }

  lemma AddKeepsConsistent(k: Crypto, t: Trust, op: Op)
    requires Consistent(k, t) && (op.OpAddAdmin? || op.OpAddUser?)
    ensures Consistent(k, Apply(k, t, op).trust)
  {
    if op.OpAddUser? && Apply(k, t, op).trust != t {
      var user := NewUserCA(k, op.pubKey, op.anchorSig, op.anchorAdmin).value;
      assert CAHash(k, t.adminCAs[op.anchorAdmin].pub) == user.anchorAdmin;
      assert Anchored(k, user);
    }
  }

  lemma RemoveKeepsConsistent(k: Crypto, t: Trust, op: Op)
    requires Consistent(k, t) && (op.OpRemoveAdmin? || op.OpRemoveUser?)
    ensures Consistent(k, Apply(k, t, op).trust)
  {
  }

  lemma RevokeKeepsConsistent(k: Crypto, t: Trust, op: Op)
    requires Consistent(k, t) && (op.OpRevokeAdmin? || op.OpRevokeUser? || op.OpRevokeNode?)
    ensures Consistent(k, Apply(k, t, op).trust)
  {
  }

  lemma ApplyKeepsConsistent(k: Crypto, t: Trust, op: Op)
    requires Consistent(k, t)
    ensures Consistent(k, Apply(k, t, op).trust)
  {
    if op.OpAddAdmin? || op.OpAddUser? {
      AddKeepsConsistent(k, t, op);
    } else if op.OpRemoveAdmin? || op.OpRemoveUser? {
      RemoveKeepsConsistent(k, t, op);
    } else {
      RevokeKeepsConsistent(k, t, op);
    }
  }

  /** Revocation only grows. */
  ghost predicate RevocationGrows(t: Trust, u: Trust) {
    t.revokedAdmins <= u.revokedAdmins && t.revokedUsers <= u.revokedUsers && t.revokedNodes <= u.revokedNodes
  }

  lemma ApplyGrows(k: Crypto, t: Trust, op: Op)
    ensures RevocationGrows(t, Apply(k, t, op).trust)
  {
  }

  lemma {:induction false} RunGrows(k: Crypto, t: Trust, ops: seq<Op>)
    ensures RevocationGrows(t, Run(k, t, ops))
    decreases |ops|
  {
    if ops != [] {
      var u := Apply(k, t, ops[0]).trust;
      ApplyGrows(k, t, ops[0]);
      RunGrows(k, u, ops[1..]);
    }
  }

  /** Over every history of the store: it stays consistent and its revocation sets only grow. */
  lemma {:induction false} RunKeepsConsistent(k: Crypto, t: Trust, ops: seq<Op>)
    requires Consistent(k, t)
    ensures Consistent(k, Run(k, t, ops)) && RevocationGrows(t, Run(k, t, ops))
    decreases |ops|
  {
    RunGrows(k, t, ops);
    if ops != [] {
      ApplyKeepsConsistent(k, t, ops[0]);
      RunKeepsConsistent(k, Apply(k, t, ops[0]).trust, ops[1..]);
    }
  }
}
