# Verified model of OuroborosDB: peer authentication, canonical encoding, carrier state and log retention

OuroborosDB is a distributed database whose nodes authenticate each other with certificates
issued by admin CAs and by user CAs anchored to an admin, bind that authentication to a TLS
session by a short-lived delegation proof, and keep a mesh of connections alive by heartbeats
and gossip.  This project models that core in Dafny and proves what it guarantees, for every
store, handshake, clock reading, run and interleaving.

Check everything with `dafny verify dfyconfig.toml`.

## What is proved

**Peer authentication** (`TrustStore`, `StoreOperations`, `TrustSnapshot`, `Certification`,
`PeerVerification`, `Rejections`, `PeerTheorems`, `Revocation`, `Access`, `TrustChain`,
`Linearizability`). `VerifyPeerCert` accepts exactly the handshakes of a declarative predicate
that names the signatures and anchors themselves; an accepted peer was certified by a trusted
admin, or by a user CA whose stored or presented anchor signature verifies under one, and its
rights follow exactly from its certified certificates. Peer-supplied authorities confer no
admin rights; the order of certificates does not matter; revocation is permanent over every
history and never widens rights. Acceptance is not monotone in revocation: taking one of two
nodes out of a handshake can turn a mismatch into an acceptance. `RevocationIsNotMonotone`
gives such a handshake for every scheme in which an admin can sign, `RevokedVerifyIff` and
`RevocationAdmitsIff` give the exact condition for every revocation, and
`OnlyMismatchesAreAdmitted` shows that nothing but a mismatch is let in. Concurrent
verifications are modelled step by step, the copying of each map included, and each equals one
atomic verification of a version of the store that was current during the call.

**Encodings and delegation** (`Wire`, `Utf8`, `Canonical`, `Keys`, `Handshake`, `WireForms`).
The protobuf encodings are injective, a bundle encoding fixes exactly the multiset of
certificates, domain separation is unambiguous exactly for contexts below 2^32 bytes, and an
honest prover's handshake (signed, written, read and verified) is accepted exactly when one of
its certificates counts and the clock is inside the five-minute window. The window is exact
under 64-bit wrap-around.

**Carrier** (`NodeRegistry`, `Gossip`, `CarrierState`, `Carrier`, `CarrierTheorems`,
`CarrierEffects`, `CarrierStatus`, `CarrierLocks`, `Mesh`, `Broadcast`). Gossip is a
semilattice join and converges under any reordering, regrouping or duplication. The connection
invariant holds throughout a run exactly when every failure report names the connection in use.
Every connection handed to the carrier ends up in use or closed, never both, with the exact
exceptions (a superseded connection, a reply that could not be sent). Eviction, bootstrap
retries and broadcast retries are exact, from every state a run can reach. At lock granularity
the two maps always agree, and `InterleavingKeepsIff` says exactly which interleavings keep the
larger invariant; two races that do not are shown. A peer can stay marked as connected without
a connection, and then the reconnect loop overlooks it; `RunMarksIff` says exactly when. In
joint runs of store and carrier, every connected peer has the scope that verification gave it
at its last registration.

**Log retention** (`ClusterLog`). The in-place compaction is the filter, and over every run,
whatever the clock does, the stored entries are exactly those unexpired at the latest clean-up
after their recording.

## How it is modelled

- Signatures, SHA-256, node identifiers, key parsing and the TLS exporter are arbitrary
  functions over which every statement is quantified.  No hash is assumed injective: where the
  source relies on it, the conclusion is "or these two inputs collide".
- Objects that the source updates in place are classes with `modifies` clauses, each method
  proved against a function on the abstract state; loops are loops with invariants.  Theorems
  over runs are stated about those functions.
- Times are inputs.  Clock readings and certificate times are 64-bit, with the wrap-around of
  `NotAfter - NotBefore` and of `now + 300` written out.  Heartbeat ages saturate as 64-bit durations do.
- What the outside world decides (which dial is answered, which send is acknowledged, which
  wait is cancelled, whether a close fails) is a parameter.
- The diagram docs/diagrams/auth.mmd describes CBOR bundles sorted by public key and serial;
  the code uses Protocol Buffers sorted by the whole encoding, and the model follows the code.
- A reader of a handshake ignores the certificate version on the wire and always sets 1, as
  the code does; the model keeps this.

## Model

| member | source | states |
|---|---|---|
| Wire.VarintPrefixFree | proto/auth/canonical.proto:7-38 | No varint is a proper prefix of another followed by anything: the concatenation determines value and rest |
| Wire.FieldPrefixFree | proto/auth/canonical.proto:7-38 | An encoded field followed by any bytes determines number, wire type, value and rest |
| Wire.MessageInjective | proto/auth/canonical.proto:7-38 | Two messages with omitted defaults encode equally only if all their slots are equal |
| Wire.RepeatedInjective | proto/auth/canonical.proto:7-38 | A repeated bytes field determines its sequence of elements |
| Wire.DecodeFieldsRoundTrip | proto/auth/canonical.proto:7-38 | Decoding the encoding of any well-formed field list returns that list |
| Keys.MarshalPubKeyInjective | internal/auth/canonical/canonical.go:47-62 | The composite public key is determined by its marshalled bytes |
| Keys.SplitMarshalRoundTrip | internal/auth/ca/ca_base.go:29-43 | Splitting and parsing the marshalled key returns the key |
| Keys.ParsedIsSerialised | internal/auth/ca/ca_base.go:29-43 | Bytes that parse are the serialisation of the key they yield |
| Keys.HexReads | internal/auth/ca/admin_ca.go:78-85 | Hex is lower-case, two digits a byte, the high half first |
| Keys.CAHashReads | internal/auth/ca/admin_ca.go:78-85 | A CA is filed under the hex digits of the SHA-256 value of its signing key; the KEM half plays no part |
| Utf8.ValidUtf8Iff | internal/auth/canonical/canonical.go:66-84 | A string field is valid exactly when it encodes a sequence of Unicode scalar values, as RFC 3629 defines UTF-8 |
| Canonical.CertBytesInjective | internal/auth/canonical/canonical.go:66-84 | The canonical certificate determines all seven fields |
| Canonical.EncodeCerts | internal/auth/canonical/canonical.go:91-105 | The encoding loop yields every certificate's encoding in order, or fails exactly if an issuer is not valid UTF-8 |
| Canonical.EncodeNodeCertBundle | internal/auth/canonical/canonical.go:91-118 | The bundle is the sorted encodings as a repeated field, or an error for an issuer that is not UTF-8 |
| Canonical.LexLeqIff | internal/auth/canonical/canonical.go:106-110 | The order of encodings is that of bytes.Compare: smaller at the first difference, or a prefix |
| Canonical.SortIsUnique | internal/auth/canonical/canonical.go:106-110 | A sorted arrangement of given encodings is unique, so the in-place sort has one possible result |
| Canonical.SortPermutationIff | internal/auth/canonical/canonical.go:106-110 | Two lists of encodings sort to the same list if and only if they are permutations |
| Canonical.BundleBytesIff | internal/auth/canonical/canonical.go:91-118 | Two bundles encode equally if and only if they are the same multiset of certificates |
| Canonical.CanonicalDelegationProofInjective | internal/auth/canonical/canonical.go:122-135 | The canonical proof determines all of its fields |
| Canonical.ExporterContextIff | internal/auth/canonical/canonical.go:140-152 | Two proofs have the same exporter context if and only if they differ at most in the exporter binding |
| WireForms.CertDecodes | proto/auth/canonical.proto:7-15 | Decoded, a certificate has its seven fields under the numbers 1 to 7 |
| WireForms.BundleDecodes | proto/auth/canonical.proto:17-19 | Decoded, a bundle repeats field 1 with the encodings of its certificates in ascending order, and nothing else |
| WireForms.ExporterContextDecodes | proto/auth/canonical.proto:31-38 | Decoded, the exporter context has every proof field under its number and no field 2 |
| WireForms.SignedMessages | internal/auth/ca/ca_base.go:18-25 | Byte for byte, what is signed for admission, anchoring and delegation: four length bytes, the context string of the purpose, the canonical bytes |
| Canonical.CopyInto | internal/auth/canonical/canonical.go:159-172 | Copying writes exactly the given range of the buffer and nothing else |
| Canonical.FillDomainSeparated | internal/auth/canonical/canonical.go:159-172 | Filling the buffer in place yields length prefix, context and data |
| Canonical.DomainSeparateInjective | internal/auth/canonical/canonical.go:159-172 | For contexts below 2^32 bytes the separated message determines context and data |
| Canonical.DomainSeparateUnambiguousIff | internal/auth/canonical/canonical.go:159-172 | A context is never confused with another one of at most its length if and only if it is shorter than 2^32 bytes |
| TrustStore.ContextsSeparate | internal/auth/delegation/constants.go:3-5 | Messages signed for admission, anchoring and delegation are never equal |
| TrustStore.AdmissionMessageInjective | internal/auth/ca/ca_base.go:71-110 | The message a CA signs for a node is equal for two certificates if and only if all seven fields are |
| TrustStore.VerifyNodeCertIff | internal/auth/ca/ca_base.go:71-110 | The CA's check, which rebuilds the message itself, succeeds exactly when its key verifies the canonical certificate of canonical.go under the admission context, and yields the certified key's identifier |
| TrustStore.CarrierAuth.constructor | internal/auth/carrier_auth.go:178-189 | A new store is empty |
| TrustStore.CarrierAuth.AddAdminPubKey | internal/auth/carrier_auth.go:211-229 | New state and error for invalid, known and revoked keys and for success |
| TrustStore.CarrierAuth.AddUserPubKey | internal/auth/carrier_auth.go:233-283 | The same for user CAs, including the four outcomes of the anchor check |
| TrustStore.CarrierAuth.RemoveAdminPubKey | internal/auth/carrier_auth.go:287-300 | The CA is dropped, and revoked if the revocation set has room |
| TrustStore.CarrierAuth.RemoveUserPubKey | internal/auth/carrier_auth.go:304-317 | The same for user CAs |
| TrustStore.CarrierAuth.RevokeUserCA | internal/auth/carrier_auth.go:321-344 | Revoked and dropped, or refused unchanged when the set is full |
| TrustStore.CarrierAuth.RevokeAdminCA | internal/auth/carrier_auth.go:348-371 | The same for admin CAs |
| TrustStore.CarrierAuth.RevokeNodeID | internal/auth/carrier_auth.go:374-396 | The same for nodes |
| StoreOperations.AddAdminIff | internal/auth/carrier_auth.go:211-229 | An admin key is added unless known or revoked, with the error for each; one entry is gained and every other, and the other four maps, stay as they were |
| StoreOperations.AddUserIff | internal/auth/carrier_auth.go:233-283 | A user CA is added unless known, revoked, or its anchor is missing, revoked or did not sign it, with the error for each; one entry is gained and all else stays |
| StoreOperations.MalformedKeysAreRefused | internal/auth/carrier_auth.go:211-259 | Bytes that serialise no key are refused by both additions and change nothing |
| StoreOperations.RemoveAdminEffect | internal/auth/carrier_auth.go:287-300 | Exactly the named admin goes, and is revoked while fewer than 100000 are; an unknown one is an error |
| StoreOperations.RemoveUserEffect | internal/auth/carrier_auth.go:304-317 | The same for user CAs |
| StoreOperations.RevokeAdminEffect | internal/auth/carrier_auth.go:348-371 | With 100000 entries a revocation is refused; otherwise exactly this admin is revoked and no longer trusted |
| StoreOperations.RevokeUserEffect | internal/auth/carrier_auth.go:321-344 | The same for user CAs |
| StoreOperations.RevokeNodeEffect | internal/auth/carrier_auth.go:374-396 | The same for nodes |
| StoreOperations.RemoveIsRevoke | internal/auth/carrier_auth.go:287-317 | While there is room, removing a known CA is revoking it |
| StoreOperations.AddAdminCertifies | internal/auth/carrier_auth.go:211-229 | A new admin certifies exactly what it signed and is in force; certificates of other issuers keep their standing, except that those of user CAs anchored to it can be gained |
| StoreOperations.AddUserCertifies | internal/auth/carrier_auth.go:233-259 | A new user CA certifies exactly what it signed and is in force, and changes nothing for other issuers |
| TrustStore.RunGrows | internal/auth/carrier_auth.go:211-396 | Over every history, from any store, the three revocation sets only grow |
| TrustStore.RunKeepsConsistent | internal/auth/carrier_auth.go:211-396 | Over every history: trusted and revoked sets of a kind stay disjoint, no revocation set exceeds 100000, CAs are filed under their hash, every user CA carries a genuine anchor, and revocation sets only grow |
| TrustSnapshot.FilterThenAuthorize | internal/auth/trust_snapshot.go:71-122 | Filtering by validity and then checking signatures yields the pairs that satisfy both, in order |
| TrustSnapshot.FilterValidCerts | internal/auth/trust_snapshot.go:107-122 | The loop returns exactly the indices of valid certificates in order, or an error when there is none |
| TrustSnapshot.VerifyAuthority | internal/auth/trust_snapshot.go:317-374 | The accumulating loop with its early exit equals the summary of the counted pairs: one node, first key, an admin issuer or not, user issuers in order |
| TrustSnapshot.VerifyChain | internal/auth/trust_snapshot.go:71-85 | Both loops together compute the chain of the counted pairs |
| TrustSnapshot.CopyTable | internal/auth/trust_snapshot.go:27-57 | A map is copied entry by entry into a new one |
| TrustSnapshot.CopyTables | internal/auth/trust_snapshot.go:27-66 | A snapshot has the contents of the store and shares no map with it |
| TrustSnapshot.CheckEmbeddedAdmins | internal/auth/trust_snapshot.go:220-227 | The first loop returns the error of the first supplied admin that is malformed, revoked or unknown |
| TrustSnapshot.AddEmbeddedUserTo | internal/auth/trust_snapshot.go:260-295 | One supplied user CA is added in place, left as it is when known, or refused without a change; only the map of user CAs may be written |
| TrustSnapshot.AddEmbeddedUsersTo | internal/auth/trust_snapshot.go:228-235 | The second loop adds every supplied user CA in order, up to the first error |
| TrustSnapshot.ExtendSnapshot | internal/auth/trust_snapshot.go:194-237 | A clone is made and extended: admins are checked first, then users added, first error wins; every map of the clone is new, and nothing else is written |
| TrustSnapshot.EmbeddedAuthoritiesExtend | internal/auth/trust_snapshot.go:194-295 | An extended snapshot keeps the admin map, the revocation sets and all user CAs; each user CA it adds is unrevoked, filed under its own hash, and signed by the trusted, unrevoked admin it names |
| TrustSnapshot.ExtensionCounts | internal/auth/trust_snapshot.go:146-189 | Whatever was valid or counted before an extension still is, and admin-issued certificates count equally |
| Certification.AuthoritiesIff | internal/auth/trust_snapshot.go:194-295 | Supplied authorities are accepted if and only if every admin among them is trusted and unrevoked, and every user CA is unrevoked and known or backed, by itself or an earlier entry of its hash, by a trusted admin's signature |
| Certification.ExtendedUsers | internal/auth/trust_snapshot.go:260-295 | After the extension a hash stands for the store's user CA, or else for the first one supplied under it |
| Certification.CountsIff | internal/auth/trust_snapshot.go:126-189 | What counts over an extended snapshot is exactly what the store and the authorities certify: window, revocations, live anchor, and the issuer's signature on the canonical certificate |
| Certification.CountedIsCertified | internal/auth/trust_snapshot.go:378-407 | Over a consistent store, each certificate that counts was signed by the key of the trusted admin its issuer names, or by a user CA of that hash which the store holds, or the handshake presents, with a signature on its key that verifies under a key of a trusted, unrevoked admin |
| Access.NewAccessContext | internal/datacas/cas/privilege_checker.go:14-29 | The loop collects exactly the non-empty owners |
| PeerVerification.SnapshotCerts | internal/auth/snapshot.go:69-126 | The loop returns the bodies, or the error of the first entry that is nil, of another version, without identifier or inconsistent |
| PeerVerification.ValidateBindingFields | internal/auth/carrier_auth_verify.go:198-212 | The loop rejects exactly if some binding is not 32 bytes |
| PeerVerification.VerifyPeerCert | internal/auth/carrier_auth_verify.go:84-196 | The imperative pipeline, on a copy of the store's maps and a clone of the copy, computes the verdict for the store's state and writes to no object that existed before the call |
| PeerVerification.FreshnessIff | internal/auth/carrier_auth_verify.go:301-363 | With wrapping subtraction, freshness holds if and only if the clock is in the window, the window is at most 300 s wide as a mathematical difference, and the exporter and transcript bindings agree |
| PeerVerification.ProofIff | internal/auth/carrier_auth_verify.go:198-363 | The proof checks pass if and only if lengths, bindings, window, bundle hash and signature are all good |
| PeerVerification.ChainIff | internal/auth/trust_snapshot.go:107-374 | The chain succeeds if and only if some pair counts and all that count certify one node; its key is that of the first counted pair, admin if and only if an admin issued one, owners exactly the user issuers |
| PeerVerification.VerifyIff | internal/auth/carrier_auth_verify.go:84-389 | Verification accepts if and only if shape, versions, identifiers and authorities are good, the certified pairs are some and of one node, the proof is good, and the first certified pair's key signed it |
| Rejections.ShapeReason | internal/auth/carrier_auth_verify.go:216-233 | The error for no certificates, more than 1024, another number of signatures, no proof, or no signature, in that order |
| Rejections.CertReason | internal/auth/snapshot.go:69-126 | A well-shaped handshake is rejected for its first faulty certificate, with the error of its fault |
| Rejections.AuthorityReason | internal/auth/trust_snapshot.go:194-295 | With certificates in order, the first faulty admin decides the error, and without one the first user CA that is faulty beside those added before it |
| Rejections.ChainReason | internal/auth/trust_snapshot.go:317-374 | Without a certified pair the error is that there are no valid certificates; with pairs of two nodes it is the mismatch |
| Rejections.ProofReason | internal/auth/carrier_auth_verify.go:131-196 | With certified pairs of one node, the first fault of the proof under the first pair's key, in the order of the checks, is the error; without one the handshake is accepted |
| PeerVerification.RightsIff | internal/datacas/cas/privilege_checker.go:51-66 | For every store that a history can reach: scope is admin, and so flagged, if and only if a certified pair is admin-issued; otherwise the owners are exactly the issuers of certified pairs, and access is granted exactly to them |
| PeerVerification.IssuersAreNamed | internal/auth/trust_snapshot.go:146-170 | In a consistent store, extended or not, no CA is filed under the empty hash, so an empty owner is never granted |
| PeerTheorems.AuthoritiesConferNoAdmin | internal/auth/trust_snapshot.go:194-295 | An accepted admin gets the same result without its embedded authorities, or two of its keys collide |
| PeerTheorems.OrderIndependence | internal/auth/carrier_auth_verify.go:84-196 | Permuting the pairs changes neither acceptance (or two keys collide) nor node, scope and multiset of owners |
| PeerTheorems.AcceptedIsCertified | internal/auth/carrier_auth_verify.go:84-196 | For every store that a history can reach: an accepted peer presented a certificate of its node, signed by a trusted admin or by a user CA whose stored or presented anchor signature verifies under a trusted admin, and whose key delegated to this TLS session |
| Revocation.RevokedNeverCounts | internal/auth/trust_snapshot.go:126-189 | Nothing that counts, with or without authorities, was issued by a revoked CA, anchored to a revoked admin or certifies a revoked node |
| Revocation.RevocationIsPermanent | internal/auth/carrier_auth.go:321-396 | After a successful revocation and any further history, no verification counts a certificate that rests on what was revoked |
| Revocation.RemoveRevokesIff | internal/auth/carrier_auth.go:287-317 | Removing an admin or user CA revokes it if and only if the revocation set had room |
| Revocation.RemovedAdminReturnsIff | internal/auth/carrier_auth.go:211-300 | A removed admin can be added again if and only if the revocation set was full |
| Revocation.FullSetIsReachable | internal/auth/carrier_auth.go:287-300 | A history reaches a full revocation set with an admin still trusted; removing that admin then does not revoke it, and it can be added again |
| Revocation.RevocationNeverWidens | internal/auth/carrier_auth.go:321-396 | For any successful revocations, a handshake accepted before and after is the same node and gains no access |
| Revocation.CertifiedAfterIff | internal/auth/carrier_auth.go:321-396 | A successful revocation of an admin, a user CA or a node decertifies exactly the certificates that rest on it |
| Revocation.RevokedChainIff | internal/auth/trust_snapshot.go:349-355 | After any successful revocation the chain holds if and only if the certificates that counted and do not rest on it exist and certify one node |
| Revocation.AuthoritiesAfterIff | internal/auth/trust_snapshot.go:239-295 | After any successful revocation supplied authorities are accepted if and only if they were and do without what is revoked |
| Revocation.RevokedVerifyIff | internal/auth/carrier_auth_verify.go:84-196 | Acceptance after any successful revocation, as a condition on the store before it: authorities that do without it, and surviving certificates of one node whose first key signed the proof |
| Revocation.RevocationAdmitsIff | internal/auth/carrier_auth_verify.go:84-196 | A rejected handshake is accepted after a revocation if and only if its surviving certificates are accepted on and all its certified ones were not |
| Revocation.OnlyMismatchesAreAdmitted | internal/auth/trust_snapshot.go:349-355 | What a revocation turns from rejected to accepted was rejected for certifying two nodes, or two keys of the handshake collide |
| Revocation.RevocationCanAdmit | internal/auth/trust_snapshot.go:349-355 | Certificates of two nodes in one handshake are a mismatch; after a revocation that leaves those of one node, the handshake is accepted for that node |
| Revocation.RevocationIsNotMonotone | internal/auth/trust_snapshot.go:349-355 | For every scheme in which an admin with a node identifier can sign, every second node and every time: a whole handshake with real CA signatures, bundle hash and delegation is a mismatch before the second node is revoked and accepted after it, against the store that trusts this admin |
| Revocation.SigningSchemeExists | internal/auth/trust_snapshot.go:349-355 | Such schemes, admins and nodes exist |
| PeerTheorems.ProofLifetime | internal/auth/carrier_auth_verify.go:301-325 | Any two acceptances of one proof, in any stores, are at clock readings at most 300 s apart |
| PeerTheorems.ProofFixesBundle | internal/auth/carrier_auth_verify.go:279-296 | Any two acceptances of one proof carry the same multiset of certificates, or SHA-256 has a collision |
| Linearizability.VerificationIsLinearizable | internal/auth/carrier_auth_verify.go:104-129 | In every interleaving of steps, with the five maps copied one by one under the read lock, each answer equals an atomic verification of a version of the store that was current between call and answer; early rejections hold for every version |
| Linearizability.SnapshotIsOneVersion | internal/auth/trust_snapshot.go:27-66 | In every interleaving a completed copy is one version of the store, current since the call |
| Linearizability.TornCopy | internal/auth/carrier_auth_verify.go:104-109 | Maps copied before and after the revocation of a trusted admin make up a state that is neither, with that admin both trusted and revoked: the lock is needed |
| Linearizability.VerificationTerminates | internal/auth/carrier_auth_verify.go:84-196 | Whatever others do, a verification is finished after at most 2 steps for each authority and each certificate, and 14 more |
| Handshake.DecodeCertsLoop | internal/transport/auth_handshake.go:66-186 | The loop converts every certificate or fails at the first that does not parse |
| Handshake.DecodeAuthoritiesLoop | internal/transport/auth_handshake.go:66-186 | The loop converts every embedded authority |
| Handshake.EncodeAuthorities | internal/transport/auth_handshake.go:251-326 | The loop encodes every embedded authority in order |
| Handshake.WriteHandshake | internal/transport/auth_handshake.go:251-326 | The framed message, or an error for invalid UTF-8 or a payload above 1 MiB |
| Handshake.ReadHandshake | internal/transport/auth_handshake.go:66-186 | The handshake with the verifier's own bindings, or an error for a bad frame, message, key or exporter |
| WireForms.ReadFrameIff | internal/transport/auth_handshake.go:70-95 | A frame is read exactly when the stream starts with a big-endian length from 1 to 1 MiB and that many bytes |
| WireForms.ReadIsConsistent | internal/transport/auth_handshake.go:66-217 | Whatever arrives, a handshake that is read has version-1 certificates with the identifiers of their keys, a proof, and the reader's own digests and exports |
| Handshake.ReadWriteRoundTrip | internal/transport/auth_handshake.go:66-326 | Reading what was written returns certificates, signatures, authorities and proof, bound to the reader's connection |
| Handshake.AcceptedProofIsBound | internal/transport/auth_handshake.go:135-185 | An accepted proof names the connection's certificate and equals the verifier's own exports over that proof |
| Handshake.HonestDelegation | internal/auth/delegation/sign_delegation.go:62-156 | Signing succeeds, and its exporter value is the export over the finished proof |
| Handshake.HonestHandshakeAccepted | internal/auth/delegation/sign_delegation.go:62-156 | Signed, written, read and verified: an honest handshake within the size limit is accepted, as that key's node, if and only if some certificate counts and the clock lies in the 300 s after signing |
| TrustChain.AddEmbeddedTrust | pkg/authfile/authfile.go:350-391 | Both loops load admins, then users, into the store, stopping at the first error |
| TrustChain.BuildIff | pkg/authfile/authfile.go:293-344 | A chain is built for an admin, and for a user CA whose file has both halves of its anchor's key; for nothing else |
| TrustChain.LoadedAuthorities | pkg/authfile/authfile.go:350-361 | A file with a chain loads the whole chain; one without loads its top-level key as an admin |
| TrustChain.LoadTrustIff | pkg/authfile/authfile.go:350-391 | Loading succeeds exactly when all keys parse and all admins, then all users, can be added in order; the store is then the one those additions reach |
| TrustChain.LoadKindStops | pkg/authfile/authfile.go:362-389 | A pass stops at the first authority that cannot be added, with its error and with what was added before |
| TrustChain.AdminChainLoads | pkg/authfile/authfile.go:293-391 | An admin CA's chain loads into an empty store and makes exactly its current certificates valid, at admin scope |
| TrustChain.UserChainLoads | pkg/authfile/authfile.go:293-391 | An anchored user CA's chain loads and makes exactly its current certificates valid, at user scope if and only if the two hashes differ |
| TrustChain.UserChainPresents | internal/auth/trust_snapshot.go:239-295 | Any verifier that trusts the anchor, with neither CA revoked, accepts the chain as embedded authorities |
| TrustChain.AdminChainPresents | internal/auth/trust_snapshot.go:239-258 | An admin chain is accepted as embedded authority if and only if that admin is trusted and unrevoked, and changes nothing |
| NodeRegistry.CompactAddresses | internal/transport/carrier.go:296-310 | The loop with its seen map computes the compaction |
| NodeRegistry.CompactKeepsReachable | internal/transport/carrier.go:296-310 | Compaction keeps exactly the non-empty addresses, each once |
| CarrierEffects.CompactInOrder | internal/transport/carrier.go:296-310 | Compaction keeps the order in which addresses first occur |
| CarrierEffects.KnownAddressesFirst | internal/transport/node_registry.go:66-91 | In a merged entry the known addresses come first, in their order |
| NodeRegistry.Registry.constructor | internal/transport/node_registry.go:29-33 | A new registry is empty |
| NodeRegistry.Registry.AddNode | internal/transport/node_registry.go:35-91 | The zero identifier is refused unchanged; otherwise the node is filed, merged with what is known |
| NodeRegistry.Registry.RemoveNode | internal/transport/node_registry.go:93-103 | The node is gone and nothing else changes; an error if it was unknown |
| NodeRegistry.Registry.SetStatus | internal/transport/node_registry.go:146-159 | Only that node's status changes; an error if it is unknown |
| NodeRegistry.Registry.UpdateLastSeen | internal/transport/node_registry.go:131-144 | Only that node's time of last contact changes |
| NodeRegistry.Registry.SetRole | internal/transport/node_registry.go:161-174 | Only that node's role changes |
| NodeRegistry.Registry.GetAllNodes | internal/transport/node_registry.go:117-121 | Every node is listed once, in any order |
| NodeRegistry.Registry.GetUnreachableNodes | internal/transport/node_registry.go:194-205 | Exactly the nodes that are not connected are returned, each once |
| Gossip.MergeHeartbeatNodes | internal/transport/heartbeat.go:237-280 | The loop never errors, and computes the merged registry and the discovered nodes |
| Gossip.MergeHeartbeatNode | internal/transport/heartbeat.go:242-277 | One entry: zero and self are skipped, an unknown node is added and reported, a known one is merged |
| Gossip.MergeAllJoins | internal/transport/heartbeat.go:237-280 | Abstractly, merging a heartbeat is the join of what was known with what it tells |
| Gossip.JoinCommutes | internal/transport/node_registry.go:66-91 | The join is commutative |
| Gossip.JoinAssociates | internal/transport/node_registry.go:66-91 | The join is associative |
| Gossip.JoinIdempotent | internal/transport/node_registry.go:66-91 | The join is idempotent |
| Gossip.ToldBySet | internal/transport/heartbeat.go:237-280 | What a list of entries tells depends only on its set of entries |
| Gossip.RegroupingIsInvisible | internal/transport/heartbeat.go:237-280 | Heartbeats merged one after the other equal one heartbeat with all their entries |
| Gossip.GossipConverges | internal/transport/heartbeat.go:237-280 | Any reordering, regrouping or duplication of the same entries, with roles server and client, reaches the same addresses and roles |
| Gossip.RoleCommutesIff | internal/transport/node_registry.go:66-91 | Merging entries of a role is independent of the order, for every registry and every entry with a known role, if and only if the role is server or client |
| Gossip.MergeAllKeeps | internal/transport/heartbeat.go:237-280 | No known node loses an address, its status or its time of last contact |
| Gossip.DiscoveredIsExact | internal/transport/heartbeat.go:237-280 | Exactly the newly known nodes are returned, each once, never the zero identifier nor the receiver |
| CarrierEffects.GossipedNode | internal/transport/heartbeat.go:247-264 | A node made known by gossip is not connected, never seen and without certificates |
| CarrierEffects.HeartbeatJoins | internal/transport/heartbeat.go:212-235 | A heartbeat of a known peer records its time, status and role, and joins what it tells to what is known; an unknown sender changes nothing |
| Carrier.CarrierImpl.constructor | internal/transport/carrier.go:201-218 | A new carrier is online, without peers and connections |
| Carrier.CarrierImpl.RegisterPeer | internal/transport/carrier_cluster.go:267-292 | The registry, the connection and the scope are set, or nothing for the zero identifier |
| Carrier.CarrierImpl.LeaveCluster | internal/transport/carrier_cluster.go:17-32 | The connection is closed and forgotten, unless unknown or closing fails; the registry is unchanged |
| Carrier.CarrierImpl.RemoveNode | internal/transport/carrier_cluster.go:34-45 | Connection, scope and registry entry are gone |
| Carrier.CarrierImpl.DropConnection | internal/transport/carrier_dispatch.go:175-192 | Only the connection in use is closed and forgotten |
| Carrier.CarrierImpl.MarkPeerSeen | internal/transport/carrier_dispatch.go:194-203 | Time of last contact and status are set for a known peer |
| Carrier.CarrierImpl.MarkPeerFailed | internal/transport/carrier_dispatch.go:205-214 | The connection is dropped if in use, and the status is set to failed in any case |
| Carrier.CarrierImpl.HandleHeartbeatMessage | internal/transport/heartbeat.go:212-235 | The sender is marked and gets its role, then the entries are merged and the newly known nodes returned; an unknown sender changes nothing |
| Carrier.CarrierImpl.FailStalePeers | internal/transport/heartbeat.go:316-339 | The sweep, in any order of listing, evicts exactly the stale peers of its starting state |
| Carrier.CarrierImpl.SendHeartbeatBatch | internal/transport/heartbeat.go:117-145 | Exactly the connected non-client peers that could not be reached are evicted |
| Carrier.CarrierImpl.HandleIncomingConn | internal/transport/carrier_cluster.go:83-165 | An accepted connection is registered, or closed, or both when the reply fails |
| Carrier.CarrierImpl.DialKnownAddresses | internal/transport/carrier_connection.go:136-159 | Addresses are tried in order, each once, up to the first that answers |
| Carrier.CarrierImpl.EstablishPeer | internal/transport/carrier_connection.go:75-92 | A dialled connection whose peer authenticates and registers is in use; otherwise it is closed |
| Carrier.CarrierImpl.ConnectNode | internal/transport/carrier_connection.go:58-105 | The answered connection is registered or closed |
| Carrier.CarrierImpl.DialBootstrapAddr | internal/transport/bootstrap.go:101-164 | An already connected peer counts and the new connection is closed; otherwise registered or closed |
| Carrier.CarrierImpl.DialBootstrapAll | internal/transport/bootstrap.go:74-95 | Every address is tried once in order, and the successes are counted |
| Carrier.CarrierImpl.AttemptBootstrap | internal/transport/bootstrap.go:29-70 | With the configured number of retries, or 4 if it is not positive: at most one round more, all but the last without success, stopping at a success or a cancelled wait; offline only when all rounds are used up |
| Carrier.CarrierImpl.Reconnect | internal/transport/carrier.go:278-294 | Back online, then the bootstrap with its rounds and cancellations; offline again if and only if it is exhausted |
| CarrierTheorems.DropKeeps | internal/transport/carrier_dispatch.go:175-192 | Dropping changes nothing if and only if the connection is not the one in use, and keeps the invariant |
| CarrierTheorems.FailureKeepsIff | internal/transport/carrier_dispatch.go:205-214 | A failure report keeps the invariant if and only if the peer has no other connection in use |
| CarrierTheorems.StepKeepsIff | internal/transport/carrier_dispatch.go:175-214 | Of all operations only a failure report against a superseded connection breaks the invariant, and it always does |
| CarrierTheorems.RunKeepsIff | internal/transport/carrier_cluster.go:17-45 | Throughout a run every connected peer is known, connected, seen and non-zero, and the maps agree, if and only if every failure report names the connection in use |
| CarrierTheorems.SupersededFailure | internal/transport/carrier_dispatch.go:205-214 | Any peer that connects twice and is then reported as failed on its first connection breaks the invariant |
| CarrierTheorems.RunTracks | internal/transport/carrier_cluster.go:17-45 | In every run whatsoever, superseded failure reports included, every connected peer is known, seen and non-zero, and the two maps agree |
| CarrierTheorems.ConnectionsAreAuthenticated | internal/transport/carrier_cluster.go:267-292 | In every run a connected peer has the connection and the scope of its last authenticated registration |
| CarrierTheorems.ConnectionsAreAccounted | internal/transport/carrier_connection.go:58-105 | In every run each connection ends in use or closed, never both, unless it was superseded or its reply failed |
| CarrierTheorems.ArrivalSettlesIff | internal/transport/carrier_cluster.go:131-155 | A new connection leaves all connections either in use or closed if and only if its peer had none yet and its reply was sent |
| CarrierTheorems.StaleEvictionIsExact | internal/transport/heartbeat.go:316-339 | After any run, a sweep evicts exactly the connected peers for which now minus last contact exceeds the timeout as a number, the largest 64-bit timeout excepted; an evicted peer keeps its entry, is failed, closed and unreachable; nothing else changes |
| CarrierTheorems.BatchEvictionIsExact | internal/transport/heartbeat.go:117-145 | After any run, a round of heartbeats leaves exactly the connections reached or of clients; the others are failed and closed and nothing else changes |
| CarrierTheorems.RegistrationRecords | internal/transport/carrier_cluster.go:267-292 | A registered peer is connected, seen now, has its old and new addresses, stays a client if it was one, has the presented certificates, and nobody else is touched |
| CarrierEffects.ArrivalRecords | internal/transport/carrier_cluster.go:131-155 | A registered arrival records the address it came over, its time, connection and scope, and touches no other peer |
| CarrierEffects.FirstAnswerIff | internal/transport/carrier_connection.go:136-159 | The address found answers and none before it does |
| CarrierEffects.LeaveEffect | internal/transport/carrier_cluster.go:17-32 | Leaving closes and forgets the connection and its scope, and touches neither the registry nor another peer; otherwise nothing changes |
| CarrierEffects.RemoveEffect | internal/transport/carrier_cluster.go:34-45 | Removal takes connection, scope and entry of this peer, and touches no other |
| CarrierEffects.DropEffect | internal/transport/carrier_dispatch.go:175-192 | Dropping the connection in use closes it and leaves the peer disconnected, otherwise as it was; any other connection changes nothing |
| CarrierEffects.FailEffect | internal/transport/carrier_dispatch.go:205-214 | The peer is marked as failed in any case, and loses its connection if it is the one reported; no other peer is touched |
| CarrierEffects.SeenEffect | internal/transport/carrier_dispatch.go:194-203 | Time and status of a known peer are set; no connection and no other peer is touched |
| CarrierTheorems.DialFirstIff | internal/transport/bootstrap.go:74-95 | From any state without a zero-identifier connection, as every reachable state is, a round connects exactly the peers it reaches, disturbs no other, and counts some if and only if it reaches one |
| CarrierTheorems.DialFirstCounts | internal/transport/bootstrap.go:74-95 | A round counts exactly the dials that reach a peer |
| CarrierTheorems.DialRoundsJoin | internal/transport/bootstrap.go:29-95 | Any number of rounds connects exactly the peers they reach |
| CarrierTheorems.BootstrapOutcomeIff | internal/transport/bootstrap.go:29-70 | The attempt joins if and only if some round not cut off by a cancellation reaches a peer, and is exhausted if and only if no wait is cancelled and no round reaches anyone |
| CarrierTheorems.JoinedIsConnected | internal/transport/bootstrap.go:29-70 | After a successful last round its peers, at least one, are connected |
| CarrierTheorems.DialRoundsAccounts | internal/transport/bootstrap.go:101-164 | From any accounted state, over any number of rounds, every dialled connection ends in use or closed, never both, and none becomes an exception |
| CarrierStatus.NobodyOverlookedIff | internal/transport/node_registry.go:194-205 | The reconnect loop sees every known peer without a connection if and only if every peer marked as connected has one |
| CarrierStatus.StepMarksIff | internal/transport/carrier_cluster.go:17-32 | Given right marks, an event keeps them right if and only if it neither leaves a marked peer without telling the registry nor marks a known peer that has no connection |
| CarrierStatus.RunMarksIff | internal/transport/carrier_dispatch.go:194-203 | The marks are right throughout a run if and only if no event of it does either |
| CarrierStatus.LeftPeerIsOverlooked | internal/transport/carrier_cluster.go:17-32 | Any peer that is accepted and then leaves stays marked as connected and is not among the unreachable nodes |
| Mesh.StoreFollowsOperations | internal/transport/carrier_cluster.go:83-165 | In a joint run of store and carrier the store is where its own operations take it |
| Mesh.ConnectionsAreVerified | internal/transport/carrier_cluster.go:83-145 | In every joint run a connected peer has the identifier, the scope and the certificates of the handshake verified at its last registration, read from the bytes it sent over that session, against the store of that moment |
| Mesh.ConnectedIsCertified | internal/transport/carrier_cluster.go:203-228 | In every joint run a connected peer was certified, at its last registration, by a trusted admin or by a user CA shown to be anchored to one |
| CarrierLocks.UninterruptedOperations | internal/transport/carrier_cluster.go:267-292 | The critical sections of an operation, run without interruption, amount to the operation |
| CarrierLocks.UninterruptedHeartbeat | internal/transport/heartbeat.go:221-224 | A heartbeat without entries is its three critical sections |
| CarrierLocks.InterleavingsKeepAligned | internal/transport/carrier_cluster.go:17-45 | In every interleaving of critical sections the connection and scope maps have the same keys and the registry is well filed |
| CarrierLocks.ActKeepsIff | internal/transport/carrier_dispatch.go:175-214 | A critical section keeps the invariant if and only if its guard holds |
| CarrierLocks.InterleavingKeepsIff | internal/transport/carrier_dispatch.go:175-214 | The invariant holds throughout an interleaving of any length if and only if every critical section is safe when it runs |
| CarrierLocks.InterleavedRegistrationIff | internal/transport/carrier_cluster.go:284-290 | With any number of safe sections between the two halves of a registration, the invariant holds afterwards if and only if the peer is live as the second half runs |
| CarrierLocks.ReconnectedWhileFailing | internal/transport/carrier_dispatch.go:205-214 | A peer that reconnects between the two halves of a failure report on the connection in use ends up connected and marked as failed |
| CarrierLocks.InterruptedRegistrationIff | internal/transport/carrier_cluster.go:284-290 | A registration interrupted by one critical section keeps the invariant if and only if that section is safe and spares the peer |
| CarrierLocks.RemovedWhileRegistering | internal/transport/carrier_cluster.go:284-290 | A peer removed between the two halves of its registration ends up connected and unknown |
| Broadcast.SendRounds | internal/transport/carrier_broadcast.go:23-48 | The nested loops with early exit equal the full number of rounds |
| Broadcast.BroadcastReliable | internal/transport/carrier_broadcast.go:12-50 | Error exactly without peers; the report accounts for every peer of the snapshot as below, over maxRetries + 1 rounds, or none for a negative number |
| Broadcast.RoundsOrder | internal/transport/carrier_broadcast.go:26-49 | After any number of rounds the failed peers are those that never acknowledged, in snapshot order |
| Broadcast.RoundsRecord | internal/transport/carrier_broadcast.go:26-49 | Per peer: acknowledged once and then not tried again, or tried once in every round, or never tried if not in the snapshot |
| Broadcast.RecordMeaning | internal/transport/carrier_broadcast.go:26-49 | A peer's record counts its attempts and those acknowledged, and tells whether the last one was |
| Broadcast.RoundsReport | internal/transport/carrier_broadcast.go:26-49 | Success and failure partition the snapshot; a success was acknowledged once and never tried again; a failure was tried in every round, never acknowledged, and keeps snapshot order; nobody else was tried |
| ClusterLog.Log.Record | internal/logging/clusterlog/cluster_log.go:92-102 | The entry is appended |
| ClusterLog.Log.Cleanup | internal/logging/clusterlog/cluster_log.go:269-281 | Compaction in the same array leaves, in order, exactly the entries whose age is at most one day for debug, five days for errors and three days for every other level |
| ClusterLog.Log.constructor | internal/logging/clusterlog/cluster_log.go:64-80 | A new log is empty |
| ClusterLog.CleaningTwice | internal/logging/logtypes/log_level.go:54-60 | Cleaning at two times equals cleaning at the later one |
| ClusterLog.ExpiredIff | internal/logging/logtypes/log_level.go:17-60 | An entry has expired exactly when its age exceeds one day for debug, five for errors, three for all others, unknown levels included |
| ClusterLog.StoredAfterCleanup | internal/logging/clusterlog/cluster_log.go:269-281 | After any run, a clean-up leaves exactly the entries within those ages, in order |
| ClusterLog.RetentionIsExact | internal/logging/clusterlog/cluster_log.go:269-281 | In every run the stored entries are, in order, those within one, five or three days of age at the latest clean-up after their recording |
| ClusterLog.RetentionByLastCleanup | internal/logging/clusterlog/cluster_log.go:92-102 | With an advancing clock it is the last clean-up after the recording that decides |

## Left out

- QUIC, sockets, TLS and X.509 (internal/transport/transport.go, internal/transport/connection.go): represented by an exporter function and digests.
- The internals of ML-DSA, ML-KEM and SHA-256, key files and key JSON: arbitrary functions.
- Failure of marshalling a public key held in memory: keys in the model are well-formed values.
- Certificates whose getters change between reads, and aliasing of byte slices: certificates are values.
- Unknown protobuf groups in a received handshake: the model refuses the deprecated group wire types, where the library skips an unknown group.
- Logging, revocation hooks and error texts.
- Marshalling of heartbeat payloads: a heartbeat arrives as a role and a list of entries.
- The scheduling of the heartbeat, reconnect and clean-up loops, and the dialling of discovered or unreachable peers one after the other: each is a sequence of modelled operations.
- Message dispatch to the controller, message framing, log queries and subscriptions, and the command line.
- MergeAddresses, GetServerNodes and the other registry queries.
- Carrier.CarrierImpl.HandleHeartbeatMessage: the sender's role is overwritten rather than joined, as in the source, so convergence is stated for the merged entries only.
- Mesh.ConnectionsAreVerified: nothing disconnects a peer that is revoked after its registration, as in the source, so the statement is about the moment of registration.
- CarrierTheorems.RunKeepsIff: operations are atomic in these runs; interleavings are treated in CarrierLocks.
- CarrierLocks.InterleavingsKeepAligned: the read-then-add of a gossiped entry is one action with an arbitrary node, so what a stale copy writes back is covered but not tied to an earlier read.
- Carrier.CarrierImpl.SendHeartbeatBatch: which peers can be reached is fixed for the batch; changes of the connection map by others during the batch are not modelled.
- Carrier.CarrierImpl.AttemptBootstrap: other connections that come and go during the attempt are not modelled.
- Broadcast.BroadcastReliable: a send is reduced to whether it is acknowledged; the connection lookup and the stream are not modelled.
- Handshake.HonestHandshakeAccepted: the size limit of 1 MiB on the payload is a condition of the statement, since a larger honest message is refused when it is written.
- ClusterLog.Log.Record: pushing the entry to subscribers is not modelled.
