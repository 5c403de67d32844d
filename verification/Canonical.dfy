/**
Canonical encodings of certificates, certificate bundles and delegation proofs, and
domain separation (internal/auth/canonical).
 */
module Canonical {
  import opened Base
  import opened Keys
  import opened Wire

  /** The seven signed fields of a node certificate. */
  datatype CertBody = CertBody(
    version: nat,
    pub: PublicKey,
    issuer: Bytes,
    validFrom: Int64,
    validUntil: Int64,
    serial: Bytes,
    nonce: Bytes)

  /** A certificate as presented: its fields and the node identifier it reports. */
  datatype NodeCert = NodeCert(body: CertBody, nodeID: NodeID)

  datatype DelegationProof = DelegationProof(
    tlsCertPubKeyHash: Bytes,
    tlsExporterBinding: Bytes,
    tlsTranscriptHash: Bytes,
    x509Fingerprint: Bytes,
    nodeCertBundleHash: Bytes,
    notBefore: Int64,
    notAfter: Int64)

  // ----- UTF-8, which protobuf demands of string fields -----

  predicate Continuation(b: Byte) {
    0x80 <= b <= 0xBF
  }

  predicate ThreeByteHead(a: Byte, b: Byte) {
    || (a == 0xE0 && 0xA0 <= b <= 0xBF)
    || (0xE1 <= a <= 0xEC && Continuation(b))
    || (a == 0xED && 0x80 <= b <= 0x9F)
    || (0xEE <= a <= 0xEF && Continuation(b))
  }

  predicate FourByteHead(a: Byte, b: Byte) {
    || (a == 0xF0 && 0x90 <= b <= 0xBF)
    || (0xF1 <= a <= 0xF3 && Continuation(b))
    || (a == 0xF4 && 0x80 <= b <= 0x8F)
  }

  predicate ValidUtf8(s: Bytes) {
    || s == []
    || (s[0] < 0x80 && ValidUtf8(s[1..]))
    || (2 <= |s| && 0xC2 <= s[0] <= 0xDF && Continuation(s[1]) && ValidUtf8(s[2..]))
    || (3 <= |s| && ThreeByteHead(s[0], s[1]) && Continuation(s[2]) && ValidUtf8(s[3..]))
    || (4 <= |s| && FourByteHead(s[0], s[1]) && Continuation(s[2]) && Continuation(s[3]) && ValidUtf8(s[4..]))
  }

  lemma {:induction false} AsciiIsUtf8(s: Bytes)
    requires forall i :: 0 <= i < |s| ==> s[i] < 0x80
    ensures ValidUtf8(s)
  {
    if s != [] {
      AsciiIsUtf8(s[1..]);
    }
  }

  // ----- Certificates -----

  function CertSlots(c: CertBody): seq<Field> {
    [ Field(1, VarintValue(c.version)),
      Field(2, LenValue(MarshalPubKey(c.pub))),
      Field(3, LenValue(c.issuer)),
      Field(4, VarintValue(Uint64(c.validFrom))),
      Field(5, VarintValue(Uint64(c.validUntil))),
      Field(6, LenValue(c.serial)),
      Field(7, LenValue(c.nonce)) ]
  }

  function CertBytes(c: CertBody): Bytes {
    EncodeMessage(CertSlots(c))
  }

  /** Marshalling fails when the issuer is not valid UTF-8. */
  function CanonicalNodeCert(c: CertBody): Option<Bytes> {
    if ValidUtf8(c.issuer) then Some(CertBytes(c)) else None
  }

  lemma CertSlotsInjective(c: CertBody, d: CertBody)
    ensures SameSchema(CertSlots(c), CertSlots(d))
    ensures CertSlots(c) == CertSlots(d) ==> c == d
  {
    var s, t := CertSlots(c), CertSlots(d);
    if s == t {
      assert s[0] == t[0] && s[1] == t[1] && s[2] == t[2] && s[3] == t[3];
      assert s[4] == t[4] && s[5] == t[5] && s[6] == t[6];
      MarshalPubKeyInjective(c.pub, d.pub);
      TimesDetermined(c.validFrom, d.validFrom);
      TimesDetermined(c.validUntil, d.validUntil);
    }
  }

  /** The encoding determines all seven fields. */
  lemma CertBytesInjective(c: CertBody, d: CertBody)
    requires CertBytes(c) == CertBytes(d)
    ensures c == d
  {
    CertSlotsInjective(c, d);
    MessageInjective(CertSlots(c), CertSlots(d));
  }

  // ----- The order of encodings -----

  /** bytes.Compare(a, b) <= 0 */
  predicate LexLeq(a: Bytes, b: Bytes) {
    a == [] || (b != [] && (a[0] < b[0] || (a[0] == b[0] && LexLeq(a[1..], b[1..]))))
  }

  /** The first string ends, or is smaller, at the first position where they differ. */
  ghost predicate SmallerAt(a: Bytes, b: Bytes, i: int) {
    0 <= i <= |a| && i <= |b| && a[..i] == b[..i] && (i == |a| || (i < |b| && a[i] < b[i]))
  }

  /** The order is the lexicographic one of bytes.Compare. */
  lemma {:induction false} LexLeqIff(a: Bytes, b: Bytes)
    ensures LexLeq(a, b) <==> exists i :: SmallerAt(a, b, i)
  {
    if a == [] {
      assert SmallerAt(a, b, 0);
    } else if b != [] && a[0] == b[0] {
      var x, y := a[1..], b[1..];
      LexLeqIff(x, y);
      if i :| SmallerAt(x, y, i) {
        assert a[..i + 1] == [a[0]] + x[..i] && b[..i + 1] == [b[0]] + y[..i];
        assert SmallerAt(a, b, i + 1);
      }
      if i :| SmallerAt(a, b, i) {
        assert x[..i - 1] == a[..i][1..] && y[..i - 1] == b[..i][1..];
        assert SmallerAt(x, y, i - 1);
      }
    } else if b != [] {
      assert a[0] < b[0] ==> SmallerAt(a, b, 0);
      if i :| SmallerAt(a, b, i) {
        assert i > 0 ==> a[..i][0] == a[0] && b[..i][0] == b[0];
      }
    }
  }

  lemma {:induction false} LexTotal(a: Bytes, b: Bytes)
    ensures LexLeq(a, b) || LexLeq(b, a)
  {
    if a != [] && b != [] {
      LexTotal(a[1..], b[1..]);
    }
  }

  lemma {:induction false} LexAntisymmetric(a: Bytes, b: Bytes)
    requires LexLeq(a, b) && LexLeq(b, a)
    ensures a == b
  {
    if a != [] && b != [] {
      LexAntisymmetric(a[1..], b[1..]);
      assert a == [a[0]] + a[1..] && b == [b[0]] + b[1..];
    }
  }

  lemma {:induction false} LexTransitive(a: Bytes, b: Bytes, c: Bytes)
    requires LexLeq(a, b) && LexLeq(b, c)
    ensures LexLeq(a, c)
  {
    if a != [] && b != [] && c != [] && a[0] == b[0] == c[0] {
      LexTransitive(a[1..], b[1..], c[1..]);
    }
  }

  ghost predicate Sorted(s: seq<Bytes>) {
    forall i, j :: 0 <= i < j < |s| ==> LexLeq(s[i], s[j])
  }

  function Insert(x: Bytes, s: seq<Bytes>): seq<Bytes> {
    if s == [] || LexLeq(x, s[0]) then [x] + s else [s[0]] + Insert(x, s[1..])
  }

  /** What sort.Slice with bytes.Compare leaves in the slice; SortIsUnique shows nothing else can be left. */
  function Sort(s: seq<Bytes>): seq<Bytes> {
    if s == [] then [] else Insert(s[0], Sort(s[1..]))
  }

  lemma {:induction false} InsertSorted(x: Bytes, s: seq<Bytes>)
    requires Sorted(s)
    ensures Sorted(Insert(x, s)) && multiset(Insert(x, s)) == multiset{x} + multiset(s)
  {
    if s == [] {
    } else if LexLeq(x, s[0]) {
      forall i | 0 <= i < |s|
        ensures LexLeq(x, s[i])
      {
        if 0 < i {
          LexTransitive(x, s[0], s[i]);
        }
      }
    } else {
      LexTotal(x, s[0]);
      InsertSorted(x, s[1..]);
      HeadMultiset(s);
      var r := Insert(x, s[1..]);
      forall i | 0 <= i < |r|
        ensures LexLeq(s[0], r[i])
      {
        assert r[i] in multiset(r);
        assert r[i] == x || r[i] in s[1..];
      }
    }
  }

  lemma {:induction false} SortSorts(s: seq<Bytes>)
    ensures Sorted(Sort(s)) && multiset(Sort(s)) == multiset(s)
  {
    if s != [] {
      SortSorts(s[1..]);
      InsertSorted(s[0], Sort(s[1..]));
      HeadMultiset(s);
    }
  }

  lemma SmallestFirst(s: seq<Bytes>, t: seq<Bytes>)
    requires Sorted(s) && multiset(s) == multiset(t) && s != [] && t != []
    ensures LexLeq(s[0], t[0])
  {
    assert t[0] in multiset(s);
    var i :| 0 <= i < |s| && s[i] == t[0];
    LexTotal(s[0], s[0]);
  }

  lemma SameHead(s: seq<Bytes>, t: seq<Bytes>)
    requires Sorted(s) && Sorted(t) && multiset(s) == multiset(t) && s != [] && t != []
    ensures s[0] == t[0]
  {
    SmallestFirst(s, t);
    SmallestFirst(t, s);
    LexAntisymmetric(s[0], t[0]);
  }

  lemma SameTails<A>(s: seq<A>, t: seq<A>)
    requires s != [] && t != [] && s[0] == t[0] && multiset(s) == multiset(t)
    ensures multiset(s[1..]) == multiset(t[1..])
  {
    HeadMultiset(s);
    HeadMultiset(t);
    assert multiset(s[1..]) == multiset(s) - multiset{s[0]};
    assert multiset(t[1..]) == multiset(t) - multiset{s[0]};
  }

  lemma SortedTail(s: seq<Bytes>)
    requires Sorted(s) && s != []
    ensures Sorted(s[1..])
  {
  }

  /** A sequence has exactly one sorted permutation, so the instability of the sort does not show. */
  lemma {:induction false} SortIsUnique(s: seq<Bytes>, t: seq<Bytes>)
    requires Sorted(s) && Sorted(t) && multiset(s) == multiset(t)
    ensures s == t
  {
    EmptyPermutation(s, t);
    if s != [] {
      SameHead(s, t);
      SameTails(s, t);
      SortedTail(s);
      SortedTail(t);
      SortIsUnique(s[1..], t[1..]);
      assert s == [s[0]] + s[1..] && t == [t[0]] + t[1..];
    }
  }

  // ----- Bundles -----

  function BundleBytes(certs: seq<CertBody>): Bytes {
    EncodeFields(Repeated(1, Sort(MapSeq(CertBytes, certs))))
  }

  predicate IssuersUtf8(certs: seq<CertBody>) {
    forall i :: 0 <= i < |certs| ==> ValidUtf8(certs[i].issuer)
  }

  function CanonicalNodeCertBundle(certs: seq<CertBody>): Option<Bytes> {
    if IssuersUtf8(certs) then Some(BundleBytes(certs)) else None
  }

  /** The entries are the encodings of the first certificates. */
  ghost predicate Encodes(certs: seq<CertBody>, entries: seq<Bytes>) {
    |entries| <= |certs| && forall j :: 0 <= j < |entries| ==> CanonicalNodeCert(certs[j]) == Some(entries[j])
  }

  lemma EncodesNext(certs: seq<CertBody>, entries: seq<Bytes>, enc: Bytes)
    requires Encodes(certs, entries) && |entries| < |certs| && CanonicalNodeCert(certs[|entries|]) == Some(enc)
    ensures Encodes(certs, entries + [enc])
  {
  }

  lemma EncodesAll(certs: seq<CertBody>, entries: seq<Bytes>)
    requires Encodes(certs, entries) && |entries| == |certs|
    ensures IssuersUtf8(certs) && entries == MapSeq(CertBytes, certs)
  {
    var all := MapSeq(CertBytes, certs);
    forall j | 0 <= j < |certs|
      ensures ValidUtf8(certs[j].issuer) && entries[j] == all[j]
    {
      assert CanonicalNodeCert(certs[j]) == Some(entries[j]);
    }
  }

  lemma EncodingFails(certs: seq<CertBody>, i: nat)
    requires i < |certs| && CanonicalNodeCert(certs[i]).None?
    ensures !IssuersUtf8(certs)
  {
  }

  /** The encoding loop; it stops at the first certificate that cannot be marshalled. */
  method EncodeCerts(certs: seq<CertBody>) returns (r: Option<seq<Bytes>>)
    ensures r == if IssuersUtf8(certs) then Some(MapSeq(CertBytes, certs)) else None
  {
    var entries: seq<Bytes> := [];
    for i := 0 to |certs|
      invariant |entries| == i && Encodes(certs, entries)
    {
      var enc := CanonicalNodeCert(certs[i]);
      if enc.None? {
        EncodingFails(certs, i);
        return None;
      }
      EncodesNext(certs, entries, enc.value);
      entries := entries + [enc.value];
    }
    EncodesAll(certs, entries);
    return Some(entries);
  }

  /** Encode each certificate, sort the encodings, emit them. */
  method EncodeNodeCertBundle(certs: seq<CertBody>) returns (r: Option<Bytes>)
    ensures r == CanonicalNodeCertBundle(certs)
  {
    var entries := EncodeCerts(certs);
    if entries.None? {
      return None;
    }
    return Some(EncodeFields(Repeated(1, Sort(entries.value))));
  }

  lemma CertBytesIsInjective()
    ensures Injective(CertBytes)
  {
    forall x, y | CertBytes(x) == CertBytes(y)
      ensures x == y
    {
      CertBytesInjective(x, y);
    }
  }

  lemma SortPermutationIff(s: seq<Bytes>, t: seq<Bytes>)
    ensures Sort(s) == Sort(t) <==> multiset(s) == multiset(t)
  {
    SortSorts(s);
    SortSorts(t);
    if multiset(s) == multiset(t) {
      SortIsUnique(Sort(s), Sort(t));
    }
  }

  /** Two bundles encode equally exactly when they hold the same certificates, counted with multiplicity. */
  lemma BundleBytesIff(cs: seq<CertBody>, ds: seq<CertBody>)
    ensures BundleBytes(cs) == BundleBytes(ds) <==> multiset(cs) == multiset(ds)
  {
    var es, fs := MapSeq(CertBytes, cs), MapSeq(CertBytes, ds);
    SortPermutationIff(es, fs);
    if multiset(cs) == multiset(ds) {
      MapPermutation(CertBytes, cs, ds);
    }
    if BundleBytes(cs) == BundleBytes(ds) {
      RepeatedInjective(1, Sort(es), Sort(fs));
      CertBytesIsInjective();
      InjectiveMapPermutation(CertBytes, cs, ds);
    }
  }

  // ----- Delegation proofs -----

  function DelegationSlots(p: DelegationProof): seq<Field> {
    [ Field(1, LenValue(p.tlsCertPubKeyHash)),
      Field(2, LenValue(p.tlsExporterBinding)),
      Field(3, LenValue(p.tlsTranscriptHash)),
      Field(4, LenValue(p.x509Fingerprint)),
      Field(5, LenValue(p.nodeCertBundleHash)),
      Field(6, VarintValue(Uint64(p.notBefore))),
      Field(7, VarintValue(Uint64(p.notAfter))) ]
  }

  function CanonicalDelegationProof(p: DelegationProof): Bytes {
    EncodeMessage(DelegationSlots(p))
  }

  function ExporterSlots(p: DelegationProof): seq<Field> {
    [ Field(1, LenValue(p.tlsCertPubKeyHash)),
      Field(3, LenValue(p.tlsTranscriptHash)),
      Field(4, LenValue(p.x509Fingerprint)),
      Field(5, LenValue(p.nodeCertBundleHash)),
      Field(6, VarintValue(Uint64(p.notBefore))),
      Field(7, VarintValue(Uint64(p.notAfter))) ]
  }

  /** The exporter context: the proof without the field that is being computed. */
  function CanonicalDelegationProofForExporter(p: DelegationProof): Bytes {
    EncodeMessage(ExporterSlots(p))
  }

  lemma TimesDetermined(n: Int64, m: Int64)
    requires Uint64(n) == Uint64(m)
    ensures n == m
  {
    Uint64RoundTrip(n);
    Uint64RoundTrip(m);
  }

  lemma DelegationSlotsInjective(p: DelegationProof, q: DelegationProof)
    ensures SameSchema(DelegationSlots(p), DelegationSlots(q))
    ensures DelegationSlots(p) == DelegationSlots(q) ==> p == q
  {
    var s, t := DelegationSlots(p), DelegationSlots(q);
    if s == t {
      assert s[0] == t[0] && s[1] == t[1] && s[2] == t[2] && s[3] == t[3];
      assert s[4] == t[4] && s[5] == t[5] && s[6] == t[6];
      TimesDetermined(p.notBefore, q.notBefore);
      TimesDetermined(p.notAfter, q.notAfter);
    }
  }

  lemma CanonicalDelegationProofInjective(p: DelegationProof, q: DelegationProof)
    requires CanonicalDelegationProof(p) == CanonicalDelegationProof(q)
    ensures p == q
  {
    DelegationSlotsInjective(p, q);
    MessageInjective(DelegationSlots(p), DelegationSlots(q));
  }

  lemma ExporterSlotsInjective(p: DelegationProof, q: DelegationProof)
    ensures SameSchema(ExporterSlots(p), ExporterSlots(q))
    ensures ExporterSlots(p) == ExporterSlots(q) <==> p == q.(tlsExporterBinding := p.tlsExporterBinding)
  {
    var s, t := ExporterSlots(p), ExporterSlots(q);
    if s == t {
      assert s[0] == t[0] && s[1] == t[1] && s[2] == t[2] && s[3] == t[3] && s[4] == t[4] && s[5] == t[5];
      TimesDetermined(p.notBefore, q.notBefore);
      TimesDetermined(p.notAfter, q.notAfter);
    }
  }

  /** Two proofs share an exporter context exactly when they differ at most in the exporter value. */
  lemma ExporterContextIff(p: DelegationProof, q: DelegationProof)
    ensures CanonicalDelegationProofForExporter(p) == CanonicalDelegationProofForExporter(q)
       <==> p == q.(tlsExporterBinding := p.tlsExporterBinding)
  {
    ExporterSlotsInjective(p, q);
    if CanonicalDelegationProofForExporter(p) == CanonicalDelegationProofForExporter(q) {
      MessageInjective(ExporterSlots(p), ExporterSlots(q));
    }
  }

  // ----- Domain separation -----

  const TWO_32 := 0x1_0000_0000

  /** The low 32 bits of a length, most significant byte first. */
  function BigEndian32(n: nat): (b: Bytes)
    ensures |b| == 4
  {
    [(n / 0x100_0000) % 256, (n / 0x1_0000) % 256, (n / 0x100) % 256, n % 256]
  }

  function ReadBigEndian32(b: Bytes): nat
    requires |b| == 4
  {
    var b0: int, b1: int, b2: int, b3: int := b[0], b[1], b[2], b[3];
    b0 * 0x100_0000 + b1 * 0x1_0000 + b2 * 0x100 + b3
  }

  /** The prefix holds the four low base-256 digits of a length. */
  lemma Digits(n: nat) returns (q: nat, d3: Byte, d2: Byte, d1: Byte, d0: Byte)
    ensures n == 0x1_0000_0000 * q + 0x100_0000 * d3 + 0x1_0000 * d2 + 0x100 * d1 + d0
    ensures BigEndian32(n) == [d3, d2, d1, d0]
  {
    var c := n / 256;
    var b := c / 256;
    var a := b / 256;
    q, d3, d2, d1, d0 := a / 256, a % 256, b % 256, c % 256, n % 256;
    assert n / 0x1_0000 == b;
    assert n / 0x100_0000 == a;
  }

  lemma BigEndian32RoundTrip(n: nat)
    ensures ReadBigEndian32(BigEndian32(n)) == n % 0x1_0000_0000
  {
    var q, d3, d2, d1, d0 := Digits(n);
    FourDigits(d3, d2, d1, d0);
    LowPart(n, q, ReadBigEndian32([d3, d2, d1, d0]));
  }

  lemma FourDigits(d3: Byte, d2: Byte, d1: Byte, d0: Byte)
    ensures ReadBigEndian32([d3, d2, d1, d0]) == 0x100_0000 * d3 + 0x1_0000 * d2 + 0x100 * d1 + d0 < 0x1_0000_0000
  {
  }

  lemma LowPart(n: nat, q: nat, v: nat)
    requires n == 0x1_0000_0000 * q + v && v < 0x1_0000_0000
    ensures n % 0x1_0000_0000 == v
  {
  }

  lemma BigEndian32Injective(n: nat, m: nat)
    requires n < 0x1_0000_0000 && m < 0x1_0000_0000
    requires BigEndian32(n) == BigEndian32(m)
    ensures n == m
  {
    BigEndian32Value(n);
    BigEndian32Value(m);
  }

  lemma BigEndian32Value(n: nat)
    requires n < 0x1_0000_0000
    ensures ReadBigEndian32(BigEndian32(n)) == n
  {
    BigEndian32RoundTrip(n);
  }

  lemma SmallMultiple(d: int, q: int)
    requires -256 < d < 256 && d == 256 * q
    ensures d == 0 && q == 0
  {
  }

  lemma DigitDifferences(d3: int, d2: int, d1: int, d0: int)
    requires -256 < d3 < 256 && -256 < d2 < 256 && -256 < d1 < 256 && -256 < d0 < 256
    requires 0x100_0000 * d3 + 0x1_0000 * d2 + 0x100 * d1 + d0 == 0
    ensures d3 == 0 && d2 == 0 && d1 == 0 && d0 == 0
  {
    SmallMultiple(d0, -(0x1_0000 * d3 + 0x100 * d2 + d1));
    SmallMultiple(d1, -(0x100 * d3 + d2));
    SmallMultiple(d2, -d3);
  }

  lemma ReadBigEndian32Injective(s: Bytes, t: Bytes)
    requires |s| == |t| == 4 && ReadBigEndian32(s) == ReadBigEndian32(t)
    ensures s == t
  {
    var a3: int, a2: int, a1: int, a0: int := s[0], s[1], s[2], s[3];
    var b3: int, b2: int, b1: int, b0: int := t[0], t[1], t[2], t[3];
    DigitDifferences(a3 - b3, a2 - b2, a1 - b1, a0 - b0);
  }

  /** Only the low 32 bits of a length reach the prefix. */
  lemma BigEndian32Low(n: nat, m: nat)
    requires n % 0x1_0000_0000 == m % 0x1_0000_0000
    ensures BigEndian32(n) == BigEndian32(m)
  {
    BigEndian32RoundTrip(n);
    BigEndian32RoundTrip(m);
    ReadBigEndian32Injective(BigEndian32(n), BigEndian32(m));
  }

  function DomainSeparate(ctx: Bytes, data: Bytes): Bytes {
    BigEndian32(|ctx|) + ctx + data
  }

  /** Copies bytes into a buffer at an offset, leaving the rest of the buffer alone. */
  method CopyInto(out: array<Byte>, at: nat, src: Bytes)
    requires at + |src| <= out.Length
    modifies out
    ensures out[..] == old(out[..at]) + src + old(out[at + |src|..])
  {
    for i := 0 to |src|
      invariant forall j :: 0 <= j < i ==> out[at + j] == src[j]
      invariant forall j :: 0 <= j < at || at + i <= j < out.Length ==> out[j] == old(out[j])
    {
      out[at + i] := src[i];
    }
  }

  /** The buffer form: a fresh buffer filled with the length prefix, the context and the data. */
  method FillDomainSeparated(ctx: Bytes, data: Bytes) returns (out: array<Byte>)
    ensures out[..] == DomainSeparate(ctx, data)
  {
    var l := |ctx|;
    out := new Byte[4 + l + |data|](_ => 0);
    CopyInto(out, 0, BigEndian32(l));
    assert out[..4] == BigEndian32(l);
    CopyInto(out, 4, ctx);
    assert out[..4 + l] == BigEndian32(l) + ctx;
    CopyInto(out, 4 + l, data);
  }

  /** No other context of at most this length can produce the same separated bytes. */
  ghost predicate Unambiguous(ctx: Bytes) {
    forall ctx': Bytes, data: Bytes, data': Bytes ::
      |ctx'| <= |ctx| && DomainSeparate(ctx, data) == DomainSeparate(ctx', data') ==> ctx == ctx' && data == data'
  }

  lemma DomainSeparateParts(ctx: Bytes, data: Bytes)
    ensures var s := DomainSeparate(ctx, data);
            s[..4] == BigEndian32(|ctx|) && s[4..4 + |ctx|] == ctx && s[4 + |ctx|..] == data
  {
  }

  lemma DomainSeparateInjective(ctx: Bytes, data: Bytes, ctx': Bytes, data': Bytes)
    requires |ctx| < TWO_32 && |ctx'| < TWO_32
    requires DomainSeparate(ctx, data) == DomainSeparate(ctx', data')
    ensures ctx == ctx' && data == data'
  {
    DomainSeparateParts(ctx, data);
    DomainSeparateParts(ctx', data');
    BigEndian32Injective(|ctx|, |ctx'|);
  }

  /** The length prefix keeps 32 bits, so separation is unambiguous exactly for contexts under 2^32 bytes. */
  lemma DomainSeparateUnambiguousIff(ctx: Bytes)
    ensures Unambiguous(ctx) <==> |ctx| < TWO_32
  {
    if |ctx| < TWO_32 {
      forall ctx': Bytes, data: Bytes, data': Bytes
        | |ctx'| <= |ctx| && DomainSeparate(ctx, data) == DomainSeparate(ctx', data')
        ensures ctx == ctx' && data == data'
      {
        DomainSeparateInjective(ctx, data, ctx', data');
      }
    } else {
      var m := |ctx| % 0x1_0000_0000;
      var short, moved := ctx[..m], ctx[m..];
      BigEndian32Low(|ctx|, m);
      assert ctx + [] == short + moved;
      assert DomainSeparate(ctx, []) == DomainSeparate(short, moved);
    }
  }
}
