/**
The UTF-8 that protobuf demands of string fields: a byte string is valid exactly when it is
the encoding of a sequence of Unicode scalar values, as section 3 of RFC 3629 defines it.
 */
module Utf8 {
  import opened Base
  import opened Canonical

  /** A code point that is not a surrogate. */
  predicate Scalar(c: nat) {
    c < 0xD800 || 0xE000 <= c < 0x11_0000
  }

  function EncodeRune(c: nat): Bytes
    requires Scalar(c)
  {
    if c < 0x80 then [c]
    else if c < 0x800 then [0xC0 + c / 64, 0x80 + c % 64]
    else if c < 0x1_0000 then [0xE0 + c / 4096, 0x80 + c / 64 % 64, 0x80 + c % 64]
    else [0xF0 + c / 262144, 0x80 + c / 4096 % 64, 0x80 + c / 64 % 64, 0x80 + c % 64]
  }

  ghost predicate Scalars(cs: seq<nat>) {
    forall i :: 0 <= i < |cs| ==> Scalar(cs[i])
  }

  function EncodeRunes(cs: seq<nat>): Bytes
    requires Scalars(cs)
  {
    if cs == [] then [] else EncodeRune(cs[0]) + EncodeRunes(cs[1..])
  }

  /** The shapes of one encoded character at the head of a byte string. */
  predicate Head(s: Bytes, n: nat) {
    match n
    case 1 => |s| >= 1 && s[0] < 0x80
    case 2 => |s| >= 2 && 0xC2 <= s[0] <= 0xDF && Continuation(s[1])
    case 3 => |s| >= 3 && ThreeByteHead(s[0], s[1]) && Continuation(s[2])
    case 4 => |s| >= 4 && FourByteHead(s[0], s[1]) && Continuation(s[2]) && Continuation(s[3])
    case _ => false
  }

  lemma ValidSteps(s: Bytes)
    requires s != []
    ensures ValidUtf8(s) <==> exists n: nat :: 1 <= n <= |s| && Head(s, n) && ValidUtf8(s[n..])
  {
    if exists n: nat :: 1 <= n <= |s| && Head(s, n) && ValidUtf8(s[n..]) {
      var n: nat :| 1 <= n <= |s| && Head(s, n) && ValidUtf8(s[n..]);
      assert n == 1 || n == 2 || n == 3 || n == 4;
    }
    if ValidUtf8(s) {
      if s[0] < 0x80 && ValidUtf8(s[1..]) {
        assert Head(s, 1);
      } else if 2 <= |s| && 0xC2 <= s[0] <= 0xDF {
        assert Head(s, 2);
      } else if 3 <= |s| && ThreeByteHead(s[0], s[1]) {
        assert Head(s, 3);
      } else {
        assert Head(s, 4);
      }
    }
  }

  lemma EncodedHead(c: nat, rest: Bytes)
    requires Scalar(c)
    ensures Head(EncodeRune(c) + rest, |EncodeRune(c)|) && 1 <= |EncodeRune(c)| <= 4
  {
  }

  /** The character that a head encodes. */
  lemma HeadDecodes(s: Bytes, n: nat) returns (c: nat)
    requires Head(s, n)
    ensures 1 <= n <= |s| && Scalar(c) && EncodeRune(c) == s[..n]
  {
    match n
    case 1 =>
      c := s[0];
    case 2 =>
      var a: int, b: int := s[0], s[1];
      c := (a - 0xC0) * 64 + (b - 0x80);
      assert c / 64 == a - 0xC0 && c % 64 == b - 0x80;
    case 3 =>
      c := ThreeByteRune(s[0], s[1], s[2]);
    case 4 =>
      c := FourByteRune(s[0], s[1], s[2], s[3]);
  }

  lemma ThreeByteRune(x: Byte, y: Byte, z: Byte) returns (c: nat)
    requires ThreeByteHead(x, y) && Continuation(z)
    ensures Scalar(c) && EncodeRune(c) == [x, y, z]
  {
    var a: int, b: int, d: int := x, y, z;
    c := (a - 0xE0) * 4096 + (b - 0x80) * 64 + (d - 0x80);
    assert c / 64 == (a - 0xE0) * 64 + (b - 0x80) && c % 64 == d - 0x80;
    assert c / 4096 == a - 0xE0;
  }

  lemma FourByteRune(w: Byte, x: Byte, y: Byte, z: Byte) returns (c: nat)
    requires FourByteHead(w, x) && Continuation(y) && Continuation(z)
    ensures Scalar(c) && EncodeRune(c) == [w, x, y, z]
  {
    var a: int, b: int, d: int, e: int := w, x, y, z;
    c := (a - 0xF0) * 262144 + (b - 0x80) * 4096 + (d - 0x80) * 64 + (e - 0x80);
    assert c / 64 == (a - 0xF0) * 4096 + (b - 0x80) * 64 + (d - 0x80) && c % 64 == e - 0x80;
    assert c / 4096 == (a - 0xF0) * 64 + (b - 0x80);
    assert c / 262144 == a - 0xF0;
  }

  lemma {:induction false} EncodingIsValid(cs: seq<nat>)
    requires Scalars(cs)
    ensures ValidUtf8(EncodeRunes(cs))
  {
    if cs != [] {
      var head, rest := EncodeRune(cs[0]), EncodeRunes(cs[1..]);
      EncodingIsValid(cs[1..]);
      EncodedHead(cs[0], rest);
      assert (head + rest)[|head|..] == rest;
      ValidSteps(head + rest);
    }
  }

  lemma HeadLength(s: Bytes) returns (n: nat)
    requires s != [] && ValidUtf8(s)
    ensures 1 <= n <= |s| && Head(s, n) && ValidUtf8(s[n..])
  {
    ValidSteps(s);
    n :| 1 <= n <= |s| && Head(s, n) && ValidUtf8(s[n..]);
  }

  lemma EncodeHead(c: nat, rest: seq<nat>)
    requires Scalar(c) && Scalars(rest)
    ensures Scalars([c] + rest) && EncodeRunes([c] + rest) == EncodeRune(c) + EncodeRunes(rest)
  {
    assert ([c] + rest)[1..] == rest;
  }

  lemma {:induction false} ValidIsEncoding(s: Bytes) returns (cs: seq<nat>)
    requires ValidUtf8(s)
    ensures Scalars(cs) && EncodeRunes(cs) == s
    decreases |s|
  {
    cs := [];
    if s != [] {
      var n := HeadLength(s);
      var c := HeadDecodes(s, n);
      var rest := ValidIsEncoding(s[n..]);
      cs := [c] + rest;
      EncodeHead(c, rest);
      assert s == s[..n] + s[n..];
    }
  }

  /** Valid are exactly the encodings of sequences of scalar values. */
  lemma ValidUtf8Iff(s: Bytes)
    ensures ValidUtf8(s) <==> exists cs :: Scalars(cs) && EncodeRunes(cs) == s
  {
    if ValidUtf8(s) {
      var cs := ValidIsEncoding(s);
    }
    if cs :| Scalars(cs) && EncodeRunes(cs) == s {
      EncodingIsValid(cs);
    }
  }
}
