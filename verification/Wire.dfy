/**
The Protocol Buffers wire format, as far as the authentication messages need it: base-128
varints, length-delimited fields, and proto3 omission of default values.  A message is a
list of slots in field-number order; encoding drops the slots that hold the default.
 */
module Wire {
  import opened Base

  datatype Value = VarintValue(n: nat) | LenValue(b: Bytes)

  datatype Field = Field(num: nat, value: Value)

  const MAX_FIELD_NUMBER := 0x1FFF_FFFF

  // ----- Encoding -----

  function Varint(n: nat): (b: Bytes)
    ensures b != []
  {
    if n < 128 then [n] else [128 + n % 128] + Varint(n / 128)
  }

  function WireType(v: Value): nat {
    match v
    case VarintValue(_) => 0
    case LenValue(_) => 2
  }

  function EncodeValue(v: Value): Bytes {
    match v
    case VarintValue(n) => Varint(n)
    case LenValue(b) => Varint(|b|) + b
  }

  function EncodeField(f: Field): Bytes {
    Varint(8 * f.num + WireType(f.value)) + EncodeValue(f.value)
  }

  function EncodeFields(fs: seq<Field>): Bytes {
    if fs == [] then [] else EncodeField(fs[0]) + EncodeFields(fs[1..])
  }

  predicate IsDefault(v: Value) {
    v == VarintValue(0) || v == LenValue([])
  }

  /** The fields a proto3 encoder emits: those that do not hold the default. */
  function Present(slots: seq<Field>): seq<Field> {
    if slots == [] then []
    else (if IsDefault(slots[0].value) then [] else [slots[0]]) + Present(slots[1..])
  }

  function EncodeMessage(slots: seq<Field>): Bytes {
    EncodeFields(Present(slots))
  }

  function Repeated(num: nat, items: seq<Bytes>): (fs: seq<Field>)
    ensures |fs| == |items|
    ensures forall i :: 0 <= i < |items| ==> fs[i] == Field(num, LenValue(items[i]))
  {
    seq(|items|, i requires 0 <= i < |items| => Field(num, LenValue(items[i])))
  }

  // ----- The encoding is unambiguous -----

  lemma VarintUnfold(n: nat, x: Bytes)
    ensures n < 128 ==> Varint(n) + x == [n] + x
    ensures n >= 128 ==> (Varint(n) + x)[0] == 128 + n % 128 && (Varint(n) + x)[1..] == Varint(n / 128) + x
  {
  }

  lemma {:induction false} VarintPrefixFree(n: nat, m: nat, x: Bytes, y: Bytes)
    requires Varint(n) + x == Varint(m) + y
    ensures n == m && x == y
  {
    VarintUnfold(n, x);
    VarintUnfold(m, y);
    var a, b := Varint(n) + x, Varint(m) + y;
    assert a[0] == b[0] && a[1..] == b[1..];
    if n < 128 {
      assert x == a[1..] && y == b[1..];
    } else {
      VarintPrefixFree(n / 128, m / 128, x, y);
    }
  }

  lemma FieldPrefixFree(f: Field, g: Field, x: Bytes, y: Bytes)
    requires EncodeField(f) + x == EncodeField(g) + y
    ensures f == g && x == y
  {
    var tf, tg := 8 * f.num + WireType(f.value), 8 * g.num + WireType(g.value);
    assert EncodeField(f) + x == Varint(tf) + (EncodeValue(f.value) + x);
    assert EncodeField(g) + y == Varint(tg) + (EncodeValue(g.value) + y);
    VarintPrefixFree(tf, tg, EncodeValue(f.value) + x, EncodeValue(g.value) + y);
    match f.value
    case VarintValue(n) =>
      VarintPrefixFree(n, g.value.n, x, y);
    case LenValue(b) =>
      var c := g.value.b;
      assert EncodeValue(f.value) + x == Varint(|b|) + (b + x);
      assert EncodeValue(g.value) + y == Varint(|c|) + (c + y);
      VarintPrefixFree(|b|, |c|, b + x, c + y);
      assert b == (b + x)[..|b|] && c == (c + y)[..|b|];
      assert x == (b + x)[|b|..] && y == (c + y)[|b|..];
  }

  lemma {:induction false} FieldsInjective(fs: seq<Field>, gs: seq<Field>)
    requires EncodeFields(fs) == EncodeFields(gs)
    ensures fs == gs
  {
    if fs != [] && gs != [] {
      FieldPrefixFree(fs[0], gs[0], EncodeFields(fs[1..]), EncodeFields(gs[1..]));
      FieldsInjective(fs[1..], gs[1..]);
    }
  }

  lemma RepeatedInjective(num: nat, s: seq<Bytes>, t: seq<Bytes>)
    requires EncodeFields(Repeated(num, s)) == EncodeFields(Repeated(num, t))
    ensures s == t
  {
    var rs, rt := Repeated(num, s), Repeated(num, t);
    FieldsInjective(rs, rt);
    assert |s| == |rs| == |rt| == |t|;
    forall i | 0 <= i < |s|
      ensures s[i] == t[i]
    {
      assert rs[i] == rt[i];
    }
  }

  /** Two slot lists for one schema: the same field numbers and kinds, numbers increasing. */
  ghost predicate SameSchema(s: seq<Field>, t: seq<Field>) {
    && |s| == |t|
    && (forall i :: 0 <= i < |s| ==> s[i].num == t[i].num && s[i].value.LenValue? == t[i].value.LenValue?)
    && (forall i, j :: 0 <= i < j < |s| ==> s[i].num < s[j].num)
  }

  lemma PresentSubset(slots: seq<Field>, f: Field)
    ensures f in Present(slots) <==> f in slots && !IsDefault(f.value)
  {
    if slots != [] {
      assert f in slots <==> f == slots[0] || f in slots[1..];
    }
  }

  /** Omitting defaults loses nothing: the slots can be read back from the emitted fields. */
  lemma {:induction false} PresentInjective(s: seq<Field>, t: seq<Field>)
    requires SameSchema(s, t)
    requires Present(s) == Present(t)
    ensures s == t
  {
    if s != [] {
      HeadAgrees(s, t);
      HeadAgrees(t, s);
      assert s[0] == t[0];
      var k := if IsDefault(s[0].value) then 0 else 1;
      assert Present(s)[k..] == Present(s[1..]) && Present(t)[k..] == Present(t[1..]);
      PresentInjective(s[1..], t[1..]);
      assert s == [s[0]] + s[1..] && t == [t[0]] + t[1..];
    }
  }

  lemma HeadAgrees(s: seq<Field>, t: seq<Field>)
    requires SameSchema(s, t) && s != []
    requires Present(s) == Present(t)
    ensures !IsDefault(s[0].value) ==> s[0] == t[0]
  {
    if !IsDefault(s[0].value) {
      PresentSubset(s, s[0]);
      PresentSubset(t, s[0]);
      var j :| 0 <= j < |t| && t[j] == s[0];
      assert t[0].num == s[0].num;
    }
  }

  /** Messages of one schema encode equally only when all their slots agree. */
  lemma MessageInjective(s: seq<Field>, t: seq<Field>)
    requires SameSchema(s, t)
    requires EncodeMessage(s) == EncodeMessage(t)
    ensures s == t
  {
    FieldsInjective(Present(s), Present(t));
    PresentInjective(s, t);
  }

  // ----- Decoding -----

  datatype Taken = Taken(value: nat, rest: Bytes)

  function TakeVarint(b: Bytes, budget: nat): (r: Option<Taken>)
    ensures r.Some? ==> |r.value.rest| < |b|
  {
    if b == [] || budget == 0 then None
    else if b[0] < 128 then Some(Taken(b[0], b[1..]))
    else
      match TakeVarint(b[1..], budget - 1)
      case None => None
      case Some(t) => Some(Taken(b[0] - 128 + 128 * t.value, t.rest))
  }

  /** A varint of at most ten bytes whose value fits 64 bits. */
  function ReadVarint(b: Bytes): (r: Option<Taken>)
    ensures r.Some? ==> |r.value.rest| < |b|
  {
    match TakeVarint(b, 10)
    case None => None
    case Some(t) => if t.value < TWO_64 then Some(t) else None
  }

  /** Splits a message into fields; fixed-width fields, which no schema here declares, are skipped. */
  function DecodeFields(b: Bytes): Option<seq<Field>>
    decreases |b|
  {
    if b == [] then Some([])
    else
      match ReadVarint(b)
      case None => None
      case Some(tag) =>
        var num, wireType := tag.value / 8, tag.value % 8;
        if num < 1 || MAX_FIELD_NUMBER < num then None
        else if wireType == 0 then
          match ReadVarint(tag.rest)
          case None => None
          case Some(v) => Prepend(Field(num, VarintValue(v.value)), DecodeFields(v.rest))
        else if wireType == 2 then
          match ReadVarint(tag.rest)
          case None => None
          case Some(len) =>
            if |len.rest| < len.value then None
            else Prepend(Field(num, LenValue(len.rest[..len.value])), DecodeFields(len.rest[len.value..]))
        else if wireType == 1 && 8 <= |tag.rest| then DecodeFields(tag.rest[8..])
        else if wireType == 5 && 4 <= |tag.rest| then DecodeFields(tag.rest[4..])
        else None
  }

  function Prepend(f: Field, fs: Option<seq<Field>>): Option<seq<Field>> {
    if fs.None? then None else Some([f] + fs.value)
  }

  function Pow128(e: nat): nat {
    if e == 0 then 1 else 128 * Pow128(e - 1)
  }

  lemma {:induction false} TakeVarintRoundTrip(n: nat, rest: Bytes, budget: nat)
    requires 0 < budget && n < Pow128(budget)
    ensures TakeVarint(Varint(n) + rest, budget) == Some(Taken(n, rest))
  {
    VarintUnfold(n, rest);
    if n < 128 {
      assert (Varint(n) + rest)[1..] == rest;
    } else {
      TakeVarintRoundTrip(n / 128, rest, budget - 1);
    }
  }

  lemma ReadVarintRoundTrip(n: nat, rest: Bytes)
    requires n < TWO_64
    ensures ReadVarint(Varint(n) + rest) == Some(Taken(n, rest))
  {
    assert Pow128(4) == 0x1000_0000;
    assert Pow128(7) == 0x1000_0000 * 0x20_0000;
    assert Pow128(10) == 0x1000_0000 * 0x20_0000 * 0x20_0000;
    TakeVarintRoundTrip(n, rest, 10);
  }

  predicate Encodable(f: Field) {
    && 1 <= f.num <= MAX_FIELD_NUMBER
    && (match f.value case VarintValue(n) => n < TWO_64 case LenValue(b) => |b| < TWO_64)
  }

  lemma DecodeOneField(f: Field, tail: Bytes)
    requires Encodable(f)
    ensures DecodeFields(EncodeField(f) + tail) == Prepend(f, DecodeFields(tail))
  {
    var tag := 8 * f.num + WireType(f.value);
    assert EncodeField(f) + tail == Varint(tag) + (EncodeValue(f.value) + tail);
    ReadVarintRoundTrip(tag, EncodeValue(f.value) + tail);
    assert tag / 8 == f.num && tag % 8 == WireType(f.value);
    match f.value
    case VarintValue(n) =>
      ReadVarintRoundTrip(n, tail);
    case LenValue(b) =>
      assert EncodeValue(f.value) + tail == Varint(|b|) + (b + tail);
      ReadVarintRoundTrip(|b|, b + tail);
      assert (b + tail)[..|b|] == b && (b + tail)[|b|..] == tail;
  }

  /** Decoding what was encoded gives the fields back, for every list of encodable fields. */
  lemma {:induction false} DecodeFieldsRoundTrip(fs: seq<Field>)
    requires forall i :: 0 <= i < |fs| ==> Encodable(fs[i])
    ensures DecodeFields(EncodeFields(fs)) == Some(fs)
  {
    if fs != [] {
      DecodeFieldsRoundTrip(fs[1..]);
      DecodeOneField(fs[0], EncodeFields(fs[1..]));
      assert fs == [fs[0]] + fs[1..];
    }
  }

  /** Scalars: the last occurrence wins, an absent field reads as the default. */
  function VarintOf(fs: seq<Field>, num: nat): nat {
    if fs == [] then 0
    else
      var last := fs[|fs| - 1];
      if last.num == num && last.value.VarintValue? then last.value.n else VarintOf(fs[..|fs| - 1], num)
  }

  function BytesOf(fs: seq<Field>, num: nat): Bytes {
    if fs == [] then []
    else
      var last := fs[|fs| - 1];
      if last.num == num && last.value.LenValue? then last.value.b else BytesOf(fs[..|fs| - 1], num)
  }

  /** Every occurrence of a repeated length-delimited field, in order. */
  function AllBytes(fs: seq<Field>, num: nat): seq<Bytes> {
    if fs == [] then []
    else
      (if fs[0].num == num && fs[0].value.LenValue? then [fs[0].value.b] else []) + AllBytes(fs[1..], num)
  }

  /** Numbers increase along a well-formed slot list. */
  ghost predicate Increasing(s: seq<Field>) {
    forall i, j :: 0 <= i < j < |s| ==> s[i].num < s[j].num
  }

  lemma {:induction false} PresentSnoc(s: seq<Field>)
    requires s != []
    ensures var n := |s| - 1;
            Present(s) == Present(s[..n]) + (if IsDefault(s[n].value) then [] else [s[n]])
  {
    var n := |s| - 1;
    if n > 0 {
      PresentSnoc(s[1..]);
      assert s[1..][..n - 1] == s[..n][1..];
    }
  }

  /** A slot is read back from the emitted fields, whether or not it was omitted. */
  lemma {:induction false} SlotRoundTrip(s: seq<Field>, i: nat)
    requires Increasing(s) && i < |s|
    ensures s[i].value.VarintValue? ==> VarintOf(Present(s), s[i].num) == s[i].value.n
    ensures s[i].value.LenValue? ==> BytesOf(Present(s), s[i].num) == s[i].value.b
  {
    var n := |s| - 1;
    PresentSnoc(s);
    var front := Present(s[..n]);
    if i < n {
      SlotRoundTrip(s[..n], i);
      assert Present(s)[..|front|] == front;
      assert IsDefault(s[n].value) ==> Present(s) == front;
    } else {
      if IsDefault(s[n].value) {
        AbsentReadsDefault(s[..n], s[n].num);
        assert Present(s) == front;
      }
    }
  }

  lemma {:induction false} AbsentReadsDefault(s: seq<Field>, num: nat)
    requires forall i :: 0 <= i < |s| ==> s[i].num != num
    ensures VarintOf(Present(s), num) == 0 && BytesOf(Present(s), num) == []
  {
    if s != [] {
      var n := |s| - 1;
      PresentSnoc(s);
      AbsentReadsDefault(s[..n], num);
      var front := Present(s[..n]);
      assert Present(s)[..|front|] == front;
      assert IsDefault(s[n].value) ==> Present(s) == front;
    }
  }

  lemma {:induction false} AllBytesAppend(fs: seq<Field>, gs: seq<Field>, num: nat)
    ensures AllBytes(fs + gs, num) == AllBytes(fs, num) + AllBytes(gs, num)
  {
    if fs == [] {
      assert fs + gs == gs;
    } else {
      assert (fs + gs)[1..] == fs[1..] + gs;
      AllBytesAppend(fs[1..], gs, num);
    }
  }

  lemma {:induction false} AllBytesRepeated(num: nat, items: seq<Bytes>, other: nat)
    ensures AllBytes(Repeated(num, items), other) == if num == other then items else []
  {
    if items != [] {
      assert Repeated(num, items)[1..] == Repeated(num, items[1..]);
      AllBytesRepeated(num, items[1..], other);
    }
  }
}
