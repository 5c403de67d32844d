/**
Bytes, fixed-width integers, and the few facts about sequences and multisets that the
rest of the project shares.
 */
module Base {

  type Byte = n: int | 0 <= n < 256
  type Bytes = seq<Byte>

  function Zeros(n: nat): (b: Bytes)
    ensures |b| == n
    ensures forall i :: 0 <= i < n ==> b[i] == 0
  {
    if n == 0 then [] else [0] + Zeros(n - 1)
  }

  /** A SHA-256 value. */
  type Digest = b: Bytes | |b| == 32 witness Zeros(32)

  const TWO_63 := 0x8000_0000_0000_0000
  const TWO_64 := 0x1_0000_0000_0000_0000

  type Int64 = n: int | -TWO_63 <= n < TWO_63

  datatype Option<+T> = None | Some(value: T)

  datatype Result<+T, +E> = Ok(value: T) | Err(error: E)

  /** Two's complement wrap-around of a mathematical integer to 64 bits. */
  function WrapInt64(n: int): Int64 {
    var m := n % 0x1_0000_0000_0000_0000;
    if m < TWO_63 then m else m - TWO_64
  }

  /** The unsigned 64-bit reading of an int64, as protobuf varints carry it. */
  function Uint64(n: Int64): nat {
    if n < 0 then n + TWO_64 else n
  }

  lemma Uint64RoundTrip(n: Int64)
    ensures Uint64(n) < TWO_64 && WrapInt64(Uint64(n)) == n
  {
  }

  function MapSeq<A, B>(f: A -> B, s: seq<A>): (t: seq<B>)
    ensures |t| == |s|
    ensures forall i :: 0 <= i < |s| ==> t[i] == f(s[i])
  {
    if s == [] then [] else [f(s[0])] + MapSeq(f, s[1..])
  }

  lemma MapHead<A, B>(f: A -> B, s: seq<A>)
    requires s != []
    ensures MapSeq(f, s) == [f(s[0])] + MapSeq(f, s[1..])
  {
  }

  lemma MapSeqAppend<A, B>(f: A -> B, s: seq<A>, t: seq<A>)
    ensures MapSeq(f, s + t) == MapSeq(f, s) + MapSeq(f, t)
  {
  }

  lemma Reassociate<A>(a: seq<A>, x: A, b: seq<A>)
    ensures a + ([x] + b) == (a + [x]) + b
  {
  }

  /** Removing one occurrence of an element from a sequence. */
  function Without<A>(s: seq<A>, j: nat): (t: seq<A>)
    requires j < |s|
    ensures |t| == |s| - 1
    ensures forall i :: 0 <= i < |t| ==> t[i] == if i < j then s[i] else s[i + 1]
  {
    s[..j] + s[j + 1..]
  }

  lemma WithoutMultiset<A>(s: seq<A>, j: nat)
    requires j < |s|
    ensures multiset(s) == multiset(Without(s, j)) + multiset{s[j]}
  {
    assert s == s[..j] + [s[j]] + s[j + 1..];
  }

  lemma HeadMultiset<A>(s: seq<A>)
    requires s != []
    ensures multiset(s) == multiset{s[0]} + multiset(s[1..])
  {
    assert s == [s[0]] + s[1..];
  }

  lemma MapOfWithout<A, B>(f: A -> B, s: seq<A>, j: nat)
    requires j < |s|
    ensures MapSeq(f, Without(s, j)) == Without(MapSeq(f, s), j)
  {
    var l, r := MapSeq(f, Without(s, j)), Without(MapSeq(f, s), j);
    forall i | 0 <= i < |s| - 1
      ensures l[i] == r[i]
    {
      assert l[i] == f(Without(s, j)[i]);
    }
  }

  lemma MapWithout<A, B>(f: A -> B, s: seq<A>, j: nat)
    requires j < |s|
    ensures multiset(MapSeq(f, s)) == multiset(MapSeq(f, Without(s, j))) + multiset{f(s[j])}
  {
    MapOfWithout(f, s, j);
    WithoutMultiset(MapSeq(f, s), j);
  }

  /** Where the head of a sequence sits in a permutation of it, and what remains without it. */
  lemma MatchHead<A>(s: seq<A>, t: seq<A>) returns (j: nat)
    requires s != [] && multiset(s) == multiset(t)
    ensures j < |t| && t[j] == s[0] && multiset(s[1..]) == multiset(Without(t, j))
  {
    HeadMultiset(s);
    assert s[0] in multiset(t);
    j :| 0 <= j < |t| && t[j] == s[0];
    WithoutMultiset(t, j);
    assert multiset(s[1..]) == multiset(s) - multiset{s[0]};
    assert multiset(Without(t, j)) == multiset(t) - multiset{s[0]};
  }

  lemma EmptyPermutation<A>(s: seq<A>, t: seq<A>)
    requires multiset(s) == multiset(t)
    ensures |s| == |t|
  {
    assert |multiset(s)| == |s| && |multiset(t)| == |t|;
  }

  /** Mapping a permutation gives a permutation. */
  lemma {:induction false} MapPermutation<A, B>(f: A -> B, s: seq<A>, t: seq<A>)
    requires multiset(s) == multiset(t)
    ensures multiset(MapSeq(f, s)) == multiset(MapSeq(f, t))
  {
    if s == [] {
      EmptyPermutation(s, t);
    } else {
      var j := MatchHead(s, t);
      MapPermutation(f, s[1..], Without(t, j));
      MapWithout(f, t, j);
      MapWithout(f, s, 0);
      assert Without(s, 0) == s[1..];
    }
  }

  ghost predicate Injective<A(!new), B>(f: A -> B) {
    forall x, y :: f(x) == f(y) ==> x == y
  }

  lemma {:induction false} InjectiveMapCount<A(!new), B>(f: A -> B, s: seq<A>, x: A)
    requires Injective(f)
    ensures multiset(MapSeq(f, s))[f(x)] == multiset(s)[x]
  {
    if s != [] {
      InjectiveMapCount(f, s[1..], x);
      MapWithout(f, s, 0);
      assert Without(s, 0) == s[1..];
      WithoutMultiset(s, 0);
    }
  }

  /** An injective map reflects permutations. */
  lemma InjectiveMapPermutation<A(!new), B>(f: A -> B, s: seq<A>, t: seq<A>)
    requires Injective(f)
    requires multiset(MapSeq(f, s)) == multiset(MapSeq(f, t))
    ensures multiset(s) == multiset(t)
  {
    forall x
      ensures multiset(s)[x] == multiset(t)[x]
    {
      InjectiveMapCount(f, s, x);
      InjectiveMapCount(f, t, x);
    }
  }
}
