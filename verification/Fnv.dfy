/**
 The 32-bit FNV-1a hash (section 2 of draft-eastlake-fnv), as `hashString` computes it. Words and
 bytes are sequences of bits, lowest first: exclusive or works bit by bit, and multiplication on
 the numbers the words stand for, keeping the low 32 bits. The proof that single-byte changes show
 in the hash uses only that the multiplication is injective, so it is carried out for any
 injective multiplication step `f`.
 */
module Fnv {
  type Byte = w: seq<bool> | |w| == 8 witness seq(8, i => false)

  /** A `uint32`. */
  type Word = w: seq<bool> | |w| == 32 witness seq(32, i => false)

  function BitValue(b: bool): nat { if b then 1 else 0 }

  /** The number that bits stand for. */
  function Value(w: seq<bool>): nat {
    if |w| == 0 then 0 else BitValue(w[0]) + 2 * Value(w[1..])
  }

  /** The low `n` bits of a number. */
  function Bits(v: nat, n: nat): (w: seq<bool>)
    ensures |w| == n
    decreases n, v
  {
    if n == 0 then [] else [v % 2 == 1] + Bits(v / 2, n - 1)
  }

  const BYTE_C5: Byte := [true, false, true, false, false, false, true, true]
  const BYTE_9D: Byte := [true, false, true, true, true, false, false, true]
  const BYTE_1C: Byte := [false, false, true, true, true, false, false, false]
  const BYTE_81: Byte := [true, false, false, false, false, false, false, true]

  /** 2166136261, which is 0x811c9dc5; see `OffsetValue`. */
  const OFFSET: Word := BYTE_C5 + BYTE_9D + BYTE_1C + BYTE_81

  /** `h ^= uint32(b)`. */
  function Mix(h: Word, b: Byte): Word {
    seq(32, i requires 0 <= i < 32 => if i < 8 then h[i] != b[i] else h[i])
  }

  /** `h *= 16777619`, wrapping. */
  function TimesPrime(x: Word): Word { Bits(Value(x) * 16777619, 32) }

  /** Hashing continued from `h` with multiplication step `f`. */
  function Fold(f: Word -> Word, h: Word, s: seq<Byte>): Word
    decreases |s|
  {
    if |s| == 0 then h else Fold(f, f(Mix(h, s[0])), s[1..])
  }

  function Hash(s: seq<Byte>): Word { Fold(TimesPrime, OFFSET, s) }

  lemma {:induction false} FoldSplit(f: Word -> Word, h: Word, a: seq<Byte>, b: seq<Byte>)
    ensures Fold(f, h, a + b) == Fold(f, Fold(f, h, a), b)
    decreases |a|
  {
    if |a| == 0 {
      assert a + b == b;
    } else {
      assert (a + b)[1..] == a[1..] + b;
      FoldSplit(f, f(Mix(h, a[0])), a[1..], b);
    }
  }

  method HashString(s: seq<Byte>) returns (h: Word)
    ensures h == Hash(s)
  {
    h := OFFSET;
    for i := 0 to |s|
      invariant h == Fold(TimesPrime, OFFSET, s[..i])
    {
      FoldSplit(TimesPrime, OFFSET, s[..i], [s[i]]);
      assert s[..i + 1] == s[..i] + [s[i]];
      FoldOne(TimesPrime, h, s[i]);
      h := Mix(h, s[i]);
      h := TimesPrime(h);
    }
    assert s[..|s|] == s;
  }

  lemma FoldOne(f: Word -> Word, h: Word, b: Byte)
    ensures Fold(f, h, [b]) == f(Mix(h, b))
  {
    assert [b][1..] == [];
  }

  // ---- Bits and numbers ----

  function Pow2(n: nat): (p: nat)
    ensures p > 0
  {
    if n == 0 then 1 else 2 * Pow2(n - 1)
  }

  lemma {:induction false} Pow2Add(m: nat, n: nat)
    ensures Pow2(m + n) == Pow2(m) * Pow2(n)
  {
    if m > 0 {
      Pow2Add(m - 1, n);
    }
  }

  lemma Pow2Byte()
    ensures Pow2(8) == 256
  {
    assert Pow2(2) == 4;
    Pow2Add(2, 2);
    Pow2Add(4, 4);
  }

  lemma Pow2Word()
    ensures Pow2(32) == 0x1_0000_0000
  {
    Pow2Byte();
    Pow2Add(8, 8);
    Pow2Add(16, 16);
  }

  lemma {:induction false} ValueBounded(w: seq<bool>)
    ensures Value(w) < Pow2(|w|)
  {
    if |w| > 0 {
      ValueBounded(w[1..]);
    }
  }

  /** Keeping the low bits loses a multiple of a power of two. */
  lemma {:induction false} BitsValue(v: nat, n: nat) returns (k: nat)
    ensures v == Value(Bits(v, n)) + k * Pow2(n)
    decreases n
  {
    if n == 0 {
      k := v;
    } else {
      k := BitsValue(v / 2, n - 1);
      assert Bits(v, n)[1..] == Bits(v / 2, n - 1);
      assert k * Pow2(n) == 2 * (k * Pow2(n - 1));
    }
  }

  lemma SameParity(a: bool, x: nat, b: bool, y: nat)
    requires BitValue(a) + 2 * x == BitValue(b) + 2 * y
    ensures a == b && x == y
  {
  }

  lemma {:induction false} ValueInjective(w: seq<bool>, w': seq<bool>)
    requires |w| == |w'| && Value(w) == Value(w')
    ensures w == w'
    decreases |w|
  {
    if |w| > 0 {
      SameParity(w[0], Value(w[1..]), w'[0], Value(w'[1..]));
      ValueInjective(w[1..], w'[1..]);
      assert w == [w[0]] + w[1..] && w' == [w'[0]] + w'[1..];
    }
  }

  /** A number that fits in a byte is the value of its bits. */
  lemma ByteBitsValue(v: nat)
    requires v < 256
    ensures Value(Bits(v, 8)) == v
  {
    var k := BitsValue(v, 8);
    Pow2Byte();
  }

  lemma BitsOfByte(v: nat, w: Byte)
    requires v < 256 && Value(w) == v
    ensures Bits(v, 8) == w
  {
    ByteBitsValue(v);
    ValueInjective(Bits(v, 8), w);
  }

  // ---- Injectivity ----

  ghost predicate Injective(f: Word -> Word) { forall x, y :: f(x) == f(y) ==> x == y }

  /** Multiplying by the prime can be undone: 899433627 is its inverse modulo 2^32. */
  lemma PrimeCancels(x: int, y: int, r: int, k: int, l: int)
    requires 0 <= x < 0x1_0000_0000 && 0 <= y < 0x1_0000_0000
    requires x * 16777619 == r + k * 0x1_0000_0000 && y * 16777619 == r + l * 0x1_0000_0000
    ensures x == y
  {
    assert x - y == 0x1_0000_0000 * ((k - l) * 899433627 - (x - y) * 3513497);
  }

  lemma PrimeSeparates(x: Word, y: Word)
    requires TimesPrime(x) == TimesPrime(y)
    ensures x == y
  {
    var k := BitsValue(Value(x) * 16777619, 32);
    var l := BitsValue(Value(y) * 16777619, 32);
    Pow2Word();
    ValueBounded(x);
    ValueBounded(y);
    PrimeCancels(Value(x), Value(y), Value(TimesPrime(x)), k, l);
    ValueInjective(x, y);
  }

  lemma TimesPrimeInjective()
    ensures Injective(TimesPrime)
  {
    forall x, y | TimesPrime(x) == TimesPrime(y) ensures x == y {
      PrimeSeparates(x, y);
    }
  }

  lemma MixUndone(h: Word, b: Byte)
    ensures Mix(Mix(h, b), b) == h
  {
  }

  lemma MixSeparates(h: Word, b: Byte, b': Byte)
    requires Mix(h, b) == Mix(h, b')
    ensures b == b'
  {
    forall i | 0 <= i < 8 ensures b[i] == b'[i] {
      assert Mix(h, b)[i] == Mix(h, b')[i];
    }
  }

  lemma {:induction false} FoldInjective(f: Word -> Word, h: Word, h': Word, s: seq<Byte>)
    requires Injective(f) && Fold(f, h, s) == Fold(f, h', s)
    ensures h == h'
    decreases |s|
  {
    if |s| > 0 {
      FoldInjective(f, f(Mix(h, s[0])), f(Mix(h', s[0])), s[1..]);
      assert Mix(h, s[0]) == Mix(h', s[0]);
      MixUndone(h, s[0]);
      MixUndone(h', s[0]);
    }
  }

  lemma OneByteChangesFold(f: Word -> Word, h: Word, pre: seq<Byte>, a: Byte, b: Byte, post: seq<Byte>)
    requires Injective(f) && a != b
    ensures Fold(f, h, pre + ([a] + post)) != Fold(f, h, pre + ([b] + post))
  {
    FoldSplit(f, h, pre, [a] + post);
    FoldSplit(f, h, pre, [b] + post);
    var m := Fold(f, h, pre);
    assert ([a] + post)[1..] == post && ([b] + post)[1..] == post;
    if Fold(f, m, [a] + post) == Fold(f, m, [b] + post) {
      FoldInjective(f, f(Mix(m, a)), f(Mix(m, b)), post);
      MixSeparates(m, a, b);
    }
  }

  /** Two strings of equal length that differ in exactly one byte hash differently. */
  lemma OneByteChangesHash(s: seq<Byte>, t: seq<Byte>, i: nat)
    requires |s| == |t| && i < |s| && s[i] != t[i]
    requires forall j :: 0 <= j < |s| && j != i ==> s[j] == t[j]
    ensures Hash(s) != Hash(t)
  {
    assert s == s[..i] + ([s[i]] + s[i + 1..]) && t == s[..i] + ([t[i]] + s[i + 1..]);
    TimesPrimeInjective();
    OneByteChangesFold(TimesPrime, OFFSET, s[..i], s[i], t[i], s[i + 1..]);
  }

  // ---- Parity ----

  predicate IsOdd(x: int) { x % 2 == 1 }

  /** Whether an odd number of the bytes are odd. */
  predicate OddMany(s: seq<Byte>) { s != [] && s[0][0] != OddMany(s[1..]) }

  lemma {:induction false} OddManyCat(a: seq<Byte>, b: seq<Byte>)
    ensures OddMany(a + b) == (OddMany(a) != OddMany(b))
  {
    if a == [] {
      assert a + b == b;
    } else {
      assert (a + b)[1..] == a[1..] + b;
      OddManyCat(a[1..], b);
    }
  }

  lemma EvenDifference(a: int, b: int, c: int)
    requires a == b + 2 * c
    ensures IsOdd(a) == IsOdd(b)
  {
  }

  lemma LowestBit(w: seq<bool>)
    requires |w| > 0
    ensures IsOdd(Value(w)) == w[0]
  {
    EvenDifference(Value(w), BitValue(w[0]), Value(w[1..]));
  }

  lemma PrimeParity(x: Word)
    ensures TimesPrime(x)[0] == x[0]
  {
    LowestBit(x);
    EvenDifference(Value(x) * 16777619, Value(x), Value(x) * 8388809);
  }

  ghost predicate KeepsParity(f: Word -> Word) { forall x: Word :: f(x)[0] == x[0] }

  lemma PrimeKeepsParity()
    ensures KeepsParity(TimesPrime)
  {
    forall x: Word ensures TimesPrime(x)[0] == x[0] {
      PrimeParity(x);
    }
  }

  lemma {:induction false} FoldParity(f: Word -> Word, h: Word, s: seq<Byte>)
    requires KeepsParity(f)
    ensures Fold(f, h, s)[0] == (h[0] != OddMany(s))
    decreases |s|
  {
    if s != [] {
      FoldParity(f, f(Mix(h, s[0])), s[1..]);
    }
  }

  /** The hash is odd exactly when an even number of the bytes are odd. */
  lemma HashParity(s: seq<Byte>)
    ensures IsOdd(Value(Hash(s))) == !OddMany(s)
  {
    PrimeKeepsParity();
    FoldParity(TimesPrime, OFFSET, s);
    LowestBit(Hash(s));
  }

  // ---- Byte by byte ----

  lemma {:induction false} ValueCat(a: seq<bool>, b: seq<bool>)
    ensures Value(a + b) == Value(a) + Pow2(|a|) * Value(b)
    decreases |a|
  {
    if |a| == 0 {
      assert a + b == b;
    } else {
      assert (a + b)[1..] == a[1..] + b;
      ValueCat(a[1..], b);
    }
  }

  lemma FourBytes(a: Byte, b: Byte, c: Byte, d: Byte)
    ensures Value(a + b + c + d) == Value(a) + 256 * (Value(b) + 256 * (Value(c) + 256 * Value(d)))
  {
    assert a + b + c + d == a + (b + (c + d));
    Pow2Byte();
    ValueCat(a, b + (c + d));
    ValueCat(b, c + d);
    ValueCat(c, d);
  }

  lemma TwoNibbles(a: seq<bool>, b: seq<bool>)
    requires |a| == 4
    ensures Value(a + b) == Value(a) + 16 * Value(b)
  {
    assert Pow2(4) == 16;
    ValueCat(a, b);
  }

  lemma ByteValue(w: Byte)
    ensures Value(w) == BitValue(w[0]) + 2 * BitValue(w[1]) + 4 * BitValue(w[2]) + 8 * BitValue(w[3])
      + 16 * BitValue(w[4]) + 32 * BitValue(w[5]) + 64 * BitValue(w[6]) + 128 * BitValue(w[7])
  {
    NibbleValue(w[..4]);
    NibbleValue(w[4..]);
    assert w == w[..4] + w[4..];
    TwoNibbles(w[..4], w[4..]);
  }

  lemma NibbleValue(w: seq<bool>)
    requires |w| == 4
    ensures Value(w) == BitValue(w[0]) + 2 * BitValue(w[1]) + 4 * BitValue(w[2]) + 8 * BitValue(w[3])
  {
    assert w[1..][1..] == w[2..] && w[2..][1..] == w[3..] && w[3..][1..] == [];
    assert Value(w[3..]) == BitValue(w[3]);
    assert Value(w[2..]) == BitValue(w[2]) + 2 * BitValue(w[3]);
  }

  lemma HighBytes()
    ensures Value(BYTE_9D) == 0x9d && Value(BYTE_1C) == 0x1c && Value(BYTE_81) == 0x81
  {
    ByteValue(BYTE_9D);
    ByteValue(BYTE_1C);
    ByteValue(BYTE_81);
  }

  lemma OffsetValue()
    ensures Value(OFFSET) == 2166136261
  {
    ByteValue(BYTE_C5);
    HighBytes();
    FourBytes(BYTE_C5, BYTE_9D, BYTE_1C, BYTE_81);
  }
}
