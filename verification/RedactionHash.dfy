/**
 The hash strategy writes the FNV-1a hash of a string in hexadecimal. Different one-byte changes
 show in the text, and hashing the text again gives a different text: it is not a fixed point.
 */
module RedactionHash {
  import opened Redaction
  import Fnv

  // ---- The hash of "e" ----

  const BYTE_65: Fnv.Byte := [true, false, true, false, false, true, true, false]
  const BYTE_A0: Fnv.Byte := [false, false, false, false, false, true, false, true]

  lemma BytesOfE(a: string)
    requires a == "e"
    ensures Bytes(a) == [BYTE_65]
  {
    Fnv.ByteValue(BYTE_65);
    Fnv.BitsOfByte(a[0] as int, BYTE_65);
  }

  lemma MixOfE()
    ensures Fnv.Mix(Fnv.OFFSET, BYTE_65) == BYTE_A0 + Fnv.BYTE_9D + Fnv.BYTE_1C + Fnv.BYTE_81
  {
  }

  lemma MixValueOfE()
    ensures Fnv.Value(Fnv.Mix(Fnv.OFFSET, BYTE_65)) == 2166136224
  {
    MixOfE();
    Fnv.ByteValue(BYTE_A0);
    Fnv.HighBytes();
    Fnv.FourBytes(BYTE_A0, Fnv.BYTE_9D, Fnv.BYTE_1C, Fnv.BYTE_81);
  }

  lemma SameRemainder(a: int, r: int, d: int)
    requires 0 <= a < 0x1_0000_0000 && 0 <= r < 0x1_0000_0000 && a - r == d * 0x1_0000_0000
    ensures a == r
  {
  }

  /** What a product wraps to is determined by its remainder. */
  lemma ProductValue(x: Fnv.Word, q: nat, r: nat)
    requires Fnv.Value(x) * 16777619 == q * 0x1_0000_0000 + r && r < 0x1_0000_0000
    ensures Fnv.Value(Fnv.TimesPrime(x)) == r
  {
    var k := Fnv.BitsValue(Fnv.Value(x) * 16777619, 32);
    Fnv.Pow2Word();
    Fnv.ValueBounded(Fnv.TimesPrime(x));
    SameRemainder(Fnv.Value(Fnv.TimesPrime(x)), r, q - k);
  }

  lemma HashIsOfE(a: string)
    requires a == "e"
    ensures Fnv.Value(Fnv.Hash(Bytes(a))) == 3758891744
  {
    BytesOfE(a);
    Fnv.FoldOne(Fnv.TimesPrime, Fnv.OFFSET, BYTE_65);
    MixValueOfE();
    ProductValue(Fnv.Mix(Fnv.OFFSET, BYTE_65), 8461672, 3758891744);
  }

  // ---- Parity of the hash text ----

  predicate Odd(s: string) { Fnv.OddMany(Bytes(s)) }

  lemma OddCat(s: string, t: string)
    ensures Odd(s + t) == (Odd(s) != Odd(t))
  {
    assert Bytes(s + t) == Bytes(s) + Bytes(t);
    Fnv.OddManyCat(Bytes(s), Bytes(t));
  }

  lemma OddChar(c: char)
    ensures Odd([c]) == Fnv.IsOdd(c as int)
  {
    var b := Fnv.Bits(c as int, 8);
    assert Bytes([c]) == [b];
    assert [b][1..] == [];
    assert Fnv.OddMany([b]) == ([b][0][0] != Fnv.OddMany([]));
  }

  predicate OddDigits(w: nat, n: nat)
    decreases n, w
  {
    n > 0 && OddDigits(w / 16, n - 1) != Fnv.IsOdd(HexDigit(w % 16) as int)
  }

  lemma {:induction false} OddHex(w: nat, n: nat)
    ensures Odd(Hex(w, n)) == OddDigits(w, n)
  {
    if n > 0 {
      OddHex(w / 16, n - 1);
      OddCat(Hex(w / 16, n - 1), [HexDigit(w % 16)]);
      OddChar(HexDigit(w % 16));
    }
  }

  lemma OddFrame()
    ensures Odd("<hash-") && !Odd(">")
  {
    assert "<hash-" == ['<'] + (['h'] + (['a'] + (['s'] + (['h'] + ['-']))));
    OddCat(['<'], ['h'] + (['a'] + (['s'] + (['h'] + ['-']))));
    OddCat(['h'], ['a'] + (['s'] + (['h'] + ['-'])));
    OddCat(['a'], ['s'] + (['h'] + ['-']));
    OddCat(['s'], ['h'] + ['-']);
    OddCat(['h'], ['-']);
    OddChar('<');
    OddChar('h');
    OddChar('a');
    OddChar('s');
    OddChar('-');
    OddChar('>');
  }

  lemma OddHashText(w: Fnv.Word)
    ensures Odd(HashText(w)) == !OddDigits(Fnv.Value(w), 8)
  {
    var digits := Hex(Fnv.Value(w), 8);
    OddHex(Fnv.Value(w), 8);
    OddCat("<hash-" + digits, ">");
    OddCat("<hash-", digits);
    OddFrame();
  }

  lemma OddDigitsOfE(w: nat)
    requires w == 3758891744
    ensures OddDigits(w, 8)
  {
    assert OddDigits(w / 0x10000000, 1);
    assert OddDigits(w / 0x100000, 3);
    assert !OddDigits(w / 0x1000, 5);
    assert OddDigits(w / 0x10, 7);
  }

  /** When a hash and its rendering clash in parity, hashing the rendering differs. */
  lemma ParityClash(w: Fnv.Word)
    requires OddDigits(Fnv.Value(w), 8) != Fnv.IsOdd(Fnv.Value(w))
    ensures RedactString(HashText(w), HashOf) != HashText(w)
  {
    OddHashText(w);
    Fnv.HashParity(Bytes(HashText(w)));
    assert Fnv.Hash(Bytes(HashText(w))) != w;
    HashTextSeparates(Fnv.Hash(Bytes(HashText(w))), w);
  }

  /** Hashing is not settled by hashing again. */
  lemma HashTwiceDiffers(a: string)
    requires a == "e"
    ensures RedactString(RedactString(a, HashOf), HashOf) != RedactString(a, HashOf)
  {
    var w := Fnv.Hash(Bytes(a));
    HashIsOfE(a);
    OddDigitsOfE(Fnv.Value(w));
    ParityClash(w);
  }

  // ---- Separation ----

  lemma HexDigitInjective(d: int, d': int)
    requires 0 <= d < 16 && 0 <= d' < 16 && HexDigit(d) == HexDigit(d')
    ensures d == d'
  {
  }

  function Pow16(n: nat): (p: nat)
    ensures p > 0
  {
    if n == 0 then 1 else 16 * Pow16(n - 1)
  }

  lemma {:induction false} HexInjective(w: nat, w': nat, n: nat)
    requires w < Pow16(n) && w' < Pow16(n) && Hex(w, n) == Hex(w', n)
    ensures w == w'
  {
    if n > 0 {
      var s, s' := Hex(w / 16, n - 1), Hex(w' / 16, n - 1);
      assert Hex(w, n)[n - 1] == HexDigit(w % 16) && Hex(w', n)[n - 1] == HexDigit(w' % 16);
      assert Hex(w, n)[..n - 1] == s && Hex(w', n)[..n - 1] == s';
      HexDigitInjective(w % 16, w' % 16);
      HexInjective(w / 16, w' / 16, n - 1);
    }
  }

  lemma EightDigits()
    ensures Pow16(8) == 0x1_0000_0000
  {
    assert Pow16(4) == 65536;
  }

  lemma HashTextSeparates(w: Fnv.Word, w': Fnv.Word)
    requires w != w'
    ensures HashText(w) != HashText(w')
  {
    var v, v' := Fnv.Value(w), Fnv.Value(w');
    assert HashText(w)[6..14] == Hex(v, 8) && HashText(w')[6..14] == Hex(v', 8);
    if Hex(v, 8) == Hex(v', 8) {
      EightDigits();
      Fnv.Pow2Word();
      Fnv.ValueBounded(w);
      Fnv.ValueBounded(w');
      HexInjective(v, v', 8);
      Fnv.ValueInjective(w, w');
    }
  }

  lemma BytesDiffer(s: string, t: string, i: nat)
    requires |s| == |t| && i < |s| && s[i] < 256 as char && t[i] < 256 as char && s[i] != t[i]
    ensures Bytes(s)[i] != Bytes(t)[i]
  {
    Fnv.ByteBitsValue(s[i] as int);
    Fnv.ByteBitsValue(t[i] as int);
  }

  /** Two strings of equal length that differ in one byte keep different hash texts. */
  lemma HashRedactionSeparates(s: string, t: string, i: nat)
    requires |s| == |t| && i < |s|
    requires forall j :: 0 <= j < |s| ==> s[j] < 256 as char && t[j] < 256 as char
    requires s[i] != t[i] && forall j :: 0 <= j < |s| && j != i ==> s[j] == t[j]
    ensures RedactString(s, HashOf) != RedactString(t, HashOf)
  {
    BytesDiffer(s, t, i);
    Fnv.OneByteChangesHash(Bytes(s), Bytes(t), i);
    HashTextSeparates(Fnv.Hash(Bytes(s)), Fnv.Hash(Bytes(t)));
  }
}
