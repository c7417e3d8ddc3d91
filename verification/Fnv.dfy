/** The FNV-1a 64-bit hasher of src/snapshot.rs and the byte encodings it is fed. */
module Fnv1a {

  type Byte = b: nat | b < 256
  /** A 64-bit word; an `f64` is its bit pattern and is otherwise opaque. */
  type Word = w: nat | w < WORDS witness 0

  const WORDS: nat := 0x1_0000_0000_0000_0000
  const OFFSET: Word := 0xcbf2_9ce4_8422_2325
  const PRIME: nat := 0x100_0000_01b3
  /** `PRIME * PRIME_INVERSE == 1 + INVERSE_CARRY * WORDS`: the multiplier is odd. */
  const PRIME_INVERSE: nat := 0xce96_5057_aff6_957b
  const INVERSE_CARRY: nat := 887285111055
  const USIZE_MAX: Word := 0xffff_ffff_ffff_ffff

  // ---------------------------------------------------------------- the hash step

  /** Exclusive or of the low `bits` bits. */
  function Xor(a: nat, b: nat, bits: nat): nat {
    if bits == 0 then 0 else 2 * Xor(a / 2, b / 2, bits - 1) + (a + b) % 2
  }

  function PowerOfTwo(n: nat): nat {
    if n == 0 then 1 else 2 * PowerOfTwo(n - 1)
  }

  lemma XorSplits(a: nat, b: nat, bits: nat)
    requires bits != 0
    ensures Xor(a, b, bits) == 2 * Xor(a / 2, b / 2, bits - 1) + (a + b) % 2
    ensures Xor(a, b, bits) / 2 == Xor(a / 2, b / 2, bits - 1) && Xor(a, b, bits) % 2 == (a + b) % 2
    ensures PowerOfTwo(bits) == 2 * PowerOfTwo(bits - 1)
  {
  }

  lemma {:induction false} XorCancels(a: nat, b: nat, bits: nat)
    requires a < PowerOfTwo(bits)
    ensures Xor(a, b, bits) < PowerOfTwo(bits)
    ensures Xor(Xor(a, b, bits), b, bits) == a
  {
    if bits == 0 { return; }
    var c, half := Xor(a, b, bits), Xor(a / 2, b / 2, bits - 1);
    XorSplits(a, b, bits);
    XorSplits(c, b, bits);
    hide Xor, PowerOfTwo;
    assert a / 2 < PowerOfTwo(bits - 1);
    XorCancels(a / 2, b / 2, bits - 1);
    assert c / 2 == half;
    BitCancels(a, b, c);
  }

  lemma BitCancels(a: nat, b: nat, c: nat)
    requires c % 2 == (a + b) % 2
    ensures (c + b) % 2 == a % 2
    ensures a == 2 * (a / 2) + a % 2
  {
  }

  lemma {:induction false} XorCommutes(a: nat, b: nat, bits: nat)
    ensures Xor(a, b, bits) == Xor(b, a, bits)
  {
    if bits != 0 {
      XorCommutes(a / 2, b / 2, bits - 1);
    }
  }

  lemma EightBits()
    ensures PowerOfTwo(8) == 256
  {
    assert PowerOfTwo(4) == 16;
  }

  /** Exclusive or of a word with a byte changes its low byte only. */
  function XorByte(h: Word, b: Byte): Word {
    XorByteIsWord(h, b);
    h / 256 * 256 + Xor(h % 256, b, 8)
  }

  lemma XorByteIsWord(h: Word, b: Byte)
    ensures h / 256 * 256 + Xor(h % 256, b, 8) < WORDS
    ensures Xor(h % 256, b, 8) < 256
  {
    hide Xor, PowerOfTwo;
    EightBits();
    XorCancels(h % 256, b, 8);
  }

  /** One step: exclusive or, then a wrapping multiplication. */
  function HashByte(h: Word, b: Byte): Word {
    XorByte(h, b) * PRIME % WORDS
  }

  function HashFrom(h: Word, bytes: seq<Byte>): Word {
    if |bytes| == 0 then h else HashByte(HashFrom(h, bytes[..|bytes| - 1]), bytes[|bytes| - 1])
  }

  function Hash(bytes: seq<Byte>): Word {
    HashFrom(OFFSET, bytes)
  }

  lemma XorOfA()
    ensures Xor(0x25, 0x61, 8) == 0x44
  {
    hide Xor, PowerOfTwo;
    XorEnds(0, 0);
    XorSplits(0, 0, 1);
    XorSplits(0, 1, 2);
    XorSplits(1, 3, 3);
    XorSplits(2, 6, 4);
    XorSplits(4, 12, 5);
    XorSplits(9, 24, 6);
    XorSplits(18, 48, 7);
    XorSplits(37, 97, 8);
  }

  lemma XorEnds(a: nat, b: nat)
    ensures Xor(a, b, 0) == 0
  {
  }

  /** The published FNV-1a values of the empty stream and of the one-byte stream "a". */
  lemma PublishedValues()
    ensures Hash([]) == 0xcbf2_9ce4_8422_2325
    ensures Hash([0x61]) == 0xaf63_dc4c_8601_ec8c
  {
    hide Xor, PowerOfTwo;
    XorOfA();
    assert [0x61][..0] == [];
    assert XorByte(OFFSET, 0x61) == 0xcbf2_9ce4_8422_2344;
  }

  /** The wrapping multiplication by an odd constant can be undone. */
  lemma MultiplicationIsInjective(x: Word)
    ensures x * PRIME % WORDS * PRIME_INVERSE % WORDS == x
  {
    var q, r := x * PRIME / WORDS, x * PRIME % WORDS;
    assert x * PRIME == q * WORDS + r;
    assert r * PRIME_INVERSE == x + (x * INVERSE_CARRY - q * PRIME_INVERSE) * WORDS;
    RemainderOfMultiple(x, x * INVERSE_CARRY - q * PRIME_INVERSE);
  }

  lemma RemainderOfMultiple(x: Word, k: int)
    ensures (x + k * WORDS) % WORDS == x
  {
  }

  lemma XorByteIsInjective(g: Word, h: Word, b: Byte, c: Byte)
    ensures XorByte(g, b) == XorByte(h, b) ==> g == h
    ensures XorByte(h, b) == XorByte(h, c) ==> b == c
  {
    EightBits();
    XorByteIsWord(g, b);
    XorByteIsWord(h, b);
    XorByteIsWord(h, c);
    XorCancels(g % 256, b, 8);
    XorCancels(h % 256, b, 8);
    XorCommutes(h % 256, b, 8);
    XorCommutes(h % 256, c, 8);
    XorCancels(b, h % 256, 8);
    XorCancels(c, h % 256, 8);
    hide Xor, PowerOfTwo;
    if XorByte(g, b) == XorByte(h, b) { LowByteSplits(g / 256, Xor(g % 256, b, 8), h / 256, Xor(h % 256, b, 8)); }
    if XorByte(h, b) == XorByte(h, c) { LowByteSplits(h / 256, Xor(h % 256, b, 8), h / 256, Xor(h % 256, c, 8)); }
  }

  lemma LowByteSplits(high: nat, low: Byte, high': nat, low': Byte)
    requires high * 256 + low == high' * 256 + low'
    ensures high == high' && low == low'
  {
  }

  /** Each step is injective in the hash so far, and in the byte. */
  lemma StepIsInjective(g: Word, h: Word, b: Byte, c: Byte)
    ensures HashByte(g, b) == HashByte(h, b) ==> g == h
    ensures HashByte(h, b) == HashByte(h, c) ==> b == c
  {
    MultiplicationIsInjective(XorByte(g, b));
    MultiplicationIsInjective(XorByte(h, b));
    MultiplicationIsInjective(XorByte(h, c));
    XorByteIsInjective(g, h, b, c);
  }

  /** Equal suffixes keep hashes apart. */
  lemma {:induction false} SuffixKeepsDifference(g: Word, h: Word, suffix: seq<Byte>)
    requires g != h
    ensures HashFrom(g, suffix) != HashFrom(h, suffix)
  {
    if |suffix| != 0 {
      var k := |suffix| - 1;
      SuffixKeepsDifference(g, h, suffix[..k]);
      StepIsInjective(HashFrom(g, suffix[..k]), HashFrom(h, suffix[..k]), suffix[k], suffix[k]);
    }
  }

  lemma {:induction false} HashFromAppend(h: Word, prefix: seq<Byte>, suffix: seq<Byte>)
    ensures HashFrom(h, prefix + suffix) == HashFrom(HashFrom(h, prefix), suffix)
  {
    if |suffix| == 0 {
      assert prefix + suffix == prefix;
    } else {
      var k := |suffix| - 1;
      HashFromAppend(h, prefix, suffix[..k]);
      assert (prefix + suffix)[..|prefix + suffix| - 1] == prefix + suffix[..k];
    }
  }

  /** Two streams of one length that differ in exactly one byte never collide. */
  lemma OneByteAlwaysMatters(a: seq<Byte>, b: seq<Byte>, i: nat)
    requires |a| == |b| && i < |a| && a[i] != b[i]
    requires forall j :: 0 <= j < |a| && j != i ==> a[j] == b[j]
    ensures Hash(a) != Hash(b)
  {
    assert a == a[..i] + [a[i]] + a[i + 1..] && b == b[..i] + [b[i]] + b[i + 1..];
    assert a[..i] == b[..i] && a[i + 1..] == b[i + 1..];
    var h := HashFrom(OFFSET, a[..i]);
    HashFromAppend(OFFSET, a[..i], [a[i]]);
    HashFromAppend(OFFSET, a[..i], [b[i]]);
    HashFromAppend(OFFSET, a[..i] + [a[i]], a[i + 1..]);
    HashFromAppend(OFFSET, a[..i] + [b[i]], a[i + 1..]);
    assert [a[i]][..0] == [] && [b[i]][..0] == [];
    StepIsInjective(h, h, a[i], b[i]);
    SuffixKeepsDifference(HashByte(h, a[i]), HashByte(h, b[i]), a[i + 1..]);
  }

  // ---------------------------------------------------------------- little-endian words

  /** The low `n` bytes of a word, least significant first. */
  function LittleEndian(w: nat, n: nat): (bytes: seq<Byte>)
    ensures |bytes| == n
  {
    if n == 0 then [] else [w % 256] + LittleEndian(w / 256, n - 1)
  }

  function FromLittleEndian(bytes: seq<Byte>): nat {
    if |bytes| == 0 then 0 else bytes[0] + 256 * FromLittleEndian(bytes[1..])
  }

  function Power256(n: nat): nat {
    if n == 0 then 1 else 256 * Power256(n - 1)
  }

  lemma {:induction false} LittleEndianRoundTrip(w: nat, n: nat)
    requires w < Power256(n)
    ensures FromLittleEndian(LittleEndian(w, n)) == w
  {
    if n != 0 {
      LittleEndianRoundTrip(w / 256, n - 1);
      assert LittleEndian(w, n)[1..] == LittleEndian(w / 256, n - 1);
    }
  }

  /** The least significant byte comes first. */
  lemma LeastSignificantFirst(low: Byte)
    ensures LittleEndian(low + 256, 8) == [low, 1, 0, 0, 0, 0, 0, 0]
  {
    assert LittleEndian(0, 6) == [0, 0, 0, 0, 0, 0] by { assert LittleEndian(0, 3) == [0, 0, 0]; }
    assert LittleEndian(1, 7) == [1] + LittleEndian(0, 6);
    assert LittleEndian(low + 256, 8) == [low] + LittleEndian(1, 7);
  }

  lemma {:induction false} FromLittleEndianBound(bytes: seq<Byte>)
    ensures FromLittleEndian(bytes) < Power256(|bytes|)
  {
    if |bytes| != 0 { FromLittleEndianBound(bytes[1..]); }
  }

  lemma EightBytes()
    ensures Power256(8) == WORDS
  {
    assert Power256(4) == 0x1_0000_0000;
  }

  // ---------------------------------------------------------------- the hasher

  class Fnv {
    var hash: Word
    /** Everything hashed so far. */
    ghost var stream: seq<Byte>

    ghost predicate Valid()
      reads this
    {
      hash == Hash(stream)
    }

    constructor ()
      ensures Valid() && stream == []
    {
      hash, stream := OFFSET, [];
    }

    method PutByte(b: Byte)
      requires Valid()
      modifies this
      ensures Valid() && stream == old(stream) + [b]
    {
      assert (stream + [b])[..|stream|] == stream;
      hash, stream := HashByte(hash, b), stream + [b];
    }

    method PutBytes(bytes: seq<Byte>)
      requires Valid()
      modifies this
      ensures Valid() && stream == old(stream) + bytes
    {
      for i := 0 to |bytes|
        invariant Valid() && stream == old(stream) + bytes[..i]
      {
        PutByte(bytes[i]);
      }
    }

    method PutWord(w: Word)
      requires Valid()
      modifies this
      ensures Valid() && stream == old(stream) + LittleEndian(w, 8)
    {
      PutBytes(LittleEndian(w, 8));
    }
  }
}
