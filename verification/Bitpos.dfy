/**
 redisBitpos (bitops.c): the position of the first bit equal to a given one, skipping
 bytes until the address is aligned, then 64-bit words, then scanning one word.
 A word is a number below 2^64, so shifting is multiplying or dividing by two, and
 `one & word` for a single-bit `one` is whether `word / one` is odd.
 */
module Bitpos {
  import opened BitString

  const TWO64: int := 0x1_0000_0000_0000_0000
  const ULONG_MAX: int := TWO64 - 1
  const UCHAR_MAX: bv8 := 0xFF

  lemma UniformByte(i: nat)
    requires i < 8
    ensures !Bit(0, i) && Bit(UCHAR_MAX, i)
  {}

  lemma SomeBit(x: bv8)
    ensures x != 0 ==> exists i :: 0 <= i < 8 && Bit(x, i)
    ensures x != UCHAR_MAX ==> exists i :: 0 <= i < 8 && !Bit(x, i)
  {
    if forall i :: 0 <= i < 8 ==> !Bit(x, i) {
      forall i | 0 <= i < 8 ensures Bit(x, i) == Bit(0, i) { UniformByte(i); }
      SameBitsSameByte(x, 0);
    }
    if forall i :: 0 <= i < 8 ==> Bit(x, i) {
      forall i | 0 <= i < 8 ensures Bit(x, i) == Bit(UCHAR_MAX, i) { UniformByte(i); }
      SameBitsSameByte(x, UCHAR_MAX);
    }
  }

  function Join64(a: nat, b: nat, c: nat, d: nat, e: nat, f: nat, g: nat, h: nat): nat {
    a + 0x100 * b + 0x1_0000 * c + 0x100_0000 * d + 0x1_0000_0000 * e + 0x100_0000_0000 * f
    + 0x1_0000_0000_0000 * g + 0x100_0000_0000_0000 * h
  }

  /** A 64-bit little-endian load. */
  function Load64(b: seq<bv8>): nat
    requires |b| == 8
  {
    Join64(ByteValue(b[0]), ByteValue(b[1]), ByteValue(b[2]), ByteValue(b[3]), ByteValue(b[4]), ByteValue(b[5]), ByteValue(b[6]), ByteValue(b[7]))
  }

  lemma ByteRange(x: bv8)
    ensures 0 <= ByteValue(x) <= 255 && (ByteValue(x) == 0 <==> x == 0) && (ByteValue(x) == 255 <==> x == UCHAR_MAX)
  {}

  lemma Join64Uniform(a: nat, b: nat, c: nat, d: nat, e: nat, f: nat, g: nat, h: nat)
    requires a <= 255 && b <= 255 && c <= 255 && d <= 255 && e <= 255 && f <= 255 && g <= 255 && h <= 255
    ensures Join64(a, b, c, d, e, f, g, h) == 0 <==> a == b == c == d == e == f == g == h == 0
    ensures Join64(a, b, c, d, e, f, g, h) == ULONG_MAX <==> a == b == c == d == e == f == g == h == 255
  {}

  /** A word is all zeros, or all ones, exactly when its bytes are. */
  lemma Load64Uniform(b: seq<bv8>)
    requires |b| == 8
    ensures Load64(b) == 0 <==> forall i :: 0 <= i < 8 ==> b[i] == 0
    ensures Load64(b) == ULONG_MAX <==> forall i :: 0 <= i < 8 ==> b[i] == UCHAR_MAX
  {
    hide Join64, ByteValue;
    forall i | 0 <= i < 8
      ensures 0 <= ByteValue(b[i]) <= 255 && (ByteValue(b[i]) == 0 <==> b[i] == 0) && (ByteValue(b[i]) == 255 <==> b[i] == UCHAR_MAX)
    {
      ByteRange(b[i]);
    }
    Join64Uniform(ByteValue(b[0]), ByteValue(b[1]), ByteValue(b[2]), ByteValue(b[3]), ByteValue(b[4]), ByteValue(b[5]), ByteValue(b[6]), ByteValue(b[7]));
  }

  /** No bit before `p` equals `bit`. */
  ghost predicate NoneBefore(s: seq<bv8>, p: nat, bit: bool) {
    forall q :: 0 <= q < p ==> PaddedBitAt(s, q) != bit
  }

  /** One of the 64 bits from byte `c` on equals `bit`. */
  ghost predicate MatchAhead(s: seq<bv8>, c: nat, bit: bool) {
    exists p :: 8 * c <= p < 8 * c + 64 && PaddedBitAt(s, p) == bit
  }

  lemma SkippedByte(s: seq<bv8>, c: nat, bit: bool)
    requires c < |s| && NoneBefore(s, 8 * c, bit)
    requires s[c] == if bit then 0 else UCHAR_MAX
    ensures NoneBefore(s, 8 * (c + 1), bit)
  {}

  lemma SkippedWord(s: seq<bv8>, c: nat, bit: bool)
    requires c + 8 <= |s| && NoneBefore(s, 8 * c, bit)
    requires Load64(s[c..c + 8]) == if bit then 0 else ULONG_MAX
    ensures NoneBefore(s, 8 * (c + 8), bit)
  {
    hide Load64;
    Load64Uniform(s[c..c + 8]);
    var n := 0;
    while n < 8
      invariant n <= 8 && NoneBefore(s, 8 * (c + n), bit)
    {
      assert s[c..c + 8][n] == s[c + n];
      SkippedByte(s, c + n, bit);
      n := n + 1;
    }
  }

  lemma ByteHasMatch(s: seq<bv8>, c: nat, t: nat, bit: bool)
    requires t < 8 && c + t < |s| && s[c + t] != if bit then 0 else UCHAR_MAX
    ensures MatchAhead(s, c, bit)
  {
    hide Bit;
    SomeBit(s[c + t]);
    var i :| 0 <= i < 8 && Bit(s[c + t], i) == bit;
    var p := 8 * (c + t) + i;
    assert p / 8 == c + t && p % 8 == i;
    assert PaddedBitAt(s, p) == bit;
  }

  lemma WordHasMatch(s: seq<bv8>, c: nat, bit: bool)
    requires c + 8 <= |s| && Load64(s[c..c + 8]) != if bit then 0 else ULONG_MAX
    ensures MatchAhead(s, c, bit)
  {
    hide Load64;
    Load64Uniform(s[c..c + 8]);
    var t :| 0 <= t < 8 && s[c..c + 8][t] != if bit then 0 else UCHAR_MAX;
    ByteHasMatch(s, c, t, bit);
  }

  /** The eight bytes from `c` on, zero beyond the end. */
  function Padded8(s: seq<bv8>, c: nat): (b: seq<bv8>)
    ensures |b| == 8
    ensures forall t :: 0 <= t < 8 ==> b[t] == if c + t < |s| then s[c + t] else 0
  {
    seq(8, t requires 0 <= t < 8 => if c + t < |s| then s[c + t] else 0)
  }

  lemma PaddedBits(s: seq<bv8>, c: nat, n: nat)
    requires n < 64
    ensures Bits(Padded8(s, c))[n] == PaddedBitAt(s, 8 * c + n)
  {}

  /** Loading one more byte into the word. */
  lemma LoadStep(b: seq<bv8>, j: nat)
    requires j < |b|
    ensures Value(Bits(b[..j + 1])) == 256 * Value(Bits(b[..j])) + ByteValue(b[j])
  {
    hide Bits, Value, ByteValue;
    assert b[..j + 1] == b[..j] + [b[j]];
    BitsConcat(b[..j], [b[j]]);
    ValueConcat(Bits(b[..j]), Bits([b[j]]));
    ByteAsInt(b[j]);
    assert Pow2(8) == 256;
  }

  method LoadWord(s: seq<bv8>, start: nat) returns (word: nat)
    requires start <= |s|
    ensures word == Value(Bits(Padded8(s, start)))
  {
    hide Bits, Value, ByteValue;
    word := 0;
    var c, count := start, |s| - start;
    ghost var b := Padded8(s, start);
    EmptyValue(b);
    for j := 0 to 8
      invariant c + count == |s| && c == if start + j < |s| then start + j else |s|
      invariant word == Value(Bits(b[..j])) < Pow2(8 * j)
    {
      LoadStep(b, j);
      ByteRange(b[j]);
      FitsInWord(word, j);
      Pow2Add(8 * j, 8);
      word := word * 256 % TWO64;
      if count != 0 {
        word := word + ByteValue(s[c]);
        c, count := c + 1, count - 1;
      }
    }
    assert b[..8] == b;
  }

  lemma EmptyValue(b: seq<bv8>)
    ensures Value(Bits(b[..0])) == 0
  {}

  lemma FitsInWord(word: nat, j: nat)
    requires j < 8 && word < Pow2(8 * j)
    ensures word * 256 < TWO64 && Pow2(8) == 256
  {
    hide Pow2;
    Pow2Byte();
    Pow2Add(8 * j, 8);
    Pow2Grows(8 * j + 8, 64);
    TwoTo64();
  }

  lemma LoadedZero(s: seq<bv8>, c: nat)
    ensures Value(Bits(Padded8(s, c))) == 0 <==> !MatchAhead(s, c, true)
  {
    hide Value;
    var bs := Bits(Padded8(s, c));
    ZeroValue(bs);
    forall n | 0 <= n < 64 ensures bs[n] == PaddedBitAt(s, 8 * c + n) { PaddedBits(s, c, n); }
    if n :| 0 <= n < 64 && bs[n] {
      assert PaddedBitAt(s, 8 * c + n);
    }
    if p :| 8 * c <= p < 8 * c + 64 && PaddedBitAt(s, p) {
      assert bs[p - 8 * c];
    }
  }

  lemma {:induction false} ZeroValue(bs: seq<bool>)
    ensures Value(bs) == 0 <==> forall n :: 0 <= n < |bs| ==> !bs[n]
  {
    if bs != [] {
      var last := |bs| - 1;
      ZeroValue(bs[..last]);
      assert forall n :: 0 <= n < last ==> bs[..last][n] == bs[n];
    }
  }

  /** The last part of redisBitpos: load up to eight bytes from `start` on and scan them bit by bit. */
  method ScanWord(s: seq<bv8>, start: nat, bit: bool) returns (pos: int)
    requires start <= |s| && NoneBefore(s, 8 * start, bit)
    requires bit || MatchAhead(s, start, bit)
    ensures pos == -1 <==> bit && !MatchAhead(s, start, bit)
    ensures pos != -1 ==> 0 <= pos && PaddedBitAt(s, pos) == bit && NoneBefore(s, pos, bit)
  {
    hide Value, Bits, Bit, Pow2, BitSet;
    var word := LoadWord(s, start);
    LoadedZero(s, start);
    if bit && word == 0 {
      return -1;
    }
    pos := 8 * start;
    var one := 0x8000_0000_0000_0000;
    ghost var n := 0;
    TwoTo64();
    Pow2Byte();
    while one != 0
      invariant pos == 8 * start + n && n <= 64
      invariant NoneBefore(s, pos, bit)
      invariant one == if n < 64 then Pow2(63 - n) else 0
      decreases 64 - n
    {
      assert n < 64 && one == Pow2(63 - n);
      PaddedBits(s, start, n);
      ValueBit(Bits(Padded8(s, start)), n);
      if BitSet(word, one) == bit {
        return;
      }
      if n < 63 { Pow2Half(63 - n); }
      pos := pos + 1;
      one := one / 2;
      n := n + 1;
    }
    assert false;
  }

  /**
   The first position holding `bit` in the bitmap padded with zeros on the right,
   or -1 when a set bit is sought and there is none. The scan of the last word never
   runs off its end, so the panic after it is unreachable.
   */
  method RedisBitpos(s: seq<bv8>, address: nat, bit: bool) returns (pos: int)
    ensures pos == -1 <==> bit && forall p :: 0 <= p < 8 * |s| ==> !BitAt(s, p)
    ensures pos != -1 ==> 0 <= pos <= 8 * |s| && PaddedBitAt(s, pos) == bit && NoneBefore(s, pos, bit)
  {
    hide Load64, Bit;
    var c, count: nat := 0, |s|;
    var found := false;
    var skipByte: bv8 := if bit then 0 else UCHAR_MAX;
    while (address + c) % 8 != 0 && count != 0
      invariant c + count == |s|
      invariant NoneBefore(s, 8 * c, bit)
      invariant !found
      decreases count
    {
      if s[c] != skipByte {
        found := true;
        break;
      }
      SkippedByte(s, c, bit);
      c, count := c + 1, count - 1;
    }
    if !found {
      var skipWord := if bit then 0 else ULONG_MAX;
      while count >= 8
        invariant c + count == |s|
        invariant NoneBefore(s, 8 * c, bit)
      {
        if Load64(s[c..c + 8]) != skipWord {
          break;
        }
        SkippedWord(s, c, bit);
        c, count := c + 8, count - 8;
      }
    }
    assert !PaddedBitAt(s, 8 * |s|);
    if c < |s| && s[c] != skipByte { ByteHasMatch(s, c, 0, bit); }
    else if c + 8 <= |s| { WordHasMatch(s, c, bit); }
    pos := ScanWord(s, c, bit);
    if pos == -1 {
      forall p | 0 <= p < 8 * |s| ensures !BitAt(s, p) {
        assert !PaddedBitAt(s, p);
      }
    }
  }
}
