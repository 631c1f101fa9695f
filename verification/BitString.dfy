/**
 A Redis string seen as a bitmap. Bit 0 is the most significant bit of the first
 byte, bit 7 its least significant one, bit 8 the most significant bit of the
 second byte, and so on: the convention shared by SETBIT, BITCOUNT, BITPOS, BITOP
 and BITFIELD. Everything here is the bit-by-bit meaning that the word-at-a-time
 code is compared with.
 */
module BitString {

  /** Bit `i` of a byte, counted from the most significant one. */
  function Bit(b: bv8, i: nat): bool
    requires i < 8
  {
    match i
    case 0 => b & 0x80 != 0
    case 1 => b & 0x40 != 0
    case 2 => b & 0x20 != 0
    case 3 => b & 0x10 != 0
    case 4 => b & 0x08 != 0
    case 5 => b & 0x04 != 0
    case 6 => b & 0x02 != 0
    case _ => b & 0x01 != 0
  }

  /** A byte is its eight bits. */
  lemma SameBitsSameByte(a: bv8, b: bv8)
    requires forall i :: 0 <= i < 8 ==> Bit(a, i) == Bit(b, i)
    ensures a == b
  {
    assert Bit(a, 0) == Bit(b, 0) && Bit(a, 1) == Bit(b, 1) && Bit(a, 2) == Bit(b, 2) && Bit(a, 3) == Bit(b, 3);
    assert Bit(a, 4) == Bit(b, 4) && Bit(a, 5) == Bit(b, 5) && Bit(a, 6) == Bit(b, 6) && Bit(a, 7) == Bit(b, 7);
  }

  function BitAt(s: seq<bv8>, p: nat): bool
    requires p < 8 * |s|
  {
    Bit(s[p / 8], p % 8)
  }

  /** The whole bitmap. */
  function Bits(s: seq<bv8>): (bs: seq<bool>)
    ensures |bs| == 8 * |s|
    ensures forall p :: 0 <= p < 8 * |s| ==> bs[p] == BitAt(s, p)
  {
    seq(8 * |s|, p requires 0 <= p < 8 * |s| => BitAt(s, p))
  }

  /** The bits of the bitmap read beyond its end are zero. */
  function PaddedBitAt(s: seq<bv8>, p: nat): bool {
    p < 8 * |s| && BitAt(s, p)
  }

  function One(b: bool): nat { if b then 1 else 0 }

  /** How many bits are set, counted one at a time. */
  function Ones(bs: seq<bool>): nat {
    if bs == [] then 0 else Ones(bs[..|bs| - 1]) + One(bs[|bs| - 1])
  }

  function ByteOnes(b: bv8): nat {
    One(Bit(b, 0)) + One(Bit(b, 1)) + One(Bit(b, 2)) + One(Bit(b, 3))
    + One(Bit(b, 4)) + One(Bit(b, 5)) + One(Bit(b, 6)) + One(Bit(b, 7))
  }

  lemma {:induction false} OnesConcat(a: seq<bool>, b: seq<bool>)
    ensures Ones(a + b) == Ones(a) + Ones(b)
  {
    if b == [] {
      assert a + b == a;
    } else {
      OnesConcat(a, b[..|b| - 1]);
      assert (a + b)[..|a + b| - 1] == a + b[..|b| - 1];
    }
  }

  lemma OnesOfFour(bs: seq<bool>)
    requires |bs| == 4
    ensures Ones(bs) == One(bs[0]) + One(bs[1]) + One(bs[2]) + One(bs[3])
  {
    assert bs[..3][..2] == bs[..2] && bs[..2][..1] == bs[..1] && bs[..1][..0] == [];
    assert Ones(bs[..1]) == One(bs[0]) && Ones(bs[..2]) == Ones(bs[..1]) + One(bs[1]);
    assert Ones(bs[..3]) == Ones(bs[..2]) + One(bs[2]);
  }

  lemma OnesOfEight(bs: seq<bool>)
    requires |bs| == 8
    ensures Ones(bs) == One(bs[0]) + One(bs[1]) + One(bs[2]) + One(bs[3])
                      + One(bs[4]) + One(bs[5]) + One(bs[6]) + One(bs[7])
  {
    assert bs == bs[..4] + bs[4..];
    OnesConcat(bs[..4], bs[4..]);
    OnesOfFour(bs[..4]);
    OnesOfFour(bs[4..]);
  }

  lemma OnesOfOneByte(b: bv8)
    ensures Ones(Bits([b])) == ByteOnes(b)
  {
    OnesOfEight(Bits([b]));
  }

  lemma BitsConcat(s: seq<bv8>, t: seq<bv8>)
    ensures Bits(s + t) == Bits(s) + Bits(t)
  {}

  /** Counting bits goes byte by byte. */
  lemma OnesOfNextByte(s: seq<bv8>, k: nat)
    requires k < |s|
    ensures Ones(Bits(s[..k + 1])) == Ones(Bits(s[..k])) + ByteOnes(s[k])
  {
    hide *;
    assert s[..k + 1] == s[..k] + [s[k]];
    BitsConcat(s[..k], [s[k]]);
    OnesConcat(Bits(s[..k]), Bits([s[k]]));
    OnesOfOneByte(s[k]);
  }

  // The number a run of bits stands for, most significant bit first

  function Pow2(n: nat): (r: nat)
    ensures r > 0
  {
    if n == 0 then 1 else 2 * Pow2(n - 1)
  }

  function Value(bs: seq<bool>): nat {
    if bs == [] then 0 else 2 * Value(bs[..|bs| - 1]) + One(bs[|bs| - 1])
  }

  lemma {:induction false} ValueBound(bs: seq<bool>)
    ensures Value(bs) < Pow2(|bs|)
  {
    if bs != [] { ValueBound(bs[..|bs| - 1]); }
  }

  lemma {:induction false} Pow2Add(m: nat, n: nat)
    ensures Pow2(m + n) == Pow2(m) * Pow2(n)
  {
    if n > 0 {
      Pow2Add(m, n - 1);
      assert Pow2(m + n) == 2 * (Pow2(m) * Pow2(n - 1)) == Pow2(m) * Pow2(n);
    }
  }

  lemma {:induction false} Pow2Grows(m: nat, n: nat)
    requires m <= n
    ensures Pow2(m) <= Pow2(n)
  {
    if m < n { Pow2Grows(m, n - 1); }
  }

  lemma Pow2Byte()
    ensures Pow2(0) == 1 && Pow2(1) == 2 && Pow2(8) == 256
  {}

  lemma Pow2Half(n: nat)
    requires n > 0
    ensures Pow2(n) / 2 == Pow2(n - 1)
  {}

  lemma TwoTo64()
    ensures Pow2(63) == 0x8000_0000_0000_0000 && Pow2(64) == 0x1_0000_0000_0000_0000
  {
    hide Pow2;
    Pow2Byte();
    Pow2Add(8, 8);
    Pow2Add(16, 16);
    Pow2Add(32, 32);
    Pow2Add(63, 1);
  }

  lemma {:induction false} ValueConcat(a: seq<bool>, b: seq<bool>)
    ensures Value(a + b) == Value(a) * Pow2(|b|) + Value(b)
  {
    if b == [] {
      assert a + b == a;
    } else {
      var b' := b[..|b| - 1];
      ValueConcat(a, b');
      assert (a + b)[..|a + b| - 1] == a + b';
      assert 2 * (Value(a) * Pow2(|b'|)) == Value(a) * Pow2(|b|);
    }
  }

  /** Halving a number drops its last bit. */
  lemma {:induction false} ValueShift(bs: seq<bool>, n: nat)
    requires n <= |bs|
    ensures Value(bs) / Pow2(n) == Value(bs[..|bs| - n])
  {
    var a, b := bs[..|bs| - n], bs[|bs| - n..];
    assert bs == a + b;
    ValueConcat(a, b);
    ValueBound(b);
    DivByParts(Value(a), Pow2(n), Value(b));
  }

  lemma DivByParts(q: nat, d: nat, r: nat)
    requires r < d
    ensures (q * d + r) / d == q && (q * d + r) % d == r
  {
    var x := q * d + r;
    Remainders(x / d, x % d, q, r, d);
  }

  lemma Remainders(q: int, r: int, q': int, r': int, d: nat)
    requires 0 <= r < d && 0 <= r' < d && d * q + r == q' * d + r'
    ensures q == q' && r == r'
  {
    if q > q' { MulAtLeast(q - q', d); }
    if q < q' { MulAtLeast(q' - q, d); }
  }

  lemma MulAtLeast(k: int, d: nat)
    requires k >= 1
    ensures k * d >= d
  {}

  lemma NoValue(bs: seq<bool>)
    requires bs == []
    ensures Value(bs) == 0
  {}

  lemma ValueSnoc(bs: seq<bool>, b: bool)
    ensures Value(bs + [b]) == 2 * Value(bs) + One(b)
  {}

  /** The bit of x whose weight is h. */
  predicate BitSet(x: nat, h: nat)
    requires h > 0
  {
    x / h % 2 != 0
  }

  /** Bit `q` of a number written on `|bs|` bits. */
  lemma ValueBit(bs: seq<bool>, q: nat)
    requires q < |bs|
    ensures BitSet(Value(bs), Pow2(|bs| - 1 - q)) == bs[q]
  {
    hide Value, Pow2;
    ValueShift(bs, |bs| - 1 - q);
    ValueSnoc(bs[..q], bs[q]);
    assert bs[..q] + [bs[q]] == bs[..q + 1];
  }

  lemma {:induction false} SameValueSameBits(a: seq<bool>, b: seq<bool>)
    requires |a| == |b| && Value(a) == Value(b)
    ensures a == b
  {
    if a != [] {
      var n := |a| - 1;
      SameValueSameBits(a[..n], b[..n]);
      assert a == a[..n] + [a[n]] && b == b[..n] + [b[n]];
    }
  }

  lemma ValueOfEight(bs: seq<bool>)
    requires |bs| == 8
    ensures Value(bs) == 128 * One(bs[0]) + 64 * One(bs[1]) + 32 * One(bs[2]) + 16 * One(bs[3])
                       + 8 * One(bs[4]) + 4 * One(bs[5]) + 2 * One(bs[6]) + One(bs[7])
  {
    assert bs[..7][..6] == bs[..6] && bs[..6][..5] == bs[..5] && bs[..5][..4] == bs[..4] && bs[..4][..3] == bs[..3]
        && bs[..3][..2] == bs[..2] && bs[..2][..1] == bs[..1] && bs[..1][..0] == [];
    assert Value(bs[..1]) == One(bs[0]) && Value(bs[..2]) == 2 * Value(bs[..1]) + One(bs[1]);
    assert Value(bs[..3]) == 2 * Value(bs[..2]) + One(bs[2]) && Value(bs[..4]) == 2 * Value(bs[..3]) + One(bs[3]);
    assert Value(bs[..5]) == 2 * Value(bs[..4]) + One(bs[4]) && Value(bs[..6]) == 2 * Value(bs[..5]) + One(bs[5]);
    assert Value(bs[..7]) == 2 * Value(bs[..6]) + One(bs[6]);
  }

  function ByteValue(b: bv8): nat { b as int }

  lemma ByteAsInt(b: bv8)
    ensures Value(Bits([b])) == ByteValue(b)
  {
    ValueOfEight(Bits([b]));
    BitsOfInt(b);
  }

  lemma BitsOfInt(b: bv8)
    ensures b as int == 128 * One(b & 0x80 != 0) + 64 * One(b & 0x40 != 0) + 32 * One(b & 0x20 != 0)
                      + 16 * One(b & 0x10 != 0) + 8 * One(b & 0x08 != 0) + 4 * One(b & 0x04 != 0)
                      + 2 * One(b & 0x02 != 0) + One(b & 0x01 != 0)
  {}
}
