/**
 redisPopcount (bitops.c): bits are counted seven 32-bit words at a time by adding
 neighbouring bit fields in parallel. Words are bit vectors while they are masked and
 shifted; the sum of the seven and its product are 32-bit unsigned arithmetic,
 written on integers modulo 2^32.
 */
module Popcount {
  import opened BitString

  const WORD: int := 0x1_0000_0000

  /** A little-endian 32-bit load. */
  function Load32(a: bv8, b: bv8, c: bv8, d: bv8): bv32 {
    (d as bv32 << 24) | (c as bv32 << 16) | (b as bv32 << 8) | a as bv32
  }

  function Pairs(w: bv32): bv32 { w - ((w >> 1) & 0x55555555) }
  function Nibbles(w: bv32): bv32 { (w & 0x33333333) + ((w >> 2) & 0x33333333) }
  function Bytes(w: bv32): bv32 { (w + (w >> 4)) & 0x0F0F0F0F }

  // The same three steps on one 8-bit lane

  function Pairs8(x: bv8): bv8 { x - ((x >> 1) & 0x55) }
  function Nibbles8(x: bv8): bv8 { (x & 0x33) + ((x >> 2) & 0x33) }
  function Bytes8(x: bv8): bv8 { (x + (x >> 4)) & 0x0F }
  function Lane(x: bv8): bv8 { Bytes8(Nibbles8(Pairs8(x))) }

  lemma PairsAsSum(w: bv32)
    ensures Pairs(w) == (w & 0x55555555) + ((w >> 1) & 0x55555555)
  {}

  lemma PairsAsSum8(x: bv8)
    ensures Pairs8(x) == (x & 0x55) + ((x >> 1) & 0x55)
  {}

  lemma PairSumsByLane(w: bv32, a: bv8, b: bv8, c: bv8, d: bv8)
    requires w == ((d as bv32 << 24) | (c as bv32 << 16) | (b as bv32 << 8) | a as bv32)
    ensures (w & 0x55555555) + ((w >> 1) & 0x55555555)
         == Load32((a & 0x55) + ((a >> 1) & 0x55), (b & 0x55) + ((b >> 1) & 0x55),
                   (c & 0x55) + ((c >> 1) & 0x55), (d & 0x55) + ((d >> 1) & 0x55))
  {}

  lemma PairsByLane(a: bv8, b: bv8, c: bv8, d: bv8)
    ensures Pairs(Load32(a, b, c, d)) == Load32(Pairs8(a), Pairs8(b), Pairs8(c), Pairs8(d))
  {
    PairsAsSum(Load32(a, b, c, d));
    PairsAsSum8(a); PairsAsSum8(b); PairsAsSum8(c); PairsAsSum8(d);
    PairSumsByLane(Load32(a, b, c, d), a, b, c, d);
  }

  lemma NibblesByLane(a: bv8, b: bv8, c: bv8, d: bv8)
    ensures Nibbles(Load32(a, b, c, d)) == Load32(Nibbles8(a), Nibbles8(b), Nibbles8(c), Nibbles8(d))
  {}

  lemma BytesByLane(a: bv8, b: bv8, c: bv8, d: bv8)
    requires a & 0x77 == a && b & 0x77 == b && c & 0x77 == c && d & 0x77 == d
    ensures Bytes(Load32(a, b, c, d)) == Load32(Bytes8(a), Bytes8(b), Bytes8(c), Bytes8(d))
  {}

  lemma LaneFits(x: bv8)
    ensures Nibbles8(Pairs8(x)) & 0x77 == Nibbles8(Pairs8(x))
  {}

  lemma LaneCounts(x: bv8)
    ensures Lane(x) as int == ByteOnes(x) <= 8
  {}

  lemma FoldByLane(a: bv8, b: bv8, c: bv8, d: bv8)
    ensures Bytes(Nibbles(Pairs(Load32(a, b, c, d)))) == Load32(Lane(a), Lane(b), Lane(c), Lane(d))
  {
    PairsByLane(a, b, c, d);
    NibblesByLane(Pairs8(a), Pairs8(b), Pairs8(c), Pairs8(d));
    LaneFits(a); LaneFits(b); LaneFits(c); LaneFits(d);
    BytesByLane(Nibbles8(Pairs8(a)), Nibbles8(Pairs8(b)), Nibbles8(Pairs8(c)), Nibbles8(Pairs8(d)));
  }

  lemma LanesAsInt(w: bv32, a: bv8, b: bv8, c: bv8, d: bv8)
    requires w == Load32(a, b, c, d)
    ensures w as int == a as int + 0x100 * (b as int) + 0x1_0000 * (c as int) + 0x100_0000 * (d as int)
  {
    JoinAsInt(w, a, b, c, d);
  }

  lemma JoinAsInt(w: bv32, a: bv8, b: bv8, c: bv8, d: bv8)
    requires w == ((d as bv32 << 24) | (c as bv32 << 16) | (b as bv32 << 8) | a as bv32)
    ensures w as int == a as int + 0x100 * (b as int) + 0x1_0000 * (c as int) + 0x100_0000 * (d as int)
  {}

  lemma FoldAsInt(w: bv32, a: bv8, b: bv8, c: bv8, d: bv8)
    requires w == Bytes(Nibbles(Pairs(Load32(a, b, c, d))))
    ensures w as int == ByteOnes(a) + 0x100 * ByteOnes(b) + 0x1_0000 * ByteOnes(c) + 0x100_0000 * ByteOnes(d)
    ensures ByteOnes(a) <= 8 && ByteOnes(b) <= 8 && ByteOnes(c) <= 8 && ByteOnes(d) <= 8
  {
    hide *;
    FoldByLane(a, b, c, d);
    LanesAsInt(w, Lane(a), Lane(b), Lane(c), Lane(d));
    LaneCounts(a); LaneCounts(b); LaneCounts(c); LaneCounts(d);
  }

  /** Each byte of the folded word holds the number of bits set in that byte of the loaded word. */
  method FoldedWord(s: seq<bv8>, i: nat) returns (w: nat)
    requires i + 4 <= |s|
    ensures w == ByteOnes(s[i]) + 0x100 * ByteOnes(s[i + 1]) + 0x1_0000 * ByteOnes(s[i + 2]) + 0x100_0000 * ByteOnes(s[i + 3])
    ensures ByteOnes(s[i]) <= 8 && ByteOnes(s[i + 1]) <= 8 && ByteOnes(s[i + 2]) <= 8 && ByteOnes(s[i + 3]) <= 8
  {
    var aux := Load32(s[i], s[i + 1], s[i + 2], s[i + 3]);
    aux := Pairs(aux);
    aux := Nibbles(aux);
    aux := Bytes(aux);
    w := aux as int;
    FoldAsInt(aux, s[i], s[i + 1], s[i + 2], s[i + 3]);
  }

  /** Four lanes of at most 56 gather in the top byte: the total is at most 224, so no lane overflows. */
  lemma Gather(a: nat, b: nat, c: nat, d: nat, x: nat)
    requires a <= 56 && b <= 56 && c <= 56 && d <= 56
    requires x == a + 0x100 * b + 0x1_0000 * c + 0x100_0000 * d
    ensures (x % WORD * 0x01010101) % WORD / 0x100_0000 == a + b + c + d
  {
    assert x < WORD;
    var low := a + 0x100 * (a + b) + 0x1_0000 * (a + b + c) + 0x100_0000 * (a + b + c + d);
    var high := b + c + d + 0x100 * (c + d) + 0x1_0000 * d;
    assert x * 0x01010101 == low + WORD * high;
    TopByte(low, high, a + b + c + d, a + 0x100 * (a + b) + 0x1_0000 * (a + b + c));
  }

  lemma TopByte(low: nat, high: nat, top: nat, rest: nat)
    requires low == 0x100_0000 * top + rest && rest < 0x100_0000 && top < 256
    ensures (low + WORD * high) % WORD / 0x100_0000 == top
  {}

  lemma OnesOfNextWord(s: seq<bv8>, k: nat)
    requires k + 4 <= |s|
    ensures Ones(Bits(s[..k + 4])) == Ones(Bits(s[..k])) + ByteOnes(s[k]) + ByteOnes(s[k + 1])
                                    + ByteOnes(s[k + 2]) + ByteOnes(s[k + 3])
  {
    hide *;
    OnesOfNextByte(s, k); OnesOfNextByte(s, k + 1); OnesOfNextByte(s, k + 2); OnesOfNextByte(s, k + 3);
  }

  /** The bits set in 28 bytes, from seven folded words added lane by lane in 32-bit arithmetic. */
  method Fold28(s: seq<bv8>, p: nat) returns (bits: nat)
    requires p + 28 <= |s|
    ensures Ones(Bits(s[..p + 28])) == Ones(Bits(s[..p])) + bits
  {
    hide Ones, Bits, ByteOnes;
    var sum := 0;
    ghost var a, b, c, d := 0, 0, 0, 0;
    for k := 0 to 7
      invariant 0 <= a && 0 <= b && 0 <= c && 0 <= d
      invariant sum == a + 0x100 * b + 0x1_0000 * c + 0x100_0000 * d
      invariant a <= 8 * k && b <= 8 * k && c <= 8 * k && d <= 8 * k
      invariant Ones(Bits(s[..p + 4 * k])) == Ones(Bits(s[..p])) + a + b + c + d
    {
      var i := p + 4 * k;
      var aux := FoldedWord(s, i);
      OnesOfNextWord(s, i);
      a, b, c, d := a + ByteOnes(s[i]), b + ByteOnes(s[i + 1]), c + ByteOnes(s[i + 2]), d + ByteOnes(s[i + 3]);
      sum := sum + aux;
    }
    bits := (sum % WORD * 0x01010101) % WORD / 0x100_0000;
    Gather(a, b, c, d, sum);
  }

  lemma NoOnes(s: seq<bv8>)
    requires s == []
    ensures Ones(Bits(s)) == 0
  {}

  /**
   The number of set bits of `s`, whatever the address the string starts at:
   unaligned bytes first, then 28 bytes at a time, then the remaining bytes.
   */
  method RedisPopcount(s: seq<bv8>, address: nat) returns (bits: nat)
    ensures bits == Ones(Bits(s))
  {
    hide Bits, ByteOnes, Ones;
    bits := 0;
    var p, count: nat := 0, |s|;
    NoOnes(s[..0]);
    while (address + p) % 4 != 0 && count != 0
      invariant p + count == |s|
      invariant bits == Ones(Bits(s[..p]))
      decreases count
    {
      OnesOfNextByte(s, p);
      bits := bits + ByteOnes(s[p]);
      p, count := p + 1, count - 1;
    }
    while count >= 28
      invariant p + count == |s|
      invariant bits == Ones(Bits(s[..p]))
    {
      var block := Fold28(s, p);
      bits := bits + block;
      p, count := p + 28, count - 28;
    }
    while count != 0
      invariant p + count == |s|
      invariant bits == Ones(Bits(s[..p]))
    {
      OnesOfNextByte(s, p);
      bits := bits + ByteOnes(s[p]);
      p, count := p + 1, count - 1;
    }
    assert s[..p] == s;
  }
}
