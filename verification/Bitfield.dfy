/**
 BITFIELD (bitops.c): integers of 1 to 63 bits read, written and incremented at any bit
 offset of a string. uint64_t values are numbers below 2^64, int64_t values numbers in
 [-2^63, 2^63), and every C operation that can wrap is followed by the wrap.
 */
module Bitfield {
  import opened BitString

  const TWO63: int := 0x8000_0000_0000_0000
  const TWO64: int := 0x1_0000_0000_0000_0000

  predicate Uint64(x: int) { 0 <= x < TWO64 }
  predicate Int64(x: int) { -TWO63 <= x < TWO63 }

  /** Conversion to uint64_t, respectively int64_t, in two's complement. */
  function ToUnsigned(x: int): (r: int)
    ensures Uint64(r)
  {
    x % TWO64
  }

  function ToSigned(x: int): (r: int)
    ensures Int64(r)
  {
    (x + TWO63) % TWO64 - TWO63
  }

  lemma ToSignedIs(x: int)
    requires -TWO63 - TWO64 <= x < TWO63 + TWO64
    ensures ToSigned(x) == if x >= TWO63 then x - TWO64 else if x < -TWO63 then x + TWO64 else x
  {}

  lemma ToUnsignedIs(x: int)
    requires -TWO64 <= x < 2 * TWO64
    ensures ToUnsigned(x) == if x < 0 then x + TWO64 else if x >= TWO64 then x - TWO64 else x
  {}

  /** The remainder of a division by a power of two: the low bits. */
  function Rem(x: int, d: nat): (r: int)
    requires d > 0
    ensures 0 <= r < d
  {
    x % d
  }

  // Bits of a byte and of a string

  /** Clears a bit of a byte and then sets it, if it is to be set. */
  function WithBit(b: bv8, i: nat, v: bool): bv8
    requires i < 8
  {
    var m: bv8 := match i
                  case 0 => 0x80 case 1 => 0x40 case 2 => 0x20 case 3 => 0x10
                  case 4 => 0x08 case 5 => 0x04 case 6 => 0x02 case _ => 0x01;
    if v then (b & !m) | m else b & !m
  }

  lemma WithBitBits(b: bv8, i: nat, v: bool, k: nat)
    requires i < 8 && k < 8
    ensures Bit(WithBit(b, i, v), k) == if k == i then v else Bit(b, k)
  {}

  lemma BitsUpdate(s: seq<bv8>, p: nat, v: bool)
    requires p < 8 * |s|
    ensures Bits(s[p / 8 := WithBit(s[p / 8], p % 8, v)]) == Bits(s)[p := v]
  {
    hide Bit, WithBit;
    var t := s[p / 8 := WithBit(s[p / 8], p % 8, v)];
    forall q | 0 <= q < 8 * |s| ensures BitAt(t, q) == Bits(s)[p := v][q] {
      WithBitBits(s[p / 8], p % 8, v, q % 8);
    }
  }

  /** The `n` low bits of `v`, most significant first. */
  function LowBits(v: nat, n: nat): (bs: seq<bool>)
    ensures |bs| == n
  {
    if n == 0 then [] else LowBits(v / 2, n - 1) + [v % 2 == 1]
  }

  lemma DivDouble(v: nat, d: nat)
    requires d > 0
    ensures v / (2 * d) == v / 2 / d
    ensures v % (2 * d) == 2 * (v / 2 % d) + v % 2
  {
    var h, b := v / 2, v % 2;
    var q, r := h / d, h % d;
    assert v == q * (2 * d) + (2 * r + b);
    DivByParts(q, 2 * d, 2 * r + b);
  }

  lemma {:induction false} LowBitsAt(v: nat, n: nat, j: nat)
    requires j < n
    ensures LowBits(v, n)[j] == (v / Pow2(n - 1 - j) % 2 == 1)
  {
    if j < n - 1 {
      LowBitsAt(v / 2, n - 1, j);
      DivDouble(v, Pow2(n - 2 - j));
    }
  }

  lemma {:induction false} LowBitsValue(v: nat, n: nat)
    ensures Value(LowBits(v, n)) == v % Pow2(n)
  {
    if n > 0 {
      LowBitsValue(v / 2, n - 1);
      assert LowBits(v, n)[..n - 1] == LowBits(v / 2, n - 1);
      DivDouble(v, Pow2(n - 1));
    }
  }

  /** The bits of a field, zero beyond the end of the bitmap. */
  function Field(bs: seq<bool>, offset: nat, n: nat): (f: seq<bool>)
    ensures |f| == n
  {
    seq(n, k requires 0 <= k < n => offset + k < |bs| && bs[offset + k])
  }

  function Stored(bs: seq<bool>, offset: nat, n: nat, v: nat): (r: seq<bool>)
    requires offset + n <= |bs|
    ensures |r| == |bs|
  {
    bs[..offset] + LowBits(v, n) + bs[offset + n..]
  }

  /** What is stored is read back, and no other bit changes. */
  lemma ReadBack(bs: seq<bool>, offset: nat, n: nat, v: nat)
    requires offset + n <= |bs|
    ensures Value(Field(Stored(bs, offset, n, v), offset, n)) == Rem(v, Pow2(n))
    ensures forall p :: 0 <= p < |bs| && !(offset <= p < offset + n) ==> Stored(bs, offset, n, v)[p] == bs[p]
  {
    hide Value, LowBits;
    assert Field(Stored(bs, offset, n, v), offset, n) == LowBits(v, n);
    LowBitsValue(v, n);
  }

  /** The bitmap with the first `j` bits of the field written. */
  ghost function Written(bs: seq<bool>, offset: nat, f: seq<bool>, j: nat): seq<bool>
    requires offset + |f| <= |bs| && j <= |f|
  {
    bs[..offset] + f[..j] + bs[offset + j..]
  }

  lemma WrittenStep(bs: seq<bool>, offset: nat, f: seq<bool>, j: nat)
    requires offset + |f| <= |bs| && j < |f|
    ensures Written(bs, offset, f, j)[offset + j := f[j]] == Written(bs, offset, f, j + 1)
  {}

  method SetUnsignedBitfield(p: array<bv8>, offset: nat, bits: nat, value: nat)
    requires offset + bits <= 8 * p.Length
    modifies p
    ensures Bits(p[..]) == Stored(old(Bits(p[..])), offset, bits, value)
  {
    hide Bits, WithBit, Written;
    ghost var bs, f := Bits(p[..]), LowBits(value, bits);
    WrittenEnds(bs, offset, f);
    for j := 0 to bits
      invariant Bits(p[..]) == Written(bs, offset, f, j)
    {
      LowBitsAt(value, bits, j);
      WrittenStep(bs, offset, f, j);
      ghost var was := p[..];
      var bitval := value / Pow2(bits - 1 - j) % 2 != 0;
      var byte, bit := (offset + j) / 8, (offset + j) % 8;
      BitsUpdate(p[..], offset + j, bitval);
      p[byte] := WithBit(p[byte], bit, bitval);
      assert p[..] == was[byte := WithBit(was[byte], bit, bitval)];
    }
  }

  lemma WrittenEnds(bs: seq<bool>, offset: nat, f: seq<bool>)
    requires offset + |f| <= |bs|
    ensures Written(bs, offset, f, 0) == bs
    ensures Written(bs, offset, f, |f|) == bs[..offset] + f + bs[offset + |f|..]
  {}

  method GetUnsignedBitfield(p: seq<bv8>, offset: nat, bits: nat) returns (value: nat)
    requires offset + bits <= 8 * |p| && bits <= 64
    ensures value == Value(Field(Bits(p), offset, bits)) < Pow2(bits)
  {
    hide Bit, Pow2, Value;
    value := 0;
    ghost var f := Field(Bits(p), offset, bits);
    NoValue(f[..0]);
    for j := 0 to bits
      invariant value == Value(f[..j])
    {
      var bitval := Bit(p[(offset + j) / 8], (offset + j) % 8);
      assert f[j] == bitval;
      ValueSnoc(f[..j], bitval);
      assert f[..j] + [bitval] == f[..j + 1];
      value := 2 * value + One(bitval);
    }
    assert f[..bits] == f;
    ValueBound(f);
  }

  /** The number an `n`-bit field stands for in two's complement. */
  function Signed(v: nat, n: nat): int
    requires n >= 1
  {
    if v < Pow2(n - 1) then v else v - Pow2(n)
  }

  lemma Pow2Width(bits: nat)
    requires 1 <= bits <= 63
    ensures Pow2(bits) == 2 * Pow2(bits - 1) <= TWO63
    ensures TWO64 == Pow2(bits) * Pow2(64 - bits)
  {
    hide Pow2;
    Pow2Add(bits - 1, 1);
    Pow2Byte();
    Pow2Add(bits, 64 - bits);
    Pow2Grows(bits, 63);
    TwoTo64();
  }

  lemma TopBit(u: nat, bits: nat)
    requires bits >= 1 && u < Pow2(bits)
    ensures BitSet(u, Pow2(bits - 1)) <==> u >= Pow2(bits - 1)
  {
    var d := Pow2(bits - 1);
    if u < d { DivByParts(0, d, u); } else { DivByParts(1, d, u - d); }
  }

  method GetSignedBitfield(p: seq<bv8>, offset: nat, bits: nat) returns (value: int)
    requires offset + bits <= 8 * |p| && 1 <= bits <= 63
    ensures value == Signed(Value(Field(Bits(p), offset, bits)), bits)
  {
    hide Pow2, Bits, Value, Field, ToSigned, BitSet;
    var u := GetUnsignedBitfield(p, offset, bits);
    Pow2Width(bits);
    TopBit(u, bits);
    ToSignedIs(u);
    ToSignedIs(u + (TWO64 - Pow2(bits)));
    value := ToSigned(u);
    if BitSet(value, Pow2(bits - 1)) {
      // The bits above the field are clear, so setting them adds the number they stand for.
      value := ToSigned(value + (TWO64 - Pow2(bits)));
    }
  }

  method SetSignedBitfield(p: array<bv8>, offset: nat, bits: nat, value: int)
    requires offset + bits <= 8 * p.Length && Int64(value)
    modifies p
    ensures Bits(p[..]) == Stored(old(Bits(p[..])), offset, bits, ToUnsigned(value))
  {
    SetUnsignedBitfield(p, offset, bits, ToUnsigned(value));
  }

  // Overflow

  datatype Overflow = Wrap | Sat | Fail

  /** What checkUnsignedBitfieldOverflow returns, and `*limit` (0 where it is left alone). */
  function CheckUnsigned(value: int, incr: int, bits: nat, ow: Overflow): (int, int)
    requires Uint64(value) && Int64(incr) && 1 <= bits <= 63
  {
    var max := Pow2(bits) - 1;
    var maxincr := ToSigned(max - value);
    var minincr := ToSigned(-value);
    var wrapped := Rem(ToUnsigned(value + incr), Pow2(bits));
    if value > max || (incr > 0 && incr > maxincr) then
      (1, match ow case Wrap => wrapped case Sat => max case Fail => 0)
    else if incr < 0 && incr < minincr then
      (match ow case Wrap => (1, wrapped) case Sat => (-1, 0) case Fail => (-1, 0))
    else
      (0, 0)
  }

  /** `handle_wrap` of the signed check: the sign bit of the 64-bit sum is extended, or the high bits cleared. */
  function WrappedSum(value: int, incr: int, bits: nat): int
    requires Int64(value) && Int64(incr) && 1 <= bits <= 63
  {
    var c := ToUnsigned(ToUnsigned(value) + ToUnsigned(incr));
    var low := Rem(c, Pow2(bits));
    if BitSet(c, Pow2(bits - 1)) then ToSigned(low + (TWO64 - Pow2(bits))) else ToSigned(low)
  }

  /** What checkSignedBitfieldOverflow returns, and `*limit` (0 where it is left alone). */
  function CheckSigned(value: int, incr: int, bits: nat, ow: Overflow): (int, int)
    requires Int64(value) && Int64(incr) && 1 <= bits <= 63
  {
    var max := Pow2(bits - 1) - 1;
    var min := -max - 1;
    var maxincr := ToSigned(max - value);
    var minincr := ToSigned(min - value);
    var wrapped := WrappedSum(value, incr, bits);
    if value > max || incr > maxincr then
      (1, match ow case Wrap => wrapped case Sat => max case Fail => 0)
    else if value < min || incr < minincr then
      (match ow case Wrap => (1, wrapped) case Sat => (-1, min) case Fail => (-1, 0))
    else
      (0, 0)
  }

  function Min(sign: bool, bits: nat): int
    requires bits >= 1
  {
    if sign then -(Pow2(bits - 1) as int) else 0
  }

  function Max(sign: bool, bits: nat): int
    requires bits >= 1
  {
    if sign then Pow2(bits - 1) - 1 else Pow2(bits) - 1
  }

  predicate Fits(sign: bool, bits: nat, x: int)
    requires bits >= 1
  {
    Min(sign, bits) <= x <= Max(sign, bits)
  }

  /** The number of the type that is equal to `x` modulo 2^bits. */
  function WrapTo(sign: bool, bits: nat, x: int): int
    requires bits >= 1
  {
    if sign then Signed(Rem(x, Pow2(bits)), bits) else Rem(x, Pow2(bits))
  }

  function Clamp(sign: bool, bits: nat, x: int): int
    requires bits >= 1
  {
    if x > Max(sign, bits) then Max(sign, bits) else if x < Min(sign, bits) then Min(sign, bits) else x
  }

  lemma RemUnique(x: int, d: nat, q: int, r: int)
    requires 0 <= r < d && x == d * q + r
    ensures Rem(x, d) == r
  {
    Remainders(x / d, x % d, q, r, d);
  }

  lemma RemParts(x: int, d: nat) returns (q: int)
    requires d > 0
    ensures x == d * q + Rem(x, d)
  {
    q := x / d;
  }

  /** Taking the low 64 bits first does not change the low bits. */
  lemma RemOfUnsigned(x: int, bits: nat)
    requires 1 <= bits <= 63
    ensures Rem(ToUnsigned(x), Pow2(bits)) == Rem(x, Pow2(bits))
  {
    hide Pow2, Rem, ToUnsigned;
    Pow2Width(bits);
    var d, k := Pow2(bits), Pow2(64 - bits);
    var p := WholeWords(x);
    var q := RemParts(ToUnsigned(x), d);
    assert TWO64 * p == d * (k * p) by { MulAssoc(d, k, p); }
    RemUnique(x, d, k * p + q, Rem(ToUnsigned(x), d));
  }

  lemma MulAssoc(d: int, k: int, p: int)
    ensures (d * k) * p == d * (k * p)
  {}

  lemma WholeWords(x: int) returns (p: int)
    ensures x == TWO64 * p + ToUnsigned(x)
  {
    p := x / TWO64;
  }

  lemma WrapFits(sign: bool, bits: nat, x: int)
    requires 1 <= bits <= 63
    ensures Fits(sign, bits, WrapTo(sign, bits, x)) && Rem(WrapTo(sign, bits, x), Pow2(bits)) == Rem(x, Pow2(bits))
  {
    hide Pow2, Rem;
    Pow2Width(bits);
    var d, r := Pow2(bits), Rem(x, Pow2(bits));
    RemUnique(r, d, 0, r);
    RemUnique(r - d, d, -1, r);
  }

  /** The unsigned check is exact for every 64-bit value and increment. */
  lemma UnsignedCheck(value: int, incr: int, bits: nat, ow: Overflow)
    requires Uint64(value) && Int64(incr) && 1 <= bits <= 63
    ensures var (flag, limit) := CheckUnsigned(value, incr, bits, ow);
            && (flag == 0 <==> Fits(false, bits, value) && Fits(false, bits, value + incr))
            && (flag != 0 && ow == Wrap ==> limit == WrapTo(false, bits, value + incr))
            && (flag != 0 && ow == Sat && Fits(false, bits, value) ==> limit == Clamp(false, bits, value + incr))
            && (ow == Sat && !Fits(false, bits, value) ==> limit == Max(false, bits))
  {
    hide Pow2, Rem, ToSigned, ToUnsigned;
    Pow2Width(bits);
    RemOfUnsigned(value + incr, bits);
    ToSignedIs(Pow2(bits) - 1 - value);
    ToSignedIs(-value);
  }

  lemma SignedWrap(value: int, incr: int, bits: nat)
    requires Int64(value) && Int64(incr) && 1 <= bits <= 63
    ensures WrappedSum(value, incr, bits) == WrapTo(true, bits, value + incr)
  {
    hide Pow2, Rem, BitSet, ToSigned, ToUnsigned, Signed;
    Pow2Width(bits);
    UnsignedSum(value, incr);
    var c := ToUnsigned(value + incr);
    RemOfUnsigned(value + incr, bits);
    BitBelow(c, Pow2(bits - 1), Pow2(bits));
    ExtendSign(Rem(c, Pow2(bits)), bits);
  }

  lemma UnsignedSum(value: int, incr: int)
    ensures ToUnsigned(ToUnsigned(value) + ToUnsigned(incr)) == ToUnsigned(value + incr)
  {}

  lemma ExtendSign(u: nat, bits: nat)
    requires 1 <= bits <= 63 && u < Pow2(bits)
    ensures (if BitSet(u, Pow2(bits - 1)) then ToSigned(u + (TWO64 - Pow2(bits))) else ToSigned(u)) == Signed(u, bits)
  {
    hide Pow2, BitSet, ToSigned;
    Pow2Width(bits);
    TopBit(u, bits);
    ToSignedIs(u);
    ToSignedIs(u + (TWO64 - Pow2(bits)));
  }

  lemma BitBelow(c: nat, h: nat, d: nat)
    requires h > 0 && d == 2 * h
    ensures BitSet(c, h) == BitSet(Rem(c, d), h)
  {
    Division(c, d);
    Division(c % d, h);
    BitBelowParts(c, h, c / d, c % d / h, c % d % h);
  }

  lemma Division(x: nat, d: nat)
    requires d > 0
    ensures x == d * (x / d) + x % d && 0 <= x % d < d && 0 <= x / d
  {}

  lemma BitBelowParts(c: nat, h: nat, q: nat, a: nat, b: nat)
    requires b < h && c == (2 * h) * q + (h * a + b)
    ensures c / h % 2 == a % 2
  {
    var k := 2 * q + a;
    assert c == k * h + b;
    DivByParts(k, h, b);
  }

  /** The signed check is exact when the value is one the field can hold, as in INCRBY. */
  lemma SignedCheck(value: int, incr: int, bits: nat, ow: Overflow)
    requires Int64(incr) && 1 <= bits <= 63 && Int64(value) && Fits(true, bits, value)
    ensures var (flag, limit) := CheckSigned(value, incr, bits, ow);
            && (flag == 0 <==> Fits(true, bits, value + incr))
            && (flag != 0 && ow == Wrap ==> limit == WrapTo(true, bits, value + incr))
            && (flag != 0 && ow == Sat ==> limit == Clamp(true, bits, value + incr))
  {
    hide Pow2, WrapTo, WrappedSum, ToSigned;
    Pow2Width(bits);
    SignedWrap(value, incr, bits);
    ToSignedIs(Pow2(bits - 1) - 1 - value);
    ToSignedIs(0 - Pow2(bits - 1) - value);
  }

  /**
   SET of a signed field checks the new value with a zero increment. Whether it fits is
   always decided rightly, and so is the wrapped value; but `max - value` overflows when the
   value is far below the range, and saturation then gives the maximum instead of the minimum.
   */
  lemma SignedSetCheck(value: int, bits: nat, ow: Overflow)
    requires Int64(value) && 1 <= bits <= 63
    ensures var (flag, limit) := CheckSigned(value, 0, bits, ow);
            && (flag == 0 <==> Fits(true, bits, value))
            && (flag != 0 && ow == Wrap ==> limit == WrapTo(true, bits, value))
            && (flag != 0 && ow == Sat ==>
                  && limit == (if Max(true, bits) - value < TWO63 then Clamp(true, bits, value) else Max(true, bits))
                  && (limit == Clamp(true, bits, value) <==> Max(true, bits) - value < TWO63))
  {
    hide Pow2, WrapTo, WrappedSum, ToSigned;
    Pow2Width(bits);
    SignedWrap(value, 0, bits);
    ToSignedIs(Pow2(bits - 1) - 1 - value);
    ToSignedIs(0 - Pow2(bits - 1) - value);
  }

  /** The least number saturates to 127 in a signed field of eight bits, where -128 is meant. */
  lemma LowestSaturatesToHighest()
    ensures CheckSigned(-TWO63, 0, 8, Sat) == (1, 127) && Clamp(true, 8, -TWO63) == -128
  {
    hide Pow2, WrappedSum, ToSigned;
    PowOfSeven();
    ToSignedIs(127 + TWO63);
  }

  lemma PowOfSeven()
    ensures Pow2(7) == 128
  {}

  // The operations of the command

  datatype Kind = Get | Set | IncrBy
  datatype Operation = Operation(kind: Kind, sign: bool, bits: nat, offset: nat, i64: int, ow: Overflow)
  datatype Reply = Number(n: int) | Null

  predicate ValidOp(op: Operation) {
    1 <= op.bits <= 63 && Int64(op.i64)
  }

  predicate InRange(bs: seq<bool>, op: Operation) {
    ValidOp(op) && (op.kind != Get ==> op.offset + op.bits <= |bs|)
  }

  function Read(bs: seq<bool>, op: Operation): int
    requires ValidOp(op)
  {
    var v := Value(Field(bs, op.offset, op.bits));
    if op.sign then Signed(v, op.bits) else v
  }

  function Store(bs: seq<bool>, op: Operation, x: int): (r: seq<bool>)
    requires ValidOp(op) && op.offset + op.bits <= |bs|
    ensures |r| == |bs|
  {
    Stored(bs, op.offset, op.bits, ToUnsigned(x))
  }

  /** The number to be stored, before it is made to fit. */
  function Target(bs: seq<bool>, op: Operation): int
    requires ValidOp(op)
  {
    if op.kind == IncrBy then Read(bs, op) + op.i64
    else if op.sign then op.i64 else ToUnsigned(op.i64)
  }

  /** Saturation, with the signed SET of a value so low that `max - value` overflows. */
  function Saturate(op: Operation, x: int): int
    requires ValidOp(op)
  {
    if op.kind == Set && op.sign && Max(true, op.bits) - x >= TWO63 then Max(true, op.bits)
    else Clamp(op.sign, op.bits, x)
  }

  /** The effect of one operation on the bitmap, and its reply. */
  function Meaning(bs: seq<bool>, op: Operation): (r: (seq<bool>, Reply))
    requires InRange(bs, op)
    ensures |r.0| == |bs|
  {
    var before := Read(bs, op);
    if op.kind == Get then (bs, Number(before))
    else
      var x := Target(bs, op);
      if !Fits(op.sign, op.bits, x) && op.ow == Fail then (bs, Null)
      else
        var y := Fitted(op, x);
        (Store(bs, op, y), Number(if op.kind == Set then before else y))
  }

  lemma ReadFits(bs: seq<bool>, op: Operation)
    requires ValidOp(op)
    ensures Fits(op.sign, op.bits, Read(bs, op)) && Int64(Read(bs, op))
  {
    hide Pow2, Value;
    Pow2Width(op.bits);
    ValueBound(Field(bs, op.offset, op.bits));
  }

  /** A number that fits is read back as it was stored, and no other bit changes. */
  lemma StoreThenRead(bs: seq<bool>, op: Operation, x: int)
    requires ValidOp(op) && op.offset + op.bits <= |bs| && Fits(op.sign, op.bits, x)
    ensures Read(Store(bs, op, x), op) == x
    ensures forall p :: 0 <= p < |bs| && !(op.offset <= p < op.offset + op.bits) ==> Store(bs, op, x)[p] == bs[p]
  {
    hide Pow2, Value, Rem, ToUnsigned, Field, Stored;
    Pow2Width(op.bits);
    ReadBack(bs, op.offset, op.bits, ToUnsigned(x));
    RemOfUnsigned(x, op.bits);
    var d := Pow2(op.bits);
    RemUnique(x, d, if x < 0 then -1 else 0, if x < 0 then x + d else x);
  }

  /**
   INCRBY is exact end to end: the field then holds the true sum when it fits; otherwise
   its wrap modulo 2^bits, its saturation, or, with FAIL, what it held before. The reply is
   what the field holds, and no bit outside the field changes.
   */
  lemma IncrByExact(bs: seq<bool>, op: Operation)
    requires op.kind == IncrBy && InRange(bs, op)
    ensures var (bs', reply) := Meaning(bs, op);
            var sum := Read(bs, op) + op.i64;
            && (Fits(op.sign, op.bits, sum) ==> Read(bs', op) == sum && reply == Number(sum))
            && (!Fits(op.sign, op.bits, sum) && op.ow == Wrap ==>
                  && Fits(op.sign, op.bits, Read(bs', op)) && reply == Number(Read(bs', op))
                  && Rem(Read(bs', op), Pow2(op.bits)) == Rem(sum, Pow2(op.bits)))
            && (!Fits(op.sign, op.bits, sum) && op.ow == Sat ==>
                  && Read(bs', op) == (if sum > Max(op.sign, op.bits) then Max(op.sign, op.bits) else Min(op.sign, op.bits))
                  && reply == Number(Read(bs', op)))
            && (!Fits(op.sign, op.bits, sum) && op.ow == Fail ==> bs' == bs && reply == Null)
            && forall p :: 0 <= p < |bs| && !(op.offset <= p < op.offset + op.bits) ==> bs'[p] == bs[p]
  {
    hide Read, Store, Pow2, WrapTo, Rem;
    var sum := Read(bs, op) + op.i64;
    if Fits(op.sign, op.bits, sum) {
      StoreThenRead(bs, op, sum);
    } else if op.ow == Wrap {
      WrapFits(op.sign, op.bits, sum);
      StoreThenRead(bs, op, WrapTo(op.sign, op.bits, sum));
    } else if op.ow == Sat {
      Pow2Width(op.bits);
      StoreThenRead(bs, op, Clamp(op.sign, op.bits, sum));
    }
  }

  /**
   SET is exact end to end: the reply is what the field held before. A number that fits is then in the
   field; of another, its wrap modulo 2^bits or the nearest number that fits, but for a signed number so
   low that its distance to the maximum overflows; FAIL changes nothing and replies nothing. A negative
   number is a large one for an unsigned field. No bit outside the field changes.
   */
  lemma SetExact(bs: seq<bool>, op: Operation)
    requires op.kind == Set && InRange(bs, op)
    ensures var (bs', reply) := Meaning(bs, op);
            var x := if op.sign || op.i64 >= 0 then op.i64 else op.i64 + TWO64;
            && (Fits(op.sign, op.bits, x) ==> Read(bs', op) == x)
            && (Fits(op.sign, op.bits, x) || op.ow != Fail ==> reply == Number(Read(bs, op)))
            && (!Fits(op.sign, op.bits, x) && op.ow == Wrap ==> Rem(Read(bs', op), Pow2(op.bits)) == Rem(x, Pow2(op.bits)))
            && (!Fits(op.sign, op.bits, x) && op.ow == Sat ==>
                  Read(bs', op) == if x < Min(op.sign, op.bits) && Max(op.sign, op.bits) - x < TWO63
                                   then Min(op.sign, op.bits) else Max(op.sign, op.bits))
            && (!Fits(op.sign, op.bits, x) && op.ow == Fail ==> bs' == bs && reply == Null)
            && forall p :: 0 <= p < |bs| && !(op.offset <= p < op.offset + op.bits) ==> bs'[p] == bs[p]
  {
    hide Read, Store, Pow2, WrapTo, Rem, ToUnsigned;
    ToUnsignedIs(op.i64);
    var x := Target(bs, op);
    Pow2Width(op.bits);
    if Fits(op.sign, op.bits, x) {
      StoreThenRead(bs, op, x);
    } else if op.ow == Wrap {
      WrapFits(op.sign, op.bits, x);
      StoreThenRead(bs, op, WrapTo(op.sign, op.bits, x));
    } else if op.ow == Sat {
      StoreThenRead(bs, op, Saturate(op, x));
    }
  }

  /** The overflow flag and the value to write, as the signed branch of the command computes them. */
  function SignedOutcome(oldval: int, op: Operation): (int, int)
    requires ValidOp(op) && Int64(oldval)
  {
    var newval := if op.kind == IncrBy then ToSigned(oldval + op.i64) else op.i64;
    var (flag, limit) := if op.kind == IncrBy then CheckSigned(oldval, op.i64, op.bits, op.ow)
                         else CheckSigned(newval, 0, op.bits, op.ow);
    (flag, if flag != 0 then limit else newval)
  }

  function UnsignedOutcome(oldval: int, op: Operation): (int, int)
    requires ValidOp(op) && Uint64(oldval)
  {
    var newval := if op.kind == IncrBy then ToUnsigned(oldval + op.i64) else ToUnsigned(op.i64);
    var (flag, limit) := if op.kind == IncrBy then CheckUnsigned(oldval, op.i64, op.bits, op.ow)
                         else CheckUnsigned(newval, 0, op.bits, op.ow);
    (flag, if flag != 0 then limit else newval)
  }

  /** The value chosen for a write, from the value `x` it aims at. */
  function Fitted(op: Operation, x: int): int
    requires ValidOp(op)
  {
    if Fits(op.sign, op.bits, x) then x
    else if op.ow == Wrap then WrapTo(op.sign, op.bits, x)
    else Saturate(op, x)
  }

  lemma SignedOutcomeFits(oldval: int, op: Operation, x: int)
    requires ValidOp(op) && op.kind != Get && op.sign && Fits(true, op.bits, oldval) && Int64(oldval)
    requires x == if op.kind == IncrBy then oldval + op.i64 else op.i64
    ensures var (flag, newval) := SignedOutcome(oldval, op);
            && (flag == 0 <==> Fits(true, op.bits, x))
            && (flag == 0 || op.ow != Fail ==> newval == Fitted(op, x) && Int64(newval))
  {
    hide Pow2, WrapTo, CheckSigned;
    Pow2Width(op.bits);
    WrapFits(true, op.bits, x);
    if op.kind == IncrBy { SignedCheck(oldval, op.i64, op.bits, op.ow); }
    else { SignedSetCheck(op.i64, op.bits, op.ow); }
  }

  lemma UnsignedOutcomeFits(oldval: int, op: Operation, x: int)
    requires ValidOp(op) && op.kind != Get && !op.sign && Fits(false, op.bits, oldval) && Uint64(oldval)
    requires x == if op.kind == IncrBy then oldval + op.i64 else ToUnsigned(op.i64)
    ensures var (flag, newval) := UnsignedOutcome(oldval, op);
            && (flag == 0 <==> Fits(false, op.bits, x))
            && (flag == 0 || op.ow != Fail ==> newval == Fitted(op, x) && Uint64(newval))
  {
    hide Pow2, WrapTo, CheckUnsigned;
    Pow2Width(op.bits);
    WrapFits(false, op.bits, x);
    if op.kind == IncrBy { UnsignedCheck(oldval, op.i64, op.bits, op.ow); }
    else { UnsignedCheck(ToUnsigned(op.i64), 0, op.bits, op.ow); }
  }

  method ExecuteSignedWrite(p: array<bv8>, op: Operation) returns (reply: Reply)
    requires op.kind != Get && op.sign && InRange(Bits(p[..]), op)
    modifies p
    ensures (Bits(p[..]), reply) == Meaning(old(Bits(p[..])), op)
  {
    hide Pow2, Bits, Value, Field, Fitted, Signed, Fits, SignedOutcome, Stored, ToUnsigned;
    ghost var bs := Bits(p[..]);
    ReadFits(bs, op);
    MeaningOfWrite(bs, op);
    var oldval := GetSignedBitfield(p[..], op.offset, op.bits);
    SignedOutcomeFits(oldval, op, Target(bs, op));
    var (flag, newval) := SignedOutcome(oldval, op);
    reply := Null;
    if !(flag != 0 && op.ow == Fail) {
      reply := Number(if op.kind == IncrBy then newval else oldval);
      SetSignedBitfield(p, op.offset, op.bits, newval);
    }
  }

  method ExecuteUnsignedWrite(p: array<bv8>, op: Operation) returns (reply: Reply)
    requires op.kind != Get && !op.sign && InRange(Bits(p[..]), op)
    modifies p
    ensures (Bits(p[..]), reply) == Meaning(old(Bits(p[..])), op)
  {
    hide Pow2, Bits, Value, Field, Fitted, Fits, UnsignedOutcome, Stored, ToUnsigned;
    ghost var bs := Bits(p[..]);
    ReadFits(bs, op);
    MeaningOfWrite(bs, op);
    var oldval := GetUnsignedBitfield(p[..], op.offset, op.bits);
    Pow2Width(op.bits);
    UnsignedOutcomeFits(oldval, op, Target(bs, op));
    var (flag, newval) := UnsignedOutcome(oldval, op);
    reply := Null;
    if !(flag != 0 && op.ow == Fail) {
      reply := Number(if op.kind == IncrBy then newval else oldval);
      ToUnsignedIs(newval);
      SetUnsignedBitfield(p, op.offset, op.bits, newval);
    }
  }

  /** SET and INCRBY, the write path the two kinds share. */
  method ExecuteWrite(p: array<bv8>, op: Operation) returns (reply: Reply)
    requires op.kind != Get && InRange(Bits(p[..]), op)
    modifies p
    ensures (Bits(p[..]), reply) == Meaning(old(Bits(p[..])), op)
  {
    hide Bits, Meaning;
    if op.sign { reply := ExecuteSignedWrite(p, op); } else { reply := ExecuteUnsignedWrite(p, op); }
  }

  lemma MeaningOfWrite(bs: seq<bool>, op: Operation)
    requires InRange(bs, op) && op.kind != Get
    ensures Meaning(bs, op)
         == var x := Target(bs, op);
            if !Fits(op.sign, op.bits, x) && op.ow == Fail then (bs, Null)
            else (Stored(bs, op.offset, op.bits, ToUnsigned(Fitted(op, x))),
                  Number(if op.kind == Set then Read(bs, op) else Fitted(op, x)))
  {}

  /** GET copies nine bytes to a zeroed buffer and reads the field from there. */
  method ExecuteGet(s: seq<bv8>, op: Operation) returns (reply: Reply)
    requires op.kind == Get && ValidOp(op)
    ensures reply == Number(Read(Bits(s), op))
  {
    hide Pow2, Value, Signed;
    var buf := new bv8[9](_ => 0);
    var byte := op.offset / 8;
    var i := 0;
    while i < 9
      invariant 0 <= i <= 9
      invariant forall k :: 0 <= k < i ==> byte + k < |s| && buf[k] == s[byte + k]
      invariant forall k :: i <= k < 9 ==> buf[k] == 0
    {
      if i + byte >= |s| {
        break;
      }
      buf[i] := s[i + byte];
      i := i + 1;
    }
    assert forall k :: 0 <= k < 9 ==> buf[k] == if byte + k < |s| then s[byte + k] else 0;
    SameField(s, buf[..], op.offset, op.bits);
    if op.sign {
      var v := GetSignedBitfield(buf[..], op.offset - byte * 8, op.bits);
      reply := Number(v);
    } else {
      var v := GetUnsignedBitfield(buf[..], op.offset - byte * 8, op.bits);
      reply := Number(v);
    }
  }

  lemma SameField(s: seq<bv8>, buf: seq<bv8>, offset: nat, n: nat)
    requires n <= 64 && |buf| == 9
    requires forall k :: 0 <= k < 9 ==> buf[k] == if offset / 8 + k < |s| then s[offset / 8 + k] else 0
    ensures Field(Bits(buf), offset % 8, n) == Field(Bits(s), offset, n)
  {
    hide Bit, Bits;
    forall k | 0 <= k < n ensures Field(Bits(buf), offset % 8, n)[k] == Field(Bits(s), offset, n)[k] {
      SameBit(s, buf, offset, offset % 8 + k);
    }
  }

  lemma SameBit(s: seq<bv8>, buf: seq<bv8>, offset: nat, q: nat)
    requires q < 72 && |buf| == 9
    requires forall k :: 0 <= k < 9 ==> buf[k] == if offset / 8 + k < |s| then s[offset / 8 + k] else 0
    ensures PaddedBitAt(buf, q) == PaddedBitAt(s, offset / 8 * 8 + q)
  {}

  // The whole command

  /** The bytes the writes of a command reach. */
  function Needed(ops: seq<Operation>): nat {
    if ops == [] then 0
    else
      var n, op := Needed(ops[..|ops| - 1]), ops[|ops| - 1];
      if op.kind != Get && op.bits >= 1 && (op.offset + op.bits - 1) / 8 + 1 > n then (op.offset + op.bits - 1) / 8 + 1 else n
  }

  function Grown(s: seq<bv8>, n: nat): (r: seq<bv8>)
    ensures |r| >= n
  {
    if n <= |s| then s else s + seq(n - |s|, _ => 0)
  }

  predicate AllInRange(size: nat, ops: seq<Operation>) {
    forall k :: 0 <= k < |ops| ==> ValidOp(ops[k]) && (ops[k].kind != Get ==> ops[k].offset + ops[k].bits <= size)
  }

  /** The operations one after the other, each on the bitmap the previous ones left. */
  function MeaningAll(bs: seq<bool>, ops: seq<Operation>): (r: (seq<bool>, seq<Reply>))
    requires AllInRange(|bs|, ops)
    ensures |r.0| == |bs| && |r.1| == |ops|
  {
    if ops == [] then (bs, [])
    else
      var n := |ops| - 1;
      var (bs', replies) := MeaningAll(bs, ops[..n]);
      var (bs'', reply) := Meaning(bs', ops[n]);
      (bs'', replies + [reply])
  }

  lemma {:induction false} NeededCovers(ops: seq<Operation>, size: nat)
    requires forall k :: 0 <= k < |ops| ==> ValidOp(ops[k])
    requires size >= 8 * Needed(ops)
    ensures AllInRange(size, ops)
  {
    if ops != [] {
      NeededCovers(ops[..|ops| - 1], size);
      forall k | 0 <= k < |ops| - 1 ensures ops[k] == ops[..|ops| - 1][k] {}
    }
  }

  /** The string is not grown further than some write reaches. */
  lemma {:induction false} NeededIsReached(ops: seq<Operation>)
    requires Needed(ops) > 0
    ensures exists k :: 0 <= k < |ops| && ops[k].kind != Get && ops[k].offset + ops[k].bits > 8 * (Needed(ops) - 1)
  {
    var n := |ops| - 1;
    if Needed(ops) == Needed(ops[..n]) {
      NeededIsReached(ops[..n]);
      var k :| 0 <= k < n && ops[..n][k].kind != Get && ops[..n][k].offset + ops[..n][k].bits > 8 * (Needed(ops) - 1);
      assert ops[k] == ops[..n][k];
    }
  }

  /**
   BITFIELD: the string is grown with zeros to the furthest bit a write reaches, then the
   operations run in order. A missing key is the empty string.
   */
  method Bitfield(value: seq<bv8>, ops: seq<Operation>) returns (result: seq<bv8>, replies: seq<Reply>)
    requires forall k :: 0 <= k < |ops| ==> ValidOp(ops[k])
    ensures AllInRange(8 * |Grown(value, Needed(ops))|, ops)
    ensures (Bits(result), replies) == MeaningAll(Bits(Grown(value, Needed(ops))), ops)
  {
    hide Meaning, Bits;
    var needed := 0;
    for j := 0 to |ops|
      invariant needed == Needed(ops[..j])
    {
      assert ops[..j + 1][..j] == ops[..j];
      if ops[j].kind != Get {
        var last := ops[j].offset + ops[j].bits - 1;
        if needed < last / 8 + 1 { needed := last / 8 + 1; }
      }
    }
    assert ops[..|ops|] == ops;
    var s := Grown(value, needed);
    NeededCovers(ops, 8 * |s|);
    var p := new bv8[|s|](i requires 0 <= i < |s| => s[i]);
    assert p[..] == s;
    replies := [];
    for j := 0 to |ops|
      invariant AllInRange(8 * |s|, ops[..j])
      invariant (Bits(p[..]), replies) == MeaningAll(Bits(s), ops[..j])
    {
      assert ops[..j + 1][..j] == ops[..j];
      var reply;
      if ops[j].kind == Get {
        reply := ExecuteGet(p[..], ops[j]);
        MeaningOfGet(Bits(p[..]), ops[j]);
      } else {
        reply := ExecuteWrite(p, ops[j]);
      }
      replies := replies + [reply];
    }
    result := p[..];
  }

  lemma MeaningOfGet(bs: seq<bool>, op: Operation)
    requires op.kind == Get && ValidOp(op)
    ensures Meaning(bs, op) == (bs, Number(Read(bs, op)))
  {}
}
