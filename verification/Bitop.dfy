/**
 The computing part of BITOP (bitops.c): while every source still has bytes, 32 bytes
 are combined per step as four 64-bit words; the rest goes byte by byte, a source
 that is too short, or missing, reading as zeros.
 */
module Bitop {
  import opened BitString

  datatype Op = And | Or | Xor | Not
  datatype Source = Missing | Present(bytes: seq<bv8>)

  function Bytes(src: Source): seq<bv8> {
    match src
    case Missing => []
    case Present(bytes) => bytes
  }

  // What BITOP means, bit by bit

  function CountSet(srcs: seq<Source>, p: nat): nat {
    if srcs == [] then 0
    else CountSet(srcs[..|srcs| - 1], p) + One(PaddedBitAt(Bytes(srcs[|srcs| - 1]), p))
  }

  ghost predicate BitMeaning(op: Op, srcs: seq<Source>, p: nat) {
    match op
    case And => forall k :: 0 <= k < |srcs| ==> PaddedBitAt(Bytes(srcs[k]), p)
    case Or => exists k :: 0 <= k < |srcs| && PaddedBitAt(Bytes(srcs[k]), p)
    case Xor => CountSet(srcs, p) % 2 == 1
    case Not => |srcs| == 1 && !PaddedBitAt(Bytes(srcs[0]), p)
  }

  // One byte at a time

  function ByteOp(op: Op, a: bv8, b: bv8): bv8 {
    match op
    case And => a & b
    case Or => a | b
    case Xor => a ^ b
    case Not => a
  }

  function SourceByte(src: Source, j: nat): bv8 {
    if j < |Bytes(src)| then Bytes(src)[j] else 0
  }

  /** Byte `j` of the output once the first `n` sources are combined. */
  function OutputByte(op: Op, srcs: seq<Source>, j: nat, n: nat): bv8
    requires 1 <= n <= |srcs|
  {
    if n == 1 then (if op == Not then !SourceByte(srcs[0], j) else SourceByte(srcs[0], j))
    else ByteOp(op, OutputByte(op, srcs, j, n - 1), SourceByte(srcs[n - 1], j))
  }

  predicate SingleBit(m: bv8) {
    m == 0x80 || m == 0x40 || m == 0x20 || m == 0x10 || m == 0x08 || m == 0x04 || m == 0x02 || m == 0x01
  }

  lemma OrMask(a: bv8, b: bv8, m: bv8)
    ensures ((a | b) & m != 0) == ((a & m != 0) || (b & m != 0))
  {}

  lemma XorMask(a: bv8, b: bv8, m: bv8)
    requires SingleBit(m)
    ensures ((a ^ b) & m != 0) == ((a & m != 0) != (b & m != 0))
  {}

  function MaskOf(i: nat): (m: bv8)
    requires i < 8
    ensures SingleBit(m)
  {
    [0x80, 0x40, 0x20, 0x10, 0x08, 0x04, 0x02, 0x01][i]
  }

  lemma BitByMask(a: bv8, i: nat)
    requires i < 8
    ensures Bit(a, i) == (a & MaskOf(i) != 0)
  {}

  lemma AndBits(a: bv8, b: bv8, i: nat)
    requires i < 8
    ensures Bit(a & b, i) == (Bit(a, i) && Bit(b, i))
  {}

  lemma OrBits(a: bv8, b: bv8, i: nat)
    requires i < 8
    ensures Bit(a | b, i) == (Bit(a, i) || Bit(b, i))
  {
    hide Bit, MaskOf, SingleBit;
    BitByMask(a, i); BitByMask(b, i); BitByMask(a | b, i);
    OrMask(a, b, MaskOf(i));
  }

  lemma XorBits(a: bv8, b: bv8, i: nat)
    requires i < 8
    ensures Bit(a ^ b, i) == (Bit(a, i) != Bit(b, i))
  {
    var x, m := a ^ b, MaskOf(i);
    XorMask(a, b, m);
    assert (x & m != 0) == ((a & m != 0) != (b & m != 0));
    hide *;
    BitByMask(a, i); BitByMask(b, i); BitByMask(x, i);
  }

  lemma ByteOpBits(op: Op, a: bv8, b: bv8, i: nat)
    requires i < 8
    ensures Bit(ByteOp(op, a, b), i) == match op
                                        case And => Bit(a, i) && Bit(b, i)
                                        case Or => Bit(a, i) || Bit(b, i)
                                        case Xor => Bit(a, i) != Bit(b, i)
                                        case Not => Bit(a, i)
  {
    hide Bit;
    AndBits(a, b, i);
    OrBits(a, b, i);
    XorBits(a, b, i);
  }

  lemma NotBits(a: bv8, i: nat)
    requires i < 8
    ensures Bit(!a, i) == !Bit(a, i) && !Bit(0, i)
  {}

  lemma SourceBits(src: Source, p: nat)
    ensures Bit(SourceByte(src, p / 8), p % 8) == PaddedBitAt(Bytes(src), p)
  {}

  /** Every bit of an output byte has the meaning of the operation. */
  lemma {:induction false} OutputBits(op: Op, srcs: seq<Source>, p: nat, n: nat)
    requires 1 <= n <= |srcs| && (op == Not ==> n == 1)
    ensures Bit(OutputByte(op, srcs, p / 8, n), p % 8) == BitMeaning(op, srcs[..n], p)
  {
    hide Bit;
    SourceBits(srcs[n - 1], p);
    assert srcs[..n][..n - 1] == srcs[..n - 1];
    if n == 1 {
      NotBits(SourceByte(srcs[0], p / 8), p % 8);
      assert srcs[..1] == [srcs[0]] && srcs[..1][..0] == [];
      assert CountSet(srcs[..1], p) == One(PaddedBitAt(Bytes(srcs[0]), p));
    } else {
      OutputBits(op, srcs, p, n - 1);
      ByteOpBits(op, OutputByte(op, srcs, p / 8, n - 1), SourceByte(srcs[n - 1], p / 8), p % 8);
      assert forall k :: 0 <= k < n - 1 ==> srcs[..n][k] == srcs[..n - 1][k];
      assert forall k :: 0 <= k < n ==> k < n - 1 || srcs[..n][k] == srcs[n - 1];
      assert srcs[..n][n - 1] == srcs[n - 1];
    }
  }

  // Eight bytes at a time

  function WordOp(op: Op, x: bv64, y: bv64): bv64 {
    match op
    case And => x & y
    case Or => x | y
    case Xor => x ^ y
    case Not => !x
  }

  function Join(a: bv8, b: bv8, c: bv8, d: bv8, e: bv8, f: bv8, g: bv8, h: bv8): bv64 {
    (h as bv64 << 56) | (g as bv64 << 48) | (f as bv64 << 40) | (e as bv64 << 32)
    | (d as bv64 << 24) | (c as bv64 << 16) | (b as bv64 << 8) | a as bv64
  }

  lemma OrJoined(a: bv8, b: bv8, c: bv8, d: bv8, e: bv8, f: bv8, g: bv8, h: bv8,
                a': bv8, b': bv8, c': bv8, d': bv8, e': bv8, f': bv8, g': bv8, h': bv8)
    ensures Join(a, b, c, d, e, f, g, h) | Join(a', b', c', d', e', f', g', h')
         == Join(a | a', b | b', c | c', d | d', e | e', f | f', g | g', h | h')
  {}

  lemma XorJoined(a: bv8, b: bv8, c: bv8, d: bv8, e: bv8, f: bv8, g: bv8, h: bv8,
                a': bv8, b': bv8, c': bv8, d': bv8, e': bv8, f': bv8, g': bv8, h': bv8)
    ensures Join(a, b, c, d, e, f, g, h) ^ Join(a', b', c', d', e', f', g', h')
         == Join(a ^ a', b ^ b', c ^ c', d ^ d', e ^ e', f ^ f', g ^ g', h ^ h')
  {}

  lemma NotJoined(a: bv8, b: bv8, c: bv8, d: bv8, e: bv8, f: bv8, g: bv8, h: bv8)
    ensures !Join(a, b, c, d, e, f, g, h) == Join(!a, !b, !c, !d, !e, !f, !g, !h)
  {}

  function Lane(op: Op, a: bv8, b: bv8): bv8 { if op == Not then !a else ByteOp(op, a, b) }

  lemma AndByLane(a: bv8, b: bv8, c: bv8, d: bv8, e: bv8, f: bv8, g: bv8, h: bv8,
                  a': bv8, b': bv8, c': bv8, d': bv8, e': bv8, f': bv8, g': bv8, h': bv8)
    ensures WordOp(And, Join(a, b, c, d, e, f, g, h), Join(a', b', c', d', e', f', g', h'))
         == Join(Lane(And, a, a'), Lane(And, b, b'), Lane(And, c, c'), Lane(And, d, d'),
                 Lane(And, e, e'), Lane(And, f, f'), Lane(And, g, g'), Lane(And, h, h'))
  {}

  lemma OrByLane(a: bv8, b: bv8, c: bv8, d: bv8, e: bv8, f: bv8, g: bv8, h: bv8,
                  a': bv8, b': bv8, c': bv8, d': bv8, e': bv8, f': bv8, g': bv8, h': bv8)
    ensures WordOp(Or, Join(a, b, c, d, e, f, g, h), Join(a', b', c', d', e', f', g', h'))
         == Join(Lane(Or, a, a'), Lane(Or, b, b'), Lane(Or, c, c'), Lane(Or, d, d'),
                 Lane(Or, e, e'), Lane(Or, f, f'), Lane(Or, g, g'), Lane(Or, h, h'))
  {
    hide Join;
    OrJoined(a, b, c, d, e, f, g, h, a', b', c', d', e', f', g', h');
  }

  lemma XorByLane(a: bv8, b: bv8, c: bv8, d: bv8, e: bv8, f: bv8, g: bv8, h: bv8,
                  a': bv8, b': bv8, c': bv8, d': bv8, e': bv8, f': bv8, g': bv8, h': bv8)
    ensures WordOp(Xor, Join(a, b, c, d, e, f, g, h), Join(a', b', c', d', e', f', g', h'))
         == Join(Lane(Xor, a, a'), Lane(Xor, b, b'), Lane(Xor, c, c'), Lane(Xor, d, d'),
                 Lane(Xor, e, e'), Lane(Xor, f, f'), Lane(Xor, g, g'), Lane(Xor, h, h'))
  {
    hide Join;
    XorJoined(a, b, c, d, e, f, g, h, a', b', c', d', e', f', g', h');
  }

  lemma NotByLane(a: bv8, b: bv8, c: bv8, d: bv8, e: bv8, f: bv8, g: bv8, h: bv8,
                  a': bv8, b': bv8, c': bv8, d': bv8, e': bv8, f': bv8, g': bv8, h': bv8)
    ensures WordOp(Not, Join(a, b, c, d, e, f, g, h), Join(a', b', c', d', e', f', g', h'))
         == Join(Lane(Not, a, a'), Lane(Not, b, b'), Lane(Not, c, c'), Lane(Not, d, d'),
                 Lane(Not, e, e'), Lane(Not, f, f'), Lane(Not, g, g'), Lane(Not, h, h'))
  {
    hide Join;
    NotJoined(a, b, c, d, e, f, g, h);
  }

  lemma WordOpByLane(op: Op, a: bv8, b: bv8, c: bv8, d: bv8, e: bv8, f: bv8, g: bv8, h: bv8,
                     a': bv8, b': bv8, c': bv8, d': bv8, e': bv8, f': bv8, g': bv8, h': bv8)
    ensures WordOp(op, Join(a, b, c, d, e, f, g, h), Join(a', b', c', d', e', f', g', h'))
         == Join(Lane(op, a, a'), Lane(op, b, b'), Lane(op, c, c'), Lane(op, d, d'),
                 Lane(op, e, e'), Lane(op, f, f'), Lane(op, g, g'), Lane(op, h, h'))
  {
    hide *;
    match op
    case And => AndByLane(a, b, c, d, e, f, g, h, a', b', c', d', e', f', g', h');
    case Or => OrByLane(a, b, c, d, e, f, g, h, a', b', c', d', e', f', g', h');
    case Xor => XorByLane(a, b, c, d, e, f, g, h, a', b', c', d', e', f', g', h');
    case Not => NotByLane(a, b, c, d, e, f, g, h, a', b', c', d', e', f', g', h');
  }

  lemma StoredBytes(w: bv64, a: bv8, b: bv8, c: bv8, d: bv8, e: bv8, f: bv8, g: bv8, h: bv8)
    requires w == Join(a, b, c, d, e, f, g, h)
    ensures Store(w) == [a, b, c, d, e, f, g, h]
  {}

  function Load(b: seq<bv8>): bv64
    requires |b| == 8
  {
    Join(b[0], b[1], b[2], b[3], b[4], b[5], b[6], b[7])
  }

  function Store(w: bv64): (b: seq<bv8>)
    ensures |b| == 8
  {
    [(w & 0xFF) as bv8, ((w >> 8) & 0xFF) as bv8, ((w >> 16) & 0xFF) as bv8, ((w >> 24) & 0xFF) as bv8,
     ((w >> 32) & 0xFF) as bv8, ((w >> 40) & 0xFF) as bv8, ((w >> 48) & 0xFF) as bv8, ((w >> 56) & 0xFF) as bv8]
  }

  /** Combining two words combines their bytes. */
  lemma WordOpBytes(op: Op, x: seq<bv8>, y: seq<bv8>, k: nat)
    requires |x| == |y| == 8 && k < 8
    ensures Store(WordOp(op, Load(x), Load(y)))[k] == Lane(op, x[k], y[k])
  {
    hide Join, Store, Lane, WordOp;
    WordOpByLane(op, x[0], x[1], x[2], x[3], x[4], x[5], x[6], x[7], y[0], y[1], y[2], y[3], y[4], y[5], y[6], y[7]);
    StoredBytes(WordOp(op, Load(x), Load(y)),
                Lane(op, x[0], y[0]), Lane(op, x[1], y[1]), Lane(op, x[2], y[2]), Lane(op, x[3], y[3]),
                Lane(op, x[4], y[4]), Lane(op, x[5], y[5]), Lane(op, x[6], y[6]), Lane(op, x[7], y[7]));
  }

  /** Combines a word of an input into a word of the output. */
  method ApplyWord(op: Op, res: array<bv8>, j: nat, src: seq<bv8>)
    requires j + 8 <= res.Length && j + 8 <= |src|
    modifies res
    ensures forall i :: 0 <= i < res.Length ==>
              res[i] == if j <= i < j + 8 then Lane(op, old(res[i]), src[i]) else old(res[i])
  {
    hide Lane, Store, Load, WordOp;
    ghost var was := res[..];
    var b := Store(WordOp(op, Load(res[j..j + 8]), Load(src[j..j + 8])));
    forall k | 0 <= k < 8 ensures b[k] == Lane(op, was[j + k], src[j + k]) {
      WordOpBytes(op, was[j..j + 8], src[j..j + 8], k);
    }
    for k := 0 to 8
      invariant forall i :: 0 <= i < res.Length ==> res[i] == if j <= i < j + k then b[i - j] else was[i]
    {
      res[j + k] := b[k];
    }
  }

  /** The lengths found while looking the sources up. */
  method Lengths(srcs: seq<Source>) returns (minlen: nat, maxlen: nat)
    requires |srcs| >= 1
    ensures forall k :: 0 <= k < |srcs| ==> minlen <= |Bytes(srcs[k])| <= maxlen
    ensures exists k :: 0 <= k < |srcs| && maxlen == |Bytes(srcs[k])|
  {
    minlen, maxlen := 0, 0;
    for j := 0 to |srcs|
      invariant forall k :: 0 <= k < j ==> minlen <= |Bytes(srcs[k])| <= maxlen
      invariant maxlen == 0 || exists k :: 0 <= k < j && maxlen == |Bytes(srcs[k])|
    {
      if srcs[j].Missing? {
        minlen := 0;
      } else {
        var len := |srcs[j].bytes|;
        if len > maxlen { maxlen := len; }
        if j == 0 || len < minlen { minlen := len; }
      }
    }
    if maxlen == 0 {
      assert maxlen == |Bytes(srcs[0])|;
    }
  }

  /** The bytes before `j` are final. */
  ghost predicate Done(op: Op, srcs: seq<Source>, res: seq<bv8>, j: nat)
    requires |srcs| >= 1 && j <= |res|
  {
    forall i :: 0 <= i < j ==> res[i] == OutputByte(op, srcs, i, |srcs|)
  }

  /** One source combined into 32 bytes of the output, as four words. */
  method ApplyFourWords(op: Op, res: array<bv8>, j: nat, src: seq<bv8>)
    requires j + 32 <= res.Length && j + 32 <= |src|
    modifies res
    ensures forall i :: 0 <= i < res.Length ==>
              res[i] == if j <= i < j + 32 then Lane(op, old(res[i]), src[i]) else old(res[i])
  {
    hide Lane;
    ApplyWord(op, res, j, src);
    ApplyWord(op, res, j + 8, src);
    ApplyWord(op, res, j + 16, src);
    ApplyWord(op, res, j + 24, src);
  }

  /** Thirty-two bytes of the fast path, from a copy of the first source to the final bytes. */
  method FastStep(op: Op, srcs: seq<Source>, res: array<bv8>, j: nat)
    requires |srcs| >= 1 && (op == Not ==> |srcs| == 1)
    requires j + 32 <= res.Length && forall k :: 0 <= k < |srcs| ==> j + 32 <= |Bytes(srcs[k])|
    requires forall i :: j <= i < j + 32 ==> res[i] == Bytes(srcs[0])[i]
    modifies res
    ensures forall i :: 0 <= i < res.Length ==>
              res[i] == if j <= i < j + 32 then OutputByte(op, srcs, i, |srcs|) else old(res[i])
  {
    if op == Not {
      ApplyFourWords(op, res, j, Bytes(srcs[0]));
    } else {
      for n := 1 to |srcs|
        invariant forall i :: 0 <= i < res.Length ==>
                    res[i] == if j <= i < j + 32 then OutputByte(op, srcs, i, n) else old(res[i])
      {
        ApplyFourWords(op, res, j, Bytes(srcs[n]));
      }
    }
  }

  /** The byte-by-byte tail: `res[j..]` is computed from scratch. */
  method SlowTail(op: Op, srcs: seq<Source>, res: array<bv8>, start: nat)
    requires |srcs| >= 1 && (op == Not ==> |srcs| == 1)
    requires start <= res.Length && Done(op, srcs, res[..], start)
    modifies res
    ensures Done(op, srcs, res[..], res.Length)
  {
    for j := start to res.Length
      invariant Done(op, srcs, res[..], j)
    {
      var output := SourceByte(srcs[0], j);
      if op == Not { output := !output; }
      for i := 1 to |srcs|
        invariant output == OutputByte(op, srcs, j, i)
      {
        output := ByteOp(op, output, SourceByte(srcs[i], j));
      }
      res[j] := output;
    }
  }

  /**
   BITOP on any sources, missing and of different lengths included: the output is as long
   as the longest source and each of its bits is the operation on the bits of the
   zero-padded sources. BITOP NOT is refused unless it has exactly one source.
   */
  method Bitop(op: Op, srcs: seq<Source>) returns (ok: bool, res: seq<bv8>)
    requires |srcs| >= 1
    ensures ok <==> (op == Not ==> |srcs| == 1)
    ensures ok ==> forall k :: 0 <= k < |srcs| ==> |Bytes(srcs[k])| <= |res|
    ensures ok ==> exists k :: 0 <= k < |srcs| && |res| == |Bytes(srcs[k])|
    ensures ok ==> forall p :: 0 <= p < 8 * |res| ==> BitAt(res, p) == BitMeaning(op, srcs, p)
  {
    res := [];
    if op == Not && |srcs| != 1 {
      return false, [];
    }
    ok := true;
    var minlen, maxlen := Lengths(srcs);
    if maxlen > 0 {
      var buf := new bv8[maxlen](_ => 0);
      var j := 0;
      if minlen >= 32 && |srcs| <= 16 {
        forall i | 0 <= i < minlen { buf[i] := Bytes(srcs[0])[i]; }
        ghost var end := minlen;
        while minlen >= 32
          invariant j + minlen == end
          invariant Done(op, srcs, buf[..], j)
          invariant forall i :: j <= i < end ==> buf[i] == Bytes(srcs[0])[i]
        {
          FastStep(op, srcs, buf, j);
          j, minlen := j + 32, minlen - 32;
        }
      }
      SlowTail(op, srcs, buf, j);
      res := buf[..];
      forall p | 0 <= p < 8 * |res| ensures BitAt(res, p) == BitMeaning(op, srcs, p) {
        OutputBits(op, srcs, p, |srcs|);
        assert srcs[..|srcs|] == srcs;
      }
    }
  }
}
