/**
 The append-only file's encoding of commands, and its decoding as the loader does it: a line for
 the number of arguments, then for each argument a line with its length, its bytes and an end of
 line. Characters stand for bytes. Decoding follows the C library: lines come from a buffer of
 128 bytes, the last one may be incomplete, and numbers are read as far as their digits go.
 */
module Resp {
  type Command = seq<string>

  // Numbers

  function Digit(d: nat): char
    requires d < 10
  {
    ('0' as int + d) as char
  }

  predicate IsDigit(c: char) {
    '0' <= c <= '9'
  }

  function DigitValue(c: char): nat
    requires IsDigit(c)
  {
    c as int - '0' as int
  }

  function Decimal(n: nat): (s: string)
    ensures |s| > 0 && forall i :: 0 <= i < |s| ==> IsDigit(s[i])
  {
    if n < 10 then [Digit(n)] else Decimal(n / 10) + [Digit(n % 10)]
  }

  predicate IsSpace(c: char) {
    c == ' ' || '\t' <= c <= '\r'
  }

  function SkipSpaces(s: string): string {
    if s != "" && IsSpace(s[0]) then SkipSpaces(s[1..]) else s
  }

  /** The digits at the start of s, after those already read. */
  function ReadDigits(s: string, n: nat): nat {
    if s != "" && IsDigit(s[0]) then ReadDigits(s[1..], 10 * n + DigitValue(s[0])) else n
  }

  /** strtol in base ten, without its range limits. */
  function ReadNumber(s: string): int {
    var t := SkipSpaces(s);
    if t == "" then 0
    else if t[0] == '-' then -(ReadDigits(t[1..], 0) as int)
    else if t[0] == '+' then ReadDigits(t[1..], 0)
    else ReadDigits(t, 0)
  }

  lemma {:induction false} ReadDigitsConcat(s: string, t: string, n: nat)
    requires forall i :: 0 <= i < |s| ==> IsDigit(s[i])
    requires t == "" || !IsDigit(t[0])
    ensures ReadDigits(s + t, n) == ReadDigits(s, n)
  {
    if s != "" {
      assert (s + t)[1..] == s[1..] + t;
      ReadDigitsConcat(s[1..], t, 10 * n + DigitValue(s[0]));
    } else {
      assert s + t == t;
    }
  }

  lemma {:induction false} ReadDigitsSnoc(s: string, c: char, n: nat)
    requires IsDigit(c) && forall i :: 0 <= i < |s| ==> IsDigit(s[i])
    ensures ReadDigits(s + [c], n) == 10 * ReadDigits(s, n) + DigitValue(c)
  {
    if s != "" {
      assert (s + [c])[1..] == s[1..] + [c];
      ReadDigitsSnoc(s[1..], c, 10 * n + DigitValue(s[0]));
    }
  }

  lemma {:induction false} ReadsDecimal(n: nat)
    ensures ReadDigits(Decimal(n), 0) == n
    ensures n > 0 ==> Decimal(n)[0] != '0'
  {
    if n >= 10 {
      ReadsDecimal(n / 10);
      ReadDigitsSnoc(Decimal(n / 10), Digit(n % 10), 0);
    } else {
      assert Decimal(n)[1..] == "";
    }
  }

  lemma {:induction false} ReadDigitsGrows(s: string, n: nat)
    ensures ReadDigits(s, n) >= n
  {
    if s != "" && IsDigit(s[0]) { ReadDigitsGrows(s[1..], 10 * n + DigitValue(s[0])); }
  }

  function TenTo(k: nat): nat {
    if k == 0 then 1 else 10 * TenTo(k - 1)
  }

  lemma {:induction false} DecimalLength(n: nat, k: nat)
    requires 0 < k && n < TenTo(k)
    ensures |Decimal(n)| <= k
  {
    if n >= 10 { DecimalLength(n / 10, k - 1); }
  }

  /** The printed form of n, followed by something that is not a digit, reads as n. */
  lemma NumberRoundTrip(n: nat, t: string)
    requires t == "" || !IsDigit(t[0])
    ensures ReadNumber(Decimal(n) + t) == n
  {
    ReadsDecimal(n);
    ReadDigitsConcat(Decimal(n), t, 0);
    assert (Decimal(n) + t)[0] == Decimal(n)[0];
  }

  /** A non-empty part of the printed form of a positive number reads as a positive number. */
  lemma NumberPrefix(n: nat, k: nat)
    requires n > 0 && 0 < k <= |Decimal(n)|
    ensures ReadNumber(Decimal(n)[..k]) >= 1
  {
    ReadsDecimal(n);
    var s := Decimal(n)[..k];
    assert s[0] == Decimal(n)[0];
    ReadDigitsGrows(s[1..], DigitValue(s[0]));
  }

  // Encoding

  const CRLF := "\r\n"

  function EncodeArg(arg: string): string {
    "$" + Decimal(|arg|) + CRLF + arg + CRLF
  }

  function EncodeArgs(args: seq<string>): string {
    if args == [] then "" else EncodeArg(args[0]) + EncodeArgs(args[1..])
  }

  function Encode(cmd: Command): string {
    "*" + Decimal(|cmd|) + CRLF + EncodeArgs(cmd)
  }

  function EncodeAll(cmds: seq<Command>): string {
    if cmds == [] then "" else Encode(cmds[0]) + EncodeAll(cmds[1..])
  }

  lemma {:induction false} EncodeArgsSnoc(args: seq<string>, arg: string)
    ensures EncodeArgs(args + [arg]) == EncodeArgs(args) + EncodeArg(arg)
  {
    if args == [] {
      assert [arg][1..] == [];
      assert EncodeArgs([arg]) == EncodeArg(arg) + "";
    } else {
      assert (args + [arg])[1..] == args[1..] + [arg];
      EncodeArgsSnoc(args[1..], arg);
    }
  }

  lemma {:induction false} EncodeAllConcat(cs: seq<Command>, ds: seq<Command>)
    ensures EncodeAll(cs + ds) == EncodeAll(cs) + EncodeAll(ds)
  {
    if cs == [] {
      assert cs + ds == ds;
    } else {
      assert (cs + ds)[1..] == cs[1..] + ds;
      EncodeAllConcat(cs[1..], ds);
    }
  }

  /** Appends the encoding of a command to a buffer, argument by argument. */
  method CatAppendOnlyGenericCommand(dst: string, argv: Command) returns (r: string)
    ensures r == dst + Encode(argv)
  {
    hide Decimal;
    r := dst + "*" + Decimal(|argv|) + CRLF;
    ghost var head := r;
    for j := 0 to |argv|
      invariant r == head + EncodeArgs(argv[..j])
    {
      EncodeArgsSnoc(argv[..j], argv[j]);
      assert argv[..j + 1] == argv[..j] + [argv[j]];
      ghost var before := r;
      r := r + "$" + Decimal(|argv[j]|) + CRLF;
      r := r + argv[j];
      r := r + CRLF;
      assert r == before + EncodeArg(argv[j]);
    }
    assert argv[..|argv|] == argv;
  }

  // Decoding

  /** The length of the line at the start of s, at most max, its newline included. */
  function LineLength(s: string, max: nat): (n: nat)
    ensures n <= |s| && n <= max && (n == 0 <==> s == "" || max == 0)
    ensures n < max && (n == 0 || s[n - 1] != '\n') ==> n == |s|
  {
    if s == "" || max == 0 then 0
    else if s[0] == '\n' then 1
    else 1 + LineLength(s[1..], max - 1)
  }

  /** What fgets puts into a buffer of 128 bytes. */
  function Line(s: string): (r: string)
    ensures |r| <= |s| && r == s[..|r|] && (s != "" ==> |r| > 0)
  {
    s[..LineLength(s, 127)]
  }

  /** The file ended before the line did. */
  predicate LineHitsEof(s: string) {
    var n := LineLength(s, 127);
    n < 127 && (n == 0 || s[n - 1] != '\n')
  }

  datatype Arguments = Args(args: seq<string>, rest: string) | ArgsShort | ArgsBad | ArgsCrash

  datatype Parsed = Parsed(cmd: Command, rest: string) | CleanEof | ShortRead | ReadError | BadFormat | Crash

  /** The arguments still to come after those already read. A negative length asks for more memory than there is. */
  function ParseArgs(s: string, count: nat, done: seq<string>): (r: Arguments)
    ensures r.Args? ==> |r.rest| <= |s| && |r.args| == |done| + count && (count > 0 ==> |r.rest| < |s|)
    decreases count
  {
    if count == 0 then Args(done, s)
    else if s == "" then ArgsShort
    else if s[0] != '$' then ArgsBad
    else
      var line := Line(s);
      var t := s[|line|..];
      var len := ReadNumber(line[1..]);
      if len < 0 then ArgsCrash
      else if |t| < len then ArgsShort
      else if |t| < len + 2 then ArgsShort
      else ParseArgs(t[len + 2..], count - 1, done + [t[..len]])
  }

  /** One command. A NUL byte after the asterisk is taken for the end of the line. */
  function ParseCommand(s: string): (r: Parsed)
    ensures r.Parsed? ==> |r.rest| < |s| && |r.cmd| > 0
  {
    if s == "" then CleanEof
    else if s[0] != '*' then BadFormat
    else
      var line := Line(s);
      if |line| == 1 || line[1] == '\0' then (if LineHitsEof(s) then ShortRead else ReadError)
      else
        var argc := ReadNumber(line[1..]);
        if argc < 1 then BadFormat
        else
          match ParseArgs(s[|line|..], argc, [])
          case Args(args, rest) => Parsed(args, rest)
          case ArgsShort => ShortRead
          case ArgsBad => BadFormat
          case ArgsCrash => Crash
  }

  // Round trip

  /** The counts and lengths that the C types allow. */
  predicate Encodable(cmd: Command) {
    0 < |cmd| < 0x8000_0000 && forall a :: a in cmd ==> |a| < 0x8000_0000_0000_0000
  }

  lemma TwentyDigits(n: nat)
    requires n < 0x8000_0000_0000_0000
    ensures |Decimal(n)| <= 20
  {
    assert TenTo(20) == 100000000000000000000 by {
      assert TenTo(10) == 10000000000;
    }
    DecimalLength(n, 20);
  }

  lemma {:induction false} LineUpTo(s: string, t: string, max: nat)
    requires |s| < max && forall i :: 0 <= i < |s| ==> s[i] != '\n'
    ensures LineLength(s, max) == |s|
    ensures LineLength(s + "\n" + t, max) == |s| + 1
  {
    if s != "" {
      assert (s + "\n" + t)[1..] == s[1..] + "\n" + t;
      LineUpTo(s[1..], t, max - 1);
    } else {
      assert (s + "\n" + t)[0] == '\n';
    }
  }

  /** A line with a number: what is read of it, whole or cut short. */
  lemma NumberLine(c: char, n: nat, t: string)
    requires n < 0x8000_0000_0000_0000 && c != '\n'
    ensures var s := [c] + Decimal(n) + CRLF;
            Line(s + t) == s && (s + t)[|s|..] == t && ReadNumber(s[1..]) == n && !LineHitsEof(s + t)
  {
    TwentyDigits(n);
    var body := [c] + Decimal(n) + "\r";
    LineUpTo(body, t, 127);
    assert body + "\n" + t == [c] + Decimal(n) + CRLF + t;
    assert ([c] + Decimal(n) + CRLF)[1..] == Decimal(n) + CRLF;
    NumberRoundTrip(n, CRLF);
  }

  lemma PartialNumberLine(c: char, n: nat, k: nat)
    requires n < 0x8000_0000_0000_0000 && c != '\n' && 0 < k < |Decimal(n)| + 3
    ensures var s := ([c] + Decimal(n) + CRLF)[..k];
            Line(s) == s && LineHitsEof(s) && s[0] == c
  {
    TwentyDigits(n);
    var s := ([c] + Decimal(n) + CRLF)[..k];
    forall i | 0 <= i < |s| ensures s[i] != '\n' {}
    LineUpTo(s, "", 127);
  }

  lemma ArgReads(arg: string, t: string, count: nat, done: seq<string>)
    requires |arg| < 0x8000_0000_0000_0000 && count > 0
    ensures ParseArgs(EncodeArg(arg) + t, count, done) == ParseArgs(t, count - 1, done + [arg])
  {
    hide Decimal, Line, ReadNumber;
    var head := "$" + Decimal(|arg|) + CRLF;
    var tail := arg + CRLF + t;
    NumberLine('$', |arg|, tail);
    assert EncodeArg(arg) + t == head + tail;
    assert tail[..|arg|] == arg && tail[|arg| + 2..] == t;
  }

  lemma {:induction false} ArgsRead(args: seq<string>, t: string, done: seq<string>)
    requires forall a :: a in args ==> |a| < 0x8000_0000_0000_0000
    ensures ParseArgs(EncodeArgs(args) + t, |args|, done) == Args(done + args, t)
  {
    hide ParseArgs, EncodeArg;
    if args == [] {
      assert EncodeArgs(args) + t == t && done + args == done;
      NoArgs(t, done);
    } else {
      assert EncodeArgs(args) + t == EncodeArg(args[0]) + (EncodeArgs(args[1..]) + t);
      ArgReads(args[0], EncodeArgs(args[1..]) + t, |args|, done);
      ArgsRead(args[1..], t, done + [args[0]]);
      assert done + [args[0]] + args[1..] == done + args;
    }
  }

  lemma NoArgs(t: string, done: seq<string>)
    ensures ParseArgs(t, 0, done) == Args(done, t)
  {}

  /** An encoded command, whatever bytes its arguments hold and whatever follows it, is read back. */
  lemma CommandRoundTrip(cmd: Command, t: string)
    requires Encodable(cmd)
    ensures ParseCommand(Encode(cmd) + t) == Parsed(cmd, t)
  {
    hide Decimal, EncodeArgs, ParseArgs, Line, LineHitsEof, ReadNumber;
    var head := "*" + Decimal(|cmd|) + CRLF;
    NumberLine('*', |cmd|, EncodeArgs(cmd) + t);
    assert Encode(cmd) + t == head + (EncodeArgs(cmd) + t);
    NotNul(|cmd|);
    ArgsRead(cmd, t, []);
    assert [] + cmd == cmd;
  }

  lemma NotNul(n: nat)
    ensures |Decimal(n)| > 0 && Decimal(n)[0] != '\0'
  {}

  // Truncation

  /** An argument cut short anywhere is a short read. */
  lemma PartialArg(arg: string, k: nat, count: nat, done: seq<string>)
    requires |arg| < 0x8000_0000_0000_0000 && count > 0 && k < |EncodeArg(arg)|
    ensures ParseArgs(EncodeArg(arg)[..k], count, done) == ArgsShort
  {
    hide Decimal, Line, LineHitsEof, LineLength;
    var head := "$" + Decimal(|arg|) + CRLF;
    var s := EncodeArg(arg)[..k];
    if 0 < k < |head| {
      assert s == head[..k];
      PartialNumberLine('$', |arg|, k);
      PartialLength(|arg|, k);
      assert s[|Line(s)|..] == "";
    } else if k >= |head| {
      var tail := (arg + CRLF)[..k - |head|];
      assert s == head + tail;
      NumberLine('$', |arg|, tail);
    }
  }

  lemma PartialLength(n: nat, k: nat)
    requires 0 < k < |Decimal(n)| + 3
    ensures ReadNumber(("$" + Decimal(n) + CRLF)[..k][1..]) >= 0
  {}

  lemma {:induction false} PartialArgs(args: seq<string>, k: nat, done: seq<string>)
    requires (forall a :: a in args ==> |a| < 0x8000_0000_0000_0000) && k < |EncodeArgs(args)|
    ensures ParseArgs(EncodeArgs(args)[..k], |args|, done) == ArgsShort
  {
    hide ParseArgs, EncodeArg;
    var first := EncodeArg(args[0]);
    if k < |first| {
      assert EncodeArgs(args)[..k] == first[..k];
      PartialArg(args[0], k, |args|, done);
    } else {
      var rest := EncodeArgs(args[1..])[..k - |first|];
      assert EncodeArgs(args)[..k] == first + rest;
      ArgReads(args[0], rest, |args|, done);
      PartialArgs(args[1..], k - |first|, done + [args[0]]);
    }
  }

  /** A command cut short anywhere is a short read, never a format error and never another command. */
  lemma PartialCommand(cmd: Command, k: nat)
    requires Encodable(cmd) && 0 < k < |Encode(cmd)|
    ensures ParseCommand(Encode(cmd)[..k]) == ShortRead
  {
    hide Decimal, Line, LineHitsEof, LineLength, EncodeArgs;
    var head := "*" + Decimal(|cmd|) + CRLF;
    var s := Encode(cmd)[..k];
    NotNul(|cmd|);
    if k < |head| {
      assert s == head[..k];
      PartialNumberLine('*', |cmd|, k);
      if k > 1 {
        PartialCount(|cmd|, k);
        assert s[1] == Decimal(|cmd|)[0];
        assert s[|Line(s)|..] == "";
      }
    } else {
      var tail := EncodeArgs(cmd)[..k - |head|];
      assert s == head + tail;
      NumberLine('*', |cmd|, tail);
      PartialArgs(cmd, k - |head|, []);
    }
  }

  lemma PartialCount(n: nat, k: nat)
    requires n > 0 && 1 < k < |Decimal(n)| + 3
    ensures ReadNumber(("*" + Decimal(n) + CRLF)[..k][1..]) >= 1
  {
    var t := ("*" + Decimal(n) + CRLF)[..k][1..];
    if k <= |Decimal(n)| + 1 {
      assert t == Decimal(n)[..k - 1];
      NumberPrefix(n, k - 1);
    } else {
      assert t == Decimal(n) + CRLF[..k - 1 - |Decimal(n)|];
      NumberRoundTrip(n, CRLF[..k - 1 - |Decimal(n)|]);
    }
  }
}
