/**
 What the loader refuses. A file is cut only where it ends too early; anything else that is wrong
 with it ends the server, whatever the setting, and the file is left alone.
 */
module AofErrors {
  import opened Resp
  import opened AofLoad

  // What can be wrong after whole commands

  /** Where a file goes wrong, with whatever follows. */
  datatype Defect =
    | Garbage(first: char, rest: string)
    | BadCount(line: string, rest: string)
    | NulCount(line: string, rest: string)
    | BadArgument(count: nat, args: seq<string>, first: char, rest: string)
    | NegativeLength(count: nat, args: seq<string>, length: nat, rest: string)
    | UnknownName(cmd: Command, rest: string)

  predicate OneLine(s: string) {
    |s| < 120 && forall i :: 0 <= i < |s| ==> s[i] != '\n'
  }

  predicate ShortArgs(count: nat, args: seq<string>) {
    |args| < count < 0x8000_0000 && forall a :: a in args ==> |a| < 0x8000_0000_0000_0000
  }

  predicate IsDefect(d: Defect, kind: Command -> Kind) {
    match d
    case Garbage(first, _) => first != '*'
    case BadCount(count, _) => OneLine(count) && (count == "" || count[0] != '\0') && ReadNumber(count) < 1
    case NulCount(count, _) => OneLine(count)
    case BadArgument(count, args, first, _) => ShortArgs(count, args) && first != '$'
    case NegativeLength(count, args, length, _) => ShortArgs(count, args) && 0 < length < 0x8000_0000_0000_0000
    case UnknownName(cmd, _) => Encodable(cmd) && kind(cmd).Unknown?
  }

  function Header(count: nat): string {
    "*" + Decimal(count) + CRLF
  }

  /** The bytes from the defect on. */
  function Bytes(d: Defect): string {
    match d
    case Garbage(first, rest) => [first] + rest
    case BadCount(count, rest) => "*" + count + "\n" + rest
    case NulCount(count, rest) => "*\0" + count + "\n" + rest
    case BadArgument(count, args, first, rest) => Header(count) + (EncodeArgs(args) + ([first] + rest))
    case NegativeLength(count, args, length, rest) => Header(count) + (EncodeArgs(args) + ("$-" + Decimal(length) + CRLF + rest))
    case UnknownName(cmd, rest) => Encode(cmd) + rest
  }

  function Reason(d: Defect): Failure {
    match d
    case Garbage(_, _) => FormatError
    case BadCount(_, _) => FormatError
    case NulCount(_, _) => UnreadableFile
    case BadArgument(_, _, _, _) => FormatError
    case NegativeLength(_, _, _, _) => OutOfMemory
    case UnknownName(_, _) => UnknownCommand
  }

  // Reading lines and numbers

  /** A newline after a number does not change it. */
  lemma {:induction false} SkipsToNewline(s: string)
    ensures SkipSpaces(s + "\n") == if SkipSpaces(s) == "" then "" else SkipSpaces(s) + "\n"
  {
    if s == "" {
      assert s + "\n" == "\n" && "\n"[1..] == "";
    } else {
      assert (s + "\n")[1..] == s[1..] + "\n";
      if IsSpace(s[0]) { SkipsToNewline(s[1..]); }
    }
  }

  lemma {:induction false} DigitsToNewline(s: string, n: nat)
    ensures ReadDigits(s + "\n", n) == ReadDigits(s, n)
  {
    if s == "" {
      assert s + "\n" == "\n";
    } else {
      assert (s + "\n")[1..] == s[1..] + "\n";
      if IsDigit(s[0]) { DigitsToNewline(s[1..], 10 * n + DigitValue(s[0])); }
    }
  }

  lemma NumberToNewline(s: string)
    ensures ReadNumber(s + "\n") == ReadNumber(s)
  {
    SkipsToNewline(s);
    var t := SkipSpaces(s);
    if t != "" {
      assert (t + "\n")[1..] == t[1..] + "\n";
      DigitsToNewline(t, 0);
      DigitsToNewline(t[1..], 0);
    }
  }

  /** A line of its own, with what is read of it. */
  lemma WholeLine(s: string, rest: string)
    requires s != "" && |s| < 127 && forall i :: 0 <= i < |s| ==> s[i] != '\n'
    ensures Line(s + "\n" + rest) == s + "\n" && !LineHitsEof(s + "\n" + rest)
    ensures (s + "\n" + rest)[|s| + 1..] == rest && ReadNumber((s + "\n")[1..]) == ReadNumber(s[1..])
  {
    LineUpTo(s, rest, 127);
    assert (s + "\n")[1..] == s[1..] + "\n";
    NumberToNewline(s[1..]);
  }

  /** The arguments that are there are read, then the next. */
  lemma {:induction false} ReadsUpTo(args: seq<string>, tail: string, count: nat, done: seq<string>)
    requires |args| <= count && forall a :: a in args ==> |a| < 0x8000_0000_0000_0000
    ensures ParseArgs(EncodeArgs(args) + tail, count, done) == ParseArgs(tail, count - |args|, done + args)
    decreases |args|
  {
    hide ParseArgs, EncodeArg;
    if args == [] {
      assert EncodeArgs(args) + tail == tail && done + args == done;
    } else {
      assert EncodeArgs(args) + tail == EncodeArg(args[0]) + (EncodeArgs(args[1..]) + tail);
      ArgReads(args[0], EncodeArgs(args[1..]) + tail, count, done);
      ReadsUpTo(args[1..], tail, count - 1, done + [args[0]]);
      assert done + [args[0]] + args[1..] == done + args;
    }
  }

  lemma HeaderThen(count: nat, tail: string)
    requires 0 < count < 0x8000_0000
    ensures ParseCommand(Header(count) + tail) ==
            match ParseArgs(tail, count, [])
            case Args(args, rest) => Parsed(args, rest)
            case ArgsShort => ShortRead
            case ArgsBad => BadFormat
            case ArgsCrash => Crash
  {
    hide Decimal, ParseArgs, Line, LineHitsEof, ReadNumber;
    NumberLine('*', count, tail);
    NotNul(count);
  }

  lemma NegativeNumber(n: nat)
    requires n > 0
    ensures ReadNumber("-" + Decimal(n) + "\r") < 0
  {
    ReadsDecimal(n);
    ReadDigitsConcat(Decimal(n), "\r", 0);
    assert ("-" + Decimal(n) + "\r")[1..] == Decimal(n) + "\r";
  }

  lemma NegativeArg(length: nat, rest: string, count: nat, done: seq<string>)
    requires 0 < length < 0x8000_0000_0000_0000 && count > 0
    ensures ParseArgs("$-" + Decimal(length) + CRLF + rest, count, done) == ArgsCrash
  {
    hide Decimal, Line, ReadNumber;
    var s := "$-" + Decimal(length) + "\r";
    TwentyDigits(length);
    WholeLine(s, rest);
    assert s + "\n" + rest == "$-" + Decimal(length) + CRLF + rest;
    assert s[1..] == "-" + Decimal(length) + "\r";
    NegativeNumber(length);
  }

  /** A header line, whatever it says. */
  lemma HeaderLine(line: string, rest: string)
    requires |line| < 125 && forall i :: 0 <= i < |line| ==> line[i] != '\n'
    ensures var p := ParseCommand("*" + line + "\n" + rest);
            if line != "" && line[0] == '\0' then p == ReadError else ReadNumber(line) < 1 ==> p == BadFormat
  {
    hide ParseArgs, Line, LineHitsEof, ReadNumber;
    var s := "*" + line;
    WholeLine(s, rest);
    assert s[1..] == line && (s + "\n")[1] == if line == "" then '\n' else line[0];
  }

  /** What the defect is to the parser. */
  lemma ParsesDefect(d: Defect, kind: Command -> Kind)
    requires IsDefect(d, kind)
    ensures var p := ParseCommand(Bytes(d));
            match Reason(d)
            case FormatError => p == BadFormat
            case UnreadableFile => p == ReadError
            case OutOfMemory => p == Crash
            case _ => p.Parsed? && kind(p.cmd).Unknown?
  {
    hide ParseCommand, Decimal, Header, EncodeArgs, Encode, ReadNumber, ParseArgs;
    match d
    case Garbage(first, rest) => NoAsterisk(first, rest);
    case BadCount(line, rest) => HeaderLine(line, rest);
    case NulCount(line, rest) =>
      HeaderLine("\0" + line, rest);
      assert "*" + ("\0" + line) + "\n" + rest == Bytes(d);
    case BadArgument(count, args, first, rest) =>
      HeaderThen(count, EncodeArgs(args) + ([first] + rest));
      ReadsUpTo(args, [first] + rest, count, []);
      NoDollar(first, rest, count - |args|, [] + args);
    case NegativeLength(count, args, length, rest) =>
      var arg := "$-" + Decimal(length) + CRLF + rest;
      HeaderThen(count, EncodeArgs(args) + arg);
      ReadsUpTo(args, arg, count, []);
      NegativeArg(length, rest, count - |args|, [] + args);
    case UnknownName(cmd, rest) => CommandRoundTrip(cmd, rest);
  }

  lemma NoAsterisk(first: char, rest: string)
    requires first != '*'
    ensures ParseCommand([first] + rest) == BadFormat
  {}

  lemma NoDollar(first: char, rest: string, count: nat, done: seq<string>)
    requires first != '$' && count > 0
    ensures ParseArgs([first] + rest, count, done) == ArgsBad
  {}

  // Loading up to the defect

  /** Whole commands are run, whatever follows them. */
  lemma {:induction false} LoadsThrough(file: string, kind: Command -> Kind, truncates: bool, done: string, cmds: seq<Command>, tail: string,
                                        m: Machine, valid: nat, beforeMulti: nat) returns (valid': nat, beforeMulti': nat)
    requires Loadable(kind, cmds) && file == done + (EncodeAll(cmds) + tail)
    ensures |done| + |EncodeAll(cmds)| <= |file| && file[|done| + |EncodeAll(cmds)|..] == tail
    ensures LoadFrom(file, kind, truncates, |done|, m, valid, beforeMulti)
         == LoadFrom(file, kind, truncates, |done| + |EncodeAll(cmds)|, RanAll(kind, m, cmds), valid', beforeMulti')
    decreases |cmds|
  {
    hide ParseCommand, Encode, Ran, LoadFrom;
    if cmds == [] {
      valid', beforeMulti' := valid, beforeMulti;
    } else {
      var first, rest := Encode(cmds[0]), EncodeAll(cmds[1..]) + tail;
      assert EncodeAll(cmds) + tail == first + rest && file == (done + first) + rest;
      CommandRoundTrip(cmds[0], rest);
      assert file[|done|..] == first + rest;
      assert cmds[0] in cmds;
      LoadOne(file, kind, truncates, |done|, m, valid, beforeMulti, cmds[0], rest);
      valid', beforeMulti' := LoadsThrough(file, kind, truncates, done + first, cmds[1..], tail, Ran(kind, m, cmds[0]),
                                           if truncates then |done + first| else valid, if kind(cmds[0]).Multi? then valid else beforeMulti);
    }
  }

  lemma LoadOne(file: string, kind: Command -> Kind, truncates: bool, pos: nat, m: Machine, valid: nat, beforeMulti: nat, cmd: Command, rest: string)
    requires pos <= |file| && ParseCommand(file[pos..]) == Parsed(cmd, rest) && !kind(cmd).Unknown?
    ensures LoadFrom(file, kind, truncates, pos, m, valid, beforeMulti)
         == LoadFrom(file, kind, truncates, |file| - |rest|, Ran(kind, m, cmd),
                     if truncates then |file| - |rest| else valid, if kind(cmd).Multi? then valid else beforeMulti)
  {
    hide ParseCommand, Ran;
  }

  /** After whole commands, a defect ends the load with its reason, whether short files are cut or not. */
  lemma DefectsRefused(kind: Command -> Kind, cmds: seq<Command>, d: Defect, truncates: bool)
    requires Loadable(kind, cmds) && IsDefect(d, kind)
    ensures Load(EncodeAll(cmds) + Bytes(d), kind, truncates) == Failed(Reason(d))
  {
    hide ParseCommand, RanAll, Bytes, EncodeAll;
    var file := EncodeAll(cmds) + Bytes(d);
    assert file == "" + file;
    var valid, beforeMulti := LoadsThrough(file, kind, truncates, "", cmds, Bytes(d), Start, 0, 0);
    ParsesDefect(d, kind);
    assert file != "" by { NotEmpty(d); }
  }

  lemma NotEmpty(d: Defect)
    ensures Bytes(d) != ""
  {}

  /** Where short files are not cut, one that ends inside a command is refused. */
  lemma ShortRefused(kind: Command -> Kind, cmds: seq<Command>, cmd: Command, k: nat)
    requires Loadable(kind, cmds) && Encodable(cmd) && 0 < k < |Encode(cmd)|
    ensures Load(EncodeAll(cmds) + Encode(cmd)[..k], kind, false) == Failed(UnexpectedEnd)
  {
    hide ParseCommand, RanAll, Encode, EncodeAll;
    var tail := Encode(cmd)[..k];
    var file := EncodeAll(cmds) + tail;
    assert file == "" + file;
    var valid, beforeMulti := LoadsThrough(file, kind, false, "", cmds, tail, Start, 0, 0);
    PartialCommand(cmd, k);
  }

  /** And so is one that ends inside a transaction; one that does not is loaded whole. */
  lemma WholeOrRefused(kind: Command -> Kind, cmds: seq<Command>)
    requires Loadable(kind, cmds) && cmds != []
    ensures var m := RanAll(kind, Start, cmds);
            Load(EncodeAll(cmds), kind, false) == if m.open then Failed(UnexpectedEnd) else Loaded(m.ran, |EncodeAll(cmds)|)
  {
    hide ParseCommand, RanAll;
    var file := EncodeAll(cmds);
    assert file == "" + (file + "");
    assert |Encode(cmds[0])| > 0;
    var valid, beforeMulti := LoadsThrough(file, kind, false, "", cmds, "", Start, 0, 0);
    EndOfFile();
  }

  // Nothing else is cut

  /** A file read as commands, with what is left of it. */
  ghost predicate Splits(file: string, cmds: seq<Command>, rest: string)
    decreases |cmds|
  {
    if cmds == [] then rest == file
    else ParseCommand(file).Parsed? && ParseCommand(file).cmd == cmds[0] && Splits(ParseCommand(file).rest, cmds[1..], rest)
  }

  /** Bytes that more bytes make a command; or an asterisk and a NUL byte at the end of the file, which the source takes for that. */
  ghost predicate Incomplete(s: string) {
    || (exists more :: ParseCommand(s + more).Parsed?)
    || (|s| > 1 && s[0] == '*' && s[1] == '\0' && LineHitsEof(s))
  }

  lemma {:induction false} SameLine(s: string, more: string, max: nat)
    requires LineLength(s, max) == max || (LineLength(s, max) > 0 && s[LineLength(s, max) - 1] == '\n')
    ensures LineLength(s + more, max) == LineLength(s, max)
    decreases max
  {
    if s != "" && max > 0 && s[0] != '\n' {
      assert (s + more)[1..] == s[1..] + more;
      var n := LineLength(s[1..], max - 1);
      assert n > 0 ==> s[1..][n - 1] == s[n];
      SameLine(s[1..], more, max - 1);
    }
  }

  /** A line that the file does not end in stays the same whatever follows. */
  lemma LineStays(s: string, more: string)
    requires s != "" && !LineHitsEof(s)
    ensures Line(s + more) == Line(s) && !LineHitsEof(s + more) && (s + more)[|Line(s)|..] == s[|Line(s)|..] + more
  {
    SameLine(s, more, 127);
  }

  /** A line that the file ends in is all there is. */
  lemma LastLine(s: string)
    requires s != "" && LineHitsEof(s)
    ensures Line(s) == s && |s| < 127 && forall i :: 0 <= i < |s| ==> s[i] != '\n'
  {
    NoNewline(s, 127);
  }

  lemma {:induction false} NoNewline(s: string, max: nat)
    requires LineLength(s, max) < max && (LineLength(s, max) == 0 || s[LineLength(s, max) - 1] != '\n')
    ensures LineLength(s, max) == |s| && forall i :: 0 <= i < |s| ==> s[i] != '\n'
    decreases max
  {
    if s != "" && s[0] != '\n' {
      var n := LineLength(s[1..], max - 1);
      assert n > 0 ==> s[1..][n - 1] == s[n];
      NoNewline(s[1..], max - 1);
    }
  }

  function Empties(count: nat): seq<string> {
    seq(count, _ => "")
  }

  function Zeros(n: nat): string {
    seq(n, _ => '0')
  }

  lemma EmptiesRead(count: nat, done: seq<string>)
    ensures ParseArgs(EncodeArgs(Empties(count)), count, done) == Args(done + Empties(count), "")
  {
    hide ParseArgs, EncodeArgs;
    ArgsRead(Empties(count), "", done);
    assert EncodeArgs(Empties(count)) + "" == EncodeArgs(Empties(count));
  }

  /** One argument, with what follows its line. */
  lemma ArgStep(s: string, count: nat, done: seq<string>, line: string, t: string)
    requires count > 0 && s != "" && s[0] == '$' && line == Line(s) && t == s[|line|..]
    ensures var len := ReadNumber(line[1..]);
            ParseArgs(s, count, done) ==
            if len < 0 then ArgsCrash else if |t| < len + 2 then ArgsShort else ParseArgs(t[len + 2..], count - 1, done + [t[..len]])
  {
    hide Line, ReadNumber;
  }

  lemma ShortHasDollar(s: string, count: nat, done: seq<string>)
    requires ParseArgs(s, count, done) == ArgsShort
    ensures count > 0 && (s == "" || s[0] == '$')
  {}

  /** The argument that the file ends in is completed, with empty ones after it. */
  lemma CompletesLast(s: string, count: nat, done: seq<string>) returns (more: string)
    requires count > 0 && s != "" && s[0] == '$' && LineHitsEof(s) && ReadNumber(Line(s)[1..]) >= 0
    ensures ParseArgs(s + more, count, done).Args?
  {
    hide ParseArgs, ReadNumber, EncodeArgs, Empties, LineHitsEof, Line;
    LastLine(s);
    var len := ReadNumber(s[1..]);
    var args := EncodeArgs(Empties(count - 1));
    var tail := Zeros(len) + CRLF + args;
    more := "\n" + tail;
    WholeLine(s, tail);
    assert s + more == s + "\n" + tail && (s + more)[0] == '$';
    assert tail[..len] == Zeros(len) && tail[len + 2..] == args;
    ArgStep(s + more, count, done, s + "\n", tail);
    EmptiesRead(count - 1, done + [Zeros(len)]);
  }

  /** The bytes that an argument lacks are added, with empty ones after it. */
  lemma CompletesBytes(s: string, count: nat, done: seq<string>) returns (more: string)
    requires count > 0 && s != "" && s[0] == '$' && !LineHitsEof(s)
    requires 0 <= ReadNumber(Line(s)[1..]) && |s| - |Line(s)| < ReadNumber(Line(s)[1..]) + 2
    ensures ParseArgs(s + more, count, done).Args?
  {
    hide ParseArgs, ReadNumber, EncodeArgs, Empties, LineHitsEof, Line;
    var len, t := ReadNumber(Line(s)[1..]), s[|Line(s)|..];
    var args := EncodeArgs(Empties(count - 1));
    more := Zeros(len + 2 - |t|) + args;
    LineStays(s, more);
    assert (t + more)[len + 2..] == args && (s + more)[0] == '$';
    ArgStep(s + more, count, done, Line(s), t + more);
    EmptiesRead(count - 1, done + [(t + more)[..len]]);
  }

  /** Arguments that end too early can be completed. */
  lemma {:induction false} Completes(s: string, count: nat, done: seq<string>) returns (more: string)
    requires ParseArgs(s, count, done) == ArgsShort
    ensures ParseArgs(s + more, count, done).Args?
    decreases count
  {
    hide ParseArgs, ReadNumber, EncodeArgs, Empties, LineHitsEof, Line;
    ShortHasDollar(s, count, done);
    if s == "" {
      more := EncodeArgs(Empties(count));
      assert s + more == more;
      EmptiesRead(count, done);
    } else {
      var len, t := ReadNumber(Line(s)[1..]), s[|Line(s)|..];
      ArgStep(s, count, done, Line(s), t);
      if LineHitsEof(s) {
        more := CompletesLast(s, count, done);
      } else if |t| < len + 2 {
        more := CompletesBytes(s, count, done);
      } else {
        more := Completes(t[len + 2..], count - 1, done + [t[..len]]);
        LineStays(s, more);
        assert (t + more)[..len] == t[..len] && (t + more)[len + 2..] == t[len + 2..] + more && (s + more)[0] == '$';
        ArgStep(s + more, count, done, Line(s), t + more);
      }
    }
  }

  /** A header, with what follows its line. */
  lemma CommandStep(s: string, line: string, t: string)
    requires s != "" && s[0] == '*' && line == Line(s) && t == s[|line|..]
    ensures var argc := ReadNumber(line[1..]);
            ParseCommand(s) ==
            if |line| == 1 || line[1] == '\0' then (if LineHitsEof(s) then ShortRead else ReadError)
            else if argc < 1 then BadFormat
            else match ParseArgs(t, argc, [])
                 case Args(args, rest) => Parsed(args, rest)
                 case ArgsShort => ShortRead
                 case ArgsBad => BadFormat
                 case ArgsCrash => Crash
  {
    hide Line, LineHitsEof, ReadNumber, ParseArgs;
  }

  lemma ShortHasAsterisk(s: string)
    requires ParseCommand(s) == ShortRead
    ensures s != "" && s[0] == '*'
  {}

  /** What is read short is incomplete. */
  lemma ShortIsIncomplete(s: string)
    requires ParseCommand(s) == ShortRead
    ensures s != "" && Incomplete(s)
  {
    hide ParseCommand, ParseArgs, ReadNumber, Line, LineHitsEof, EncodeArgs, Empties, Encode;
    ShortHasAsterisk(s);
    var line := Line(s);
    var argc, t := ReadNumber(line[1..]), s[|line|..];
    CommandStep(s, line, t);
    if |line| == 1 || line[1] == '\0' {
      LastLine(s);
      if |s| == 1 { CompletesAsterisk(s); }
    } else if LineHitsEof(s) {
      LastLine(s);
      var args := EncodeArgs(Empties(argc));
      WholeLine(s, args);
      EmptiesRead(argc, []);
      var more := "\n" + args;
      assert s + more == s + "\n" + args && (s + more)[0] == '*' && (s + "\n")[1] == s[1];
      CommandStep(s + more, s + "\n", args);
      assert ParseCommand(s + more).Parsed?;
    } else {
      var more := Completes(t, argc, []);
      LineStays(s, more);
      assert (s + more)[0] == '*';
      CommandStep(s + more, line, t + more);
      assert ParseCommand(s + more).Parsed?;
    }
  }

  lemma CompletesAsterisk(s: string)
    requires s == "*"
    ensures Incomplete(s)
  {
    hide ParseCommand;
    CommandRoundTrip([""], "");
    var more := Encode([""])[1..];
    assert s + more == Encode([""]) + "";
    assert ParseCommand(s + more).Parsed?;
  }

  /** The last MULTI among the commands is the one at position i, and it begins where rest does. */
  ghost predicate LastMultiAt(file: string, kind: Command -> Kind, cmds: seq<Command>, i: nat, rest: string) {
    && i < |cmds| && kind(cmds[i]).Multi? && Splits(file, cmds[..i], rest)
    && forall j :: i < j < |cmds| ==> !kind(cmds[j]).Multi?
  }

  lemma MultiIsFirst(file: string, kind: Command -> Kind, cmd: Command, cmds: seq<Command>)
    requires kind(cmd).Multi? && forall c :: c in cmds ==> !kind(c).Multi?
    ensures LastMultiAt(file, kind, [cmd] + cmds, 0, file)
  {}

  lemma MultiIsLater(file: string, kind: Command -> Kind, cmds: seq<Command>, i: nat, rest: string)
    requires ParseCommand(file).Parsed? && LastMultiAt(ParseCommand(file).rest, kind, cmds, i, rest)
    ensures LastMultiAt(file, kind, [ParseCommand(file).cmd] + cmds, i + 1, rest)
  {
    hide ParseCommand;
    SplitsMore(file, cmds[..i], rest);
    assert ([ParseCommand(file).cmd] + cmds)[..i + 1] == [ParseCommand(file).cmd] + cmds[..i];
  }

  lemma {:induction false} ClosedWithoutMulti(kind: Command -> Kind, m: Machine, cmds: seq<Command>)
    requires !m.open && forall c :: c in cmds ==> !kind(c).Multi?
    ensures !RanAll(kind, m, cmds).open
    decreases |cmds|
  {
    if cmds != [] {
      assert cmds[0] in cmds;
      ClosedWithoutMulti(kind, Ran(kind, m, cmds[0]), cmds[1..]);
    }
  }

  /** Where the file is cut if it ends inside a transaction: at the last MULTI, or at the one there was before. */
  ghost predicate CutAtMulti(file: string, kind: Command -> Kind, pos: nat, cmds: seq<Command>, beforeMulti: nat, size: nat)
    requires pos <= |file|
  {
    || (size == beforeMulti && forall c :: c in cmds ==> !kind(c).Multi?)
    || (size <= |file| && exists i :: LastMultiAt(file[pos..], kind, cmds, i, file[size..]))
  }

  lemma CutNext(file: string, kind: Command -> Kind, pos: nat, cmds: seq<Command>, beforeMulti: nat, size: nat)
    requires pos <= |file| && ParseCommand(file[pos..]).Parsed? && |ParseCommand(file[pos..]).rest| <= |file|
    requires var cmd, rest := ParseCommand(file[pos..]).cmd, ParseCommand(file[pos..]).rest;
             && file[|file| - |rest|..] == rest
             && CutAtMulti(file, kind, |file| - |rest|, cmds, if kind(cmd).Multi? then pos else beforeMulti, size)
    ensures CutAtMulti(file, kind, pos, [ParseCommand(file[pos..]).cmd] + cmds, beforeMulti, size)
  {
    hide ParseCommand, Splits, LastMultiAt;
    var cmd, rest := ParseCommand(file[pos..]).cmd, ParseCommand(file[pos..]).rest;
    if forall c :: c in cmds ==> !kind(c).Multi? {
      if kind(cmd).Multi? { MultiIsFirst(file[pos..], kind, cmd, cmds); }
    }
    if size <= |file| && exists i :: LastMultiAt(rest, kind, cmds, i, file[size..]) {
      var i :| LastMultiAt(rest, kind, cmds, i, file[size..]);
      MultiIsLater(file[pos..], kind, cmds, i, file[size..]);
    }
  }

  lemma SplitsMore(file: string, cmds: seq<Command>, rest: string)
    requires ParseCommand(file).Parsed? && Splits(ParseCommand(file).rest, cmds, rest)
    ensures Splits(file, [ParseCommand(file).cmd] + cmds, rest)
  {
    assert ([ParseCommand(file).cmd] + cmds)[1..] == cmds;
  }

  lemma {:induction false} LoadedFrom(file: string, kind: Command -> Kind, truncates: bool, pos: nat, m: Machine, valid: nat, beforeMulti: nat)
    returns (cmds: seq<Command>, rest: string)
    requires pos <= |file| && LoadFrom(file, kind, truncates, pos, m, valid, beforeMulti).Loaded? && (truncates ==> valid == pos)
    ensures Splits(file[pos..], cmds, rest) && (forall c :: c in cmds ==> !kind(c).Unknown?)
    ensures var out, m' := LoadFrom(file, kind, truncates, pos, m, valid, beforeMulti), RanAll(kind, m, cmds);
            && out.ran == m'.ran
            && (if rest != "" then truncates && Incomplete(rest) && out.size == |file| - |rest|
                else if m'.open then truncates && CutAtMulti(file, kind, pos, cmds, beforeMulti, out.size)
                else out.size == |file|)
    decreases |file| - pos
  {
    hide ParseCommand, Ran, Incomplete, CutAtMulti;
    var s := file[pos..];
    match ParseCommand(s)
    case CleanEof =>
      cmds, rest := [], s;
      CleanIsEmpty(s);
      NothingCut(file, kind, pos, beforeMulti);
    case ShortRead =>
      cmds, rest := [], s;
      ShortIsIncomplete(s);
    case Parsed(cmd, t) =>
      var next := |file| - |t|;
      RestIsSuffix(s);
      assert file[next..] == t;
      cmds, rest := LoadedFrom(file, kind, truncates, next, Ran(kind, m, cmd), if truncates then next else valid,
                               if kind(cmd).Multi? then valid else beforeMulti);
      SplitsMore(s, cmds, rest);
      assert ([cmd] + cmds)[1..] == cmds;
      if rest == "" && RanAll(kind, m, [cmd] + cmds).open {
        CutNext(file, kind, pos, cmds, beforeMulti, LoadFrom(file, kind, truncates, pos, m, valid, beforeMulti).size);
      }
      cmds := [cmd] + cmds;
  }

  lemma NothingCut(file: string, kind: Command -> Kind, pos: nat, beforeMulti: nat)
    requires pos <= |file|
    ensures CutAtMulti(file, kind, pos, [], beforeMulti, beforeMulti)
  {}

  lemma CleanIsEmpty(s: string)
    requires ParseCommand(s) == CleanEof
    ensures s == ""
  {}

  lemma {:induction false} ArgsSuffix(s: string, count: nat, done: seq<string>)
    ensures var r := ParseArgs(s, count, done); r.Args? ==> |r.rest| <= |s| && s[|s| - |r.rest|..] == r.rest
    decreases count
  {
    hide ReadNumber, Line;
    if count > 0 && s != "" && s[0] == '$' {
      var line := Line(s);
      var t, len := s[|line|..], ReadNumber(line[1..]);
      if 0 <= len && len + 2 <= |t| {
        ArgsSuffix(t[len + 2..], count - 1, done + [t[..len]]);
        assert t[len + 2..] == s[|line| + len + 2..];
      }
    }
  }

  lemma RestIsSuffix(s: string)
    ensures var p := ParseCommand(s); p.Parsed? ==> |p.rest| <= |s| && s[|s| - |p.rest|..] == p.rest
  {
    hide ParseArgs, ReadNumber;
    if s != "" && s[0] == '*' {
      var line := Line(s);
      var argc := ReadNumber(line[1..]);
      if argc >= 1 { ArgsSuffix(s[|line|..], argc, []); }
    }
  }

  /**
   A file that is loaded at all consists of commands that are known, and what they say was run. It is loaded
   whole, unless short files are cut and it ends with bytes that more bytes would make a command, which are cut
   off, or inside a transaction, which is cut off from its last MULTI on.
   */
  lemma OnlyShortFilesAreCut(file: string, kind: Command -> Kind, truncates: bool) returns (cmds: seq<Command>, rest: string)
    requires Load(file, kind, truncates).Loaded?
    ensures Splits(file, cmds, rest) && (forall c :: c in cmds ==> !kind(c).Unknown?)
    ensures var out, m := Load(file, kind, truncates), RanAll(kind, Start, cmds);
            && out.ran == m.ran
            && (if rest != "" then truncates && Incomplete(rest) && out.size == |file| - |rest|
                else if m.open then truncates && out.size <= |file| && exists i :: LastMultiAt(file, kind, cmds, i, file[out.size..])
                else out.size == |file|)
  {
    hide LoadFrom, RanAll, Incomplete, LastMultiAt;
    assert file[0..] == file;
    cmds, rest := LoadedFrom(file, kind, truncates, 0, Start, 0, 0);
    if forall c :: c in cmds ==> !kind(c).Multi? { ClosedWithoutMulti(kind, Start, cmds); }
  }
}
