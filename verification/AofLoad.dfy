/**
 Loading the append-only file. Commands are read one after the other and run; those between a
 MULTI and its EXEC are queued and run together. When the file ends too early the loader may cut
 it back to the last command it could use and go on.
 */
module AofLoad {
  import opened Resp

  /** What a command is to the loader. Anything that is neither unknown, MULTI nor EXEC just runs. */
  datatype Kind = Unknown | Multi | Exec | Other

  /** The commands run so far, and the queue of the transaction that is open, if one is. */
  datatype Machine = Machine(ran: seq<Command>, open: bool, queue: seq<Command>)

  const Start := Machine([], false, [])

  /** A MULTI inside a transaction is queued too, and does nothing when the queue runs. */
  function Effects(kind: Command -> Kind, queue: seq<Command>): seq<Command> {
    if queue == [] then []
    else Effects(kind, queue[..|queue| - 1]) + if kind(queue[|queue| - 1]).Other? then [queue[|queue| - 1]] else []
  }

  function Ran(kind: Command -> Kind, m: Machine, cmd: Command): Machine {
    if m.open && !kind(cmd).Exec? then m.(queue := m.queue + [cmd])
    else match kind(cmd)
      case Multi => m.(open := true, queue := [])
      case Exec => Machine(m.ran + (if m.open then Effects(kind, m.queue) else []), false, [])
      case _ => m.(ran := m.ran + [cmd])
  }

  function RanAll(kind: Command -> Kind, m: Machine, cmds: seq<Command>): Machine
    decreases |cmds|
  {
    if cmds == [] then m else RanAll(kind, Ran(kind, m, cmds[0]), cmds[1..])
  }

  datatype Failure = EmptyFile | UnexpectedEnd | UnreadableFile | FormatError | UnknownCommand | OutOfMemory

  /** Loaded: the commands that ran and the length the file was cut to. */
  datatype Outcome = Loaded(ran: seq<Command>, size: nat) | Failed(why: Failure)

  /** The file is cut to the offset of the last usable command, if that is allowed and succeeds. */
  function CutShort(m: Machine, valid: nat, truncates: bool): Outcome {
    if truncates then Loaded(m.ran, valid) else Failed(UnexpectedEnd)
  }

  /** What becomes of the file from offset pos on. */
  function LoadFrom(file: string, kind: Command -> Kind, truncates: bool,
                    pos: nat, m: Machine, valid: nat, beforeMulti: nat): Outcome
    requires pos <= |file|
    decreases |file| - pos
  {
    match ParseCommand(file[pos..])
    case CleanEof => if m.open then CutShort(m, beforeMulti, truncates) else Loaded(m.ran, |file|)
    case ShortRead => CutShort(m, valid, truncates)
    case ReadError => Failed(UnreadableFile)
    case BadFormat => Failed(FormatError)
    case Crash => Failed(OutOfMemory)
    case Parsed(cmd, rest) =>
      if kind(cmd).Unknown? then Failed(UnknownCommand)
      else
        var next := |file| - |rest|;
        LoadFrom(file, kind, truncates, next, Ran(kind, m, cmd),
                 if truncates then next else valid, if kind(cmd).Multi? then valid else beforeMulti)
  }

  function Load(file: string, kind: Command -> Kind, truncates: bool): Outcome {
    if file == "" then Failed(EmptyFile) else LoadFrom(file, kind, truncates, 0, Start, 0, 0)
  }

  /** Reads the arguments of one command, moving through the file. */
  method ReadArgs(file: string, start: nat, argc: nat) returns (r: Arguments)
    requires start <= |file|
    ensures r == ParseArgs(file[start..], argc, [])
  {
    hide Line, ReadNumber;
    var pos, args := start, [];
    for j := 0 to argc
      invariant start <= pos <= |file|
      invariant ParseArgs(file[start..], argc, []) == ParseArgs(file[pos..], argc - j, args)
    {
      ghost var s := file[pos..];
      if pos == |file| { return ArgsShort; }
      var line := Line(file[pos..]);
      if file[pos] != '$' { return ArgsBad; }
      var len := ReadNumber(line[1..]);
      ghost var t := s[|line|..];
      pos := pos + |line|;
      assert t == file[pos..];
      if len < 0 { return ArgsCrash; }
      if len > 0 && pos + len > |file| { return ArgsShort; }
      args := args + [file[pos..pos + len]];
      assert t[..len] == file[pos..pos + len];
      pos := pos + len;
      if pos + 2 > |file| { return ArgsShort; }
      pos := pos + 2;
      assert t[len + 2..] == file[pos..];
    }
    r := Args(args, file[pos..]);
  }

  /** Reads one command at an offset. */
  method ReadCommand(file: string, pos: nat) returns (r: Parsed)
    requires pos <= |file|
    ensures r == ParseCommand(file[pos..])
  {
    hide Line, LineHitsEof, ReadNumber, ParseArgs;
    if pos == |file| { return CleanEof; }
    var line := Line(file[pos..]);
    if file[pos] != '*' { return BadFormat; }
    if |line| == 1 || line[1] == '\0' {
      if LineHitsEof(file[pos..]) { return ShortRead; }
      return ReadError;
    }
    var argc := ReadNumber(line[1..]);
    if argc < 1 { return BadFormat; }
    assert file[pos..][|line|..] == file[pos + |line|..];
    var args := ReadArgs(file, pos + |line|, argc);
    match args
    case Args(cmd, rest) => r := Parsed(cmd, rest);
    case ArgsShort => r := ShortRead;
    case ArgsBad => r := BadFormat;
    case ArgsCrash => r := Crash;
  }

  /** The loader as the source runs it, command by command. */
  method LoadAppendOnlyFile(file: string, kind: Command -> Kind, truncates: bool) returns (r: Outcome)
    ensures r == Load(file, kind, truncates)
  {
    hide ParseCommand, Ran;
    if file == "" { return Failed(EmptyFile); }
    var pos: nat, valid: nat, beforeMulti: nat, m := 0, 0, 0, Start;
    while true
      invariant pos <= |file|
      invariant LoadFrom(file, kind, truncates, pos, m, valid, beforeMulti) == LoadFrom(file, kind, truncates, 0, Start, 0, 0)
      decreases |file| - pos
    {
      var p := ReadCommand(file, pos);
      match p {
        case CleanEof =>
          if !m.open { return Loaded(m.ran, |file|); }
          valid := beforeMulti;
          if truncates { return Loaded(m.ran, valid); }
          return Failed(UnexpectedEnd);
        case ShortRead =>
          if truncates { return Loaded(m.ran, valid); }
          return Failed(UnexpectedEnd);
        case ReadError => return Failed(UnreadableFile);
        case BadFormat => return Failed(FormatError);
        case Crash => return Failed(OutOfMemory);
        case Parsed(cmd, rest) =>
          if kind(cmd).Unknown? { return Failed(UnknownCommand); }
          if kind(cmd).Multi? { beforeMulti := valid; }
          m := Ran(kind, m, cmd);
          pos := |file| - |rest|;
          if truncates { valid := pos; }
      }
    }
  }

  // Loading a file cut anywhere

  predicate Loadable(kind: Command -> Kind, cmds: seq<Command>) {
    forall c :: c in cmds ==> Encodable(c) && !kind(c).Unknown?
  }

  /** How many whole commands the first n bytes hold. */
  function Complete(cmds: seq<Command>, n: nat): (k: nat)
    ensures k <= |cmds|
  {
    if cmds == [] || n < |Encode(cmds[0])| then 0 else 1 + Complete(cmds[1..], n - |Encode(cmds[0])|)
  }

  lemma {:induction false} CompleteIsGreatest(cmds: seq<Command>, n: nat, k: nat)
    requires k <= |cmds|
    ensures k <= Complete(cmds, n) <==> |EncodeAll(cmds[..k])| <= n
  {
    if k > 0 {
      assert cmds[..k][1..] == cmds[1..][..k - 1];
      if n >= |Encode(cmds[0])| {
        CompleteIsGreatest(cmds[1..], n - |Encode(cmds[0])|, k - 1);
      }
    }
  }

  /** The offset of the last MULTI among the commands, which start at offset size. */
  function LastMulti(kind: Command -> Kind, cmds: seq<Command>, size: nat, otherwise: nat): nat
    decreases |cmds|
  {
    if cmds == [] then otherwise
    else LastMulti(kind, cmds[1..], size + |Encode(cmds[0])|, if kind(cmds[0]).Multi? then size else otherwise)
  }

  /** What the loader should make of n bytes of the commands' encoding. */
  function Expected(kind: Command -> Kind, cmds: seq<Command>, n: nat, m: Machine, size: nat, beforeMulti: nat): Outcome {
    var whole := cmds[..Complete(cmds, n)];
    var m' := RanAll(kind, m, whole);
    Loaded(m'.ran, if n == |EncodeAll(whole)| && m'.open then LastMulti(kind, whole, size, beforeMulti)
                   else size + |EncodeAll(whole)|)
  }

  lemma ExpectedStep(kind: Command -> Kind, cmds: seq<Command>, n: nat, m: Machine, size: nat, beforeMulti: nat)
    requires cmds != [] && n >= |Encode(cmds[0])|
    ensures Expected(kind, cmds, n, m, size, beforeMulti) ==
            Expected(kind, cmds[1..], n - |Encode(cmds[0])|, Ran(kind, m, cmds[0]), size + |Encode(cmds[0])|,
                     if kind(cmds[0]).Multi? then size else beforeMulti)
  {
    hide Encode, Ran;
    var k := Complete(cmds, n);
    assert cmds[..k][1..] == cmds[1..][..k - 1] && cmds[..k][0] == cmds[0];
  }

  lemma {:induction false} LoadsRest(file: string, kind: Command -> Kind, done: string, cmds: seq<Command>, n: nat, m: Machine, beforeMulti: nat)
    requires Loadable(kind, cmds) && n <= |EncodeAll(cmds)| && file == done + EncodeAll(cmds)[..n]
    ensures LoadFrom(file, kind, true, |done|, m, |done|, beforeMulti) == Expected(kind, cmds, n, m, |done|, beforeMulti)
    decreases |cmds|
  {
    hide ParseCommand, Encode, Ran;
    assert file[|done|..] == EncodeAll(cmds)[..n];
    if n == 0 {
      assert file[|done|..] == "";
      EndOfFile();
      StopsHere(kind, cmds, 0, m, |done|, beforeMulti);
    } else if n < |Encode(cmds[0])| {
      assert EncodeAll(cmds)[..n] == Encode(cmds[0])[..n];
      PartialCommand(cmds[0], n);
      StopsHere(kind, cmds, n, m, |done|, beforeMulti);
    } else {
      var first := Encode(cmds[0]);
      var rest := EncodeAll(cmds[1..])[..n - |first|];
      assert EncodeAll(cmds)[..n] == first + rest;
      CommandRoundTrip(cmds[0], rest);
      assert file == done + first + rest;
      LoadsRest(file, kind, done + first, cmds[1..], n - |first|, Ran(kind, m, cmds[0]),
                if kind(cmds[0]).Multi? then |done| else beforeMulti);
      ExpectedStep(kind, cmds, n, m, |done|, beforeMulti);
    }
  }

  lemma EndOfFile()
    ensures ParseCommand("") == CleanEof
  {}

  lemma StopsHere(kind: Command -> Kind, cmds: seq<Command>, n: nat, m: Machine, size: nat, beforeMulti: nat)
    requires Complete(cmds, n) == 0 || n == 0
    ensures Expected(kind, cmds, n, m, size, beforeMulti) == Loaded(m.ran, if n == 0 && m.open then beforeMulti else size)
  {}

  /**
   For every sequence of commands and every cut of its encoding, the loader runs exactly the
   commands that are whole, and cuts the file to their length; only when the cut falls exactly
   between two commands of an open transaction does it go back to before the last MULTI.
   */
  lemma TruncationSafe(kind: Command -> Kind, cmds: seq<Command>, n: nat)
    requires Loadable(kind, cmds) && 0 < n <= |EncodeAll(cmds)|
    ensures Load(EncodeAll(cmds)[..n], kind, true) == Expected(kind, cmds, n, Start, 0, 0)
  {
    var file := EncodeAll(cmds)[..n];
    assert file == "" + EncodeAll(cmds)[..n];
    LoadsRest(file, kind, "", cmds, n, Start, 0);
  }

  // Transactions

  lemma {:induction false} RanAllConcat(kind: Command -> Kind, m: Machine, cs: seq<Command>, ds: seq<Command>)
    ensures RanAll(kind, m, cs + ds) == RanAll(kind, RanAll(kind, m, cs), ds)
    decreases |cs|
  {
    if cs == [] {
      assert cs + ds == ds;
    } else {
      assert (cs + ds)[1..] == cs[1..] + ds;
      RanAllConcat(kind, Ran(kind, m, cs[0]), cs[1..], ds);
    }
  }

  lemma RanAllSnoc(kind: Command -> Kind, m: Machine, cs: seq<Command>, k: nat)
    requires k < |cs|
    ensures RanAll(kind, m, cs[..k + 1]) == Ran(kind, RanAll(kind, m, cs[..k]), cs[k])
  {
    assert cs[..k + 1] == cs[..k] + [cs[k]];
    RanAllConcat(kind, m, cs[..k], [cs[k]]);
    assert RanAll(kind, RanAll(kind, m, cs[..k]), [cs[k]]) == Ran(kind, RanAll(kind, m, cs[..k]), cs[k]) by {
      assert [cs[k]][1..] == [];
    }
  }

  lemma {:induction false} LastMultiConcat(kind: Command -> Kind, cs: seq<Command>, ds: seq<Command>, size: nat, o: nat)
    ensures LastMulti(kind, cs + ds, size, o) == LastMulti(kind, ds, size + |EncodeAll(cs)|, LastMulti(kind, cs, size, o))
    decreases |cs|
  {
    if cs == [] {
      assert cs + ds == ds;
    } else {
      assert (cs + ds)[1..] == cs[1..] + ds;
      LastMultiConcat(kind, cs[1..], ds, size + |Encode(cs[0])|, if kind(cs[0]).Multi? then size else o);
    }
  }

  /** Without transactions every command runs. */
  lemma {:induction false} AllRun(kind: Command -> Kind, cmds: seq<Command>, m: Machine)
    requires !m.open && forall c :: c in cmds ==> kind(c).Other?
    ensures RanAll(kind, m, cmds).ran == m.ran + cmds
    decreases |cmds|
  {
    if cmds != [] { AllRun(kind, cmds[1..], Ran(kind, m, cmds[0])); }
  }

  lemma EffectsSnoc(kind: Command -> Kind, cmds: seq<Command>, cmd: Command)
    ensures Effects(kind, cmds + [cmd]) == Effects(kind, cmds) + if kind(cmd).Other? then [cmd] else []
  {
    assert (cmds + [cmd])[..|cmds|] == cmds;
  }

  /** What has run, and what a transaction still open has queued, are all commands but MULTI and EXEC, in order. */
  lemma {:induction false} RanIsEffects(kind: Command -> Kind, cmds: seq<Command>)
    requires forall c :: c in cmds ==> !kind(c).Unknown?
    ensures var m := RanAll(kind, Start, cmds); m.ran + (if m.open then Effects(kind, m.queue) else []) == Effects(kind, cmds)
  {
    hide RanAll, Effects;
    if cmds == [] {
      NothingRan(kind);
    } else {
      var k := |cmds| - 1;
      var m := RanAll(kind, Start, cmds[..k]);
      RanIsEffects(kind, cmds[..k]);
      RanAllSnoc(kind, Start, cmds, k);
      assert cmds[..k + 1] == cmds && cmds[..k] + [cmds[k]] == cmds && cmds[k] in cmds;
      EffectsSnoc(kind, cmds[..k], cmds[k]);
      EffectsSnoc(kind, m.queue, cmds[k]);
      NothingRan(kind);
    }
  }

  lemma NothingRan(kind: Command -> Kind)
    ensures RanAll(kind, Start, []) == Start && Effects(kind, []) == []
  {}

  /** No transaction is opened inside another. */
  predicate Unnested(kind: Command -> Kind, cmds: seq<Command>) {
    forall j :: 0 <= j < |cmds| && kind(cmds[j]).Multi? ==> !RanAll(kind, Start, cmds[..j]).open
  }

  /** Nothing has run since the MULTI at position i, which is the last one. */
  ghost predicate OpenSince(kind: Command -> Kind, cmds: seq<Command>, i: nat) {
    && i < |cmds| && kind(cmds[i]).Multi?
    && RanAll(kind, Start, cmds[..i]) == Machine(RanAll(kind, Start, cmds).ran, false, [])
    && LastMulti(kind, cmds, 0, 0) == |EncodeAll(cmds[..i])|
  }

  lemma {:induction false} ClosedHasNoQueue(kind: Command -> Kind, cmds: seq<Command>)
    ensures !RanAll(kind, Start, cmds).open ==> RanAll(kind, Start, cmds).queue == []
  {
    if cmds != [] {
      var k := |cmds| - 1;
      assert cmds[..k + 1] == cmds;
      RanAllSnoc(kind, Start, cmds, k);
      ClosedHasNoQueue(kind, cmds[..k]);
    }
  }

  lemma LastMultiSnoc(kind: Command -> Kind, cmds: seq<Command>, k: nat)
    requires k < |cmds|
    ensures LastMulti(kind, cmds[..k + 1], 0, 0) ==
            if kind(cmds[k]).Multi? then |EncodeAll(cmds[..k])| else LastMulti(kind, cmds[..k], 0, 0)
  {
    assert cmds[..k + 1] == cmds[..k] + [cmds[k]];
    LastMultiConcat(kind, cmds[..k], [cmds[k]], 0, 0);
    assert [cmds[k]][1..] == [];
  }

  /**
   A transaction without its EXEC has no effect: what ran is what had run before its MULTI, and
   that MULTI is where the file is cut to if it ends there.
   */
  lemma {:induction false} OpenTransactionHasNoEffect(kind: Command -> Kind, cmds: seq<Command>) returns (i: nat)
    requires Unnested(kind, cmds) && RanAll(kind, Start, cmds).open
    ensures OpenSince(kind, cmds, i)
  {
    hide Ran;
    var k := |cmds| - 1;
    assert cmds[..k + 1] == cmds;
    RanAllSnoc(kind, Start, cmds, k);
    LastMultiSnoc(kind, cmds, k);
    var m := RanAll(kind, Start, cmds[..k]);
    OneStep(kind, m, cmds[k]);
    if m.open {
      forall j | 0 <= j < k && kind(cmds[..k][j]).Multi? ensures !RanAll(kind, Start, cmds[..k][..j]).open {
        assert cmds[..k][..j] == cmds[..j] && kind(cmds[j]).Multi?;
      }
      i := OpenTransactionHasNoEffect(kind, cmds[..k]);
      assert cmds[..k][..i] == cmds[..i];
    } else {
      i := k;
      ClosedHasNoQueue(kind, cmds[..k]);
    }
  }

  lemma OneStep(kind: Command -> Kind, m: Machine, cmd: Command)
    ensures Ran(kind, m, cmd).open ==> Ran(kind, m, cmd).ran == m.ran && (m.open || kind(cmd).Multi?)
  {}

  /** The commands left in the file after loading n bytes of it. */
  function Kept(kind: Command -> Kind, cmds: seq<Command>, n: nat): string
    requires Loadable(kind, cmds) && 0 < n <= |EncodeAll(cmds)|
  {
    var out := Load(EncodeAll(cmds)[..n], kind, true);
    if out.Loaded? && out.size <= n then EncodeAll(cmds)[..n][..out.size] else ""
  }

  lemma EncodingPrefix(cmds: seq<Command>, k: nat)
    requires k <= |cmds|
    ensures |EncodeAll(cmds[..k])| <= |EncodeAll(cmds)| && EncodeAll(cmds)[..|EncodeAll(cmds[..k])|] == EncodeAll(cmds[..k])
  {
    EncodeAllConcat(cmds[..k], cmds[k..]);
    assert cmds[..k] + cmds[k..] == cmds;
  }

  /**
   What is left in the file is a sequence of whole commands whose effect is what was run. It ends
   inside a transaction exactly when the cut fell inside a command of an open transaction.
   */
  lemma KeptCommands(kind: Command -> Kind, cmds: seq<Command>, n: nat) returns (q: nat)
    requires Loadable(kind, cmds) && 0 < n <= |EncodeAll(cmds)| && Unnested(kind, cmds)
    ensures q <= |cmds| && Kept(kind, cmds, n) == EncodeAll(cmds[..q])
    ensures Load(EncodeAll(cmds)[..n], kind, true) == Loaded(RanAll(kind, Start, cmds[..q]).ran, |EncodeAll(cmds[..q])|)
    ensures var whole := cmds[..Complete(cmds, n)];
            RanAll(kind, Start, cmds[..q]).open <==> RanAll(kind, Start, whole).open && n != |EncodeAll(whole)|
  {
    hide Load, RanAll, EncodeAll, LastMulti, Complete;
    var k := Complete(cmds, n);
    TruncationSafe(kind, cmds, n);
    CompleteIsGreatest(cmds, n, k);
    q := k;
    if n == |EncodeAll(cmds[..k])| && RanAll(kind, Start, cmds[..k]).open {
      UnnestedPrefix(kind, cmds, k);
      q := OpenTransactionHasNoEffect(kind, cmds[..k]);
      assert cmds[..k][..q] == cmds[..q];
    }
    EncodingPrefix(cmds, q);
    EncodingPrefix(cmds[..k], q);
    assert cmds[..k][..q] == cmds[..q];
  }

  lemma UnnestedPrefix(kind: Command -> Kind, cmds: seq<Command>, k: nat)
    requires Unnested(kind, cmds) && k <= |cmds|
    ensures Unnested(kind, cmds[..k])
  {
    forall j | 0 <= j < k && kind(cmds[..k][j]).Multi? ensures !RanAll(kind, Start, cmds[..k][..j]).open {
      assert cmds[..k][..j] == cmds[..j] && kind(cmds[j]).Multi?;
    }
  }

  lemma WholeFileLoads(kind: Command -> Kind, cmds: seq<Command>)
    requires Loadable(kind, cmds) && cmds != []
    ensures Load(EncodeAll(cmds), kind, true).Loaded?
    ensures Load(EncodeAll(cmds), kind, true).ran == RanAll(kind, Start, cmds).ran
  {
    hide Load, RanAll, LastMulti;
    var n := |EncodeAll(cmds)|;
    assert n > 0 by { assert |Encode(cmds[0])| > 0; }
    assert EncodeAll(cmds)[..n] == EncodeAll(cmds) && cmds[..|cmds|] == cmds;
    TruncationSafe(kind, cmds, n);
    CompleteIsGreatest(cmds, n, |cmds|);
    assert Complete(cmds, n) == |cmds|;
  }

  /**
   A command appended after a truncated load is run by the next load if and only if the cut did
   not fall inside a command of an open transaction: in that case the loader leaves the MULTI in
   the file, and whatever is appended joins a transaction that never ends.
   */
  lemma AppendedCommandSurvives(kind: Command -> Kind, cmds: seq<Command>, n: nat, c: Command)
    requires Loadable(kind, cmds) && 0 < n <= |EncodeAll(cmds)| && Unnested(kind, cmds)
    requires Encodable(c) && kind(c).Other?
    ensures var first := Load(EncodeAll(cmds)[..n], kind, true);
            var next := Load(Kept(kind, cmds, n) + Encode(c), kind, true);
            var whole := cmds[..Complete(cmds, n)];
            && first.Loaded? && next.Loaded?
            && (next.ran == first.ran + [c] <==> !RanAll(kind, Start, whole).open || n == |EncodeAll(whole)|)
            && (next.ran != first.ran + [c] ==> next.ran == first.ran)
  {
    hide Load, LastMulti, Complete, Kept;
    var q := KeptCommands(kind, cmds, n);
    var all := cmds[..q] + [c];
    EncodeAllConcat(cmds[..q], [c]);
    assert EncodeAll([c]) == Encode(c) by { assert [c][1..] == []; assert Encode(c) + "" == Encode(c); }
    WholeFileLoads(kind, all);
    RanAllConcat(kind, Start, cmds[..q], [c]);
    AppendOne(kind, RanAll(kind, Start, cmds[..q]), c);
  }

  lemma AppendOne(kind: Command -> Kind, m: Machine, c: Command)
    requires kind(c).Other?
    ensures RanAll(kind, m, [c]).ran == if m.open then m.ran else m.ran + [c]
  {}

  function SomeKinds(c: Command): Kind {
    if c == ["MULTI"] then Multi else if c == ["EXEC"] then Exec else Other
  }

  const Transaction: seq<Command> := [["MULTI"], ["SET", "k", "v"]]

  lemma TransactionFacts()
    ensures Loadable(SomeKinds, Transaction) && Unnested(SomeKinds, Transaction)
    ensures EncodeAll(Transaction) == Encode(Transaction[0]) + Encode(Transaction[1])
    ensures EncodeAll(Transaction[..1]) == Encode(Transaction[0])
    ensures RanAll(SomeKinds, Start, Transaction[..1]) == Machine([], true, [])
  {
    hide Encode;
    var multi, sets := Transaction[0], Transaction[1];
    assert Transaction[1..] == [sets] && [sets][1..] == [] && Transaction[..1] == [multi] && [multi][1..] == [];
    assert EncodeAll([sets]) == Encode(sets) + "";
    assert EncodeAll([multi]) == Encode(multi) + "";
    assert Transaction[..0] == [];
  }

  /** For instance: a transaction cut inside the command after its MULTI leaves the MULTI, which swallows what comes later. */
  lemma CutTransactionSwallows(n: nat)
    requires |Encode(Transaction[0])| < n < |EncodeAll(Transaction)| && Loadable(SomeKinds, Transaction)
    ensures var next := Load(Kept(SomeKinds, Transaction, n) + Encode(["DEL", "x"]), SomeKinds, true);
            next.Loaded? && next.ran == []
  {
    hide Load, Kept, LastMulti, Encode, RanAll, EncodeAll;
    TransactionFacts();
    CompleteIsGreatest(Transaction, n, 1);
    CompleteIsGreatest(Transaction, n, 2);
    assert Transaction[..2] == Transaction;
    assert Complete(Transaction, n) == 1;
    TruncationSafe(SomeKinds, Transaction, n);
    AppendedCommandSurvives(SomeKinds, Transaction, n, ["DEL", "x"]);
  }
}
