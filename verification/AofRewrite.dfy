/**
 The background rewrite of the append-only file. A child process writes a snapshot of the dataset
 taken when it was forked; meanwhile the parent keeps the commands it executes in a list of
 blocks, sends pieces of them to the child over a pipe, and writes the rest itself when the
 child is done. The theorems say that every byte arrives exactly once, in every interleaving.
 */
module AofRewrite {
  import opened Common
  import opened Resp
  import AofLoad

  // The block list

  /** A block: the bytes in use, and how many are free. */
  datatype Block = Block(buf: string, free: nat)

  function Content(blocks: seq<Block>): string {
    if blocks == [] then "" else blocks[0].buf + Content(blocks[1..])
  }

  lemma {:induction false} ContentConcat(a: seq<Block>, b: seq<Block>)
    ensures Content(a + b) == Content(a) + Content(b)
  {
    if a == [] {
      assert a + b == b;
    } else {
      assert (a + b)[1..] == a[1..] + b;
      ContentConcat(a[1..], b);
    }
  }

  lemma ContentLast(blocks: seq<Block>, block: Block)
    ensures Content(blocks + [block]) == Content(blocks) + block.buf
  {
    ContentConcat(blocks, [block]);
    assert [block][1..] == [] && block.buf + "" == block.buf;
  }

  /** The blocks when n bytes of the first are gone. */
  function Taken(blocks: seq<Block>, n: nat): seq<Block>
    requires blocks != [] && n <= |blocks[0].buf|
  {
    if n == |blocks[0].buf| then blocks[1..] else [Block(blocks[0].buf[n..], blocks[0].free + n)] + blocks[1..]
  }

  lemma TakenContent(blocks: seq<Block>, n: nat)
    requires blocks != [] && n <= |blocks[0].buf|
    ensures blocks[0].buf[..n] + Content(Taken(blocks, n)) == Content(blocks)
  {
    var first := blocks[0];
    if n == |first.buf| {
      assert first.buf[..n] == first.buf;
    } else {
      assert Taken(blocks, n)[1..] == blocks[1..];
      assert first.buf[..n] + (first.buf[n..] + Content(blocks[1..])) == first.buf + Content(blocks[1..]);
    }
  }

  /** The parent's buffer of differences. The source's capacity is 10 MB. */
  class RewriteBuffer {
    const capacity: nat
    var blocks: seq<Block>

    constructor (capacity: nat)
      requires capacity > 0
      ensures this.capacity == capacity && Valid() && blocks == []
    {
      this.capacity := capacity;
      blocks := [];
    }

    ghost predicate Valid()
      reads this
    {
      capacity > 0 && forall i :: 0 <= i < |blocks| ==> blocks[i].buf != "" && |blocks[i].buf| + blocks[i].free == capacity
    }

    /** Fills the last block, then new ones. */
    method Append(s: string)
      requires Valid()
      modifies this
      ensures Valid() && Content(blocks) == old(Content(blocks)) + s
    {
      hide Content;
      var rest := s;
      ghost var done := "";
      if rest != "" && blocks != [] {
        var k := |blocks| - 1;
        var block := blocks[k];
        var n := if block.free < |rest| then block.free else |rest|;
        ContentLast(blocks[..k], block);
        assert blocks[..k] + [block] == blocks;
        blocks := blocks[..k] + [Block(block.buf + rest[..n], block.free - n)];
        ContentLast(blocks[..k], blocks[k]);
        assert blocks[..k] == old(blocks)[..k];
        done := rest[..n];
        rest := rest[n..];
      }
      while rest != ""
        invariant Valid() && done + rest == s && Content(blocks) == old(Content(blocks)) + done
        decreases |rest|
      {
        var n := if capacity < |rest| then capacity else |rest|;
        ContentLast(blocks, Block(rest[..n], capacity - n));
        blocks := blocks + [Block(rest[..n], capacity - n)];
        done := done + rest[..n];
        rest := rest[n..];
      }
    }

    /**
     The parent can write to the pipe: whole blocks leave the list, a short write keeps the rest
     of its block. Each element of writes is what one call of write returns.
     */
    method ChildWriteDiffData(stop: bool, writes: seq<int>) returns (sent: string)
      requires Valid()
      modifies this`blocks
      ensures Valid() && old(Content(blocks)) == sent + Content(blocks)
      ensures stop ==> sent == ""
      ensures !stop && old(blocks) != [] && writes != [] && writes[0] > 0 ==> sent != ""
      ensures !stop && |old(blocks)| <= |writes| && (forall i :: 0 <= i < |writes| ==> writes[i] >= capacity) ==> blocks == []
    {
      hide Content;
      ghost var whole := forall j :: 0 <= j < |writes| ==> writes[j] >= capacity;
      sent := "";
      var i := 0;
      while !stop && blocks != [] && i < |writes|
        invariant Valid() && old(Content(blocks)) == sent + Content(blocks) && 0 <= i <= |writes|
        invariant stop ==> sent == ""
        invariant i > 0 ==> sent != ""
        invariant i == 0 ==> blocks == old(blocks)
        invariant whole ==> i <= |old(blocks)| && blocks == old(blocks)[i..]
        decreases |writes| - i
      {
        var block := blocks[0];
        var n := if writes[i] > |block.buf| then |block.buf| else writes[i];
        if n <= 0 { return; }
        i := i + 1;
        sent := sent + block.buf[..n];
        TakenContent(blocks, n);
        if n == |block.buf| {
          blocks := blocks[1..];
        } else {
          blocks := [Block(block.buf[n..], block.free + n)] + blocks[1..];
        }
      }
    }

    /** Writes the whole list to a file; a short write is an error. */
    method Write(writes: seq<int>) returns (ok: bool, written: string)
      requires Valid()
      ensures if ok then written == Content(blocks) else written <= Content(blocks)
      ensures ok <==> forall i :: 0 <= i < |blocks| && i < |writes| ==> writes[i] == |blocks[i].buf|
    {
      written := "";
      for i := 0 to |blocks|
        invariant written + Content(blocks[i..]) == Content(blocks)
        invariant forall j :: 0 <= j < i && j < |writes| ==> writes[j] == |blocks[j].buf|
      {
        var block := blocks[i];
        var n := if i < |writes| then writes[i] else |block.buf|;
        assert blocks[i..][1..] == blocks[i + 1..];
        if n != |block.buf| {
          if 0 < n < |block.buf| { written := written + block.buf[..n]; }
          return false, written;
        }
        written := written + block.buf;
      }
      ok := true;
    }
  }

  // Feeding and replaying commands

  function Select(db: nat): Command {
    ["SELECT", Decimal(db)]
  }

  predicate IsSelect(c: Command) {
    |c| == 2 && c[0] == "SELECT"
  }

  /** The database selected last; nothing forces a SELECT before the next command. */
  datatype Selected = NoDb | Db(n: nat)

  /** The commands that set an expiry, which are not logged as they are; a SET may have one as an option. */
  datatype Proc = Expire | PExpire | ExpireAt | SetEx | PSetEx | SetCommand | Plain

  predicate IsOption(arg: string, first: char) {
    |arg| == 2 && (arg[0] == first || arg[0] as int == first as int - 32) && (arg[1] == 'x' || arg[1] == 'X')
  }

  /** The argument of the last option before position i that begins with a letter: e for seconds, p for milliseconds. */
  function OptionBefore(c: Command, first: char, i: nat): Option<string>
    requires 3 <= i <= |c|
  {
    if i == 3 then None
    else if IsOption(c[i - 1], first) && i < |c| then Some(c[i])
    else OptionBefore(c, first, i - 1)
  }

  /** The time that a command means, in milliseconds, when it is fed. */
  function When(proc: Proc, arg: string, now: nat): int {
    var n := if proc.Expire? || proc.SetEx? || proc.ExpireAt? then 1000 * ReadNumber(arg) else ReadNumber(arg);
    if proc.ExpireAt? then n else n + now
  }

  function PExpireAt(key: string, when: int): Command {
    ["PEXPIREAT", key, if when < 0 then "-" + Decimal(-when) else Decimal(when)]
  }

  /** A command has the arguments it needs; a SET has at most one kind of expiry, with its argument. */
  predicate WellFormed(proc: Proc, c: Command) {
    match proc
    case Plain => c != []
    case SetCommand => |c| >= 3 && !(|c| > 3 && OptionBefore(c, 'e', |c|).Some? && OptionBefore(c, 'p', |c|).Some?)
    case SetEx => |c| == 4
    case PSetEx => |c| == 4
    case _ => |c| == 3
  }

  /** What is logged instead of a command that is fed at some time: relative expiries become absolute. */
  function Translated(proc: Proc, c: Command, now: nat): (r: seq<Command>)
    requires WellFormed(proc, c)
    ensures r != []
  {
    match proc
    case Plain => [c]
    case SetCommand =>
      if |c| == 3 then [c]
      else
        [c[..3]]
        + (match OptionBefore(c, 'e', |c|) case Some(arg) => [PExpireAt(c[1], When(Expire, arg, now))] case None => [])
        + (match OptionBefore(c, 'p', |c|) case Some(arg) => [PExpireAt(c[1], When(PExpire, arg, now))] case None => [])
    case SetEx => [["SET", c[1], c[3]], PExpireAt(c[1], When(proc, c[2], now))]
    case PSetEx => [["SET", c[1], c[3]], PExpireAt(c[1], When(proc, c[2], now))]
    case _ => [PExpireAt(c[1], When(proc, c[2], now))]
  }

  /** What is logged for commands on a database. */
  function Logged(selected: Selected, db: nat, cs: seq<Command>): seq<Command> {
    (if selected == Db(db) then [] else [Select(db)]) + cs
  }

  lemma EncodeTwo(a: string, cs: seq<Command>, c: Command)
    requires a == EncodeAll(cs)
    ensures a + Encode(c) == EncodeAll(cs + [c])
  {
    hide Encode;
    EncodeAllConcat(cs, [c]);
    assert [c][1..] == [] && EncodeAll([c]) == Encode(c) + "";
  }

  /** Looks for the expiry options of a SET. */
  method FindOptions(c: Command) returns (ex: Option<string>, px: Option<string>)
    requires |c| > 3
    ensures ex == OptionBefore(c, 'e', |c|) && px == OptionBefore(c, 'p', |c|)
  {
    ex, px := None, None;
    for i := 3 to |c|
      invariant ex == OptionBefore(c, 'e', i) && px == OptionBefore(c, 'p', i)
    {
      if IsOption(c[i], 'e') && i + 1 < |c| { ex := Some(c[i + 1]); }
      if IsOption(c[i], 'p') && i + 1 < |c| { px := Some(c[i + 1]); }
    }
  }

  /** The bytes fed for a command: a SELECT when the database changes, then what is logged for the command. */
  method FeedAppendOnlyFile(selected: Selected, db: nat, proc: Proc, c: Command, now: nat) returns (bytes: string, selected': Selected)
    requires WellFormed(proc, c)
    ensures bytes == EncodeAll(Logged(selected, db, Translated(proc, c, now))) && selected' == Db(db)
    ensures bytes == (if selected == Db(db) then "" else Encode(["SELECT", Decimal(db)])) + EncodeAll(Translated(proc, c, now))
  {
    hide EncodeAll, Encode, Translated, WellFormed;
    bytes := "";
    NothingEncoded();
    ghost var select := if selected == Db(db) then [] else [Select(db)];
    if selected != Db(db) {
      bytes := FeedOne(bytes, [], Select(db));
      assert [] + [Select(db)] == select;
    }
    selected' := Db(db);
    bytes := FeedTranslated(bytes, select, proc, c, now);
    EncodeAllConcat(select, Translated(proc, c, now));
    EncodeTwo("", [], Select(db));
    assert [] + [Select(db)] == [Select(db)] && "" + Encode(Select(db)) == Encode(Select(db));
  }

  method FeedTranslated(bytes: string, ghost done: seq<Command>, proc: Proc, c: Command, now: nat) returns (r: string)
    requires bytes == EncodeAll(done) && WellFormed(proc, c)
    ensures r == EncodeAll(done + Translated(proc, c, now))
  {
    hide EncodeAll, When, OptionBefore;
    match proc
    case Plain => r := FeedOne(bytes, done, c);
    case SetCommand =>
      if |c| == 3 {
        r := FeedOne(bytes, done, c);
      } else {
        r := FeedOne(bytes, done, c[..3]);
        ghost var stored := done + [c[..3]];
        var ex, px := FindOptions(c);
        if ex.Some? {
          r := FeedOne(r, stored, PExpireAt(c[1], When(Expire, ex.value, now)));
          assert stored + [PExpireAt(c[1], When(Expire, ex.value, now))] == done + Translated(proc, c, now);
        } else if px.Some? {
          r := FeedOne(r, stored, PExpireAt(c[1], When(PExpire, px.value, now)));
          assert stored + [PExpireAt(c[1], When(PExpire, px.value, now))] == done + Translated(proc, c, now);
        } else {
          assert stored == done + Translated(proc, c, now);
        }
      }
    case SetEx => r := FeedSet(bytes, done, proc, c, now);
    case PSetEx => r := FeedSet(bytes, done, proc, c, now);
    case _ => r := FeedOne(bytes, done, PExpireAt(c[1], When(proc, c[2], now)));
  }

  lemma NothingEncoded()
    ensures EncodeAll([]) == ""
  {}

  method FeedOne(bytes: string, ghost done: seq<Command>, c: Command) returns (r: string)
    requires bytes == EncodeAll(done)
    ensures r == EncodeAll(done + [c])
  {
    hide EncodeAll, Encode;
    EncodeTwo(bytes, done, c);
    r := CatAppendOnlyGenericCommand(bytes, c);
  }

  /** A SETEX or PSETEX becomes a SET and an expiry. */
  method FeedSet(bytes: string, ghost done: seq<Command>, proc: Proc, c: Command, now: nat) returns (r: string)
    requires bytes == EncodeAll(done) && (proc.SetEx? || proc.PSetEx?) && |c| == 4
    ensures r == EncodeAll(done + Translated(proc, c, now))
  {
    hide EncodeAll;
    r := FeedOne(bytes, done, ["SET", c[1], c[3]]);
    r := FeedOne(r, done + [["SET", c[1], c[3]]], PExpireAt(c[1], When(proc, c[2], now)));
    assert done + [["SET", c[1], c[3]]] + [PExpireAt(c[1], When(proc, c[2], now))] == done + Translated(proc, c, now);
  }

  /** A dataset and the database selected while replaying. */
  datatype Replayed<D> = Replayed(data: D, db: nat)

  /** Replays a log, given what one command does to a dataset. */
  function Replay<D>(apply: (D, nat, Command) -> D, log: seq<Command>, from: Replayed<D>): Replayed<D>
    decreases |log|
  {
    if log == [] then from
    else if IsSelect(log[0]) && ReadNumber(log[0][1]) >= 0 then Replay(apply, log[1..], from.(db := ReadNumber(log[0][1])))
    else Replay(apply, log[1..], from.(data := apply(from.data, from.db, log[0])))
  }

  lemma {:induction false} ReplayConcat<D>(apply: (D, nat, Command) -> D, a: seq<Command>, b: seq<Command>, from: Replayed<D>)
    ensures Replay(apply, a + b, from) == Replay(apply, b, Replay(apply, a, from))
    decreases |a|
  {
    if a == [] {
      assert a + b == b;
    } else {
      assert (a + b)[1..] == a[1..] + b;
      if IsSelect(a[0]) && ReadNumber(a[0][1]) >= 0 {
        ReplayConcat(apply, a[1..], b, from.(db := ReadNumber(a[0][1])));
      } else {
        ReplayConcat(apply, a[1..], b, from.(data := apply(from.data, from.db, a[0])));
      }
    }
  }

  function ApplyAll<D>(apply: (D, nat, Command) -> D, data: D, db: nat, cs: seq<Command>): D
    decreases |cs|
  {
    if cs == [] then data else ApplyAll(apply, apply(data, db, cs[0]), db, cs[1..])
  }

  predicate NoSelect(cs: seq<Command>) {
    forall c :: c in cs ==> !IsSelect(c)
  }

  lemma {:induction false} ReplayPlain<D>(apply: (D, nat, Command) -> D, cs: seq<Command>, from: Replayed<D>)
    requires NoSelect(cs)
    ensures Replay(apply, cs, from) == Replayed(ApplyAll(apply, from.data, from.db, cs), from.db)
    decreases |cs|
  {
    if cs != [] {
      assert cs[0] in cs;
      ReplayPlain(apply, cs[1..], from.(data := apply(from.data, from.db, cs[0])));
    }
  }

  /** Replaying what was logged for commands applies them to their database. */
  lemma ReplayLogged<D>(apply: (D, nat, Command) -> D, selected: Selected, db: nat, cs: seq<Command>, from: Replayed<D>)
    requires NoSelect(cs) && (selected.Db? ==> selected.n == from.db)
    ensures Replay(apply, Logged(selected, db, cs), from) == Replayed(ApplyAll(apply, from.data, db, cs), db)
  {
    hide Decimal, ReadNumber, NoSelect, ApplyAll;
    NumberRoundTrip(db, "");
    assert Decimal(db) + "" == Decimal(db);
    ReplayPlain(apply, cs, from.(db := db));
    if selected != Db(db) {
      assert Logged(selected, db, cs)[1..] == cs;
    } else {
      assert Logged(selected, db, cs) == cs;
    }
  }

  // The two processes

  datatype AofState = Off | On | WaitRewrite

  /**
   The child: writing its snapshot, having asked the parent to stop, having been answered, having
   finished with a file, or having failed.
   */
  datatype Child = NoChild | Writing | Asked | Answered | Finished(tmp: string) | Failed

  /**
   The server while rewriting. pending is the content of the parent's blocks and pipe what the
   child has not read yet. The last three fields record the run: the log that the file and the
   buffer encode, the snapshot the child was forked with, and the commands fed since.
   */
  datatype Server<D> = Server(
    state: AofState, file: string, buf: string, selected: Selected, data: D,
    child: Child, pending: string, stop: bool, pipe: string, diff: string,
    log: seq<Command>, snapshot: seq<Command>, fed: seq<Command>)

  datatype Step =
    | Execute(db: nat, cs: seq<Command>)
    | Flush(n: nat)
    | Start
    | Stop
    | Fork(snapshot: seq<Command>)
    | Send(n: nat)
    | Read(n: nat)
    | Ask
    | Answer(delivered: bool)
    | Finish
    | Fail
    | Reap(ok: bool)

  function Ended<D>(s: Server<D>): Server<D> {
    s.(child := NoChild, pending := "", pipe := "", diff := "")
  }

  predicate Enabled<D>(s: Server<D>, empty: D, apply: (D, nat, Command) -> D, step: Step) {
    match step
    case Execute(_, cs) => NoSelect(cs)
    case Flush(n) => s.state.On? && n <= |s.buf|
    case Start => s.state.Off?
    case Stop => !s.state.Off?
    case Fork(snapshot) => s.child.NoChild?
    case Send(n) => !s.child.NoChild? && n <= |s.pending| && (s.stop ==> n == 0)
    case Read(n) => (s.child.Writing? || s.child.Asked? || s.child.Answered?) && n <= |s.pipe|
    case Ask => s.child.Writing?
    case Answer(_) => s.child.Asked?
    case Finish => s.child.Answered?
    case Fail => !s.child.NoChild? && !s.child.Finished?
    case Reap(ok) => (s.child.Finished? || s.child.Failed?) && (ok ==> s.child.Finished?)
  }

  /** A command is executed: it changes the data, and what is logged for it is fed to the file and to the rewrite unless the AOF is off. */
  function Executed<D>(s: Server<D>, apply: (D, nat, Command) -> D, db: nat, cmds: seq<Command>): Server<D> {
    var t := s.(data := ApplyAll(apply, s.data, db, cmds));
    if s.state.Off? then t
    else
      var cs := Logged(s.selected, db, cmds);
      t.(selected := Db(db),
         buf := if s.state.On? then s.buf + EncodeAll(cs) else s.buf,
         log := if s.state.On? then s.log + cs else s.log,
         pending := if s.child.NoChild? then s.pending else s.pending + EncodeAll(cs),
         fed := if s.child.NoChild? then s.fed else s.fed + cs)
  }

  /** The child ended. If all went well its file, with the blocks appended, replaces the old one. */
  function Reaped<D>(s: Server<D>, ok: bool): Server<D>
    requires ok ==> s.child.Finished?
  {
    if !ok then Ended(s)
    else
      var t := Ended(s).(file := s.child.tmp + s.pending);
      if s.state.Off? then t
      else t.(state := On, selected := NoDb, buf := "", log := s.snapshot + s.fed)
  }

  function Apply<D>(s: Server<D>, empty: D, apply: (D, nat, Command) -> D, step: Step): Server<D>
    requires Enabled(s, empty, apply, step)
  {
    match step
    case Execute(db, cs) => Executed(s, apply, db, cs)
    case Flush(n) => s.(file := s.file + s.buf[..n], buf := s.buf[n..])
    case Start => Ended(s).(state := WaitRewrite, buf := "")
    case Stop => Ended(s).(state := Off, file := s.file + s.buf, buf := "", selected := NoDb)
    case Fork(snapshot) =>
      s.(child := Writing, pending := "", stop := false, pipe := "", diff := "", selected := NoDb, snapshot := snapshot, fed := [])
    case Send(n) => s.(pipe := s.pipe + s.pending[..n], pending := s.pending[n..])
    case Read(n) => s.(diff := s.diff + s.pipe[..n], pipe := s.pipe[n..])
    case Ask => s.(child := Asked)
    case Answer(delivered) => s.(stop := true, child := if delivered then Answered else Asked)
    case Finish => s.(diff := s.diff + s.pipe, pipe := "", child := Finished(EncodeAll(s.snapshot) + s.diff + s.pipe))
    case Fail => s.(child := Failed)
    case Reap(ok) => Reaped(s, ok)
  }

  /** The child's snapshot replays to the dataset at the time of the fork. */
  predicate Faithful<D(==)>(s: Server<D>, empty: D, apply: (D, nat, Command) -> D, step: Step) {
    step.Fork? ==> Replay(apply, step.snapshot, Replayed(empty, 0)).data == s.data
  }

  // Exactly once

  /** Every byte fed since the fork is in exactly one place: read by the child, in the pipe, or still in the blocks. */
  predicate ExactlyOnce<D>(s: Server<D>) {
    !s.child.NoChild? ==>
      && s.diff + s.pipe + s.pending == EncodeAll(s.fed)
      && (s.child.Answered? ==> s.stop)
      && (s.child.Finished? ==> s.stop && s.pipe == "" && s.child.tmp == EncodeAll(s.snapshot) + s.diff)
  }

  /** Replaying a log gives this dataset, and leaves the database of the last command selected. */
  ghost predicate Rebuilds<D>(log: seq<Command>, empty: D, apply: (D, nat, Command) -> D, data: D, selected: Selected) {
    var r := Replay(apply, log, Replayed(empty, 0));
    r.data == data && (selected.Db? ==> selected.n == r.db)
  }

  /** While the AOF is on, the file and the buffer hold a log of the dataset; while rewriting, so do snapshot and feed. */
  ghost predicate Durable<D>(s: Server<D>, empty: D, apply: (D, nat, Command) -> D) {
    && (s.state.On? ==> s.file + s.buf == EncodeAll(s.log) && Rebuilds(s.log, empty, apply, s.data, s.selected))
    && (!s.state.Off? && !s.child.NoChild? ==> Rebuilds(s.snapshot + s.fed, empty, apply, s.data, s.selected))
  }

  ghost predicate Inv<D>(s: Server<D>, empty: D, apply: (D, nat, Command) -> D) {
    ExactlyOnce(s) && Durable(s, empty, apply)
  }

  lemma FeedRebuilds<D>(log: seq<Command>, empty: D, apply: (D, nat, Command) -> D, data: D, selected: Selected, db: nat, cs: seq<Command>)
    requires Rebuilds(log, empty, apply, data, selected) && NoSelect(cs)
    ensures Rebuilds(log + Logged(selected, db, cs), empty, apply, ApplyAll(apply, data, db, cs), Db(db))
  {
    var from := Replay(apply, log, Replayed(empty, 0));
    ReplayConcat(apply, log, Logged(selected, db, cs), Replayed(empty, 0));
    ReplayLogged(apply, selected, db, cs, from);
  }

  lemma ExecuteKeepsOnce<D>(s: Server<D>, apply: (D, nat, Command) -> D, db: nat, cmds: seq<Command>)
    requires ExactlyOnce(s)
    ensures ExactlyOnce(Executed(s, apply, db, cmds))
  {
    hide EncodeAll, Logged;
    var cs := Logged(s.selected, db, cmds);
    EncodeAllConcat(s.fed, cs);
    assert s.diff + s.pipe + (s.pending + EncodeAll(cs)) == (s.diff + s.pipe + s.pending) + EncodeAll(cs);
  }

  lemma ExecuteKeepsDurable<D>(s: Server<D>, empty: D, apply: (D, nat, Command) -> D, db: nat, cmds: seq<Command>)
    requires Durable(s, empty, apply) && NoSelect(cmds)
    ensures Durable(Executed(s, apply, db, cmds), empty, apply)
  {
    hide EncodeAll, Logged, Rebuilds, ApplyAll, NoSelect;
    var cs := Logged(s.selected, db, cmds);
    if s.state.On? {
      EncodeAllConcat(s.log, cs);
      FeedRebuilds(s.log, empty, apply, s.data, s.selected, db, cmds);
      assert s.file + (s.buf + EncodeAll(cs)) == (s.file + s.buf) + EncodeAll(cs);
    }
    if !s.state.Off? && !s.child.NoChild? {
      FeedRebuilds(s.snapshot + s.fed, empty, apply, s.data, s.selected, db, cmds);
      assert (s.snapshot + s.fed) + cs == s.snapshot + (s.fed + cs);
    }
  }

  /** The file a finished child leaves, with the remaining blocks, is the snapshot followed by everything fed. */
  lemma FinishedFile<D>(s: Server<D>)
    requires ExactlyOnce(s) && s.child.Finished?
    ensures s.child.tmp + s.pending == EncodeAll(s.snapshot + s.fed)
  {
    hide EncodeAll;
    EncodeAllConcat(s.snapshot, s.fed);
    assert s.diff + "" + s.pending == s.diff + s.pending;
    assert EncodeAll(s.snapshot) + s.diff + s.pending == EncodeAll(s.snapshot) + (s.diff + s.pending);
  }

  lemma ReapKeepsInv<D>(s: Server<D>, empty: D, apply: (D, nat, Command) -> D, ok: bool)
    requires Inv(s, empty, apply) && Enabled(s, empty, apply, Reap(ok))
    ensures Inv(Reaped(s, ok), empty, apply)
  {
    if ok && !s.state.Off? {
      FinishedFile(s);
      var file := s.child.tmp + s.pending;
      assert file + "" == file;
    }
  }

  lemma ForkKeepsInv<D>(s: Server<D>, empty: D, apply: (D, nat, Command) -> D, snapshot: seq<Command>)
    requires Inv(s, empty, apply) && Enabled(s, empty, apply, Fork(snapshot)) && Faithful(s, empty, apply, Fork(snapshot))
    ensures Inv(Apply(s, empty, apply, Fork(snapshot)), empty, apply)
  {
    assert snapshot + [] == snapshot;
    if s.state.On? { assert Rebuilds(s.log, empty, apply, s.data, NoDb); }
  }

  lemma StepKeepsInv<D>(s: Server<D>, empty: D, apply: (D, nat, Command) -> D, step: Step)
    requires Inv(s, empty, apply) && Enabled(s, empty, apply, step) && Faithful(s, empty, apply, step)
    ensures Inv(Apply(s, empty, apply, step), empty, apply)
  {
    hide EncodeAll, Rebuilds, Replay;
    match step
    case Execute(db, cs) =>
      ExecuteKeepsOnce(s, apply, db, cs);
      ExecuteKeepsDurable(s, empty, apply, db, cs);
    case Reap(ok) => ReapKeepsInv(s, empty, apply, ok);
    case Flush(n) => assert s.file + s.buf[..n] + s.buf[n..] == s.file + s.buf;
    case Send(n) =>
      assert s.diff + (s.pipe + s.pending[..n]) + s.pending[n..] == s.diff + s.pipe + s.pending;
      assert n == 0 ==> s.pipe + s.pending[..n] == s.pipe && s.pending[n..] == s.pending;
    case Read(n) => assert (s.diff + s.pipe[..n]) + s.pipe[n..] + s.pending == s.diff + s.pipe + s.pending;
    case Finish =>
      assert (s.diff + s.pipe) + "" + s.pending == s.diff + s.pipe + s.pending;
      assert EncodeAll(s.snapshot) + (s.diff + s.pipe) == EncodeAll(s.snapshot) + s.diff + s.pipe;
    case Fork(snapshot) => ForkKeepsInv(s, empty, apply, snapshot);
    case _ =>
  }

  ghost predicate Run<D(!new)>(states: seq<Server<D>>, steps: seq<Step>, empty: D, apply: (D, nat, Command) -> D) {
    && |states| == |steps| + 1
    && states[0] == Server(On, "", "", NoDb, empty, NoChild, "", false, "", "", [], [], [])
    && forall i {:trigger steps[i]} :: 0 <= i < |steps| ==>
      && Enabled(states[i], empty, apply, steps[i]) && Faithful(states[i], empty, apply, steps[i])
      && states[i + 1] == Apply(states[i], empty, apply, steps[i])
  }

  lemma {:induction false} RunKeepsInv<D(!new)>(states: seq<Server<D>>, steps: seq<Step>, empty: D, apply: (D, nat, Command) -> D, n: nat)
    requires Run(states, steps, empty, apply) && n < |states|
    ensures Inv(states[n], empty, apply)
  {
    if n > 0 {
      RunKeepsInv(states, steps, empty, apply, n - 1);
      StepKeepsInv(states[n - 1], empty, apply, steps[n - 1]);
    }
  }

  /** At every moment with the AOF on, replaying file and buffer gives the current dataset. */
  lemma AofIsDurable<D(!new)>(states: seq<Server<D>>, steps: seq<Step>, empty: D, apply: (D, nat, Command) -> D, n: nat)
    requires Run(states, steps, empty, apply) && n < |states| && states[n].state.On?
    ensures states[n].file + states[n].buf == EncodeAll(states[n].log)
    ensures Replay(apply, states[n].log, Replayed(empty, 0)).data == states[n].data
  {
    RunKeepsInv(states, steps, empty, apply, n);
  }

  /**
   A rewrite that succeeds while the AOF is on or waiting for it leaves the snapshot followed by
   every command fed since the fork, in order and once; replaying that gives the dataset.
   */
  lemma RewriteDeliversOnce<D(!new)>(states: seq<Server<D>>, steps: seq<Step>, empty: D, apply: (D, nat, Command) -> D, n: nat)
    requires Run(states, steps, empty, apply) && n < |steps| && steps[n] == Reap(true) && !states[n].state.Off?
    ensures states[n + 1].file == EncodeAll(states[n].snapshot + states[n].fed) && states[n + 1].buf == ""
    ensures states[n + 1].state.On? && states[n + 1].selected.NoDb? && states[n + 1].data == states[n].data
    ensures Replay(apply, states[n].snapshot + states[n].fed, Replayed(empty, 0)).data == states[n + 1].data
  {
    RunKeepsInv(states, steps, empty, apply, n);
    FinishedFile(states[n]);
  }

  /** Turning the AOF off writes the rest of the buffer: the file is a log of the dataset at that time. */
  lemma StopKeepsLog<D(!new)>(states: seq<Server<D>>, steps: seq<Step>, empty: D, apply: (D, nat, Command) -> D, n: nat)
    requires Run(states, steps, empty, apply) && n < |steps| && steps[n].Stop? && states[n].state.On?
    ensures states[n + 1].file == EncodeAll(states[n].log) && states[n + 1].state.Off? && states[n + 1].child.NoChild?
    ensures Replay(apply, states[n].log, Replayed(empty, 0)).data == states[n + 1].data == states[n].data
  {
    RunKeepsInv(states, steps, empty, apply, n);
  }

  /** A rewrite with the AOF off leaves the file too, and turns nothing on. */
  lemma RewriteWhileOff<D(!new)>(states: seq<Server<D>>, steps: seq<Step>, empty: D, apply: (D, nat, Command) -> D, n: nat)
    requires Run(states, steps, empty, apply) && n < |steps| && steps[n] == Reap(true) && states[n].state.Off?
    ensures states[n + 1].file == EncodeAll(states[n].snapshot + states[n].fed) && states[n + 1].state.Off?
    ensures states[n + 1].data == states[n].data && states[n + 1].child.NoChild?
  {
    RunKeepsInv(states, steps, empty, apply, n);
    FinishedFile(states[n]);
  }

  /** Whatever has been fed, sent and read, a child that writes can finish, and its rewrite then succeeds with everything in it. */
  lemma RewriteCanFinish<D(!new)>(states: seq<Server<D>>, steps: seq<Step>, empty: D, apply: (D, nat, Command) -> D)
    returns (states': seq<Server<D>>)
    requires Run(states, steps, empty, apply) && states[|steps|].child.Writing? && !states[|steps|].state.Off?
    ensures |states'| == |states| + 4 && Run(states', steps + [Ask, Answer(true), Finish, Reap(true)], empty, apply) && states <= states'
    ensures var s, t := states[|steps|], states'[|states'| - 1];
            && t.file == EncodeAll(s.snapshot + s.fed) && t.buf == "" && t.state.On? && t.child.NoChild? && t.data == s.data
            && Replay(apply, s.snapshot + s.fed, Replayed(empty, 0)).data == t.data
  {
    hide EncodeAll, Replay;
    var a := OneMore(states, steps, empty, apply, Ask);
    var b := OneMore(a, steps + [Ask], empty, apply, Answer(true));
    var c := OneMore(b, steps + [Ask] + [Answer(true)], empty, apply, Finish);
    states' := OneMore(c, steps + [Ask] + [Answer(true)] + [Finish], empty, apply, Reap(true));
    assert steps + [Ask] + [Answer(true)] + [Finish] + [Reap(true)] == steps + [Ask, Answer(true), Finish, Reap(true)];
    RewriteDeliversOnce(states', steps + [Ask, Answer(true), Finish, Reap(true)], empty, apply, |steps| + 3);
  }

  /**
   The AOF can be turned on while the server runs: with a snapshot of its dataset, and the handshake, it is on and its
   file gives the dataset.
   */
  lemma AofCanStart<D(!new)>(states: seq<Server<D>>, steps: seq<Step>, empty: D, apply: (D, nat, Command) -> D, snapshot: seq<Command>)
    returns (states': seq<Server<D>>)
    requires Run(states, steps, empty, apply) && states[|steps|].state.Off?
    requires Replay(apply, snapshot, Replayed(empty, 0)).data == states[|steps|].data
    ensures Run(states', steps + [Start, Fork(snapshot), Ask, Answer(true), Finish, Reap(true)], empty, apply) && states <= states'
    ensures var s, t := states[|steps|], states'[|states'| - 1];
            t.file == EncodeAll(snapshot) && t.buf == "" && t.state.On? && t.child.NoChild? && t.data == s.data
  {
    hide EncodeAll, Replay;
    var a := OneMore(states, steps, empty, apply, Start);
    var b := OneMore(a, steps + [Start], empty, apply, Fork(snapshot));
    states' := RewriteCanFinish(b, steps + [Start] + [Fork(snapshot)], empty, apply);
    assert snapshot + [] == snapshot;
    assert steps + [Start] + [Fork(snapshot)] + [Ask, Answer(true), Finish, Reap(true)]
        == steps + [Start, Fork(snapshot), Ask, Answer(true), Finish, Reap(true)];
  }

  /** What was fed can be sent to the child and read by it, until it has all of it. */
  lemma DiffArrives<D(!new)>(states: seq<Server<D>>, steps: seq<Step>, empty: D, apply: (D, nat, Command) -> D)
    returns (states': seq<Server<D>>, sends: seq<Step>)
    requires Run(states, steps, empty, apply) && states[|steps|].child.Writing? && !states[|steps|].stop
    ensures Run(states', steps + sends, empty, apply) && states <= states'
    ensures states'[|states'| - 1] == states[|steps|].(diff := EncodeAll(states[|steps|].fed), pipe := "", pending := "")
  {
    hide EncodeAll, Replay;
    var s := states[|steps|];
    RunKeepsInv(states, steps, empty, apply, |steps|);
    var send, read := Send(|s.pending|), Read(|s.pipe| + |s.pending|);
    var a := OneMore(states, steps, empty, apply, send);
    states' := OneMore(a, steps + [send], empty, apply, read);
    sends := [send, read];
    assert s.pending[..|s.pending|] == s.pending && (s.pipe + s.pending)[..|s.pipe| + |s.pending|] == s.pipe + s.pending;
    assert s.diff + (s.pipe + s.pending) == s.diff + s.pipe + s.pending;
    assert steps + [send] + [read] == steps + sends;
  }

  /** The buffer can be written out, and the file alone then gives the dataset. */
  lemma FlushCompletes<D(!new)>(states: seq<Server<D>>, steps: seq<Step>, empty: D, apply: (D, nat, Command) -> D)
    returns (states': seq<Server<D>>)
    requires Run(states, steps, empty, apply) && states[|steps|].state.On?
    ensures Run(states', steps + [Flush(|states[|steps|].buf|)], empty, apply) && states <= states'
    ensures states'[|states'| - 1] == states[|steps|].(file := EncodeAll(states[|steps|].log), buf := "")
    ensures Replay(apply, states[|steps|].log, Replayed(empty, 0)).data == states[|steps|].data
  {
    hide EncodeAll, Replay;
    var s := states[|steps|];
    AofIsDurable(states, steps, empty, apply, |steps|);
    states' := OneMore(states, steps, empty, apply, Flush(|s.buf|));
    assert s.buf[..|s.buf|] == s.buf;
  }

  /** A child may die at any time before it has finished; nothing but the rewrite is lost. */
  lemma ChildMayDie<D(!new)>(states: seq<Server<D>>, steps: seq<Step>, empty: D, apply: (D, nat, Command) -> D)
    returns (states': seq<Server<D>>)
    requires Run(states, steps, empty, apply) && !states[|steps|].child.NoChild? && !states[|steps|].child.Finished?
    ensures Run(states', steps + [Fail, Reap(false)], empty, apply) && states <= states'
    ensures states'[|states'| - 1] == Ended(states[|steps|])
  {
    hide EncodeAll, Replay;
    var a := OneMore(states, steps, empty, apply, Fail);
    states' := OneMore(a, steps + [Fail], empty, apply, Reap(false));
    assert steps + [Fail] + [Reap(false)] == steps + [Fail, Reap(false)];
  }

  /** A run with one more step. */
  lemma OneMore<D(!new)>(states: seq<Server<D>>, steps: seq<Step>, empty: D, apply: (D, nat, Command) -> D, step: Step)
    returns (states': seq<Server<D>>)
    requires Run(states, steps, empty, apply)
    requires Enabled(states[|steps|], empty, apply, step) && Faithful(states[|steps|], empty, apply, step)
    ensures states' == states + [Apply(states[|steps|], empty, apply, step)] && Run(states', steps + [step], empty, apply)
  {
    hide Apply, Enabled, Faithful;
    var n, steps' := |steps|, steps + [step];
    states' := states + [Apply(states[n], empty, apply, step)];
    forall i | 0 <= i < |steps'|
      ensures && Enabled(states'[i], empty, apply, steps'[i]) && Faithful(states'[i], empty, apply, steps'[i])
              && states'[i + 1] == Apply(states'[i], empty, apply, steps'[i])
    {
      assert i < n ==> steps'[i] == steps[i];
    }
  }

  /** A rewrite that fails leaves the old file and the buffer, and the file still gives the dataset. */
  lemma FailedRewriteKeepsFile<D(!new)>(states: seq<Server<D>>, steps: seq<Step>, empty: D, apply: (D, nat, Command) -> D, n: nat)
    requires Run(states, steps, empty, apply) && n < |steps| && steps[n] == Reap(false)
    ensures states[n + 1].file == states[n].file && states[n + 1].buf == states[n].buf
    ensures states[n + 1].state == states[n].state && states[n + 1].child.NoChild?
    ensures states[n].state.On? ==> Replay(apply, states[n + 1].log, Replayed(empty, 0)).data == states[n + 1].data
  {
    RunKeepsInv(states, steps, empty, apply, n);
  }

  /**
   A crash with the AOF on leaves the bytes written so far. Loading them runs exactly the commands of
   the log that had been written in full (a transaction only with its EXEC), and no others.
   */
  lemma CrashRecovers<D(!new)>(states: seq<Server<D>>, steps: seq<Step>, empty: D, apply: (D, nat, Command) -> D, n: nat,
                               kind: Command -> AofLoad.Kind)
    requires Run(states, steps, empty, apply) && n < |states| && states[n].state.On? && states[n].file != ""
    requires AofLoad.Loadable(kind, states[n].log)
    ensures AofLoad.Load(states[n].file, kind, true) == AofLoad.Expected(kind, states[n].log, |states[n].file|, AofLoad.Start, 0, 0)
  {
    hide AofLoad.Load, AofLoad.Expected, EncodeAll, Replay;
    RunKeepsInv(states, steps, empty, apply, n);
    var s := states[n];
    assert EncodeAll(s.log)[..|s.file|] == s.file;
    AofLoad.TruncationSafe(kind, s.log, |s.file|);
  }

  /** MULTI and EXEC do nothing by themselves, and SELECT is neither. */
  ghost predicate Brackets<D(!new)>(apply: (D, nat, Command) -> D, kind: Command -> AofLoad.Kind) {
    && (forall data: D, db: nat, c: Command :: !kind(c).Other? ==> apply(data, db, c) == data)
    && (forall c :: IsSelect(c) ==> kind(c).Other?)
  }

  lemma {:induction false} ReplayEffects<D(!new)>(apply: (D, nat, Command) -> D, kind: Command -> AofLoad.Kind, log: seq<Command>, from: Replayed<D>)
    requires Brackets(apply, kind)
    ensures Replay(apply, AofLoad.Effects(kind, log), from) == Replay(apply, log, from)
  {
    hide Replay, AofLoad.Effects, Brackets;
    if log == [] {
      AofLoad.NothingRan(kind);
    } else {
      var k := |log| - 1;
      var at := Replay(apply, log[..k], from);
      ReplayEffects(apply, kind, log[..k], from);
      assert log == log[..k] + [log[k]];
      AofLoad.EffectsSnoc(kind, log[..k], log[k]);
      ReplayConcat(apply, log[..k], [log[k]], from);
      ReplayConcat(apply, AofLoad.Effects(kind, log[..k]), if kind(log[k]).Other? then [log[k]] else [], from);
      ReplayBracket(apply, kind, log[k], at);
    }
  }

  lemma ReplayBracket<D(!new)>(apply: (D, nat, Command) -> D, kind: Command -> AofLoad.Kind, c: Command, from: Replayed<D>)
    requires Brackets(apply, kind)
    ensures Replay(apply, [], from) == from
    ensures !kind(c).Other? ==> Replay(apply, [c], from) == from
  {
    assert [c][1..] == [];
  }

  /**
   A server restarted right after a successful rewrite runs what the snapshot and everything fed since
   the fork say; that gives the dataset, unless the rewrite ended inside a transaction.
   */
  lemma RestartAfterRewrite<D(!new)>(states: seq<Server<D>>, steps: seq<Step>, empty: D, apply: (D, nat, Command) -> D, n: nat,
                                     kind: Command -> AofLoad.Kind)
    requires Run(states, steps, empty, apply) && n < |steps| && steps[n] == Reap(true) && !states[n].state.Off?
    requires Brackets(apply, kind)
    requires states[n].snapshot + states[n].fed != [] && AofLoad.Loadable(kind, states[n].snapshot + states[n].fed)
    ensures var log := states[n].snapshot + states[n].fed;
            var m := AofLoad.RanAll(kind, AofLoad.Start, log);
            var out := AofLoad.Load(states[n + 1].file, kind, true);
            && out.Loaded? && out.ran == m.ran
            && (!m.open ==> out.ran == AofLoad.Effects(kind, log)
                            && Replay(apply, out.ran, Replayed(empty, 0)).data == states[n + 1].data)
  {
    hide AofLoad.Load, AofLoad.RanAll, EncodeAll, Replay, Brackets;
    var log := states[n].snapshot + states[n].fed;
    RewriteDeliversOnce(states, steps, empty, apply, n);
    AofLoad.WholeFileLoads(kind, log);
    AofLoad.RanIsEffects(kind, log);
    ReplayEffects(apply, kind, log, Replayed(empty, 0));
  }
}
