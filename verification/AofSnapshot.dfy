/**
 The snapshot a rewrite begins with. The child goes through the databases; for each that is not
 empty it writes a SELECT, and for each key the commands that rebuild its value and, if it has
 one, its expiry. The theorem is that replaying them gives the dataset, and that a run of the
 rewrite whose snapshots are made in this way needs no assumption about them.
 */
module AofSnapshot {
  import opened Common
  import opened Resp
  import AofValues
  import AofRewrite

  // Datasets

  /** A value. The scores of a sorted set are strings, as they are printed. */
  datatype Value =
    | Str(s: string)
    | List(items: seq<string>)
    | Set(members: set<string>)
    | Hash(fields: map<string, string>)
    | Zset(scores: map<string, string>)

  datatype Entry = Entry(value: Value, expire: Option<nat>)

  /** A key of a database. */
  datatype Name = Name(db: nat, key: string)

  type Data = map<Name, Entry>

  /** A list, set, hash or sorted set without elements. The server deletes the key of a value that becomes empty. */
  predicate Hollow(v: Value) {
    match v
    case Str(_) => false
    case List(items) => items == []
    case Set(members) => members == {}
    case Hash(fields) => fields == map[]
    case Zset(scores) => scores == map[]
  }

  ghost predicate Full(data: Data) {
    forall n :: n in data ==> !Hollow(data[n].value)
  }

  // Commands

  /** The commands that add to a value, with the empty value each begins with. */
  function Begin(name: string): Option<Value> {
    if name == "RPUSH" then Some(List([]))
    else if name == "SADD" then Some(Set({}))
    else if name == "HMSET" then Some(Hash(map[]))
    else if name == "ZADD" then Some(Zset(map[]))
    else None
  }

  predicate SameType(a: Value, b: Value) {
    a.Str? == b.Str? && a.List? == b.List? && a.Set? == b.Set? && a.Hash? == b.Hash? && a.Zset? == b.Zset?
  }

  /** Scores come before their members. */
  function SetScores(z: map<string, string>, args: seq<string>): map<string, string>
    decreases |args|
  {
    if |args| < 2 then z else SetScores(z[args[1] := args[0]], args[2..])
  }

  function Add(v: Value, args: seq<string>): Value {
    match v
    case Str(_) => v
    case List(items) => List(items + args)
    case Set(members) => Set(members + set a | a in args)
    case Hash(fields) => Hash(AofValues.SetPairs(fields, args))
    case Zset(scores) => Zset(SetScores(scores, args))
  }

  /** A command that adds at least one element; fields and scores come in pairs. */
  predicate Adding(c: Command) {
    |c| >= 3 && Begin(c[0]).Some? && (c[0] == "HMSET" || c[0] == "ZADD" ==> |c| % 2 == 0)
  }

  /** The commands of which a snapshot consists, but for SELECT. */
  predicate Rebuilding(c: Command) {
    Adding(c) || (|c| == 3 && (c[0] == "SET" || c[0] == "PEXPIREAT"))
  }

  /** What they do; a command on a value of another type fails, and so does one with a wrong number of arguments. */
  function Rebuild(data: Data, db: nat, c: Command): Data {
    if !Rebuilding(c) then data
    else
      var n := Name(db, c[1]);
      if c[0] == "SET" then data[n := Entry(Str(c[2]), None)]
      else if c[0] == "PEXPIREAT" then
        if n in data && ReadNumber(c[2]) >= 0 then data[n := data[n].(expire := Some(ReadNumber(c[2])))] else data
      else
        var begin := Begin(c[0]).value;
        if n !in data then data[n := Entry(Add(begin, c[2..]), None)]
        else if SameType(data[n].value, begin) then data[n := data[n].(value := Add(data[n].value, c[2..]))]
        else data
  }

  /** A server that executes these commands so, whatever it does with others, and that keeps no hollow value. */
  ghost predicate Serves(apply: (Data, nat, Command) -> Data) {
    && (forall data, db, c :: Rebuilding(c) ==> apply(data, db, c) == Rebuild(data, db, c))
    && (forall data, db, c :: Full(data) ==> Full(apply(data, db, c)))
  }

  lemma AddsSomething(v: Value, c: Command)
    requires Adding(c) && SameType(v, Begin(c[0]).value)
    ensures !Hollow(Add(v, c[2..]))
  {
    var args := c[2..];
    match v
    case List(_) =>
    case Set(members) => assert args[0] in members + set a | a in args;
    case Hash(fields) => PairStays(fields, args, args[0]);
    case Zset(scores) => ScoreStays(scores, args, args[1]);
  }

  lemma {:induction false} PairStays(h: map<string, string>, args: seq<string>, f: string)
    requires f in h || (|args| >= 2 && args[0] == f)
    ensures f in AofValues.SetPairs(h, args)
    decreases |args|
  {
    if |args| >= 2 { PairStays(h[args[0] := args[1]], args[2..], f); }
  }

  lemma {:induction false} ScoreStays(z: map<string, string>, args: seq<string>, m: string)
    requires m in z || (|args| >= 2 && args[1] == m)
    ensures m in SetScores(z, args)
    decreases |args|
  {
    if |args| >= 2 { ScoreStays(z[args[1] := args[0]], args[2..], m); }
  }

  lemma RebuildKeepsFull(data: Data, db: nat, c: Command)
    requires Full(data)
    ensures Full(Rebuild(data, db, c))
  {
    hide Hollow, Add, Begin, SameType;
    if Adding(c) {
      var n, begin := Name(db, c[1]), Begin(c[0]).value;
      Distinct(c);
      if n !in data { AddsSomething(begin, c); } else if SameType(data[n].value, begin) { AddsSomething(data[n].value, c); }
    }
    StringsAreFull();
  }

  lemma Distinct(c: Command)
    requires Adding(c)
    ensures c[0] != "SET" && c[0] != "PEXPIREAT" && SameType(Begin(c[0]).value, Begin(c[0]).value)
  {}

  lemma StringsAreFull()
    ensures forall s :: !Hollow(Str(s))
  {}

  /** A server with these commands alone is one. */
  lemma RebuildServes()
    ensures Serves(Rebuild)
  {
    hide Rebuild, Full;
    forall data, db, c | Full(data) ensures Full(Rebuild(data, db, c)) { RebuildKeepsFull(data, db, c); }
  }

  // The snapshot

  /** A key with its entry, and the order in which its members or fields are iterated over. */
  datatype Record = Record(key: string, entry: Entry, order: seq<string>)

  ghost predicate Ordered(r: Record) {
    match r.entry.value
    case Set(members) => forall m :: m in r.order <==> m in members
    case Hash(fields) => forall f :: f in r.order <==> f in fields
    case Zset(scores) => forall m :: m in r.order <==> m in scores
    case _ => true
  }

  function Scored(z: map<string, string>, order: seq<string>): seq<seq<string>>
    requires forall m :: m in order ==> m in z
  {
    seq(|order|, i requires 0 <= i < |order| => [z[order[i]], order[i]])
  }

  function ValueCommands(r: Record, limit: nat): seq<Command>
    requires limit > 0 && Ordered(r)
  {
    match r.entry.value
    case Str(s) => [["SET", r.key, s]]
    case List(items) => AofValues.Chunks("RPUSH", r.key, AofValues.Singles(items), limit)
    case Set(_) => AofValues.Chunks("SADD", r.key, AofValues.Singles(r.order), limit)
    case Hash(fields) => AofValues.Chunks("HMSET", r.key, AofValues.Pairs(fields, r.order), limit)
    case Zset(scores) => AofValues.Chunks("ZADD", r.key, Scored(scores, r.order), limit)
  }

  function ExpireCommands(r: Record): seq<Command> {
    if r.entry.expire.Some? then [["PEXPIREAT", r.key, Decimal(r.entry.expire.value)]] else []
  }

  function RecordCommands(r: Record, limit: nat): seq<Command>
    requires limit > 0 && Ordered(r)
  {
    ValueCommands(r, limit) + ExpireCommands(r)
  }

  ghost predicate AllOrdered(records: seq<Record>) {
    forall i :: 0 <= i < |records| ==> Ordered(records[i])
  }

  function DbCommands(records: seq<Record>, limit: nat): seq<Command>
    requires limit > 0 && AllOrdered(records)
  {
    if records == [] then []
    else DbCommands(records[..|records| - 1], limit) + RecordCommands(records[|records| - 1], limit)
  }

  /** The commands for the databases below k. */
  function Snapshot(dbs: seq<seq<Record>>, limit: nat, k: nat): seq<Command>
    requires limit > 0 && k <= |dbs| && forall j :: 0 <= j < |dbs| ==> AllOrdered(dbs[j])
  {
    if k == 0 then []
    else Snapshot(dbs, limit, k - 1)
         + if dbs[k - 1] == [] then [] else [AofRewrite.Select(k - 1)] + DbCommands(dbs[k - 1], limit)
  }

  /** The records are those of the dataset, each once. */
  ghost predicate Iterates(dbs: seq<seq<Record>>, data: Data) {
    && (forall j :: 0 <= j < |dbs| ==> AllOrdered(dbs[j]))
    && (forall j, i, i' :: 0 <= j < |dbs| && 0 <= i < i' < |dbs[j]| ==> dbs[j][i].key != dbs[j][i'].key)
    && (forall j, i :: 0 <= j < |dbs| && 0 <= i < |dbs[j]| ==>
         Name(j, dbs[j][i].key) in data && data[Name(j, dbs[j][i].key)] == dbs[j][i].entry)
    && (forall n :: n in data ==> n.db < |dbs| && exists i :: 0 <= i < |dbs[n.db]| && dbs[n.db][i].key == n.key)
  }

  // Writing it

  /** Writes the commands that rebuild a value. */
  method RewriteValue(r: Record, limit: nat) returns (out: string)
    requires limit > 0 && Ordered(r)
    ensures out == EncodeAll(ValueCommands(r, limit))
  {
    hide EncodeAll, Encode, AofValues.Chunks, Scored, AofValues.Pairs, AofValues.Singles;
    match r.entry.value
    case Str(s) =>
      out := CatAppendOnlyGenericCommand("", ["SET", r.key, s]);
      EncodeOne(["SET", r.key, s]);
      assert "" + Encode(["SET", r.key, s]) == Encode(["SET", r.key, s]);
    case List(items) => out := AofValues.RewriteListObject(r.key, items, limit);
    case Set(_) => out := AofValues.RewriteSetObject(r.key, r.order, limit);
    case Hash(fields) => out := AofValues.RewriteHashObject(r.key, fields, r.order, limit);
    case Zset(scores) =>
      ScoredWidth(scores, r.order);
      out := AofValues.RewriteItems("ZADD", r.key, Scored(scores, r.order), 2, limit);
  }

  /** Writes the commands of a key. */
  method RewriteRecord(r: Record, limit: nat) returns (out: string)
    requires limit > 0 && Ordered(r)
    ensures out == EncodeAll(RecordCommands(r, limit))
  {
    hide EncodeAll, Encode, ValueCommands, Ordered;
    out := RewriteValue(r, limit);
    EncodeAllConcat(ValueCommands(r, limit), ExpireCommands(r));
    if r.entry.expire.Some? {
      var expire := ["PEXPIREAT", r.key, Decimal(r.entry.expire.value)];
      EncodeOne(expire);
      out := CatAppendOnlyGenericCommand(out, expire);
    } else {
      EncodeNone();
      assert out + "" == out;
    }
  }

  lemma ScoredWidth(z: map<string, string>, order: seq<string>)
    requires forall m :: m in order ==> m in z
    ensures AofValues.OfWidth(Scored(z, order), 2)
  {}

  lemma EncodeOne(c: Command)
    ensures EncodeAll([c]) == Encode(c)
  {
    assert [c][1..] == [] && EncodeAll([c]) == Encode(c) + "";
  }

  lemma EncodeNone()
    ensures EncodeAll([]) == ""
  {}

  /** Writes the keys of a database. */
  method RewriteDb(records: seq<Record>, limit: nat) returns (out: string)
    requires limit > 0 && AllOrdered(records)
    ensures out == EncodeAll(DbCommands(records, limit))
  {
    hide EncodeAll, RecordCommands, Ordered;
    out := "";
    EncodeNone();
    for i := 0 to |records|
      invariant out == EncodeAll(DbCommands(records[..i], limit))
    {
      var bytes := RewriteRecord(records[i], limit);
      assert records[..i + 1][..i] == records[..i];
      EncodeAllConcat(DbCommands(records[..i], limit), RecordCommands(records[i], limit));
      out := out + bytes;
    }
    assert records[..|records|] == records;
  }

  /** Writes the snapshot: for each database that is not empty a SELECT, then its keys. */
  method RewriteAppendOnlyFileRio(dbs: seq<seq<Record>>, limit: nat) returns (out: string)
    requires limit > 0 && forall j :: 0 <= j < |dbs| ==> AllOrdered(dbs[j])
    ensures out == EncodeAll(Snapshot(dbs, limit, |dbs|))
  {
    hide EncodeAll, Encode, DbCommands, AllOrdered;
    out := "";
    EncodeNone();
    for j := 0 to |dbs|
      invariant out == EncodeAll(Snapshot(dbs, limit, j))
    {
      ghost var before := Snapshot(dbs, limit, j);
      if |dbs[j]| == 0 {
        assert Snapshot(dbs, limit, j + 1) == before + [] == before;
      } else {
        var select := AofRewrite.Select(j);
        out := CatAppendOnlyGenericCommand(out, select);
        AofValues.EncodeAllSnoc(before, select);
        var bytes := RewriteDb(dbs[j], limit);
        EncodeAllConcat(before + [select], DbCommands(dbs[j], limit));
        assert before + [select] + DbCommands(dbs[j], limit) == Snapshot(dbs, limit, j + 1);
        out := out + bytes;
      }
    }
  }

  // Replaying commands on one database

  function RebuildAll(data: Data, db: nat, cmds: seq<Command>): Data
    decreases |cmds|
  {
    if cmds == [] then data else RebuildAll(Rebuild(data, db, cmds[0]), db, cmds[1..])
  }

  lemma {:induction false} RebuildAllConcat(data: Data, db: nat, a: seq<Command>, b: seq<Command>)
    ensures RebuildAll(data, db, a + b) == RebuildAll(RebuildAll(data, db, a), db, b)
    decreases |a|
  {
    hide Rebuild;
    if a == [] {
      assert a + b == b;
    } else {
      assert (a + b)[1..] == a[1..] + b;
      RebuildAllConcat(Rebuild(data, db, a[0]), db, a[1..], b);
    }
  }

  /** A server that serves these commands replays them so. */
  lemma {:induction false} ReplaysRebuilding(apply: (Data, nat, Command) -> Data, cmds: seq<Command>, data: Data, db: nat)
    requires Serves(apply) && forall c :: c in cmds ==> Rebuilding(c)
    ensures AofRewrite.Replay(apply, cmds, AofRewrite.Replayed(data, db)) == AofRewrite.Replayed(RebuildAll(data, db, cmds), db)
    decreases |cmds|
  {
    hide Rebuild;
    if cmds != [] {
      assert Rebuilding(cmds[0]);
      ReplaysRebuilding(apply, cmds[1..], Rebuild(data, db, cmds[0]), db);
    }
  }

  // Adding to a value

  function AddAll(v: Value, cmds: seq<Command>): Value
    decreases |cmds|
  {
    if cmds == [] then v else AddAll(Add(v, if |cmds[0]| >= 2 then cmds[0][2..] else []), cmds[1..])
  }

  /** Every command adds to the same key. */
  ghost predicate AddTo(cmds: seq<Command>, name: string, key: string) {
    Begin(name).Some? && forall c :: c in cmds ==> Adding(c) && c[0] == name && c[1] == key
  }

  lemma AddKeepsType(v: Value, args: seq<string>)
    ensures SameType(Add(v, args), v)
  {}

  /** Commands that add to a key change its value as AddAll says, and nothing else. */
  lemma {:induction false} AddsUp(data: Data, db: nat, cmds: seq<Command>, name: string, key: string)
    requires AddTo(cmds, name, key)
    requires Name(db, key) in data ==> SameType(data[Name(db, key)].value, Begin(name).value)
    ensures var n := Name(db, key);
            var was := if n in data then data[n] else Entry(Begin(name).value, None);
            RebuildAll(data, db, cmds) == if cmds == [] then data else data[n := was.(value := AddAll(was.value, cmds))]
    decreases |cmds|
  {
    hide Add, SameType, Begin;
    if cmds != [] {
      var n := Name(db, key);
      var was := if n in data then data[n] else Entry(Begin(name).value, None);
      assert cmds[0] in cmds;
      AddKeepsType(was.value, cmds[0][2..]);
      AddsOnce(data, db, cmds[0], was);
      var next := data[n := was.(value := Add(was.value, cmds[0][2..]))];
      TypeChain(next[n].value, was.value, Begin(name).value);
      AddsUp(next, db, cmds[1..], name, key);
      assert cmds[1..] == [] ==> AddAll(next[n].value, cmds[1..]) == next[n].value;
    }
  }

  lemma TypeChain(a: Value, b: Value, c: Value)
    requires SameType(a, b) && (b == c || SameType(b, c))
    ensures SameType(a, c)
  {}

  lemma AddsOnce(data: Data, db: nat, c: Command, was: Entry)
    requires Adding(c)
    requires var n := Name(db, c[1]);
             if n in data then was == data[n] && SameType(was.value, Begin(c[0]).value) else was == Entry(Begin(c[0]).value, None)
    ensures Rebuild(data, db, c) == data[Name(db, c[1]) := was.(value := Add(was.value, c[2..]))]
  {}

  lemma {:induction false} AddAllList(items: seq<string>, cmds: seq<Command>)
    ensures AddAll(List(items), cmds) == List(AofValues.ReplayList(cmds, items))
    decreases |cmds|
  {
    if cmds != [] { AddAllList(items + if |cmds[0]| >= 2 then cmds[0][2..] else [], cmds[1..]); }
  }

  lemma {:induction false} AddAllSet(members: set<string>, cmds: seq<Command>)
    ensures AddAll(Set(members), cmds) == Set(AofValues.ReplaySet(cmds, members))
    decreases |cmds|
  {
    if cmds != [] {
      var args := if |cmds[0]| >= 2 then cmds[0][2..] else [];
      assert Add(Set(members), args) == Set(members + if |cmds[0]| >= 2 then (set a | a in cmds[0][2..]) else {});
      AddAllSet(members + (set a | a in args), cmds[1..]);
    }
  }

  lemma {:induction false} AddAllHash(fields: map<string, string>, cmds: seq<Command>)
    ensures AddAll(Hash(fields), cmds) == Hash(AofValues.ReplayHash(cmds, fields))
    decreases |cmds|
  {
    hide AofValues.SetPairs;
    if cmds != [] { AddAllHash(AofValues.SetPairs(fields, if |cmds[0]| >= 2 then cmds[0][2..] else []), cmds[1..]); }
  }

  lemma {:induction false} SetScoresConcat(z: map<string, string>, a: seq<string>, b: seq<string>)
    requires |a| % 2 == 0
    ensures SetScores(z, a + b) == SetScores(SetScores(z, a), b)
    decreases |a|
  {
    if a == [] {
      assert a + b == b;
    } else {
      assert (a + b)[2..] == a[2..] + b;
      SetScoresConcat(z[a[1] := a[0]], a[2..], b);
    }
  }

  lemma {:induction false} AddAllZset(scores: map<string, string>, cmds: seq<Command>)
    requires forall i :: 0 <= i < |cmds| ==> |cmds[i]| >= 2 && |cmds[i]| % 2 == 0
    ensures AddAll(Zset(scores), cmds) == Zset(SetScores(scores, AofValues.Payload(cmds)))
    decreases |cmds|
  {
    hide SetScores;
    if cmds == [] {
      NoScores(scores);
    } else {
      SetScoresConcat(scores, cmds[0][2..], AofValues.Payload(cmds[1..]));
      AddAllZset(SetScores(scores, cmds[0][2..]), cmds[1..]);
    }
  }

  lemma NoScores(z: map<string, string>)
    ensures SetScores(z, []) == z
  {}

  lemma {:induction false} ScoredRebuild(z: map<string, string>, order: seq<string>)
    requires forall m :: m in order ==> m in z
    ensures SetScores(map[], AofValues.Concat(Scored(z, order))) == map m | m in order :: z[m]
  {
    if order != [] {
      var k := |order| - 1;
      assert Scored(z, order)[..k] == Scored(z, order[..k]);
      ScoredRebuild(z, order[..k]);
      ScoredWidth(z, order[..k]);
      AofValues.ConcatLength(Scored(z, order[..k]), 2);
      var last := [z[order[k]], order[k]];
      SetScoresConcat(map[], AofValues.Concat(Scored(z, order[..k])), last);
      assert last[2..] == [];
    }
  }

  lemma ZsetReplays(key: string, z: map<string, string>, order: seq<string>, limit: nat)
    requires limit > 0 && forall m :: m in order <==> m in z
    ensures var cmds := AofValues.Chunks("ZADD", key, Scored(z, order), limit);
            AddAll(Zset(map[]), cmds) == Zset(z) && AddTo(cmds, "ZADD", key)
  {
    hide AofValues.Chunks, AofValues.Payload, AddAll, SetScores, AofValues.Concat;
    var cmds := AofValues.Chunks("ZADD", key, Scored(z, order), limit);
    ScoredWidth(z, order);
    AofValues.ChunksCarryItems("ZADD", key, Scored(z, order), 2, limit);
    forall i | 0 <= i < |cmds| ensures |cmds[i]| >= 2 && |cmds[i]| % 2 == 0 { assert cmds[i] in cmds; }
    forall c | c in cmds ensures Adding(c) {}
    AddAllZset(map[], cmds);
    ScoredRebuild(z, order);
    assert (map m | m in order :: z[m]) == z;
  }

  // Replaying the commands of one key

  lemma ListAdds(key: string, items: seq<string>, limit: nat)
    requires limit > 0
    ensures var cmds := AofValues.Chunks("RPUSH", key, AofValues.Singles(items), limit);
            AddAll(List([]), cmds) == List(items) && AddTo(cmds, "RPUSH", key)
  {
    hide AofValues.Chunks, AofValues.ReplayList, AddAll, AofValues.Singles;
    AofValues.ListReplays(key, items, limit);
    AddAllList([], AofValues.Chunks("RPUSH", key, AofValues.Singles(items), limit));
  }

  lemma SetAdds(key: string, members: set<string>, order: seq<string>, limit: nat)
    requires limit > 0 && forall m :: m in order <==> m in members
    ensures var cmds := AofValues.Chunks("SADD", key, AofValues.Singles(order), limit);
            AddAll(Set({}), cmds) == Set(members) && AddTo(cmds, "SADD", key)
  {
    hide AofValues.Chunks, AofValues.ReplaySet, AddAll, AofValues.Singles;
    AofValues.SetReplays(key, order, limit);
    AddAllSet({}, AofValues.Chunks("SADD", key, AofValues.Singles(order), limit));
    assert (set m | m in order) == members;
  }

  lemma PairsWidth(fields: map<string, string>, order: seq<string>)
    requires forall f :: f in order ==> f in fields
    ensures AofValues.OfWidth(AofValues.Pairs(fields, order), 2)
  {}

  lemma HashAdds(key: string, fields: map<string, string>, order: seq<string>, limit: nat)
    requires limit > 0 && forall f :: f in order <==> f in fields
    ensures var cmds := AofValues.Chunks("HMSET", key, AofValues.Pairs(fields, order), limit);
            AddAll(Hash(map[]), cmds) == Hash(fields) && AddTo(cmds, "HMSET", key)
  {
    hide AofValues.Chunks, AofValues.ReplayHash, AddAll, AofValues.Pairs;
    AofValues.HashReplays(key, fields, order, limit);
    PairsWidth(fields, order);
    AofValues.ChunksCarryItems("HMSET", key, AofValues.Pairs(fields, order), 2, limit);
    AddAllHash(map[], AofValues.Chunks("HMSET", key, AofValues.Pairs(fields, order), limit));
  }

  lemma NoCommands(name: string, key: string, items: seq<seq<string>>, limit: nat)
    requires limit > 0
    ensures AofValues.Chunks(name, key, items, limit) == [] <==> items == []
  {}

  /** The commands for a value that is not a string add to an empty value of its type until it is there. */
  lemma ValueAdds(r: Record, limit: nat) returns (name: string)
    requires limit > 0 && Ordered(r) && !r.entry.value.Str?
    ensures AddTo(ValueCommands(r, limit), name, r.key)
    ensures AddAll(Begin(name).value, ValueCommands(r, limit)) == r.entry.value
    ensures ValueCommands(r, limit) == [] <==> Hollow(r.entry.value)
  {
    hide AofValues.Chunks, AddAll, AddTo;
    match r.entry.value
    case List(items) =>
      name := "RPUSH";
      ListAdds(r.key, items, limit);
      NoCommands(name, r.key, AofValues.Singles(items), limit);
    case Set(members) =>
      name := "SADD";
      SetAdds(r.key, members, r.order, limit);
      NoCommands(name, r.key, AofValues.Singles(r.order), limit);
      SomeMember(members, r.order);
    case Hash(fields) =>
      name := "HMSET";
      HashAdds(r.key, fields, r.order, limit);
      NoCommands(name, r.key, AofValues.Pairs(fields, r.order), limit);
      SomeMember(fields.Keys, r.order);
    case Zset(scores) =>
      name := "ZADD";
      ZsetReplays(r.key, scores, r.order, limit);
      NoCommands(name, r.key, Scored(scores, r.order), limit);
      SomeMember(scores.Keys, r.order);
  }

  lemma SomeMember(members: set<string>, order: seq<string>)
    requires forall m :: m in order <==> m in members
    ensures members == {} <==> order == []
  {
    if order != [] { assert order[0] in order; }
  }

  function Stored(data: Data, db: nat, r: Record): Data {
    if Hollow(r.entry.value) then data else data[Name(db, r.key) := r.entry]
  }

  lemma ValueReplays(data: Data, db: nat, r: Record, limit: nat)
    requires limit > 0 && Ordered(r) && Name(db, r.key) !in data
    ensures RebuildAll(data, db, ValueCommands(r, limit)) == Stored(data, db, r.(entry := r.entry.(expire := None)))
    ensures forall c :: c in ValueCommands(r, limit) ==> Rebuilding(c)
  {
    if r.entry.value.Str? {
      var c := ["SET", r.key, r.entry.value.s];
      assert ValueCommands(r, limit) == [c] && [c][1..] == [];
    } else {
      hide ValueCommands, AddAll;
      var name := ValueAdds(r, limit);
      AddsUp(data, db, ValueCommands(r, limit), name, r.key);
    }
  }

  /** Replaying the commands of a key stores its entry, unless the value is hollow. */
  lemma RecordReplays(data: Data, db: nat, r: Record, limit: nat)
    requires limit > 0 && Ordered(r) && Name(db, r.key) !in data
    ensures RebuildAll(data, db, RecordCommands(r, limit)) == Stored(data, db, r)
    ensures forall c :: c in RecordCommands(r, limit) ==> Rebuilding(c)
  {
    hide ValueCommands, Hollow, ReadNumber, Decimal;
    ValueReplays(data, db, r, limit);
    var without := r.(entry := r.entry.(expire := None));
    RebuildAllConcat(data, db, ValueCommands(r, limit), ExpireCommands(r));
    if r.entry.expire.Some? {
      var ms := r.entry.expire.value;
      NumberRoundTrip(ms, "");
      assert Decimal(ms) + "" == Decimal(ms);
      var c := ["PEXPIREAT", r.key, Decimal(ms)];
      assert [c][1..] == [] && ExpireCommands(r) == [c];
      assert RebuildAll(Stored(data, db, without), db, [c]) == Rebuild(Stored(data, db, without), db, c);
    }
  }

  // Replaying a snapshot

  /** What is there once the databases below k, and the first i records of the next, have been replayed. */
  function Part(data: Data, dbs: seq<seq<Record>>, k: nat, i: nat): Data
    requires k < |dbs| ==> i <= |dbs[k]|
  {
    map n | n in data && !Hollow(data[n].value)
            && (n.db < k || (n.db == k < |dbs| && exists j :: 0 <= j < i && dbs[k][j].key == n.key)) :: data[n]
  }

  lemma PartNext(data: Data, dbs: seq<seq<Record>>, k: nat, i: nat)
    requires Iterates(dbs, data) && k < |dbs| && i < |dbs[k]|
    ensures Name(k, dbs[k][i].key) !in Part(data, dbs, k, i)
    ensures Stored(Part(data, dbs, k, i), k, dbs[k][i]) == Part(data, dbs, k, i + 1)
  {
    hide Hollow, Ordered;
  }

  lemma PartDb(data: Data, dbs: seq<seq<Record>>, k: nat)
    requires Iterates(dbs, data) && k < |dbs|
    ensures Part(data, dbs, k, |dbs[k]|) == Part(data, dbs, k + 1, 0)
  {
    hide Hollow, Ordered;
    assert Part(data, dbs, k, |dbs[k]|).Keys == Part(data, dbs, k + 1, 0).Keys;
  }

  lemma {:induction false} DbReplays(data: Data, dbs: seq<seq<Record>>, k: nat, i: nat, limit: nat)
    requires limit > 0 && Iterates(dbs, data) && k < |dbs| && i <= |dbs[k]|
    ensures AllOrdered(dbs[k][..i])
    ensures RebuildAll(Part(data, dbs, k, 0), k, DbCommands(dbs[k][..i], limit)) == Part(data, dbs, k, i)
    ensures forall c :: c in DbCommands(dbs[k][..i], limit) ==> Rebuilding(c)
    decreases i
  {
    hide Part, RecordCommands, Ordered, Rebuilding, Rebuild;
    assert AllOrdered(dbs[k]);
    if i > 0 {
      DbReplays(data, dbs, k, i - 1, limit);
      assert dbs[k][..i][..i - 1] == dbs[k][..i - 1];
      PartNext(data, dbs, k, i - 1);
      RecordReplays(Part(data, dbs, k, i - 1), k, dbs[k][i - 1], limit);
      RebuildAllConcat(Part(data, dbs, k, 0), k, DbCommands(dbs[k][..i - 1], limit), RecordCommands(dbs[k][i - 1], limit));
    }
  }

  lemma {:induction false} SnapshotReplays(apply: (Data, nat, Command) -> Data, data: Data, dbs: seq<seq<Record>>, limit: nat, k: nat)
    requires limit > 0 && Serves(apply) && Iterates(dbs, data) && k <= |dbs|
    ensures AofRewrite.Replay(apply, Snapshot(dbs, limit, k), AofRewrite.Replayed(map[], 0)).data == Part(data, dbs, k, 0)
    decreases k
  {
    hide Serves, Part, DbCommands, Ordered, AofRewrite.Replay;
    var start := AofRewrite.Replayed(map[], 0);
    if k == 0 {
      NothingYet(apply, data, dbs);
    } else {
      SnapshotReplays(apply, data, dbs, limit, k - 1);
      var before, records := Snapshot(dbs, limit, k - 1), dbs[k - 1];
      if records == [] {
        assert Snapshot(dbs, limit, k) == before + [] == before;
      } else {
        AofRewrite.ReplayConcat(apply, before, [AofRewrite.Select(k - 1)] + DbCommands(records, limit), start);
        OneDbReplays(apply, data, dbs, limit, k - 1, AofRewrite.Replay(apply, before, start).db);
      }
      PartDb(data, dbs, k - 1);
    }
  }

  lemma NothingYet(apply: (Data, nat, Command) -> Data, data: Data, dbs: seq<seq<Record>>)
    ensures AofRewrite.Replay(apply, [], AofRewrite.Replayed(map[], 0)).data == Part(data, dbs, 0, 0)
  {}

  lemma OneDbReplays(apply: (Data, nat, Command) -> Data, data: Data, dbs: seq<seq<Record>>, limit: nat, k: nat, selected: nat)
    requires limit > 0 && Serves(apply) && Iterates(dbs, data) && k < |dbs|
    ensures AofRewrite.Replay(apply, [AofRewrite.Select(k)] + DbCommands(dbs[k], limit), AofRewrite.Replayed(Part(data, dbs, k, 0), selected))
         == AofRewrite.Replayed(Part(data, dbs, k, |dbs[k]|), k)
  {
    hide Serves, Part, Ordered, DbCommands, Rebuilding, RebuildAll, Decimal, ReadNumber;
    var cmds := DbCommands(dbs[k], limit);
    DbReplays(data, dbs, k, |dbs[k]|, limit);
    assert dbs[k][..|dbs[k]|] == dbs[k];
    NumberRoundTrip(k, "");
    assert Decimal(k) + "" == Decimal(k);
    assert ([AofRewrite.Select(k)] + cmds)[1..] == cmds;
    ReplaysRebuilding(apply, cmds, Part(data, dbs, k, 0), k);
  }

  /**
   Replaying a snapshot gives the dataset if and only if it has no hollow value; such a value is what is
   lost.
   */
  lemma SnapshotIsDataset(apply: (Data, nat, Command) -> Data, data: Data, dbs: seq<seq<Record>>, limit: nat)
    requires limit > 0 && Serves(apply) && Iterates(dbs, data)
    ensures var r := AofRewrite.Replay(apply, Snapshot(dbs, limit, |dbs|), AofRewrite.Replayed(map[], 0)).data;
            && r == (map n | n in data && !Hollow(data[n].value) :: data[n])
            && (r == data <==> Full(data))
  {
    hide Serves, Ordered, AofRewrite.Replay, Snapshot, Hollow;
    SnapshotReplays(apply, data, dbs, limit, |dbs|);
    var r := Part(data, dbs, |dbs|, 0);
    assert r == (map n | n in data && !Hollow(data[n].value) :: data[n]);
    if Full(data) { assert r == data; }
    if r == data {
      forall n | n in data ensures !Hollow(data[n].value) { assert n in r; }
    }
  }

  // Runs of the rewrite

  /** A run in which every child is forked with the snapshot of the dataset it sees. */
  ghost predicate SnapshotRun(states: seq<AofRewrite.Server<Data>>, steps: seq<AofRewrite.Step>, apply: (Data, nat, Command) -> Data, limit: nat)
    requires limit > 0
  {
    && |states| == |steps| + 1
    && states[0] == AofRewrite.Server(AofRewrite.On, "", "", AofRewrite.NoDb, map[], AofRewrite.NoChild, "", false, "", "", [], [], [])
    && forall i {:trigger steps[i]} :: 0 <= i < |steps| ==>
      && AofRewrite.Enabled(states[i], map[], apply, steps[i]) && Snapshots(states[i], steps[i], limit)
      && states[i + 1] == AofRewrite.Apply(states[i], map[], apply, steps[i])
  }

  ghost predicate Snapshots(s: AofRewrite.Server<Data>, step: AofRewrite.Step, limit: nat)
    requires limit > 0
  {
    step.Fork? ==> exists dbs :: Iterates(dbs, s.data) && step.snapshot == Snapshot(dbs, limit, |dbs|)
  }

  /** No step leaves a hollow value. */
  lemma StepKeepsFull(s: AofRewrite.Server<Data>, step: AofRewrite.Step, apply: (Data, nat, Command) -> Data)
    requires Serves(apply) && Full(s.data) && AofRewrite.Enabled(s, map[], apply, step)
    ensures Full(AofRewrite.Apply(s, map[], apply, step).data)
  {
    hide Rebuild, Full, Rebuilding;
    if step.Execute? { CommandsKeepFull(s.data, step.db, step.cs, apply); }
  }

  lemma {:induction false} CommandsKeepFull(data: Data, db: nat, cs: seq<Command>, apply: (Data, nat, Command) -> Data)
    requires Serves(apply) && Full(data)
    ensures Full(AofRewrite.ApplyAll(apply, data, db, cs))
    decreases |cs|
  {
    hide Rebuild, Full, Rebuilding;
    if cs != [] { CommandsKeepFull(apply(data, db, cs[0]), db, cs[1..], apply); }
  }

  lemma ForkIsFaithful(s: AofRewrite.Server<Data>, step: AofRewrite.Step, apply: (Data, nat, Command) -> Data, limit: nat)
    requires limit > 0 && Serves(apply) && Full(s.data) && Snapshots(s, step, limit)
    ensures AofRewrite.Faithful(s, map[], apply, step)
  {
    hide Serves, Full, AofRewrite.Replay, Snapshot, Ordered;
    if step.Fork? {
      var dbs :| Iterates(dbs, s.data) && step.snapshot == Snapshot(dbs, limit, |dbs|);
      SnapshotIsDataset(apply, s.data, dbs, limit);
    }
  }

  lemma {:induction false} RunStaysFull(states: seq<AofRewrite.Server<Data>>, steps: seq<AofRewrite.Step>,
                                        apply: (Data, nat, Command) -> Data, limit: nat, k: nat)
    requires limit > 0 && Serves(apply) && SnapshotRun(states, steps, apply, limit) && k < |states|
    ensures Full(states[k].data)
  {
    hide Serves, Snapshots, AofRewrite.Apply, AofRewrite.Enabled, Full;
    if k > 0 {
      RunStaysFull(states, steps, apply, limit, k - 1);
      StepKeepsFull(states[k - 1], steps[k - 1], apply);
    } else {
      NothingHollow();
    }
  }

  lemma NothingHollow()
    ensures Full(map[])
  {}

  /** The runs above are runs of the rewrite: what is proved of those needs no assumption about snapshots. */
  lemma SnapshotRunIsRun(states: seq<AofRewrite.Server<Data>>, steps: seq<AofRewrite.Step>, apply: (Data, nat, Command) -> Data, limit: nat)
    requires limit > 0 && Serves(apply) && SnapshotRun(states, steps, apply, limit)
    ensures AofRewrite.Run(states, steps, map[], apply)
  {
    hide Serves, Snapshots, AofRewrite.Apply, AofRewrite.Enabled, AofRewrite.Faithful, Full;
    forall i | 0 <= i < |steps| ensures AofRewrite.Faithful(states[i], map[], apply, steps[i]) {
      assert steps[i] == steps[i];
      RunStaysFull(states, steps, apply, limit, i);
      ForkIsFaithful(states[i], steps[i], apply, limit);
    }
  }

  /** In such a run, replaying the file of a rewrite that succeeds gives the dataset. */
  lemma RewriteKeepsDataset(states: seq<AofRewrite.Server<Data>>, steps: seq<AofRewrite.Step>, apply: (Data, nat, Command) -> Data,
                            limit: nat, n: nat)
    requires limit > 0 && Serves(apply) && SnapshotRun(states, steps, apply, limit)
    requires n < |steps| && steps[n] == AofRewrite.Reap(true) && !states[n].state.Off?
    ensures var log := states[n].snapshot + states[n].fed;
            && states[n + 1].file == EncodeAll(log)
            && AofRewrite.Replay(apply, log, AofRewrite.Replayed(map[], 0)).data == states[n].data == states[n + 1].data
  {
    hide Serves, SnapshotRun, AofRewrite.Run, EncodeAll, AofRewrite.Replay;
    SnapshotRunIsRun(states, steps, apply, limit);
    AofRewrite.RewriteDeliversOnce(states, steps, map[], apply, n);
  }

  // Expiries

  /** What a command does to the key it names when it is executed at some time. */
  function ExecutedAt(data: Data, db: nat, proc: AofRewrite.Proc, c: Command, now: nat): Data
    requires AofRewrite.WellFormed(proc, c) && !proc.Plain?
  {
    var n := Name(db, c[1]);
    match proc
    case SetCommand =>
      var ex := if |c| == 3 then None else AofRewrite.OptionBefore(c, 'e', |c|);
      var px := if |c| == 3 then None else AofRewrite.OptionBefore(c, 'p', |c|);
      data[n := Entry(Str(c[2]), if ex.Some? then At(1000 * ReadNumber(ex.value) + now)
                                 else if px.Some? then At(ReadNumber(px.value) + now) else None)]
    case SetEx => data[n := Entry(Str(c[3]), At(1000 * ReadNumber(c[2]) + now))]
    case PSetEx => data[n := Entry(Str(c[3]), At(ReadNumber(c[2]) + now))]
    case Expire => WithExpire(data, n, 1000 * ReadNumber(c[2]) + now)
    case PExpire => WithExpire(data, n, ReadNumber(c[2]) + now)
    case ExpireAt => WithExpire(data, n, 1000 * ReadNumber(c[2]))
  }

  /** A time before 1970 is no expiry here. */
  function At(ms: int): Option<nat> {
    if ms < 0 then None else Some(ms)
  }

  function WithExpire(data: Data, n: Name, ms: int): Data {
    if n in data && ms >= 0 then data[n := data[n].(expire := Some(ms))] else data
  }

  lemma PExpireAtRebuilds(data: Data, db: nat, key: string, ms: int)
    ensures Rebuild(data, db, AofRewrite.PExpireAt(key, ms)) == WithExpire(data, Name(db, key), ms)
  {
    hide ReadNumber, Decimal;
    if ms < 0 { NegativeReads(-ms); } else {
      NumberRoundTrip(ms, "");
      assert Decimal(ms) + "" == Decimal(ms);
    }
  }

  lemma NegativeReads(n: nat)
    requires n > 0
    ensures ReadNumber("-" + Decimal(n)) < 0
  {
    NumberRoundTrip(n, "");
    assert Decimal(n) + "" == Decimal(n) && ("-" + Decimal(n))[1..] == Decimal(n);
  }

  lemma RebuildOne(data: Data, db: nat, c: Command)
    ensures RebuildAll(data, db, [c]) == Rebuild(data, db, c)
  {
    assert [c][1..] == [];
  }

  lemma RebuildTwo(data: Data, db: nat, a: Command, b: Command)
    ensures RebuildAll(data, db, [a, b]) == Rebuild(Rebuild(data, db, a), db, b)
  {
    assert [a, b][1..] == [b];
    RebuildOne(Rebuild(data, db, a), db, b);
  }

  /** A SET followed by an expiry. */
  lemma SetThenExpire(data: Data, db: nat, key: string, value: string, ms: int)
    ensures RebuildAll(data, db, [["SET", key, value], AofRewrite.PExpireAt(key, ms)]) == data[Name(db, key) := Entry(Str(value), At(ms))]
  {
    hide AofRewrite.PExpireAt;
    var c := ["SET", key, value];
    RebuildTwo(data, db, c, AofRewrite.PExpireAt(key, ms));
    PExpireAtRebuilds(Rebuild(data, db, c), db, key, ms);
  }

  /** What is logged for a SET with options. */
  lemma SetOptions(data: Data, db: nat, c: Command, fed: nat)
    requires AofRewrite.WellFormed(AofRewrite.SetCommand, c) && c[0] == "SET"
    ensures RebuildAll(data, db, AofRewrite.Translated(AofRewrite.SetCommand, c, fed)) == ExecutedAt(data, db, AofRewrite.SetCommand, c, fed)
  {
    hide AofRewrite.OptionBefore, ReadNumber, AofRewrite.PExpireAt, RebuildAll;
    var cs, stored := AofRewrite.Translated(AofRewrite.SetCommand, c, fed), ["SET", c[1], c[2]];
    assert c[..3] == stored && (|c| == 3 ==> c == stored);
    var ex := if |c| == 3 then None else AofRewrite.OptionBefore(c, 'e', |c|);
    var px := if |c| == 3 then None else AofRewrite.OptionBefore(c, 'p', |c|);
    if ex.Some? {
      SetThenExpire(data, db, c[1], c[2], AofRewrite.When(AofRewrite.Expire, ex.value, fed));
      assert cs == [stored, AofRewrite.PExpireAt(c[1], AofRewrite.When(AofRewrite.Expire, ex.value, fed))];
    } else if px.Some? {
      SetThenExpire(data, db, c[1], c[2], AofRewrite.When(AofRewrite.PExpire, px.value, fed));
      assert cs == [stored, AofRewrite.PExpireAt(c[1], AofRewrite.When(AofRewrite.PExpire, px.value, fed))];
    } else {
      RebuildOne(data, db, stored);
      assert cs == [stored];
    }
  }

  /** What is logged for a command that sets an expiry does, whenever it is replayed, what the command does at the time it is fed. */
  lemma ExpiryIsAbsolute(data: Data, db: nat, proc: AofRewrite.Proc, c: Command, fed: nat)
    requires AofRewrite.WellFormed(proc, c) && !proc.Plain? && (proc.SetCommand? ==> c[0] == "SET")
    ensures RebuildAll(data, db, AofRewrite.Translated(proc, c, fed)) == ExecutedAt(data, db, proc, c, fed)
  {
    hide AofRewrite.OptionBefore, ReadNumber, AofRewrite.PExpireAt, RebuildAll, Rebuild;
    if proc.SetCommand? {
      SetOptions(data, db, c, fed);
    } else {
      var when := AofRewrite.When(proc, c[2], fed);
      if proc.SetEx? || proc.PSetEx? {
        SetThenExpire(data, db, c[1], c[3], when);
      } else {
        RebuildOne(data, db, AofRewrite.PExpireAt(c[1], when));
        PExpireAtRebuilds(data, db, c[1], when);
      }
    }
  }
}
