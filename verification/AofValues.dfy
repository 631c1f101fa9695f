/**
 The commands a rewrite emits to rebuild a list, a set or a hash. Items are written one by one;
 every so many items a new command is begun, whose header must announce how many are to follow.
 */
module AofValues {
  import opened Resp
  import AofLoad

  function Concat(items: seq<seq<string>>): seq<string> {
    if items == [] then [] else Concat(items[..|items| - 1]) + items[|items| - 1]
  }

  function Least(a: nat, b: nat): nat {
    if a < b then a else b
  }

  /** The items in commands of at most limit items each. */
  function Chunks(name: string, key: string, items: seq<seq<string>>, limit: nat): seq<Command>
    requires limit > 0
  {
    if items == [] then []
    else
      var n := Least(limit, |items|);
      [[name, key] + Concat(items[..n])] + Chunks(name, key, items[n..], limit)
  }

  predicate OfWidth(items: seq<seq<string>>, width: nat) {
    forall i :: 0 <= i < |items| ==> |items[i]| == width
  }

  lemma {:induction false} ConcatLength(items: seq<seq<string>>, width: nat)
    requires OfWidth(items, width)
    ensures |Concat(items)| == width * |items|
  {
    if items != [] {
      ConcatLength(items[..|items| - 1], width);
      assert width * |items| == width * (|items| - 1) + width;
    }
  }

  /** A number of items that fill whole commands. */
  predicate Whole(n: nat, limit: nat)
    requires limit > 0
  {
    n == 0 || (n >= limit && Whole(n - limit, limit))
  }

  lemma {:induction false} WholeGrows(n: nat, limit: nat)
    requires limit > 0 && Whole(n, limit)
    ensures Whole(n + limit, limit)
  {}

  /** One more command when the items before it fill whole commands. */
  lemma {:induction false} ChunksSnoc(name: string, key: string, items: seq<seq<string>>, more: seq<seq<string>>, limit: nat)
    requires limit > 0 && Whole(|items|, limit) && 0 < |more| <= limit
    ensures Chunks(name, key, items + more, limit) == Chunks(name, key, items, limit) + [[name, key] + Concat(more)]
    decreases |items|
  {
    hide Concat;
    if items == [] {
      assert items + more == more && more[..|more|] == more && more[|more|..] == [];
    } else {
      assert (items + more)[..limit] == items[..limit];
      assert (items + more)[limit..] == items[limit..] + more;
      ChunksSnoc(name, key, items[limit..], more, limit);
    }
  }

  /** The number of arguments of a command with n items. */
  function Argc(width: nat, n: nat): nat {
    2 + width * n
  }

  /** What has been written of a command that has begun: its header and its first arguments. */
  function Begun(name: string, key: string, count: nat, done: seq<seq<string>>): string {
    "*" + Decimal(count) + CRLF + EncodeArgs([name, key] + Concat(done))
  }

  lemma {:induction false} EncodeArgsConcat(a: seq<string>, b: seq<string>)
    ensures EncodeArgs(a + b) == EncodeArgs(a) + EncodeArgs(b)
  {
    hide EncodeArg;
    if a == [] {
      assert a + b == b;
    } else {
      assert (a + b)[1..] == a[1..] + b;
      EncodeArgsConcat(a[1..], b);
    }
  }

  lemma BegunSnoc(name: string, key: string, count: nat, done: seq<seq<string>>, item: seq<string>)
    ensures Begun(name, key, count, done + [item]) == Begun(name, key, count, done) + EncodeArgs(item)
  {
    assert (done + [item])[..|done|] == done;
    assert [name, key] + Concat(done + [item]) == ([name, key] + Concat(done)) + item;
    EncodeArgsConcat([name, key] + Concat(done), item);
  }

  lemma BegunIsCommand(name: string, key: string, count: nat, done: seq<seq<string>>, width: nat)
    requires OfWidth(done, width) && count == Argc(width, |done|)
    ensures Begun(name, key, count, done) == Encode([name, key] + Concat(done))
  {
    ConcatLength(done, width);
  }

  lemma {:induction false} EncodeAllSnoc(cmds: seq<Command>, cmd: Command)
    ensures EncodeAll(cmds + [cmd]) == EncodeAll(cmds) + Encode(cmd)
  {
    hide Encode;
    EncodeAllConcat(cmds, [cmd]);
    assert [cmd][1..] == [] && EncodeAll([cmd]) == Encode(cmd) + "";
  }

  lemma ChunkDone(name: string, key: string, items: seq<seq<string>>, more: seq<seq<string>>, width: nat, limit: nat)
    requires limit > 0 && Whole(|items|, limit) && 0 < |more| <= limit && OfWidth(more, width)
    ensures EncodeAll(Chunks(name, key, items + more, limit)) ==
            EncodeAll(Chunks(name, key, items, limit)) + Begun(name, key, Argc(width, |more|), more)
  {
    hide Encode, Begun, Concat;
    ChunksSnoc(name, key, items, more, limit);
    BegunIsCommand(name, key, Argc(width, |more|), more, width);
    EncodeAllSnoc(Chunks(name, key, items, limit), [name, key] + Concat(more));
  }

  /** Writes the items one after the other, a header whenever a command begins. */
  method RewriteItems(name: string, key: string, items: seq<seq<string>>, width: nat, limit: nat) returns (out: string)
    requires limit > 0 && OfWidth(items, width)
    ensures out == EncodeAll(Chunks(name, key, items, limit))
  {
    hide Chunks, Begun, EncodeAll, EncodeArgs, Concat, Decimal, Argc, Whole;
    out := "";
    NoChunks(name, key, limit);
    assert Whole(0, limit) by { WholeZero(limit); }
    var count, left := 0, |items|;
    ghost var start, flushed := 0, "";
    for i := 0 to |items|
      invariant left == |items| - i && count == i - start < limit && 0 <= start <= i
      invariant Whole(start, limit) && flushed == EncodeAll(Chunks(name, key, items[..start], limit))
      invariant out == flushed + if count == 0 then "" else
                  Begun(name, key, Argc(width, Least(limit, |items| - start)), items[start..i])
    {
      ghost var announced := Argc(width, Least(limit, |items| - start));
      if count == 0 {
        var n := if left > limit then limit else left;
        out := out + "*" + Decimal(Argc(width, n)) + CRLF + EncodeArgs([name, key]);
        assert items[start..i] == [];
        BegunEmpty(name, key, announced);
        assert out == flushed + Begun(name, key, announced, items[start..i]);
      }
      out := out + EncodeArgs(items[i]);
      BegunSnoc(name, key, announced, items[start..i], items[i]);
      assert items[start..i] + [items[i]] == items[start..i + 1];
      assert out == flushed + Begun(name, key, announced, items[start..i + 1]);
      count := count + 1;
      left := left - 1;
      if count == limit {
        count := 0;
        ChunkDone(name, key, items[..start], items[start..i + 1], width, limit);
        assert items[..start] + items[start..i + 1] == items[..i + 1];
        WholeGrows(start, limit);
        start, flushed := i + 1, out;
      }
    }
    if count > 0 {
      ChunkDone(name, key, items[..start], items[start..], width, limit);
      assert items[start..|items|] == items[start..];
    }
    assert items[..start] + items[start..] == items;
    assert count == 0 ==> items[..start] == items;
  }

  lemma WholeZero(limit: nat)
    requires limit > 0
    ensures Whole(0, limit)
  {}

  lemma NoChunks(name: string, key: string, limit: nat)
    requires limit > 0
    ensures EncodeAll(Chunks(name, key, [], limit)) == ""
  {}

  lemma BegunEmpty(name: string, key: string, count: nat)
    ensures Begun(name, key, count, []) == "*" + Decimal(count) + CRLF + EncodeArgs([name, key])
  {
    assert [name, key] + Concat([]) == [name, key];
  }

  // Replaying

  /** The items of a sequence of commands, without their names and keys. */
  function Payload(cmds: seq<Command>): seq<string> {
    if cmds == [] then []
    else (if |cmds[0]| >= 2 then cmds[0][2..] else []) + Payload(cmds[1..])
  }

  lemma {:induction false} ConcatAppend(a: seq<seq<string>>, b: seq<seq<string>>)
    ensures Concat(a + b) == Concat(a) + Concat(b)
  {
    if b == [] {
      assert a + b == a;
    } else {
      var k := |b| - 1;
      assert (a + b)[..|a| + k] == a + b[..k];
      ConcatAppend(a, b[..k]);
    }
  }

  /** Every command names the key and carries at least one and at most limit items, and all items are there in order. */
  lemma {:induction false} ChunksCarryItems(name: string, key: string, items: seq<seq<string>>, width: nat, limit: nat)
    requires limit > 0 && OfWidth(items, width)
    ensures Payload(Chunks(name, key, items, limit)) == Concat(items)
    ensures forall c :: c in Chunks(name, key, items, limit) ==>
      |c| >= 2 && c[0] == name && c[1] == key && 2 + width <= |c| <= 2 + width * limit
      && (forall a :: a in c[2..] ==> a in Concat(items)) && exists n :: |c| == 2 + width * n
    decreases |items|
  {
    if items != [] {
      var n := Least(limit, |items|);
      var head, tail := items[..n], items[n..];
      assert items == head + tail;
      ConcatAppend(head, tail);
      ConcatLength(head, width);
      MulBounds(width, n, limit);
      var first := [name, key] + Concat(head);
      assert first[2..] == Concat(head) && |first| == 2 + width * n;
      var rest := Chunks(name, key, tail, limit);
      assert Chunks(name, key, items, limit) == [first] + rest;
      assert ([first] + rest)[1..] == rest;
      ChunksCarryItems(name, key, tail, width, limit);
    }
  }

  lemma MulBounds(w: nat, n: nat, limit: nat)
    requires 0 < n <= limit
    ensures w <= w * n <= w * limit
  {}

  /** RPUSH appends its elements. */
  function ReplayList(cmds: seq<Command>, l: seq<string>): seq<string>
    decreases |cmds|
  {
    if cmds == [] then l else ReplayList(cmds[1..], l + if |cmds[0]| >= 2 then cmds[0][2..] else [])
  }

  /** SADD adds its elements. */
  function ReplaySet(cmds: seq<Command>, s: set<string>): set<string>
    decreases |cmds|
  {
    if cmds == [] then s
    else ReplaySet(cmds[1..], s + if |cmds[0]| >= 2 then (set a | a in cmds[0][2..]) else {})
  }

  function SetPairs(h: map<string, string>, args: seq<string>): map<string, string>
    decreases |args|
  {
    if |args| < 2 then h else SetPairs(h[args[0] := args[1]], args[2..])
  }

  /** HMSET sets its fields. */
  function ReplayHash(cmds: seq<Command>, h: map<string, string>): map<string, string>
    decreases |cmds|
  {
    if cmds == [] then h else ReplayHash(cmds[1..], SetPairs(h, if |cmds[0]| >= 2 then cmds[0][2..] else []))
  }

  lemma {:induction false} ReplayListIsPayload(cmds: seq<Command>, l: seq<string>)
    ensures ReplayList(cmds, l) == l + Payload(cmds)
    decreases |cmds|
  {
    if cmds != [] { ReplayListIsPayload(cmds[1..], l + if |cmds[0]| >= 2 then cmds[0][2..] else []); }
  }

  lemma {:induction false} ReplaySetIsPayload(cmds: seq<Command>, s: set<string>)
    ensures ReplaySet(cmds, s) == s + set a | a in Payload(cmds)
    decreases |cmds|
  {
    if cmds != [] {
      ReplaySetIsPayload(cmds[1..], s + if |cmds[0]| >= 2 then (set a | a in cmds[0][2..]) else {});
    }
  }

  lemma {:induction false} SetPairsConcat(h: map<string, string>, a: seq<string>, b: seq<string>)
    requires |a| % 2 == 0
    ensures SetPairs(h, a + b) == SetPairs(SetPairs(h, a), b)
    decreases |a|
  {
    if a == [] {
      assert a + b == b;
    } else {
      assert (a + b)[2..] == a[2..] + b;
      SetPairsConcat(h[a[0] := a[1]], a[2..], b);
    }
  }

  lemma {:induction false} ReplayHashIsPayload(cmds: seq<Command>, h: map<string, string>)
    requires forall i :: 0 <= i < |cmds| ==> |cmds[i]| >= 2 && |cmds[i]| % 2 == 0
    ensures ReplayHash(cmds, h) == SetPairs(h, Payload(cmds))
    decreases |cmds|
  {
    if cmds != [] {
      SetPairsConcat(h, cmds[0][2..], Payload(cmds[1..]));
      ReplayHashIsPayload(cmds[1..], SetPairs(h, cmds[0][2..]));
    }
  }

  // The three rewrites

  function Singles(l: seq<string>): seq<seq<string>> {
    seq(|l|, i requires 0 <= i < |l| => [l[i]])
  }

  lemma {:induction false} ConcatSingles(l: seq<string>)
    ensures Concat(Singles(l)) == l
  {
    if l != [] {
      var k := |l| - 1;
      assert Singles(l)[..k] == Singles(l[..k]);
      ConcatSingles(l[..k]);
    }
  }

  function Pairs(h: map<string, string>, fields: seq<string>): seq<seq<string>>
    requires forall f :: f in fields ==> f in h
  {
    seq(|fields|, i requires 0 <= i < |fields| => [fields[i], h[fields[i]]])
  }

  lemma {:induction false} PairsRebuild(h: map<string, string>, fields: seq<string>)
    requires forall f :: f in fields ==> f in h
    ensures SetPairs(map[], Concat(Pairs(h, fields))) == map f | f in fields :: h[f]
  {
    if fields != [] {
      var k := |fields| - 1;
      assert Pairs(h, fields)[..k] == Pairs(h, fields[..k]);
      PairsRebuild(h, fields[..k]);
      ConcatLength(Pairs(h, fields[..k]), 2);
      var last := [fields[k], h[fields[k]]];
      SetPairsConcat(map[], Concat(Pairs(h, fields[..k])), last);
      assert last[2..] == [];
    }
  }

  /** Each command has the name, the key and at most limit items. */
  predicate Announces(cmds: seq<Command>, name: string, key: string, most: nat) {
    forall c :: c in cmds ==> 2 < |c| <= 2 + most && c[0] == name && c[1] == key
  }

  lemma ListReplays(key: string, list: seq<string>, limit: nat)
    requires limit > 0
    ensures var cmds := Chunks("RPUSH", key, Singles(list), limit);
            ReplayList(cmds, []) == list && Announces(cmds, "RPUSH", key, limit)
  {
    hide Chunks, Payload;
    ChunksCarryItems("RPUSH", key, Singles(list), 1, limit);
    ConcatSingles(list);
    ReplayListIsPayload(Chunks("RPUSH", key, Singles(list), limit), []);
  }

  lemma SetReplays(key: string, members: seq<string>, limit: nat)
    requires limit > 0
    ensures var cmds := Chunks("SADD", key, Singles(members), limit);
            ReplaySet(cmds, {}) == (set m | m in members) && Announces(cmds, "SADD", key, limit)
  {
    hide Chunks, Payload;
    ChunksCarryItems("SADD", key, Singles(members), 1, limit);
    ConcatSingles(members);
    ReplaySetIsPayload(Chunks("SADD", key, Singles(members), limit), {});
  }

  lemma HashReplays(key: string, hash: map<string, string>, fields: seq<string>, limit: nat)
    requires limit > 0 && forall f :: f in fields <==> f in hash
    ensures var cmds := Chunks("HMSET", key, Pairs(hash, fields), limit);
            ReplayHash(cmds, map[]) == hash && Announces(cmds, "HMSET", key, 2 * limit)
  {
    hide Chunks, Payload, ReplayHash, SetPairs, Concat;
    var cmds := Chunks("HMSET", key, Pairs(hash, fields), limit);
    ChunksCarryItems("HMSET", key, Pairs(hash, fields), 2, limit);
    forall i | 0 <= i < |cmds| ensures |cmds[i]| >= 2 && |cmds[i]| % 2 == 0 { assert cmds[i] in cmds; }
    ReplayHashIsPayload(cmds, map[]);
    PairsRebuild(hash, fields);
    assert (map f | f in fields :: hash[f]) == hash;
  }

  /** A list is rewritten, in order. */
  method RewriteListObject(key: string, list: seq<string>, limit: nat) returns (out: string)
    requires limit > 0
    ensures var cmds := Chunks("RPUSH", key, Singles(list), limit);
            out == EncodeAll(cmds) && ReplayList(cmds, []) == list && Announces(cmds, "RPUSH", key, limit)
  {
    ListReplays(key, list, limit);
    out := RewriteItems("RPUSH", key, Singles(list), 1, limit);
  }

  /** A set is rewritten, in the order its iterator gives. */
  method RewriteSetObject(key: string, members: seq<string>, limit: nat) returns (out: string)
    requires limit > 0
    ensures var cmds := Chunks("SADD", key, Singles(members), limit);
            out == EncodeAll(cmds) && ReplaySet(cmds, {}) == (set m | m in members) && Announces(cmds, "SADD", key, limit)
  {
    SetReplays(key, members, limit);
    out := RewriteItems("SADD", key, Singles(members), 1, limit);
  }

  /** A hash is rewritten, in the order its iterator gives the fields. */
  method RewriteHashObject(key: string, hash: map<string, string>, fields: seq<string>, limit: nat) returns (out: string)
    requires limit > 0 && forall f :: f in fields <==> f in hash
    ensures var cmds := Chunks("HMSET", key, Pairs(hash, fields), limit);
            out == EncodeAll(cmds) && ReplayHash(cmds, map[]) == hash && Announces(cmds, "HMSET", key, 2 * limit)
  {
    HashReplays(key, hash, fields, limit);
    out := RewriteItems("HMSET", key, Pairs(hash, fields), 2, limit);
  }

  predicate Storable(s: string) {
    |s| < 0x8000_0000_0000_0000
  }

  lemma ChunkEncodable(c: Command, items: seq<string>)
    requires 2 <= |c| < 0x8000_0000 && Storable(c[0]) && Storable(c[1])
    requires (forall a :: a in c[2..] ==> a in items) && forall a :: a in items ==> Storable(a)
    ensures Encodable(c)
  {
    forall a | a in c ensures Storable(a) {
      if a !in c[2..] { assert a == c[0] || a == c[1]; }
    }
  }

  /** The loader reads a rewrite back as exactly these commands: the announced counts are right. */
  lemma LoaderReadsChunks(name: string, key: string, items: seq<seq<string>>, width: nat, limit: nat)
    requires limit > 0 && OfWidth(items, width) && items != [] && 2 + width * limit < 0x8000_0000
    requires Storable(name) && Storable(key) && forall a :: a in Concat(items) ==> Storable(a)
    ensures var cmds := Chunks(name, key, items, limit);
            var out := AofLoad.Load(EncodeAll(cmds), (_) => AofLoad.Other, true);
            out.Loaded? && out.ran == cmds
  {
    hide Concat, Payload, AofLoad.Load;
    var cmds := Chunks(name, key, items, limit);
    var kind: Command -> AofLoad.Kind := (_) => AofLoad.Other;
    ChunksCarryItems(name, key, items, width, limit);
    forall c | c in cmds ensures Encodable(c) { ChunkEncodable(c, Concat(items)); }
    AofLoad.WholeFileLoads(kind, cmds);
    AofLoad.AllRun(kind, cmds, AofLoad.Start);
  }
}
