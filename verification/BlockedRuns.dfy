/**
 What clients blocked on keys see over whole sessions: any sequence of blocks, timeouts, commands that
 change keys, and handling of the keys that became ready. A session leaves a trace of what was seen
 before and after each operation.
 */
module BlockedRuns {
  import opened Common
  import opened Blocked

  datatype Op =
    | Block(client: Client, kind: Kind, keys: seq<Key>, target: Option<Key>, head: bool)
    | Leave(client: Client)
    | PushTo(key: Key, elem: Elem, head: bool)
    | AddTo(key: Key, items: seq<Elem>)
    | Store(key: Key, value: Value)
    | Drop(key: Key)
    | Handle

  /** The clients that block on the key all wait for the same kind of value. */
  ghost predicate OneKind(ops: seq<Op>, k: Key) {
    forall i, j :: 0 <= i < |ops| && 0 <= j < |ops| && ops[i].Block? && ops[j].Block? && k in ops[i].keys && k in ops[j].keys
                   ==> ops[i].kind == ops[j].kind
  }

  /** Whoever waits on a key blocked on it. */
  ghost predicate Asked(clients: map<Client, Info>, ops: seq<Op>) {
    forall c, k :: c in clients && k in clients[c].keys && !clients[c].kind.Free? ==>
      exists i :: 0 <= i < |ops| && ops[i].Block? && k in ops[i].keys && ops[i].kind == clients[c].kind
  }

  lemma AskedMore(clients: map<Client, Info>, after: map<Client, Info>, ops: seq<Op>, more: seq<Op>)
    requires Asked(clients, ops) && Fewer(clients, after) && ops <= more
    ensures Asked(after, more)
  {
    forall c, k | c in after && k in after[c].keys && !after[c].kind.Free?
      ensures exists i :: 0 <= i < |more| && more[i].Block? && k in more[i].keys && more[i].kind == after[c].kind
    {
      var i :| 0 <= i < |ops| && ops[i].Block? && k in ops[i].keys && ops[i].kind == clients[c].kind;
      assert more[i] == ops[i];
    }
  }

  lemma AskedNow(clients: map<Client, Info>, ops: seq<Op>, op: Op, info: Info)
    requires Asked(clients, ops) && op.Block? && op.client in clients && info.kind == op.kind && info.keys == set k | k in op.keys
    ensures Asked(clients[op.client := info], ops + [op])
  {
    var more := ops + [op];
    assert more[|ops|] == op;
    forall c, k | c in clients && c != op.client && k in clients[c].keys && !clients[c].kind.Free?
      ensures exists i :: 0 <= i < |more| && more[i].Block? && k in more[i].keys && more[i].kind == clients[c].kind
    {
      var i :| 0 <= i < |ops| && ops[i].Block? && k in ops[i].keys && ops[i].kind == clients[c].kind;
      assert more[i] == ops[i];
    }
  }

  /** If all clients of a key want the same kind, a client that blocks finds only such clients there. */
  lemma StaysPure(clients: map<Client, Info>, waiting: map<Key, seq<Client>>, ops: seq<Op>, j: nat, k: Key)
    requires Mutual(clients, waiting) && j < |ops| && ops[j].Block? && k in ops[j].keys && OneKind(ops, k)
    requires Asked(clients, ops[..j]) && forall c :: c in clients ==> (clients[c].kind.Free? <==> clients[c].keys == {})
    ensures OnlyKind(clients, Waiters(waiting, k), ops[j].kind)
  {
    forall c | c in Waiters(waiting, k) ensures c in clients && clients[c].kind == ops[j].kind {
      assert c in clients && k in clients[c].keys;
      var i :| 0 <= i < j && ops[..j][i].Block? && k in ops[..j][i].keys && ops[..j][i].kind == clients[c].kind;
      assert ops[i] == ops[..j][i];
    }
  }

  // What one operation does

  /** What is seen of a server between two operations. */
  datatype Snap = Snap(
    clients: map<Client, Info>, waiting: map<Key, seq<Client>>, db: map<Key, Value>, ready: set<Key>, log: seq<Reply>,
    clock: nat, mixed: set<Key>)

  ghost function Seen(s: Server): Snap
    reads s
  {
    Snap(s.clients, s.waiting, s.db, s.readySet, s.log, s.clock, s.mixed)
  }

  /** A client that can start to wait. */
  predicate CanBlock(a: Snap, op: Op) {
    op.Block? && op.client in a.clients && a.clients[op.client].kind.Free? && !op.kind.Free? && op.keys != []
  }

  predicate IsWaiting(a: Snap, c: Client) {
    c in a.clients && !a.clients[c].kind.Free?
  }

  function InfoOf(op: Op, since: nat): Info
    requires op.Block?
  {
    Info(op.kind, (set k | k in op.keys), op.target, op.head, since)
  }

  ghost predicate Blocks(a: Snap, op: Op, b: Snap)
    requires op.Block? && op.client in a.clients
  {
    && b == a.(clients := a.clients[op.client := InfoOf(op, a.clock)], waiting := b.waiting, clock := a.clock + 1,
               mixed := a.mixed + set k | k in op.keys && !OnlyKind(a.clients, Waiters(a.waiting, k), op.kind))
    && forall k :: Waiters(b.waiting, k) == Waiters(a.waiting, k) + if k in op.keys then [op.client] else []
  }

  ghost predicate Leaves(a: Snap, c: Client, b: Snap)
    requires c in a.clients
  {
    && b == a.(clients := a.clients[c := a.clients[c].(kind := Free, keys := {}, target := None)], waiting := b.waiting)
    && forall k :: Waiters(b.waiting, k) == Without(Waiters(a.waiting, k), c)
  }

  /** A key gets a value; if it is new and can be waited for, it is queued when somebody waits. */
  function Sets(a: Snap, key: Key, v: Value): Snap {
    a.(db := a.db[key := v], ready := if key !in a.db && !v.Other? && key in a.waiting then a.ready + {key} else a.ready)
  }

  /** The key holds nothing that a client waiting on it wants. */
  ghost predicate QuietIn(a: Snap, k: Key) {
    Quiet(a.db, a.clients, a.waiting, k)
  }

  ghost predicate AllCalm(a: Snap) {
    forall k :: QuietIn(a, k) || k in a.ready
  }

  ghost predicate Handles(a: Snap, b: Snap) {
    && a.log <= b.log && b.clock == a.clock && b.mixed == a.mixed && b.ready == {}
    && Serviced(a.db, a.clients, a.waiting, b.db, b.clients, b.waiting, b.log[|a.log|..])
    && (AllCalm(a) ==> forall k :: QuietIn(b, k))
  }

  ghost predicate Does(a: Snap, op: Op, b: Snap) {
    match op
    case Block(c, _, _, _, _) => if CanBlock(a, op) then Blocks(a, op, b) else b == a
    case Leave(c) => if IsWaiting(a, c) then Leaves(a, c, b) else b == a
    case PushTo(key, elem, head) =>
      b == if key in a.db && !a.db[key].List? then a else Sets(a, key, List(Pushed(Items(a.db, key), elem, head)))
    case AddTo(key, items) => b == if items == [] || (key in a.db && !a.db[key].Zset?) then a else Sets(a, key, Zset(items))
    case Store(key, v) => b == if !v.Other? && v.items == [] then a else Sets(a, key, v)
    case Drop(key) => b == a.(db := a.db - {key})
    case Handle => Handles(a, b)
  }

  method PerformChange(s: Server, op: Op)
    requires s.Valid() && (op.PushTo? || op.AddTo? || op.Store? || op.Drop?)
    modifies s
    ensures s.Valid() && Does(old(Seen(s)), op, Seen(s))
  {
    hide Server.Consistent, Server.InOrder, Server.NoEmptyList, Server.Calm, Pushed;
    match op
    case PushTo(key, elem, head) => var _ := s.Push(key, elem, head);
    case AddTo(key, items) => if items != [] { var _ := s.AddToZset(key, items); }
    case Store(key, v) => if v.Other? || v.items != [] { s.SetKey(key, v); }
    case Drop(key) => s.Delete(key);
  }

  method PerformHandle(s: Server)
    requires s.Valid()
    modifies s
    ensures s.Valid() && Does(old(Seen(s)), Handle, Seen(s))
  {
    hide Server.InOrder, Server.NoEmptyList, Elements, Taken, Serviced, Fewer, Quiet, Mutual, Counted;
    ghost var a := Seen(s);
    if AllCalm(a) { assert forall k :: QuietIn(a, k) || k in a.ready ==> s.Calm(k); }
    ghost var _ := s.HandleClientsBlockedOnKeys();
    assert s.readySet == {};
  }

  /** Carries out an operation, if the client it names is connected and in a state to cause it. */
  method Perform(s: Server, op: Op)
    requires s.Valid()
    modifies s
    ensures s.Valid() && Does(old(Seen(s)), op, Seen(s))
  {
    hide Server.Consistent, Server.InOrder, Server.NoEmptyList, Server.Calm, OnlyKind, Handles, Sets;
    match op
    case Block(c, kind, keys, target, head) =>
      if c in s.clients && s.clients[c].kind.Free? && !kind.Free? && keys != [] { s.BlockForKeys(c, kind, keys, target, head); }
    case Leave(c) => if c in s.clients && !s.clients[c].kind.Free? { s.GiveUp(c); }
    case Handle => PerformHandle(s);
    case _ => PerformChange(s, op);
  }

  // Order

  lemma ClientsAfter(a: Snap, op: Op, b: Snap)
    requires Does(a, op, b)
    ensures if CanBlock(a, op)
            then && b.clients == a.clients[op.client := InfoOf(op, a.clock)]
                 && b.mixed == a.mixed + set k | k in op.keys && !OnlyKind(a.clients, Waiters(a.waiting, k), op.kind)
            else Fewer(a.clients, b.clients) && b.mixed == a.mixed
  {
    hide OnlyKind, AfterReplies, Explains, Remains;
  }

  /** A client is in a key's list exactly if it waits on the key, and waits exactly if there is such a key. */
  ghost predicate Indexed(a: Snap) {
    Mutual(a.clients, a.waiting) && forall c :: c in a.clients ==> (a.clients[c].kind.Free? <==> a.clients[c].keys == {})
  }

  /** The trace of a session. */
  ghost predicate Traces(trace: seq<Snap>, ops: seq<Op>) {
    && |trace| == |ops| + 1 && (forall i :: 0 <= i < |trace| ==> Indexed(trace[i]))
    && forall i {:trigger ops[i]} :: 0 <= i < |ops| ==> Does(trace[i], ops[i], trace[i + 1])
  }

  /** Nobody waits and nothing is stored yet. */
  ghost predicate AtFirst(a: Snap, connected: set<Client>) {
    && a.clients.Keys == connected && (forall c :: c in a.clients ==> a.clients[c].kind.Free?)
    && a == Snap(a.clients, map[], map[], {}, [], 0, {})
  }

  /**
   Whatever clients and commands do, each operation does what it should; and a key whose list never held
   clients of different kinds serves them in the order in which they blocked, as does every key that is
   used for one kind only.
   */
  method Session(connected: set<Client>, ops: seq<Op>) returns (s: Server, ghost trace: seq<Snap>)
    ensures fresh(s) && s.Valid() && s.InOrder()
    ensures Traces(trace, ops) && AtFirst(trace[0], connected) && trace[|ops|] == Seen(s)
    ensures forall k :: OneKind(ops, k) ==> s.Tidy(k)
  {
    hide Server.Tidy, OneKind, Asked, Fewer, OnlyKind, Mutual, Counted, ListsFull, Does, CanBlock;
    s := new Server(connected);
    trace := [Seen(s)];
    NobodyAsked(s.clients);
    for j := 0 to |ops|
      invariant s.Valid() && fresh(s) && Asked(s.clients, ops[..j])
      invariant |trace| == j + 1 && trace[j] == Seen(s) && AtFirst(trace[0], connected)
      invariant forall i :: 0 <= i <= j ==> Indexed(trace[i])
      invariant forall i {:trigger ops[i]} :: 0 <= i < j ==> Does(trace[i], ops[i], trace[i + 1])
      invariant forall k :: OneKind(ops, k) ==> k !in s.mixed
    {
      ghost var a := Seen(s);
      Perform(s, ops[j]);
      trace := trace + [Seen(s)];
      ClientsAfter(a, ops[j], Seen(s));
      StillAsked(a, Seen(s), ops, j);
    }
    assert ops[..|ops|] == ops;
  }

  lemma StillAsked(a: Snap, b: Snap, ops: seq<Op>, j: nat)
    requires j < |ops| && Asked(a.clients, ops[..j]) && Mutual(a.clients, a.waiting)
    requires forall c :: c in a.clients ==> (a.clients[c].kind.Free? <==> a.clients[c].keys == {})
    requires if CanBlock(a, ops[j])
             then && b.clients == a.clients[ops[j].client := InfoOf(ops[j], a.clock)]
                  && b.mixed == a.mixed + set k | k in ops[j].keys && !OnlyKind(a.clients, Waiters(a.waiting, k), ops[j].kind)
             else Fewer(a.clients, b.clients) && b.mixed == a.mixed
    ensures Asked(b.clients, ops[..j + 1])
    ensures forall k :: OneKind(ops, k) && k !in a.mixed ==> k !in b.mixed
  {
    hide Asked, OneKind, OnlyKind, Fewer, Mutual;
    assert ops[..j + 1] == ops[..j] + [ops[j]];
    if CanBlock(a, ops[j]) {
      AskedNow(a.clients, ops[..j], ops[j], InfoOf(ops[j], a.clock));
      forall k | k in ops[j].keys && OneKind(ops, k) ensures OnlyKind(a.clients, Waiters(a.waiting, k), ops[j].kind) {
        StaysPure(a.clients, a.waiting, ops, j, k);
      }
    } else {
      AskedMore(a.clients, b.clients, ops[..j], ops[..j + 1]);
    }
  }

  lemma NobodyAsked(clients: map<Client, Info>)
    requires forall c :: c in clients ==> clients[c].kind.Free?
    ensures Asked(clients, [])
  {}

  // What becomes of a client that blocks

  predicate WaitsSince(a: Snap, c: Client, t: nat) {
    IsWaiting(a, c) && a.clients[c].since == t
  }

  /** Every block has a time of its own: no two clients wait since the same time, and a reply ends the wait since its time. */
  ghost predicate Stamped(a: Snap) {
    && (forall c :: IsWaiting(a, c) ==> a.clients[c].since < a.clock)
    && (forall c, d :: IsWaiting(a, c) && IsWaiting(a, d) && a.clients[c].since == a.clients[d].since ==> c == d)
    && (forall i :: 0 <= i < |a.log| ==> a.log[i].since < a.clock)
    && (forall i, c :: 0 <= i < |a.log| && IsWaiting(a, c) ==> a.log[i].since != a.clients[c].since)
    && (forall i, j :: 0 <= i < j < |a.log| ==> a.log[i].since != a.log[j].since)
  }

  /** What handling adds to the log: replies to clients that waited and do not any more, one each. */
  lemma Answers(a: Snap, b: Snap, i: nat)
    requires Handles(a, b) && |a.log| <= i < |b.log|
    ensures var r := b.log[i];
            && IsWaiting(a, r.client) && !IsWaiting(b, r.client) && r.since == a.clients[r.client].since
            && r.key in a.clients[r.client].keys
            && forall j :: |a.log| <= j < |b.log| && b.log[j].client == r.client ==> j == i
  {
    hide AfterReplies, Explains, Remains, Quiet;
    var replies := b.log[|a.log|..];
    var k := i - |a.log|;
    assert replies[k] == b.log[i];
    AnsweredAt(a, b, replies, k);
    forall j | |a.log| <= j < |b.log| && b.log[j].client == b.log[i].client ensures j == i {
      assert replies[j - |a.log|] == b.log[j];
    }
  }

  lemma AnsweredAt(a: Snap, b: Snap, replies: seq<Reply>, k: nat)
    requires Serviced(a.db, a.clients, a.waiting, b.db, b.clients, b.waiting, replies) && k < |replies|
    ensures var c := replies[k].client;
            && IsWaiting(a, c) && c in b.clients && b.clients[c].kind.Free?
            && replies[k].since == a.clients[c].since && replies[k].key in a.clients[c].keys
            && forall j :: 0 <= j < |replies| && replies[j].client == c ==> j == k
  {
    hide Serviced, Explains;
    ServicedExplains(a, b, replies);
    ReplyWasRight(a.db, a.clients, replies, k);
    AnsweredOnce(a.db, a.clients, a.waiting, b.db, b.clients, b.waiting, replies, replies[k].client);
    assert replies[k].client in Gone(replies);
  }

  lemma ServicedExplains(a: Snap, b: Snap, replies: seq<Reply>)
    requires Serviced(a.db, a.clients, a.waiting, b.db, b.clients, b.waiting, replies)
    ensures Explains(a.db, a.clients, replies)
  {}

  /** Whoever waits after handling waited before, in the same way. */
  lemma StillWaits(a: Snap, b: Snap, c: Client)
    requires Handles(a, b)
    ensures IsWaiting(b, c) ==> IsWaiting(a, c) && b.clients[c] == a.clients[c]
    ensures IsWaiting(a, c) && !IsWaiting(b, c) ==> exists i :: |a.log| <= i < |b.log| && b.log[i].client == c
  {
    hide AfterReplies, Explains, Remains, Quiet;
    var replies := b.log[|a.log|..];
    if IsWaiting(a, c) && !IsWaiting(b, c) {
      var k := ReplyTo(replies, c);
      assert b.log[|a.log| + k] == replies[k];
    }
  }

  lemma HandleKeepsStamped(a: Snap, b: Snap)
    requires Stamped(a) && Handles(a, b)
    ensures Stamped(b)
  {
    hide Serviced, Quiet, AllCalm;
    forall c ensures IsWaiting(b, c) ==> IsWaiting(a, c) && b.clients[c] == a.clients[c] { StillWaits(a, b, c); }
    forall i | |a.log| <= i < |b.log|
      ensures var r := b.log[i];
              && IsWaiting(a, r.client) && !IsWaiting(b, r.client) && r.since == a.clients[r.client].since
              && forall j :: |a.log| <= j < |b.log| && b.log[j].client == r.client ==> j == i
    {
      Answers(a, b, i);
    }
    assert forall i :: 0 <= i < |a.log| ==> b.log[i] == a.log[i];
    forall i, j | 0 <= i < j < |b.log| ensures b.log[i].since != b.log[j].since {
      if j >= |a.log| && i >= |a.log| { assert b.log[i].client != b.log[j].client; }
    }
  }

  lemma StepKeepsStamped(a: Snap, op: Op, b: Snap)
    requires Stamped(a) && Does(a, op, b)
    ensures Stamped(b)
  {
    hide Serviced, Quiet, AllCalm, Handles, OnlyKind;
    if op.Handle? { HandleKeepsStamped(a, b); }
  }

  lemma {:induction false} RunStaysStamped(trace: seq<Snap>, ops: seq<Op>, connected: set<Client>, n: nat)
    requires Traces(trace, ops) && AtFirst(trace[0], connected) && n <= |ops|
    ensures Stamped(trace[n])
  {
    hide Does, Stamped;
    if n == 0 {
      FirstIsStamped(trace[0], connected);
    } else {
      RunStaysStamped(trace, ops, connected, n - 1);
      StepKeepsStamped(trace[n - 1], ops[n - 1], trace[n]);
    }
  }

  lemma FirstIsStamped(a: Snap, connected: set<Client>)
    requires AtFirst(a, connected)
    ensures Stamped(a)
  {}

  /** There is exactly one reply to the block of that time, and it is from one of its keys to its client. */
  ghost predicate RepliedOnce(a: Snap, op: Op, t: nat)
    requires op.Block?
  {
    exists i :: 0 <= i < |a.log| && a.log[i].since == t && a.log[i].client == op.client && a.log[i].key in op.keys
                && forall j :: 0 <= j < |a.log| && a.log[j].since == t ==> j == i
  }

  ghost predicate NoReply(a: Snap, t: nat) {
    forall i :: 0 <= i < |a.log| ==> a.log[i].since != t
  }

  /** The client gave up the wait since that time, at some operation from i on. */
  ghost predicate GaveUp(trace: seq<Snap>, ops: seq<Op>, c: Client, t: nat, i: nat, n: nat)
    requires n <= |ops| && |trace| == |ops| + 1
  {
    exists m :: i <= m < n && ops[m] == Leave(c) && WaitsSince(trace[m], c, t)
  }

  /** The client still waits as it asked to, or it was answered exactly once, or it gave up: one of the three. */
  ghost predicate Fated(trace: seq<Snap>, ops: seq<Op>, i: nat, n: nat)
    requires i < n <= |ops| && |trace| == |ops| + 1 && ops[i].Block?
  {
    var op, t, a := ops[i], trace[i].clock, trace[n];
    if IsWaiting(a, op.client) && a.clients[op.client].since == t
    then a.clients[op.client] == InfoOf(op, t) && NoReply(a, t) && !GaveUp(trace, ops, op.client, t, i, n)
    else (RepliedOnce(a, op, t) && !GaveUp(trace, ops, op.client, t, i, n)) || (NoReply(a, t) && GaveUp(trace, ops, op.client, t, i, n))
  }

  lemma GaveUpMore(trace: seq<Snap>, ops: seq<Op>, c: Client, t: nat, i: nat, n: nat)
    requires i <= n < |ops| && |trace| == |ops| + 1
    ensures GaveUp(trace, ops, c, t, i, n + 1) <==> GaveUp(trace, ops, c, t, i, n) || (ops[n] == Leave(c) && WaitsSince(trace[n], c, t))
  {
    if GaveUp(trace, ops, c, t, i, n) {
      var m :| i <= m < n && ops[m] == Leave(c) && WaitsSince(trace[m], c, t);
      assert ops[m] == Leave(c);
    }
    if ops[n] == Leave(c) && WaitsSince(trace[n], c, t) { assert ops[n] == Leave(c); }
  }

  /** Nobody waits since a time that is over, and nobody will. */
  ghost predicate Over(a: Snap, t: nat) {
    t < a.clock && forall c :: !WaitsSince(a, c, t)
  }

  lemma OverStays(a: Snap, op: Op, b: Snap, t: nat)
    requires Does(a, op, b) && Stamped(a) && Over(a, t)
    ensures Over(b, t) && (NoReply(a, t) ==> NoReply(b, t))
    ensures forall o: Op :: o.Block? && RepliedOnce(a, o, t) ==> RepliedOnce(b, o, t)
  {
    hide Serviced, Quiet, AllCalm, OnlyKind, Handles;
    if op.Handle? {
      HandleKeepsOver(a, b, t);
    } else {
      forall c ensures !WaitsSince(b, c, t) { assert !WaitsSince(a, c, t); }
    }
  }

  lemma HandleKeepsOver(a: Snap, b: Snap, t: nat)
    requires Handles(a, b) && Over(a, t)
    ensures Over(b, t) && (NoReply(a, t) ==> NoReply(b, t))
    ensures forall o: Op :: o.Block? && RepliedOnce(a, o, t) ==> RepliedOnce(b, o, t)
  {
    hide Serviced, Quiet, AllCalm;
    forall c ensures !WaitsSince(b, c, t) {
      StillWaits(a, b, c);
      assert !WaitsSince(a, c, t);
    }
    assert forall i :: 0 <= i < |a.log| ==> b.log[i] == a.log[i];
    forall i | |a.log| <= i < |b.log| ensures b.log[i].since != t {
      Answers(a, b, i);
      assert !WaitsSince(a, b.log[i].client, t);
    }
    forall o: Op | o.Block? && RepliedOnce(a, o, t) ensures RepliedOnce(b, o, t) {
      var i :| 0 <= i < |a.log| && a.log[i].since == t && a.log[i].client == o.client && a.log[i].key in o.keys
               && forall j :: 0 <= j < |a.log| && a.log[j].since == t ==> j == i;
      assert b.log[i] == a.log[i];
    }
  }

  /** While a client waits, an operation leaves it waiting, answers it, or is its leaving. */
  lemma WaitGoesOn(a: Snap, op: Op, b: Snap, block: Op, t: nat)
    requires Does(a, op, b) && Stamped(a) && block.Block? && WaitsSince(a, block.client, t)
    requires a.clients[block.client] == InfoOf(block, t) && NoReply(a, t)
    ensures if op == Leave(block.client) then Over(b, t) && NoReply(b, t)
            else if WaitsSince(b, block.client, t) then b.clients[block.client] == InfoOf(block, t) && NoReply(b, t)
            else op.Handle? && Over(b, t) && RepliedOnce(b, block, t)
  {
    hide Serviced, Quiet, AllCalm, OnlyKind, Handles;
    if op.Handle? { HandledOrWaits(a, b, block, t); }
  }

  lemma HandledOrWaits(a: Snap, b: Snap, block: Op, t: nat)
    requires Handles(a, b) && Stamped(a) && block.Block? && WaitsSince(a, block.client, t)
    requires a.clients[block.client] == InfoOf(block, t) && NoReply(a, t)
    ensures if WaitsSince(b, block.client, t) then b.clients[block.client] == InfoOf(block, t) && NoReply(b, t)
            else Over(b, t) && RepliedOnce(b, block, t)
  {
    hide Serviced, Quiet, AllCalm;
    var c := block.client;
    assert forall i :: 0 <= i < |a.log| ==> b.log[i] == a.log[i];
    forall d ensures IsWaiting(b, d) ==> IsWaiting(a, d) && b.clients[d] == a.clients[d] { StillWaits(a, b, d); }
    forall i | |a.log| <= i < |b.log|
      ensures b.log[i].since == t ==> b.log[i].client == c && !IsWaiting(b, c)
      ensures b.log[i].client == c ==> b.log[i].since == t && b.log[i].key in block.keys
                                       && forall j :: |a.log| <= j < |b.log| && b.log[j].client == c ==> j == i
    {
      Answers(a, b, i);
    }
    StillWaits(a, b, c);
    if !IsWaiting(b, c) {
      var i :| |a.log| <= i < |b.log| && b.log[i].client == c;
      assert b.log[i].since == t;
      assert forall j :: 0 <= j < |b.log| && b.log[j].since == t ==> j == i;
    }
  }

  /**
   Through a whole session, a client that blocked still waits as it asked to, with no reply; or it was answered exactly
   once, from a key it asked for; or it gave up, without a reply. And once it waits no more, that block is over for good.
   */
  lemma {:induction false} FateOfBlock(trace: seq<Snap>, ops: seq<Op>, connected: set<Client>, i: nat, n: nat)
    requires Traces(trace, ops) && AtFirst(trace[0], connected) && i < n <= |ops| && CanBlock(trace[i], ops[i])
    ensures Fated(trace, ops, i, n) && (!WaitsSince(trace[n], ops[i].client, trace[i].clock) ==> Over(trace[n], trace[i].clock))
    decreases n
  {
    hide Does, Stamped, NoReply, RepliedOnce, GaveUp, Over;
    var op, t := ops[i], trace[i].clock;
    if n == i + 1 {
      RunStaysStamped(trace, ops, connected, i);
      JustBlocked(trace, ops, i);
    } else {
      FateOfBlock(trace, ops, connected, i, n - 1);
      RunStaysStamped(trace, ops, connected, n - 1);
      var a, b, last := trace[n - 1], trace[n], ops[n - 1];
      assert Does(a, last, b);
      GaveUpMore(trace, ops, op.client, t, i, n - 1);
      if WaitsSince(a, op.client, t) {
        WaitGoesOn(a, last, b, op, t);
        NotWaiting(b, op.client, t);
      } else {
        OverStays(a, last, b, t);
        NotWaiting(b, op.client, t);
      }
    }
  }

  lemma NotWaiting(a: Snap, c: Client, t: nat)
    ensures Over(a, t) ==> !WaitsSince(a, c, t)
  {}

  lemma JustBlocked(trace: seq<Snap>, ops: seq<Op>, i: nat)
    requires Traces(trace, ops) && i < |ops| && CanBlock(trace[i], ops[i]) && Stamped(trace[i])
    ensures Fated(trace, ops, i, i + 1) && WaitsSince(trace[i + 1], ops[i].client, trace[i].clock)
  {
    hide OnlyKind, Indexed, Does, NoReply;
    assert Does(trace[i], ops[i], trace[i + 1]);
    BlockStarts(trace[i], ops[i], trace[i + 1]);
  }

  lemma BlockStarts(a: Snap, op: Op, b: Snap)
    requires Does(a, op, b) && CanBlock(a, op) && Stamped(a)
    ensures IsWaiting(b, op.client) && b.clients[op.client] == InfoOf(op, a.clock) && NoReply(b, a.clock)
  {}

  // Nobody is left waiting for what is there

  /** A client blocks only when nothing it wants is there, and an overwriting value is not what a client waits for. */
  ghost predicate Polite(a: Snap, op: Op) {
    match op
    case Block(_, kind, keys, _, _) => forall k :: k in keys && k in a.db ==> Wanted(a.db[k]) != kind
    case Store(key, v) => key !in a.db || key in a.ready || forall c :: c in Waiters(a.waiting, key) ==> c in a.clients && a.clients[c].kind != Wanted(v)
    case _ => true
  }

  ghost predicate AllPolite(trace: seq<Snap>, ops: seq<Op>, n: nat)
    requires n <= |ops| && |trace| == |ops| + 1
  {
    forall i {:trigger ops[i]} :: 0 <= i < n ==> Polite(trace[i], ops[i])
  }

  lemma StaysCalm(a: Snap, op: Op, b: Snap)
    requires Does(a, op, b) && Indexed(a) && AllCalm(a) && Polite(a, op)
    ensures AllCalm(b)
  {
    hide Serviced, OnlyKind, Pushed, Handles, Indexed, Quiet;
    if op.Handle? {
      HandledIsQuiet(a, b);
    } else {
      forall k ensures QuietIn(b, k) || k in b.ready {
        assert QuietIn(a, k) || k in a.ready;
        KnownWaiters(a, k);
        if k !in a.ready {
          match op
          case Block(_, _, _, _, _) => BlockKeepsQuiet(a, op, b, k);
          case Leave(c) => if IsWaiting(a, c) { LeaveKeepsQuiet(a, c, b, k); }
          case Drop(key) => DropKeepsQuiet(a, b, key, k);
          case PushTo(key, elem, head) => if b != a { SetKeepsQuiet(a, key, List(Pushed(Items(a.db, key), elem, head)), k); }
          case AddTo(key, items) => if b != a { SetKeepsQuiet(a, key, Zset(items), k); }
          case Store(key, v) => if b != a { SetKeepsQuiet(a, key, v, k); }
        }
      }
    }
  }

  lemma BlockKeepsQuiet(a: Snap, op: Op, b: Snap, k: Key)
    requires op.Block? && Does(a, op, b) && Polite(a, op) && QuietIn(a, k) && Indexed(a)
    ensures QuietIn(b, k)
  {
    hide OnlyKind, Indexed;
    if CanBlock(a, op) { NotListed(a, op.client, k); }
  }

  lemma NotListed(a: Snap, c: Client, k: Key)
    requires Indexed(a) && c in a.clients && a.clients[c].kind.Free?
    ensures c !in Waiters(a.waiting, k)
  {}

  lemma LeaveKeepsQuiet(a: Snap, c: Client, b: Snap, k: Key)
    requires c in a.clients && Leaves(a, c, b) && QuietIn(a, k) && NoDup(Waiters(a.waiting, k))
    ensures QuietIn(b, k)
  {
    WithoutFacts(Waiters(a.waiting, k), c);
  }

  lemma DropKeepsQuiet(a: Snap, b: Snap, key: Key, k: Key)
    requires b == a.(db := a.db - {key}) && QuietIn(a, k)
    ensures QuietIn(b, k)
  {}

  /** A value of the same type, or one that nobody there waits for, or a new one, which is queued. */
  lemma SetKeepsQuiet(a: Snap, key: Key, v: Value, k: Key)
    requires QuietIn(a, k) && (k in a.waiting <==> Waiters(a.waiting, k) != [])
    requires key != k || key !in a.db || Wanted(a.db[key]) == Wanted(v)
             || forall c :: c in Waiters(a.waiting, key) ==> c in a.clients && a.clients[c].kind != Wanted(v)
    ensures QuietIn(Sets(a, key, v), k) || k in Sets(a, key, v).ready
  {
    if key == k && k !in a.waiting { assert Waiters(a.waiting, k) == []; }
  }

  lemma HandledIsQuiet(a: Snap, b: Snap)
    requires Handles(a, b) && AllCalm(a)
    ensures AllCalm(b)
  {
    hide Serviced, Quiet;
  }

  lemma KnownWaiters(a: Snap, k: Key)
    requires Indexed(a)
    ensures NoDup(Waiters(a.waiting, k)) && (k in a.waiting <==> Waiters(a.waiting, k) != [])
    ensures forall c :: c in Waiters(a.waiting, k) ==> c in a.clients
  {}

  /** As long as clients and commands are polite, no key that was handled holds anything that a client waiting on it wants. */
  lemma {:induction false} NobodyStarves(trace: seq<Snap>, ops: seq<Op>, connected: set<Client>, n: nat)
    requires Traces(trace, ops) && AtFirst(trace[0], connected) && n <= |ops|
    requires AllPolite(trace, ops, n)
    ensures AllCalm(trace[n]) && (n > 0 && ops[n - 1].Handle? ==> forall k :: QuietIn(trace[n], k))
  {
    hide Does, Polite, Indexed, Quiet;
    if n == 0 {
      NothingThere(trace[0], connected);
    } else {
      NobodyStarves(trace, ops, connected, n - 1);
      assert Does(trace[n - 1], ops[n - 1], trace[n]) && Polite(trace[n - 1], ops[n - 1]);
      StaysCalm(trace[n - 1], ops[n - 1], trace[n]);
      if ops[n - 1].Handle? { HandlesAll(trace[n - 1], trace[n]); }
    }
  }

  lemma HandlesAll(a: Snap, b: Snap)
    requires Does(a, Handle, b) && AllCalm(a)
    ensures forall k :: QuietIn(b, k)
  {
    hide Serviced, Quiet;
  }

  lemma NothingThere(a: Snap, connected: set<Client>)
    requires AtFirst(a, connected)
    ensures AllCalm(a)
  {}
}
