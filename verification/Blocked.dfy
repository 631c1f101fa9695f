/**
 Clients blocked on keys. The index has two sides: each client's set of keys, and each key's list
 of waiting clients in blocking order. Keys that become available are queued and handled after
 the command that created them; serving a client may make further keys available. A key stands
 for a key of one database, so keys of different databases are different keys here.
 */
module Blocked {
  import opened Common

  type Key = string
  type Client = nat
  type Elem = string

  /** What a client waits for. */
  datatype Kind = Free | OnList | OnZset | OnStream

  /**
   A client: what it waits for, on which keys, where to push what it gets, from which end it pops,
   and how many blocks there had been before its last one.
   */
  datatype Info = Info(kind: Kind, keys: set<Key>, target: Option<Key>, head: bool, since: nat)

  /** A list, a sorted set in the order of its scores, or something nobody waits for here. */
  datatype Value = List(items: seq<Elem>) | Zset(items: seq<Elem>) | Other

  /** A reply to a client blocked since some time: an element of a key, moved to another list or taken out; or an error. */
  datatype Reply =
    | Delivered(client: Client, key: Key, since: nat, elem: Elem, moved: Option<Key>)
    | Refused(client: Client, key: Key, since: nat)

  // The index

  predicate NoDup<T(==)>(s: seq<T>) {
    forall i, j :: 0 <= i < j < |s| ==> s[i] != s[j]
  }

  lemma NoDupTail(s: seq<Key>)
    requires s != [] && NoDup(s)
    ensures NoDup(s[1..]) && s[0] !in s[1..] && forall m :: m in s <==> m == s[0] || m in s[1..]
  {}

  function Waiters(waiting: map<Key, seq<Client>>, k: Key): seq<Client> {
    if k in waiting then waiting[k] else []
  }

  /** No waiting list is empty or repeats a client, and a client is in a key's list exactly if the key is in its set. */
  predicate Mutual(clients: map<Client, Info>, waiting: map<Key, seq<Client>>) {
    && (forall k :: k in waiting ==> waiting[k] != [] && NoDup(waiting[k]))
    && (forall k, c :: k in waiting && c in waiting[k] ==> c in clients && k in clients[c].keys)
    && (forall c, k :: c in clients && k in clients[c].keys ==> k in waiting && c in waiting[k])
  }

  function Without(s: seq<Client>, c: Client): seq<Client> {
    if s == [] then [] else if s[0] == c then s[1..] else [s[0]] + Without(s[1..], c)
  }

  lemma {:induction false} WithoutFacts(s: seq<Client>, c: Client)
    requires NoDup(s)
    ensures NoDup(Without(s, c)) && forall d :: d in Without(s, c) <==> d in s && d != c
  {
    if s != [] {
      assert forall d :: d in s <==> d == s[0] || d in s[1..];
      if s[0] != c {
        WithoutFacts(s[1..], c);
        var t := Without(s[1..], c);
        assert s[0] !in s[1..] && s[0] !in t;
        assert Without(s, c) == [s[0]] + t;
      }
    }
  }

  function Added(waiting: map<Key, seq<Client>>, k: Key, c: Client): map<Key, seq<Client>> {
    waiting[k := Waiters(waiting, k) + [c]]
  }

  function Dropped(waiting: map<Key, seq<Client>>, k: Key, c: Client): map<Key, seq<Client>>
    requires k in waiting
  {
    var s := Without(waiting[k], c);
    if s == [] then waiting - {k} else waiting[k := s]
  }

  lemma AddKeepsMutual(clients: map<Client, Info>, waiting: map<Key, seq<Client>>, c: Client, k: Key)
    requires Mutual(clients, waiting) && c in clients && k !in clients[c].keys
    ensures Mutual(clients[c := clients[c].(keys := clients[c].keys + {k})], Added(waiting, k, c))
  {}

  lemma DropKeepsMutual(clients: map<Client, Info>, waiting: map<Key, seq<Client>>, c: Client, k: Key)
    requires Mutual(clients, waiting) && c in clients && k in clients[c].keys
    ensures Mutual(clients[c := clients[c].(keys := clients[c].keys - {k})], Dropped(waiting, k, c))
  {
    WithoutFacts(waiting[k], c);
    var s := Without(waiting[k], c);
    assert s != [] ==> s[0] in s;
    forall d, m | d in clients && d != c && m in clients[d].keys
      ensures m in Dropped(waiting, k, c) && d in Dropped(waiting, k, c)[m]
    {
      if m == k { assert d in s; }
    }
  }

  lemma AddedWaiters(waiting: map<Key, seq<Client>>, k: Key, c: Client, m: Key)
    ensures Waiters(Added(waiting, k, c), m) == Waiters(waiting, m) + if m == k then [c] else []
  {}

  lemma MutualAt(clients: map<Client, Info>, waiting: map<Key, seq<Client>>, c: Client, k: Key)
    requires Mutual(clients, waiting) && c in clients
    ensures k in clients[c].keys <==> c in Waiters(waiting, k)
    ensures k in waiting <==> Waiters(waiting, k) != []
    ensures NoDup(Waiters(waiting, k))
  {}

  lemma FirstWaiter(clients: map<Client, Info>, waiting: map<Key, seq<Client>>, k: Key)
    requires Mutual(clients, waiting) && k in waiting
    ensures waiting[k] != [] && waiting[k][0] in clients && NoDup(waiting[k])
    ensures forall c :: c in waiting[k] ==> c in clients
  {}

  lemma RotateKeepsMutual(clients: map<Client, Info>, waiting: map<Key, seq<Client>>, k: Key)
    requires Mutual(clients, waiting) && k in waiting
    ensures Mutual(clients, waiting[k := waiting[k][1..] + [waiting[k][0]]])
  {}

  // Counters

  function OfKind(clients: map<Client, Info>, kind: Kind): set<Client> {
    set c | c in clients && clients[c].kind == kind
  }

  function BlockedClients(clients: map<Client, Info>): set<Client> {
    set c | c in clients && !clients[c].kind.Free?
  }

  /** One counter for all blocked clients and one for each kind. */
  datatype Counters = Counters(all: int, list: int, zset: int, stream: int)

  function Counted(clients: map<Client, Info>): Counters {
    Counters(|BlockedClients(clients)|, |OfKind(clients, OnList)|, |OfKind(clients, OnZset)|, |OfKind(clients, OnStream)|)
  }

  function Bump(n: Counters, kind: Kind, d: int): Counters {
    match kind
    case Free => n
    case OnList => n.(all := n.all + d, list := n.list + d)
    case OnZset => n.(all := n.all + d, zset := n.zset + d)
    case OnStream => n.(all := n.all + d, stream := n.stream + d)
  }

  lemma KindSets(clients: map<Client, Info>, c: Client, info: Info, kind: Kind)
    requires c in clients
    ensures OfKind(clients[c := info], kind) == (OfKind(clients, kind) - {c}) + if info.kind == kind then {c} else {}
    ensures BlockedClients(clients[c := info]) == (BlockedClients(clients) - {c}) + if info.kind.Free? then {} else {c}
  {}

  lemma KindCounts(clients: map<Client, Info>, c: Client, info: Info, kind: Kind)
    requires c in clients
    ensures |OfKind(clients[c := info], kind)| ==
            |OfKind(clients, kind)| - (if clients[c].kind == kind then 1 else 0) + (if info.kind == kind then 1 else 0)
    ensures |BlockedClients(clients[c := info])| ==
            |BlockedClients(clients)| - (if clients[c].kind.Free? then 0 else 1) + (if info.kind.Free? then 0 else 1)
  {
    KindSets(clients, c, info, kind);
    assert c in OfKind(clients, kind) <==> clients[c].kind == kind;
    assert c in BlockedClients(clients) <==> !clients[c].kind.Free?;
  }

  /** The counters follow when one client changes from free to blocked or back. */
  lemma CountersFollow(clients: map<Client, Info>, c: Client, info: Info)
    requires c in clients
    ensures Counted(clients[c := info]) == Bump(Bump(Counted(clients), clients[c].kind, -1), info.kind, 1)
  {
    hide OfKind, BlockedClients;
    KindCounts(clients, c, info, OnList);
    KindCounts(clients, c, info, OnZset);
    KindCounts(clients, c, info, OnStream);
  }

  // Elements

  function Items(db: map<Key, Value>, k: Key): seq<Elem> {
    if k in db && !db[k].Other? then db[k].items else []
  }

  /** What a client must wait for to be served from a value. */
  function Wanted(v: Value): Kind {
    match v
    case List(_) => OnList
    case Zset(_) => OnZset
    case Other => Free
  }

  function WithItems(v: Value, items: seq<Elem>): Value {
    match v
    case List(_) => List(items)
    case Zset(_) => Zset(items)
    case Other => Other
  }

  /** Only a client that waits for a list can have a destination. */
  function TargetOf(info: Info): Option<Key> {
    if info.kind.OnList? then info.target else None
  }

  /** All elements of the lists with the given keys. */
  ghost function Bag(db: map<Key, Value>, keys: set<Key>): multiset<Elem> {
    if keys == {} then multiset{}
    else
      var k :| k in keys;
      multiset(Items(db, k)) + Bag(db, keys - {k})
  }

  lemma {:induction false} BagSplit(db: map<Key, Value>, keys: set<Key>, k: Key)
    requires k in keys
    ensures Bag(db, keys) == multiset(Items(db, k)) + Bag(db, keys - {k})
  {
    var m :| m in keys && Bag(db, keys) == multiset(Items(db, m)) + Bag(db, keys - {m});
    if m != k {
      BagSplit(db, keys - {m}, k);
      BagSplit(db, keys - {k}, m);
      assert keys - {m} - {k} == keys - {k} - {m};
    }
  }

  lemma {:induction false} BagSame(db: map<Key, Value>, db': map<Key, Value>, keys: set<Key>)
    requires forall k :: k in keys ==> Items(db, k) == Items(db', k)
    ensures Bag(db, keys) == Bag(db', keys)
    decreases |keys|
  {
    if keys != {} {
      var k :| k in keys;
      BagSplit(db, keys, k);
      BagSplit(db', keys, k);
      BagSame(db, db', keys - {k});
    }
  }

  /** All elements of all lists of a database; keys that hold no list add nothing. */
  ghost function Elements(db: map<Key, Value>): multiset<Elem> {
    Bag(db, db.Keys)
  }

  lemma {:induction false} BagGrows(db: map<Key, Value>, keys: set<Key>, more: set<Key>)
    requires keys <= more && forall k :: k in more - keys ==> Items(db, k) == []
    ensures Bag(db, more) == Bag(db, keys)
    decreases |more - keys|
  {
    if more - keys == {} {
      assert more == keys;
    } else {
      var k :| k in more - keys;
      BagSplit(db, more, k);
      assert (more - {k}) - keys < more - keys;
      SubsetSize(more - {k} - keys, more - keys);
      BagGrows(db, keys, more - {k});
    }
  }

  /** Changing one key changes the elements by that key's. */
  lemma ElementsUpdate(db: map<Key, Value>, db': map<Key, Value>, k: Key)
    requires forall m :: m != k ==> Items(db, m) == Items(db', m)
    ensures Elements(db') + multiset(Items(db, k)) == Elements(db) + multiset(Items(db', k))
  {
    var all := db.Keys + db'.Keys + {k};
    BagGrows(db, db.Keys, all);
    BagGrows(db', db'.Keys, all);
    BagSplit(db, all, k);
    BagSplit(db', all, k);
    BagSame(db, db', all - {k});
  }

  /** The elements taken out of the database by replies. */
  ghost function Taken(log: seq<Reply>): multiset<Elem> {
    if log == [] then multiset{}
    else
      var last := log[|log| - 1];
      Taken(log[..|log| - 1]) + if last.Delivered? && last.moved.None? then multiset{last.elem} else multiset{}
  }

  // Serving one client

  function Head(items: seq<Elem>, head: bool): Elem
    requires items != []
  {
    if head then items[0] else items[|items| - 1]
  }

  function Tail(items: seq<Elem>, head: bool): seq<Elem>
    requires items != []
  {
    if head then items[1..] else items[..|items| - 1]
  }

  function Pushed(items: seq<Elem>, elem: Elem, head: bool): seq<Elem> {
    if head then [elem] + items else items + [elem]
  }

  /** The destination holds something that is not a list. */
  predicate Refuses(db: map<Key, Value>, target: Option<Key>) {
    target.Some? && target.value in db && !db[target.value].List?
  }

  /** The database after an element was taken from one end of a key. */
  function Popped(db: map<Key, Value>, key: Key, head: bool): map<Key, Value>
    requires Items(db, key) != []
  {
    db[key := WithItems(db[key], Tail(Items(db, key), head))]
  }

  /** The database after an element of key was given to a client. */
  function AfterServing(db: map<Key, Value>, key: Key, info: Info): map<Key, Value>
    requires Items(db, key) != []
  {
    var popped := Popped(db, key, info.head);
    var target := TargetOf(info);
    if Refuses(popped, target) then db
    else if target.None? then popped
    else popped[target.value := List([Head(Items(db, key), info.head)] + Items(popped, target.value))]
  }

  function ReplyOf(db: map<Key, Value>, key: Key, receiver: Client, info: Info): Reply
    requires Items(db, key) != []
  {
    if Refuses(Popped(db, key, info.head), TargetOf(info)) then Refused(receiver, key, info.since)
    else Delivered(receiver, key, info.since, Head(Items(db, key), info.head), TargetOf(info))
  }

  lemma PopAndPush(items: seq<Elem>, head: bool)
    requires items != []
    ensures Pushed(Tail(items, head), Head(items, head), head) == items
    ensures multiset(items) == multiset(Tail(items, head)) + multiset{Head(items, head)}
  {}

  lemma Cancel(x: multiset<Elem>, y: multiset<Elem>, t: multiset<Elem>, e: multiset<Elem>)
    requires x + (t + e) == y + t
    ensures x + e == y
  {
    forall z ensures (x + e)[z] == y[z] {
      assert (x + (t + e))[z] == (y + t)[z];
    }
  }

  lemma PopTakes(db: map<Key, Value>, key: Key, head: bool)
    requires Items(db, key) != []
    ensures Elements(Popped(db, key, head)) + multiset{Head(Items(db, key), head)} == Elements(db)
  {
    hide Elements, Head, Tail;
    var items := Items(db, key);
    var popped := Popped(db, key, head);
    PopAndPush(items, head);
    ElementsUpdate(db, popped, key);
    Cancel(Elements(popped), Elements(db), multiset(Tail(items, head)), multiset{Head(items, head)});
  }

  lemma PushAdds(db: map<Key, Value>, t: Key, elem: Elem)
    ensures Elements(db[t := List([elem] + Items(db, t))]) == Elements(db) + multiset{elem}
  {
    hide Elements;
    var after := db[t := List([elem] + Items(db, t))];
    ElementsUpdate(db, after, t);
    assert multiset([elem] + Items(db, t)) == multiset(Items(db, t)) + multiset{elem};
    Cancel(Elements(db), Elements(after), multiset(Items(db, t)), multiset{elem});
  }

  lemma DeletingConserves(db: map<Key, Value>, key: Key)
    requires Items(db, key) == []
    ensures Elements(db - {key}) == Elements(db)
  {
    hide Elements;
    ElementsUpdate(db, db - {key}, key);
    assert Elements(db - {key}) + multiset([]) == Elements(db - {key});
    assert Elements(db) + multiset([]) == Elements(db);
  }

  lemma TakenSnoc(log: seq<Reply>, r: Reply)
    ensures Taken(log + [r]) == Taken(log) + if r.Delivered? && r.moved.None? then multiset{r.elem} else multiset{}
  {}

  /** Undoing a pop restores the database. */
  lemma PutBack(db: map<Key, Value>, key: Key, head: bool)
    requires Items(db, key) != []
    ensures var items := Items(db, key);
            var popped := Popped(db, key, head);
            popped[key := WithItems(popped[key], Pushed(Tail(items, head), Head(items, head), head))] == db
  {
    PopAndPush(Items(db, key), head);
  }

  /** What is served is taken out, moved or put back: nothing is lost and nothing doubled. */
  lemma ServingConserves(db: map<Key, Value>, log: seq<Reply>, key: Key, receiver: Client, info: Info)
    requires Items(db, key) != []
    ensures Elements(AfterServing(db, key, info)) + Taken(log + [ReplyOf(db, key, receiver, info)])
         == Elements(db) + Taken(log)
  {
    hide Elements, Taken, Head, Tail, Items;
    var popped := Popped(db, key, info.head);
    TakenSnoc(log, ReplyOf(db, key, receiver, info));
    PopTakes(db, key, info.head);
    if TargetOf(info).Some? { PushAdds(popped, info.target.value, Head(Items(db, key), info.head)); }
  }

  /**
   What serving a client does: the element leaves the end from which the client pops, and goes to the front of the
   client's destination if there is one; a destination that holds something else refuses, and nothing changes. No
   other key is touched.
   */
  lemma ServingExactly(db: map<Key, Value>, key: Key, receiver: Client, info: Info, k: Key)
    requires Items(db, key) != [] && info.kind == Wanted(db[key])
    ensures var items, after, r := Items(db, key), AfterServing(db, key, info), ReplyOf(db, key, receiver, info);
            var elem := if info.head then items[0] else items[|items| - 1];
            var rest := if info.head then items[1..] else items[..|items| - 1];
            && r.client == receiver && r.key == key && r.since == info.since
            && (if info.kind.OnList? && info.target.Some? && info.target.value in db && !db[info.target.value].List?
                then r.Refused? && after == db
                else
                  && r == Delivered(receiver, key, info.since, elem, if info.kind.OnList? then info.target else None)
                  && key in after && (after[key].Zset? == db[key].Zset?) && (after[key].List? == db[key].List?)
                  && (if info.kind.OnList? && info.target.Some? then
                        var t := info.target.value;
                        && t in after && after[t].List?
                        && Items(after, t) == [elem] + (if t == key then rest else Items(db, t))
                        && (t != key ==> Items(after, key) == rest)
                      else Items(after, key) == rest)
                  && (k != key && r.moved != Some(k) ==> (k in after <==> k in db) && (k in db ==> after[k] == db[k])))
  {}

  predicate ListsFull(db: map<Key, Value>, but: set<Key>) {
    forall k :: k in db && !db[k].Other? && k !in but ==> db[k].items != []
  }

  lemma ServingKeepsLists(db: map<Key, Value>, key: Key, info: Info)
    requires ListsFull(db, {key}) && Items(db, key) != []
    requires info.kind == Wanted(db[key])
    ensures var after := AfterServing(db, key, info); ListsFull(after, {key}) && key in after && Wanted(after[key]) == info.kind
  {}

  /** The key holds nothing that a client waiting on it wants. */
  ghost predicate Quiet(db: map<Key, Value>, clients: map<Client, Info>, waiting: map<Key, seq<Client>>, k: Key) {
    k in db && !db[k].Other? ==> forall c :: c in Waiters(waiting, k) ==> c in clients && clients[c].kind != Wanted(db[k])
  }

  /** Serving a client of one key leaves another key quiet, unless it creates that key for waiting clients. */
  lemma ServingKeepsQuiet(db: map<Key, Value>, clients: map<Client, Info>, waiting: map<Key, seq<Client>>,
                          waiting': map<Key, seq<Client>>, key: Key, receiver: Client, freed: Info, k: Key)
    requires Items(db, key) != [] && receiver in clients && k != key && Quiet(db, clients, waiting, k)
    requires NoDup(Waiters(waiting, k)) && Waiters(waiting', k) == Without(Waiters(waiting, k), receiver)
    requires !(TargetOf(clients[receiver]) == Some(k) && k !in db && Waiters(waiting', k) != [])
    requires freed.kind.Free?
    ensures Quiet(AfterServing(db, key, clients[receiver]), clients[receiver := freed], waiting', k)
  {
    WithoutFacts(Waiters(waiting, k), receiver);
  }

  /** The clients of a list that wait for a kind of value, or those that do not. */
  function Only(clients: map<Client, Info>, s: seq<Client>, kind: Kind, wanted: bool): (r: seq<Client>)
    requires forall c :: c in s ==> c in clients
    ensures forall c :: c in r ==> c in s && (clients[c].kind == kind) == wanted
  {
    if s == [] then []
    else Only(clients, s[..|s| - 1], kind, wanted)
         + if (clients[s[|s| - 1]].kind == kind) == wanted then [s[|s| - 1]] else []
  }

  lemma OnlySnoc(clients: map<Client, Info>, s: seq<Client>, x: Client, kind: Kind, wanted: bool)
    requires x in clients && forall c :: c in s ==> c in clients
    ensures Only(clients, s + [x], kind, wanted) == Only(clients, s, kind, wanted) + if (clients[x].kind == kind) == wanted then [x] else []
  {
    assert (s + [x])[..|s|] == s;
  }

  lemma OnlyEmpty(clients: map<Client, Info>, kind: Kind, wanted: bool)
    ensures Only(clients, [], kind, wanted) == []
  {}

  lemma {:induction false} OnlyAll(clients: map<Client, Info>, s: seq<Client>, kind: Kind, wanted: bool)
    requires forall c :: c in s ==> c in clients && (clients[c].kind == kind) == wanted
    ensures Only(clients, s, kind, wanted) == s
  {
    hide Only;
    if s == [] {
      OnlyEmpty(clients, kind, wanted);
    } else {
      var t, x := s[..|s| - 1], s[|s| - 1];
      assert x in s && s == t + [x];
      OnlyAll(clients, t, kind, wanted);
      OnlySnoc(clients, t, x, kind, wanted);
    }
  }

  lemma {:induction false} OnlyNone(clients: map<Client, Info>, s: seq<Client>, kind: Kind, wanted: bool)
    requires forall c :: c in s ==> c in clients && (clients[c].kind == kind) != wanted
    ensures Only(clients, s, kind, wanted) == []
  {
    if s != [] { OnlyNone(clients, s[..|s| - 1], kind, wanted); }
  }

  // How far one call gets

  /** Serving a client takes an element off the key, unless the client is refused or the element comes back to the key. */
  predicate Uses(db: map<Key, Value>, key: Key, info: Info) {
    !Refuses(db, TargetOf(info)) && TargetOf(info) != Some(key)
  }

  /** The clients of a list for whom an element is taken off the key. */
  function Needs(db: map<Key, Value>, key: Key, clients: map<Client, Info>, s: seq<Client>, kind: Kind): nat
    requires forall c :: c in s ==> c in clients
  {
    if s == [] then 0
    else (if clients[s[0]].kind == kind && Uses(db, key, clients[s[0]]) then 1 else 0) + Needs(db, key, clients, s[1..], kind)
  }

  /**
   The number of waiting clients that one call looks at. A sorted set that is empty ends it at once; an
   empty list ends it at the next client that wants an element.
   */
  function Looked(db: map<Key, Value>, key: Key, clients: map<Client, Info>, w: seq<Client>): (n: nat)
    requires key in db && !db[key].Other? && forall c :: c in w ==> c in clients
    ensures n <= |w|
    decreases |w|
  {
    if w == [] || (db[key].Zset? && db[key].items == []) then 0
    else if clients[w[0]].kind != Wanted(db[key]) then 1 + Looked(db, key, clients, w[1..])
    else if db[key].items == [] then 0
    else 1 + Looked(AfterServing(db, key, clients[w[0]]), key, clients, w[1..])
  }

  /** The database after a call: a list or sorted set that was used up is gone. */
  function Drained(db: map<Key, Value>, key: Key, clients: map<Client, Info>, w: seq<Client>): map<Key, Value>
    requires key in db && !db[key].Other? && forall c :: c in w ==> c in clients
    decreases |w|
  {
    if w == [] || (db[key].items == [] && (db[key].Zset? || clients[w[0]].kind == Wanted(db[key]))) then
      if db[key].items == [] then db - {key} else db
    else if clients[w[0]].kind != Wanted(db[key]) then Drained(db, key, clients, w[1..])
    else Drained(AfterServing(db, key, clients[w[0]]), key, clients, w[1..])
  }

  /** The destinations of some clients. */
  function Targets(clients: map<Client, Info>, s: seq<Client>): set<Key>
    requires forall c :: c in s ==> c in clients
  {
    set c | c in s && TargetOf(clients[c]).Some? :: TargetOf(clients[c]).value
  }

  lemma ServingUses(db: map<Key, Value>, key: Key, info: Info, other: Info)
    requires Items(db, key) != [] && info.kind == Wanted(db[key]) && other.kind == info.kind
    ensures var after := AfterServing(db, key, info);
            && key in after && Wanted(after[key]) == Wanted(db[key])
            && |Items(after, key)| == |Items(db, key)| - (if Uses(db, key, info) then 1 else 0)
            && Uses(after, key, other) == Uses(db, key, other)
  {}

  lemma {:induction false} ServingKeepsNeeds(db: map<Key, Value>, key: Key, info: Info, clients: map<Client, Info>, s: seq<Client>)
    requires Items(db, key) != [] && info.kind == Wanted(db[key]) && forall c :: c in s ==> c in clients
    ensures Needs(AfterServing(db, key, info), key, clients, s, info.kind) == Needs(db, key, clients, s, info.kind)
  {
    hide AfterServing, Uses;
    if s != [] {
      ServingKeepsNeeds(db, key, info, clients, s[1..]);
      if clients[s[0]].kind == info.kind { ServingUses(db, key, info, clients[s[0]]); }
    }
  }

  /** There is an element for client j, if it wants one, after those before it. */
  predicate Enough(db: map<Key, Value>, key: Key, clients: map<Client, Info>, w: seq<Client>, j: nat)
    requires key in db && j < |w| && forall c :: c in w ==> c in clients
  {
    clients[w[j]].kind == Wanted(db[key]) || db[key].Zset? ==>
      Needs(db, key, clients, w[..j], Wanted(db[key])) < |Items(db, key)|
  }

  /** The elements suffice for client l and for all before it. */
  predicate Reaches(db: map<Key, Value>, key: Key, clients: map<Client, Info>, w: seq<Client>, l: nat)
    requires key in db && l < |w| && forall c :: c in w ==> c in clients
  {
    forall j :: 0 <= j <= l ==> Enough(db, key, clients, w, j)
  }

  lemma EnoughNext(db: map<Key, Value>, db': map<Key, Value>, key: Key, clients: map<Client, Info>, w: seq<Client>, j: nat)
    requires key in db && !db[key].Other? && 0 < j < |w| && forall c :: c in w ==> c in clients
    requires if clients[w[0]].kind == Wanted(db[key]) then db[key].items != [] && db' == AfterServing(db, key, clients[w[0]]) else db' == db
    ensures key in db' && Enough(db, key, clients, w, j) == Enough(db', key, clients, w[1..], j - 1)
  {
    hide AfterServing, Uses;
    assert w[..j][1..] == w[1..][..j - 1];
    if clients[w[0]].kind == Wanted(db[key]) {
      ServingUses(db, key, clients[w[0]], clients[w[0]]);
      ServingKeepsNeeds(db, key, clients[w[0]], clients, w[1..][..j - 1]);
      ServingKeepsType(db, key, clients[w[0]]);
    }
  }

  lemma ServingKeepsType(db: map<Key, Value>, key: Key, info: Info)
    requires Items(db, key) != [] && info.kind == Wanted(db[key])
    ensures var after := AfterServing(db, key, info);
            key in after && Wanted(after[key]) == Wanted(db[key]) && after[key].Zset? == db[key].Zset? && !after[key].Other?
  {}

  /** A call looks at exactly the clients up to which the elements suffice. */
  lemma {:induction false} LookedExactly(db: map<Key, Value>, key: Key, clients: map<Client, Info>, w: seq<Client>, l: nat)
    requires key in db && !db[key].Other? && l < |w| && forall c :: c in w ==> c in clients
    ensures l < Looked(db, key, clients, w) <==> Reaches(db, key, clients, w, l)
    decreases l
  {
    hide AfterServing, Uses;
    assert w[..0] == [];
    if !Enough(db, key, clients, w, 0) {
      assert Looked(db, key, clients, w) == 0;
    } else if l > 0 {
      var db' := if clients[w[0]].kind == Wanted(db[key]) then AfterServing(db, key, clients[w[0]]) else db;
      if clients[w[0]].kind == Wanted(db[key]) { ServingKeepsType(db, key, clients[w[0]]); }
      LookedExactly(db', key, clients, w[1..], l - 1);
      ReachesNext(db, db', key, clients, w, l);
    }
  }

  lemma ReachesNext(db: map<Key, Value>, db': map<Key, Value>, key: Key, clients: map<Client, Info>, w: seq<Client>, l: nat)
    requires key in db && !db[key].Other? && 0 < l < |w| && forall c :: c in w ==> c in clients
    requires if clients[w[0]].kind == Wanted(db[key]) then db[key].items != [] && db' == AfterServing(db, key, clients[w[0]]) else db' == db
    ensures key in db'
    ensures Reaches(db, key, clients, w, l) <==> Enough(db, key, clients, w, 0) && Reaches(db', key, clients, w[1..], l - 1)
  {
    hide AfterServing, Enough;
    if clients[w[0]].kind == Wanted(db[key]) { ServingKeepsType(db, key, clients[w[0]]); }
    forall j | 0 < j <= l ensures key in db' && Enough(db, key, clients, w, j) == Enough(db', key, clients, w[1..], j - 1) {
      EnoughNext(db, db', key, clients, w, j);
    }
    if Enough(db, key, clients, w, 0) && Reaches(db', key, clients, w[1..], l - 1) {
      forall j | 0 <= j <= l ensures Enough(db, key, clients, w, j) {
        if j > 0 { assert Enough(db', key, clients, w[1..], j - 1); }
      }
    }
    if Reaches(db, key, clients, w, l) {
      forall j | 0 <= j <= l - 1 ensures Enough(db', key, clients, w[1..], j) {
        assert Enough(db, key, clients, w, j + 1);
      }
    }
  }

  /** The list of a key after a call: those not looked at, then those that wait for something else. */
  function Rest(db: map<Key, Value>, key: Key, clients: map<Client, Info>, w: seq<Client>): seq<Client>
    requires key in db && !db[key].Other? && forall c :: c in w ==> c in clients
  {
    var n := Looked(db, key, clients, w);
    w[n..] + Only(clients, w[..n], Wanted(db[key]), false)
  }

  /** The clients that a call serves, in order. */
  function Served(db: map<Key, Value>, key: Key, clients: map<Client, Info>, w: seq<Client>): seq<Client>
    requires key in db && !db[key].Other? && forall c :: c in w ==> c in clients
  {
    Only(clients, w[..Looked(db, key, clients, w)], Wanted(db[key]), true)
  }

  // Turns

  predicate Before(s: seq<Client>, c: Client, d: Client) {
    exists i, j :: 0 <= i < j < |s| && s[i] == c && s[j] == d
  }

  lemma BeforeMore(s: seq<Client>, t: seq<Client>, c: Client, d: Client)
    requires Before(s, c, d) || (c in s && d in t)
    ensures Before(s + t, c, d)
  {
    if Before(s, c, d) {
      var i, j :| 0 <= i < j < |s| && s[i] == c && s[j] == d;
      assert (s + t)[i] == c && (s + t)[j] == d;
    } else {
      var i, j :| 0 <= i < |s| && 0 <= j < |t| && s[i] == c && t[j] == d;
      assert (s + t)[i] == c && (s + t)[|s| + j] == d;
    }
  }

  lemma BeforeLast(s: seq<Client>, x: Client, c: Client, d: Client)
    requires NoDup(s + [x]) && Before(s + [x], c, d)
    ensures c in s && c != x && (if d == x then d !in s else Before(s, c, d))
  {
    var i, j :| 0 <= i < j < |s + [x]| && (s + [x])[i] == c && (s + [x])[j] == d;
    assert (s + [x])[|s|] == x && s[i] == c;
    if d != x { assert s[j] == d; } else { assert forall p :: 0 <= p < |s| ==> (s + [x])[p] == s[p]; }
  }

  lemma {:induction false} OnlyKeepsOrder(clients: map<Client, Info>, s: seq<Client>, kind: Kind, wanted: bool, c: Client, d: Client)
    requires NoDup(s) && (forall e :: e in s ==> e in clients) && Before(s, c, d)
    requires c in Only(clients, s, kind, wanted) && d in Only(clients, s, kind, wanted)
    ensures Before(Only(clients, s, kind, wanted), c, d)
  {
    hide Before, NoDup;
    assert s != [] by { BeforeSome(s, c, d); }
    var t, x := s[..|s| - 1], s[|s| - 1];
    var rest, more := Only(clients, t, kind, wanted), if (clients[x].kind == kind) == wanted then [x] else [];
    assert s == t + [x] && Only(clients, s, kind, wanted) == rest + more;
    BeforeLast(t, x, c, d);
    if d != x {
      NoDupPrefix(t, x);
      OnlyKeepsOrder(clients, t, kind, wanted, c, d);
    }
    BeforeMore(rest, more, c, d);
  }

  lemma BeforeSome(s: seq<Client>, c: Client, d: Client)
    requires Before(s, c, d)
    ensures s != []
  {}

  lemma NoDupPrefix(s: seq<Client>, x: Client)
    requires NoDup(s + [x])
    ensures NoDup(s)
  {
    assert forall i :: 0 <= i < |s| ==> (s + [x])[i] == s[i];
  }

  /** The clients that are left are in the order in which they were. */
  ghost predicate OrderKept(before: seq<Client>, after: seq<Client>) {
    forall c, d :: c in after && d in after && Before(before, c, d) ==> Before(after, c, d)
  }

  /**
   A call keeps the order of those left if and only if it gets to everybody who stands behind a client it
   got to that waits for something else.
   */
  lemma OrderKeptIff(db: map<Key, Value>, key: Key, clients: map<Client, Info>, w: seq<Client>)
    requires key in db && !db[key].Other? && NoDup(w) && forall c :: c in w ==> c in clients
    ensures OrderKept(w, Rest(db, key, clients, w)) <==>
            forall j, l :: 0 <= j < l < |w| && clients[w[j]].kind != Wanted(db[key]) && Reaches(db, key, clients, w, j)
                           ==> Reaches(db, key, clients, w, l)
  {
    hide Looked, Reaches, Only, Before, NoDup;
    var n, kind := Looked(db, key, clients, w), Wanted(db[key]);
    forall l | 0 <= l < |w| ensures l < n <==> Reaches(db, key, clients, w, l) { LookedExactly(db, key, clients, w, l); }
    var rest := Rest(db, key, clients, w);
    if n == |w| {
      assert w[..n] == w && w[n..] == [] && rest == Only(clients, w, kind, false);
      forall c, d | c in rest && d in rest && Before(w, c, d) ensures Before(rest, c, d) {
        OnlyKeepsOrder(clients, w, kind, false, c, d);
      }
    } else if c :| c in w[..n] && clients[c].kind != kind {
      var j :| 0 <= j < n && w[j] == c;
      Overtaken(clients, w, n, kind, j);
      assert Reaches(db, key, clients, w, j) && !Reaches(db, key, clients, w, n);
    } else {
      OnlyNone(clients, w[..n], kind, false);
      assert rest == w[n..];
      SuffixKeepsOrder(w, n);
      assert forall j :: 0 <= j < n ==> w[j] in w[..n];
    }
  }

  lemma SuffixKeepsOrder(w: seq<Client>, n: nat)
    requires n <= |w| && NoDup(w)
    ensures OrderKept(w, w[n..])
  {
    forall c, d | c in w[n..] && d in w[n..] && Before(w, c, d) ensures Before(w[n..], c, d) {
      var i, j :| 0 <= i < j < |w| && w[i] == c && w[j] == d;
      var i' :| 0 <= i' < |w[n..]| && w[n..][i'] == c;
      assert w[i' + n] == c && i == i' + n;
      assert w[n..][i - n] == c && w[n..][j - n] == d;
    }
  }

  lemma Overtaken(clients: map<Client, Info>, w: seq<Client>, n: nat, kind: Kind, j: nat)
    requires j < n < |w| && NoDup(w) && (forall c :: c in w ==> c in clients) && clients[w[j]].kind != kind
    ensures !OrderKept(w, w[n..] + Only(clients, w[..n], kind, false))
  {
    var only := Only(clients, w[..n], kind, false);
    var rest := w[n..] + only;
    OnlyHas(clients, w[..n], kind, false, w[j]);
    assert rest[0] == w[n] && Before(w, w[j], w[n]);
    assert w[n] !in w[..n] && w[j] !in w[n..];
    forall b | 0 < b < |rest| ensures rest[b] != w[n] {
      assert b >= |w| - n ==> rest[b] in only;
    }
    assert !Before(rest, w[j], w[n]);
  }

  lemma {:induction false} OnlyHas(clients: map<Client, Info>, s: seq<Client>, kind: Kind, wanted: bool, c: Client)
    requires (forall d :: d in s ==> d in clients) && c in s && (clients[c].kind == kind) == wanted
    ensures c in Only(clients, s, kind, wanted)
  {
    if c != s[|s| - 1] { OnlyHas(clients, s[..|s| - 1], kind, wanted, c); }
  }

  ghost predicate OnlyKind(clients: map<Client, Info>, w: seq<Client>, kind: Kind) {
    forall c :: c in w ==> c in clients && clients[c].kind == kind
  }

  ghost predicate Alike(clients: map<Client, Info>, w: seq<Client>) {
    forall c, d :: c in w && d in w ==> c in clients && d in clients && clients[c].kind == clients[d].kind
  }

  /**
   The clients of a key's list are in the order in which they blocked, the replies from the key went to
   clients in that order, and nobody left has waited longer than any of those.
   */
  ghost predicate InTurn(clients: map<Client, Info>, w: seq<Client>, log: seq<Reply>, clock: nat, k: Key) {
    && (forall c :: c in w ==> c in clients && clients[c].since < clock)
    && (forall i, j :: 0 <= i < j < |w| ==> clients[w[i]].since < clients[w[j]].since)
    && (forall i :: 0 <= i < |log| && log[i].key == k ==> log[i].since < clock)
    && (forall i, j :: 0 <= i < j < |log| && log[i].key == k && log[j].key == k ==> log[i].since < log[j].since)
    && (forall i, c :: 0 <= i < |log| && log[i].key == k && c in w ==> log[i].since < clients[c].since)
  }

  lemma BlockingKeepsTidy(clients: map<Client, Info>, w: seq<Client>, log: seq<Reply>, clock: nat, k: Key, c: Client, info: Info, enters: bool)
    requires c in clients && c !in w && info.since == clock && InTurn(clients, w, log, clock, k)
    requires Alike(clients, w) && (enters ==> OnlyKind(clients, w, info.kind))
    ensures var w' := w + if enters then [c] else [];
            InTurn(clients[c := info], w', log, clock + 1, k) && Alike(clients[c := info], w')
  {}

  lemma {:induction false} WithoutSplit(s: seq<Client>, c: Client) returns (p: nat)
    requires c in s
    ensures p < |s| && s[p] == c && Without(s, c) == s[..p] + s[p + 1..]
  {
    p := 0;
    if s[0] != c {
      var q := WithoutSplit(s[1..], c);
      p := q + 1;
      assert s[..p] == [s[0]] + s[1..][..q];
      assert s[p + 1..] == s[1..][q + 1..];
    }
  }

  lemma LeavingKeepsTidy(clients: map<Client, Info>, w: seq<Client>, log: seq<Reply>, clock: nat, k: Key, c: Client, info: Info)
    requires c in clients && NoDup(w) && InTurn(clients, w, log, clock, k) && Alike(clients, w)
    ensures InTurn(clients[c := info], Without(w, c), log, clock, k) && Alike(clients[c := info], Without(w, c))
  {
    hide Without;
    WithoutFacts(w, c);
    if c in w { var _ := WithoutSplit(w, c); } else { WithoutNone(w, c); }
  }

  lemma {:induction false} WithoutNone(s: seq<Client>, c: Client)
    requires c !in s
    ensures Without(s, c) == s
  {
    if s != [] { WithoutNone(s[1..], c); }
  }

  lemma OtherReply(clients: map<Client, Info>, w: seq<Client>, log: seq<Reply>, clock: nat, k: Key, r: Reply)
    requires InTurn(clients, w, log, clock, k) && r.key != k
    ensures InTurn(clients, w, log + [r], clock, k)
  {}

  /** The replies are from the key to these clients, with the times at which they blocked. */
  ghost predicate Answered(clients: map<Client, Info>, replies: seq<Reply>, served: seq<Client>, key: Key) {
    && |replies| == |served|
    && forall i :: 0 <= i < |served| ==>
         served[i] in clients && replies[i].client == served[i] && replies[i].key == key && replies[i].since == clients[served[i]].since
  }

  lemma {:induction false} NobodyWants(db: map<Key, Value>, key: Key, clients: map<Client, Info>, w: seq<Client>)
    requires key in db && !db[key].Other? && db[key].items != []
    requires forall c :: c in w ==> c in clients && clients[c].kind != Wanted(db[key])
    ensures Looked(db, key, clients, w) == |w|
  {
    if w != [] { NobodyWants(db, key, clients, w[1..]); }
  }

  /** A call for a list of one kind takes clients off its front only. */
  lemma AlikeServed(db: map<Key, Value>, key: Key, clients: map<Client, Info>, w: seq<Client>)
    requires key in db && !db[key].Other? && db[key].items != [] && Alike(clients, w)
    ensures exists n :: 0 <= n <= |w| && Served(db, key, clients, w) == w[..n] && Rest(db, key, clients, w) == w[n..]
  {
    hide Looked, Only;
    var n, kind := Looked(db, key, clients, w), Wanted(db[key]);
    assert w[..0] == [] && w[0..] == w;
    if w != [] && clients[w[0]].kind != kind {
      NobodyWants(db, key, clients, w);
      assert w[..n] == w && w[n..] == [];
      OnlyAll(clients, w, kind, false);
      OnlyNone(clients, w, kind, true);
      assert Served(db, key, clients, w) == w[..0] && Rest(db, key, clients, w) == w[0..];
    } else {
      assert forall c :: c in w ==> clients[c].kind == kind;
      OnlyNone(clients, w[..n], kind, false);
      OnlyAll(clients, w[..n], kind, true);
      assert Served(db, key, clients, w) == w[..n] && Rest(db, key, clients, w) == w[n..];
    }
  }

  lemma ServingInTurn(clients: map<Client, Info>, clients': map<Client, Info>, w: seq<Client>, n: nat, log: seq<Reply>, replies: seq<Reply>,
                      clock: nat, key: Key)
    requires n <= |w| && InTurn(clients, w, log, clock, key) && Alike(clients, w)
    requires Answered(clients, replies, w[..n], key)
    requires forall c :: c in w[n..] ==> c in clients' && clients'[c] == clients[c]
    ensures InTurn(clients', w[n..], log + replies, clock, key) && Alike(clients', w[n..])
  {}

  /** Every client is as it was, or does not wait any more. */
  ghost predicate Fewer(before: map<Client, Info>, after: map<Client, Info>) {
    after.Keys == before.Keys && forall c :: c in after ==> after[c] == before[c] || after[c].kind.Free?
  }

  // What a series of replies does

  /** A list or sorted set without elements is removed. */
  function Sweep(db: map<Key, Value>, key: Key): map<Key, Value> {
    if key in db && !db[key].Other? && db[key].items == [] then db - {key} else db
  }

  /** The database after clients were answered one by one. */
  function AfterReplies(db: map<Key, Value>, clients: map<Client, Info>, replies: seq<Reply>): map<Key, Value> {
    if replies == [] then db
    else
      var r, now := replies[|replies| - 1], AfterReplies(db, clients, replies[..|replies| - 1]);
      if r.client in clients && Items(now, r.key) != [] then Sweep(AfterServing(now, r.key, clients[r.client]), r.key) else now
  }

  /** The reply is what the client is to get from the key, on which it waits for such a value. */
  ghost predicate Right(db: map<Key, Value>, clients: map<Client, Info>, r: Reply) {
    && r.client in clients && r.key in clients[r.client].keys
    && Items(db, r.key) != [] && clients[r.client].kind == Wanted(db[r.key])
    && r == ReplyOf(db, r.key, r.client, clients[r.client])
  }

  function Gone(replies: seq<Reply>): set<Client> {
    set i | 0 <= i < |replies| :: replies[i].client
  }

  /** Every reply is right at its time, and nobody is answered twice. */
  ghost predicate Explains(db: map<Key, Value>, clients: map<Client, Info>, replies: seq<Reply>) {
    replies == [] ||
    (var r, before := replies[|replies| - 1], replies[..|replies| - 1];
     Explains(db, clients, before) && r.client !in Gone(before) && Right(AfterReplies(db, clients, before), clients, r))
  }

  /** The clients, when some of them do not wait any more. */
  function Freed(clients: map<Client, Info>, gone: set<Client>): map<Client, Info> {
    map c | c in clients :: if c in gone then clients[c].(kind := Free, keys := {}, target := None) else clients[c]
  }

  function Minus(s: seq<Client>, gone: set<Client>): seq<Client> {
    if s == [] then [] else (if s[0] in gone then [] else [s[0]]) + Minus(s[1..], gone)
  }

  /** Those of a list who are left, in their order if all wait for the same kind. */
  ghost predicate Remains(clients: map<Client, Info>, before: seq<Client>, after: seq<Client>, gone: set<Client>) {
    && (forall c :: c in after <==> c in before && c !in gone)
    && (Alike(clients, before) ==> after == Minus(before, gone))
  }

  /**
   Clients were answered, each right and once; they wait no more, all others do as before; and the database is
   what serving them leaves.
   */
  ghost predicate Serviced(db: map<Key, Value>, clients: map<Client, Info>, waiting: map<Key, seq<Client>>,
                           db': map<Key, Value>, clients': map<Client, Info>, waiting': map<Key, seq<Client>>, replies: seq<Reply>) {
    && Explains(db, clients, replies) && db' == AfterReplies(db, clients, replies) && clients' == Freed(clients, Gone(replies))
    && forall k :: Remains(clients, Waiters(waiting, k), Waiters(waiting', k), Gone(replies))
  }

  lemma GoneSnoc(replies: seq<Reply>, r: Reply)
    ensures Gone(replies + [r]) == Gone(replies) + {r.client}
  {
    var all := replies + [r];
    assert all[|replies|] == r && forall i :: 0 <= i < |replies| ==> all[i] == replies[i];
  }

  lemma GoneConcat(a: seq<Reply>, b: seq<Reply>)
    ensures Gone(a + b) == Gone(a) + Gone(b)
  {
    assert forall i :: 0 <= i < |a| ==> (a + b)[i] == a[i];
    assert forall i :: 0 <= i < |b| ==> (a + b)[|a| + i] == b[i];
    forall c | c in Gone(a + b) ensures c in Gone(a) + Gone(b) {
      var i :| 0 <= i < |a + b| && (a + b)[i].client == c;
      assert i >= |a| ==> (a + b)[i] == b[i - |a|];
    }
  }

  lemma {:induction false} MinusHas(s: seq<Client>, gone: set<Client>)
    ensures forall c :: c in Minus(s, gone) <==> c in s && c !in gone
  {
    if s != [] { MinusHas(s[1..], gone); }
  }

  lemma {:induction false} MinusTwice(s: seq<Client>, a: set<Client>, b: set<Client>)
    ensures Minus(Minus(s, a), b) == Minus(s, a + b)
  {
    if s != [] {
      MinusTwice(s[1..], a, b);
      var rest := Minus(s[1..], a);
      if s[0] in a {
        assert Minus(s, a) == [] + rest == rest;
      } else {
        assert Minus(s, a) == [s[0]] + rest && ([s[0]] + rest)[1..] == rest;
      }
    }
  }

  lemma {:induction false} MinusNone(s: seq<Client>, gone: set<Client>)
    requires forall c :: c in s ==> c !in gone
    ensures Minus(s, gone) == s
  {
    if s != [] { MinusNone(s[1..], gone); }
  }

  lemma {:induction false} MinusPrefix(s: seq<Client>, n: nat, gone: set<Client>)
    requires n <= |s| && NoDup(s) && forall c :: c in s ==> (c in gone <==> c in s[..n])
    ensures Minus(s, gone) == s[n..]
  {
    if n == 0 {
      MinusNone(s, gone);
    } else {
      assert s[0] in s[..n];
      forall c | c in s[1..] ensures c in gone <==> c in s[1..][..n - 1] {
        assert s[..n] == [s[0]] + s[1..][..n - 1];
      }
      MinusPrefix(s[1..], n - 1, gone);
      assert s[1..][n - 1..] == s[n..];
    }
  }

  lemma {:induction false} WithoutIsMinus(s: seq<Client>, c: Client)
    requires NoDup(s)
    ensures Without(s, c) == Minus(s, {c})
  {
    if s != [] {
      if s[0] == c { MinusNone(s[1..], {c}); } else { WithoutIsMinus(s[1..], c); }
    }
  }

  lemma NothingHappened(db: map<Key, Value>, clients: map<Client, Info>, waiting: map<Key, seq<Client>>)
    ensures Serviced(db, clients, waiting, db, clients, waiting, [])
  {
    assert Gone([]) == {};
    forall k ensures Remains(clients, Waiters(waiting, k), Waiters(waiting, k), Gone([])) { MinusNone(Waiters(waiting, k), {}); }
    assert Freed(clients, Gone([])) == clients;
  }

  lemma FreedTwice(clients: map<Client, Info>, a: set<Client>, b: set<Client>)
    ensures Freed(Freed(clients, a), b) == Freed(clients, a + b)
  {}

  /** One series of replies after another. */
  lemma {:induction false} ExplainsConcat(db: map<Key, Value>, clients: map<Client, Info>, a: seq<Reply>, b: seq<Reply>)
    requires Explains(db, clients, a)
    requires Explains(AfterReplies(db, clients, a), Freed(clients, Gone(a)), b)
    ensures Explains(db, clients, a + b)
    ensures AfterReplies(db, clients, a + b) == AfterReplies(AfterReplies(db, clients, a), Freed(clients, Gone(a)), b)
    decreases |b|
  {
    hide AfterServing, ReplyOf, Sweep, Gone;
    if b == [] {
      assert a + b == a;
    } else {
      var n := |b| - 1;
      var r := b[n];
      ExplainsConcat(db, clients, a, b[..n]);
      assert (a + b)[..|a| + n] == a + b[..n] && (a + b)[|a| + n] == r;
      GoneConcat(a, b[..n]);
      StillThere(clients, Gone(a), r.client);
    }
  }

  lemma StillThere(clients: map<Client, Info>, gone: set<Client>, c: Client)
    requires c in clients
    ensures !Freed(clients, gone)[c].kind.Free? ==> c !in gone && Freed(clients, gone)[c] == clients[c]
  {}

  lemma RemainsTwice(clients: map<Client, Info>, clients': map<Client, Info>, x: seq<Client>, y: seq<Client>, z: seq<Client>,
                     a: set<Client>, b: set<Client>)
    requires clients' == Freed(clients, a) && Remains(clients, x, y, a) && Remains(clients', y, z, b)
    ensures Remains(clients, x, z, a + b)
  {
    if Alike(clients, x) {
      assert Alike(clients', y);
      MinusTwice(x, a, b);
    }
  }

  /** The lists of other keys have lost those who were answered, and their order is as it was. */
  ghost predicate StaysPut(touched: set<Key>, before: map<Key, seq<Client>>, after: map<Key, seq<Client>>, replies: seq<Reply>) {
    forall k :: k !in touched ==> Waiters(after, k) == Minus(Waiters(before, k), Gone(replies))
  }

  lemma NothingMoved(touched: set<Key>, waiting: map<Key, seq<Client>>)
    ensures StaysPut(touched, waiting, waiting, [])
  {
    hide Minus;
    assert Gone([]) == {};
    forall k ensures Waiters(waiting, k) == Minus(Waiters(waiting, k), {}) { MinusNone(Waiters(waiting, k), {}); }
  }

  lemma StaysPutTwice(t: set<Key>, t': set<Key>, w: map<Key, seq<Client>>, w': map<Key, seq<Client>>, w'': map<Key, seq<Client>>,
                      a: seq<Reply>, b: seq<Reply>)
    requires StaysPut(t, w, w', a) && StaysPut(t', w', w'', b)
    ensures StaysPut(t + t', w, w'', a + b)
  {
    hide Minus, Gone;
    GoneConcat(a, b);
    forall k | k !in t + t' ensures Waiters(w'', k) == Minus(Waiters(w, k), Gone(a + b)) {
      MinusTwice(Waiters(w, k), Gone(a), Gone(b));
    }
  }

  lemma ServicedTwice(db: map<Key, Value>, clients: map<Client, Info>, waiting: map<Key, seq<Client>>,
                      db': map<Key, Value>, clients': map<Client, Info>, waiting': map<Key, seq<Client>>,
                      db'': map<Key, Value>, clients'': map<Client, Info>, waiting'': map<Key, seq<Client>>, a: seq<Reply>, b: seq<Reply>)
    requires Serviced(db, clients, waiting, db', clients', waiting', a)
    requires Serviced(db', clients', waiting', db'', clients'', waiting'', b)
    ensures Serviced(db, clients, waiting, db'', clients'', waiting'', a + b)
  {
    hide AfterReplies, Explains, Freed, Gone, Remains;
    ExplainsConcat(db, clients, a, b);
    GoneConcat(a, b);
    FreedTwice(clients, Gone(a), Gone(b));
    forall k ensures Remains(clients, Waiters(waiting, k), Waiters(waiting'', k), Gone(a + b)) {
      RemainsTwice(clients, clients', Waiters(waiting, k), Waiters(waiting', k), Waiters(waiting'', k), Gone(a), Gone(b));
    }
  }

  /** Each reply of a series is right for the database its predecessors leave: its element stood at the end the client pops from. */
  lemma {:induction false} ReplyWasRight(db: map<Key, Value>, clients: map<Client, Info>, replies: seq<Reply>, i: nat)
    requires Explains(db, clients, replies) && i < |replies|
    ensures var r, now := replies[i], AfterReplies(db, clients, replies[..i]);
            && Right(now, clients, r) && r.client !in Gone(replies[..i])
            && (r.Delivered? ==> r.elem == if clients[r.client].head then Items(now, r.key)[0] else Items(now, r.key)[|Items(now, r.key)| - 1])
  {
    hide AfterServing, AfterReplies, Sweep, Gone;
    var n := |replies| - 1;
    if i < n {
      ReplyWasRight(db, clients, replies[..n], i);
      assert replies[..n][..i] == replies[..i];
    }
  }

  /**
   Whoever waited and does not any more was answered exactly once, with the time at which it blocked and from a key it
   waited on; whoever was not answered is as before.
   */
  lemma AnsweredOnce(db: map<Key, Value>, clients: map<Client, Info>, waiting: map<Key, seq<Client>>,
                     db': map<Key, Value>, clients': map<Client, Info>, waiting': map<Key, seq<Client>>, replies: seq<Reply>, c: Client)
    requires Serviced(db, clients, waiting, db', clients', waiting', replies) && c in clients
    ensures c in clients' && (clients'[c] != clients[c] ==> c in Gone(replies))
    ensures c in Gone(replies) ==>
              && !clients[c].kind.Free? && clients'[c].kind.Free?
              && exists i :: 0 <= i < |replies| && replies[i].client == c
                   && replies[i].key in clients[c].keys && replies[i].since == clients[c].since
                   && forall j :: 0 <= j < |replies| && replies[j].client == c ==> j == i
  {
    hide AfterReplies, Explains, AfterServing, Gone;
    if c in Gone(replies) {
      var i := ReplyTo(replies, c);
      ReplyWasRight(db, clients, replies, i);
      forall j | 0 <= j < |replies| && replies[j].client == c ensures j == i {
        ReplyWasRight(db, clients, replies, j);
        EarlierGone(replies, i, j);
        EarlierGone(replies, j, i);
      }
    }
  }

  lemma ReplyTo(replies: seq<Reply>, c: Client) returns (i: nat)
    requires c in Gone(replies)
    ensures i < |replies| && replies[i].client == c
  {
    i :| 0 <= i < |replies| && replies[i].client == c;
  }

  lemma EarlierGone(replies: seq<Reply>, i: nat, j: nat)
    requires j <= |replies|
    ensures i < j ==> replies[i].client in Gone(replies[..j])
  {
    if i < j { assert replies[..j][i] == replies[i]; }
  }

  // The clients queued for their next command

  /** A client that stops waiting is queued once. */
  function Queued(q: seq<Client>, c: Client): seq<Client> {
    if c in q then q else q + [c]
  }

  /** The queue after some replies. */
  ghost function Queue(q: seq<Client>, replies: seq<Reply>): seq<Client>
    decreases |replies|
  {
    if replies == [] then q else Queue(Queued(q, replies[0].client), replies[1..])
  }

  lemma {:induction false} QueueTwice(q: seq<Client>, a: seq<Reply>, b: seq<Reply>)
    ensures Queue(q, a + b) == Queue(Queue(q, a), b)
    decreases |a|
  {
    hide Queued;
    if a == [] {
      assert a + b == b;
    } else {
      assert (a + b)[0] == a[0] && (a + b)[1..] == a[1..] + b;
      QueueTwice(Queued(q, a[0].client), a[1..], b);
    }
  }

  lemma QueueNobody(q: seq<Client>)
    ensures Queue(q, []) == q
  {}

  lemma QueueOne(q: seq<Client>, r: Reply)
    ensures Queue(q, [r]) == Queued(q, r.client)
  {
    assert [r][1..] == [];
  }

  /** Exactly the clients that were answered join the queue, behind those that are there, and each is in it once. */
  lemma {:induction false} QueueExactly(q: seq<Client>, replies: seq<Reply>)
    ensures q <= Queue(q, replies) && (NoDup(q) ==> NoDup(Queue(q, replies)))
    ensures forall c :: c in Queue(q, replies) <==> c in q || c in Gone(replies)
    decreases |replies|
  {
    if replies != [] {
      QueueExactly(Queued(q, replies[0].client), replies[1..]);
      assert forall r :: r in replies <==> r == replies[0] || r in replies[1..];
    }
  }

  /** One more client is answered. */
  lemma RecordOne(db0: map<Key, Value>, clients0: map<Client, Info>, replies: seq<Reply>, db: map<Key, Value>, clients: map<Client, Info>,
                  key: Key, c: Client)
    requires Explains(db0, clients0, replies) && Sweep(db, key) == AfterReplies(db0, clients0, replies)
    requires clients == Freed(clients0, Gone(replies)) && c in clients && key in clients[c].keys
    requires Items(db, key) != [] && clients[c].kind == Wanted(db[key])
    ensures var r := ReplyOf(db, key, c, clients[c]);
            && Explains(db0, clients0, replies + [r])
            && Sweep(AfterServing(db, key, clients[c]), key) == AfterReplies(db0, clients0, replies + [r])
            && clients[c := clients[c].(kind := Free, keys := {}, target := None)] == Freed(clients0, Gone(replies + [r]))
  {
    hide AfterServing, Gone;
    var r := ReplyOf(db, key, c, clients[c]);
    assert (replies + [r])[..|replies|] == replies;
    GoneSnoc(replies, r);
    StillThere(clients0, Gone(replies), c);
    assert Sweep(db, key) == db && r.client == c && r.key == key;
  }

  lemma LeftOne(before: seq<Client>, replies: seq<Reply>, r: Reply)
    requires NoDup(Minus(before, Gone(replies)))
    ensures Without(Minus(before, Gone(replies)), r.client) == Minus(before, Gone(replies + [r]))
  {
    GoneSnoc(replies, r);
    WithoutIsMinus(Minus(before, Gone(replies)), r.client);
    MinusTwice(before, Gone(replies), {r.client});
  }

  lemma LeftElsewhere(key: Key, clients: map<Client, Info>, w: map<Key, seq<Client>>, w': map<Key, seq<Client>>, w'': map<Key, seq<Client>>,
                      replies: seq<Reply>, r: Reply)
    requires Mutual(clients, w') && r.client in clients && StaysPut({key}, w, w', replies)
    requires forall k :: Waiters(w'', k) == Without(Waiters(w', k), r.client)
    ensures StaysPut({key}, w, w'', replies + [r])
  {
    hide Mutual, Without, Minus, Gone;
    forall k | k != key ensures Waiters(w'', k) == Minus(Waiters(w, k), Gone(replies + [r])) {
      MutualAt(clients, w', r.client, k);
      LeftOne(Waiters(w, k), replies, r);
    }
  }

  /** Whoever was looked at and wanted the value is gone, all others of the list are left. */
  lemma ServedRemain(db: map<Key, Value>, key: Key, clients: map<Client, Info>, w: seq<Client>, replies: seq<Reply>)
    requires key in db && !db[key].Other? && db[key].items != [] && NoDup(w) && forall c :: c in w ==> c in clients
    requires Answered(clients, replies, Served(db, key, clients, w), key)
    ensures Remains(clients, w, Rest(db, key, clients, w), Gone(replies))
  {
    hide Looked, Only;
    var n, kind := Looked(db, key, clients, w), Wanted(db[key]);
    var served, rest := Served(db, key, clients, w), Rest(db, key, clients, w);
    GoneAre(clients, replies, served, key);
    forall c ensures c in rest <==> c in w && c !in Gone(replies) {
      assert w == w[..n] + w[n..];
      if c in w[..n] {
        OnlyEither(clients, w[..n], kind, c);
        NotTwice(w, n, c);
      }
    }
    if Alike(clients, w) {
      AlikeServed(db, key, clients, w);
      var m :| 0 <= m <= |w| && served == w[..m] && rest == w[m..];
      MinusPrefix(w, m, Gone(replies));
    }
  }

  lemma GoneAre(clients: map<Client, Info>, replies: seq<Reply>, served: seq<Client>, key: Key)
    requires Answered(clients, replies, served, key)
    ensures forall c :: c in Gone(replies) <==> c in served
  {
    forall c | c in served ensures c in Gone(replies) {
      var i :| 0 <= i < |served| && served[i] == c;
      assert replies[i].client == c;
    }
  }

  lemma OnlyEither(clients: map<Client, Info>, s: seq<Client>, kind: Kind, c: Client)
    requires (forall d :: d in s ==> d in clients) && c in s
    ensures c in Only(clients, s, kind, true) <==> clients[c].kind == kind
    ensures c in Only(clients, s, kind, false) <==> clients[c].kind != kind
  {
    OnlyHas(clients, s, kind, clients[c].kind == kind, c);
  }

  lemma NotTwice(w: seq<Client>, n: nat, c: Client)
    requires n <= |w| && NoDup(w) && c in w[..n]
    ensures c !in w[n..]
  {}

  // The server

  class Server {
    var clients: map<Client, Info>
    var waiting: map<Key, seq<Client>>
    var counters: Counters
    var ready: seq<Key>
    var readySet: set<Key>
    var unblocked: seq<Client>
    var db: map<Key, Value>
    var log: seq<Reply>
    var clock: nat
    ghost var mixed: set<Key>

    /** The index, the counters and the queues agree; pending holds the keys taken off the queue but not yet handled. */
    ghost predicate Consistent(pending: seq<Key>)
      reads this`clients, this`waiting, this`counters, this`ready, this`readySet, this`unblocked
    {
      && Mutual(clients, waiting)
      && (forall c :: c in clients ==> (clients[c].kind.Free? <==> clients[c].keys == {}))
      && counters == Counted(clients)
      && NoDup(pending + ready) && (forall k :: k in readySet <==> k in pending + ready)
      && NoDup(unblocked)
    }

    /** No list is empty, but perhaps the one being handled. */
    ghost predicate NoEmptyList(but: set<Key>)
      reads this`db
    {
      ListsFull(db, but)
    }

    /** The key has served its clients in the order in which they blocked, and those left wait in that order, for the same kind. */
    ghost predicate Tidy(k: Key)
      reads this`clients, this`waiting, this`log, this`clock
    {
      InTurn(clients, Waiters(waiting, k), log, clock, k) && Alike(clients, Waiters(waiting, k))
    }

    /** So it is of every key whose list never held clients of different kinds. */
    ghost predicate InOrder()
      reads this`clients, this`waiting, this`log, this`clock, this`mixed
    {
      forall k :: k !in mixed ==> Tidy(k)
    }

    ghost predicate Valid()
      reads this
    {
      Consistent([]) && NoEmptyList({}) && InOrder()
    }

    constructor (connected: set<Client>)
      ensures Valid() && clients.Keys == connected && forall c :: c in clients ==> clients[c].kind.Free?
      ensures waiting == map[] && db == map[] && ready == [] && readySet == {} && log == [] && clock == 0 && mixed == {}
    {
      clients := map c | c in connected :: Info(Free, {}, None, false, 0);
      waiting, counters, ready, readySet, unblocked, db, log := map[], Counters(0, 0, 0, 0), [], {}, [], map[], [];
      clock, mixed := 0, {};
      new;
      assert OfKind(clients, OnList) == {} && OfKind(clients, OnZset) == {} && OfKind(clients, OnStream) == {};
      assert BlockedClients(clients) == {};
    }

    /** Puts a client at the end of each key's list; a key named twice counts once. */
    method EnterLists(c: Client, keys: seq<Key>)
      requires Mutual(clients, waiting) && c in clients && clients[c].keys == {}
      modifies this`clients, this`waiting
      ensures Mutual(clients, waiting)
      ensures clients == old(clients)[c := old(clients)[c].(keys := set k | k in keys)]
      ensures forall k :: Waiters(waiting, k) == old(Waiters(waiting, k)) + if k in keys then [c] else []
    {
      hide Mutual, Added, Waiters;
      ghost var w := waiting;
      for j := 0 to |keys|
        invariant c in clients && clients[c].keys == (set k | k in keys[..j])
        invariant clients == old(clients)[c := old(clients)[c].(keys := clients[c].keys)]
        invariant Mutual(clients, waiting)
        invariant forall k :: Waiters(waiting, k) == Waiters(w, k) + if k in keys[..j] then [c] else []
      {
        assert keys[..j + 1] == keys[..j] + [keys[j]];
        if keys[j] !in clients[c].keys {
          AddKeepsMutual(clients, waiting, c, keys[j]);
          forall k ensures Waiters(Added(waiting, keys[j], c), k) == Waiters(w, k) + if k in keys[..j + 1] then [c] else [] {
            AddedWaiters(waiting, keys[j], c, k);
          }
          waiting := Added(waiting, keys[j], c);
          clients := clients[c := clients[c].(keys := clients[c].keys + {keys[j]})];
        }
      }
      assert keys[..|keys|] == keys;
    }

    /** Takes a client out of the list of every key it waits on. */
    method LeaveLists(c: Client)
      requires Mutual(clients, waiting) && c in clients
      modifies this`clients, this`waiting
      ensures Mutual(clients, waiting)
      ensures clients == old(clients)[c := old(clients)[c].(keys := {})]
      ensures forall k :: Waiters(waiting, k) == Without(old(Waiters(waiting, k)), c)
    {
      hide Mutual, Dropped, Waiters, Without, LeftLists, WithKeys;
      ghost var w, all := waiting, clients[c].keys;
      LeftNone(w, c);
      AllKeys(clients, waiting, c);
      assert all - all == {};
      var rest := clients[c].keys;
      while rest != {}
        invariant clients == old(clients) && rest <= all && Mutual(WithKeys(clients, c, rest), waiting)
        invariant LeftLists(w, waiting, c, all - rest)
        decreases |rest|
      {
        var k :| k in rest;
        DropOne(clients, waiting, c, rest, k);
        LeaveOne(w, waiting, c, all - rest, k);
        assert all - rest + {k} == all - (rest - {k});
        waiting := Dropped(waiting, k, c);
        rest := rest - {k};
      }
      assert all - {} == all;
      LeftAll(clients, w, waiting, c);
      NoKeys(clients, c);
      clients := clients[c := clients[c].(keys := {})];
    }

    /** The clients, with one client's keys cut to those still to be left. */
    static ghost function WithKeys(clients: map<Client, Info>, c: Client, keys: set<Key>): map<Client, Info>
      requires c in clients
    {
      clients[c := clients[c].(keys := keys)]
    }

    static lemma AllKeys(clients: map<Client, Info>, waiting: map<Key, seq<Client>>, c: Client)
      requires Mutual(clients, waiting) && c in clients
      ensures Mutual(WithKeys(clients, c, clients[c].keys), waiting)
    {}

    static lemma NoKeys(clients: map<Client, Info>, c: Client)
      requires c in clients
      ensures WithKeys(clients, c, {}) == clients[c := clients[c].(keys := {})]
    {}

    static lemma DropOne(clients: map<Client, Info>, waiting: map<Key, seq<Client>>, c: Client, rest: set<Key>, k: Key)
      requires c in clients && k in rest && Mutual(WithKeys(clients, c, rest), waiting)
      ensures k in waiting && Mutual(WithKeys(clients, c, rest - {k}), Dropped(waiting, k, c))
    {
      hide Mutual, Dropped;
      var now := WithKeys(clients, c, rest);
      MutualAt(now, waiting, c, k);
      DropKeepsMutual(now, waiting, c, k);
      assert now[c := now[c].(keys := now[c].keys - {k})] == WithKeys(clients, c, rest - {k});
    }

    /** The client is out of the lists of the keys done, and the other lists are as before. */
    static ghost predicate LeftLists(w: map<Key, seq<Client>>, waiting: map<Key, seq<Client>>, c: Client, done: set<Key>) {
      forall k :: Waiters(waiting, k) == if k in done then Without(Waiters(w, k), c) else Waiters(w, k)
    }

    static lemma LeftNone(w: map<Key, seq<Client>>, c: Client)
      ensures LeftLists(w, w, c, {})
    {}

    static lemma LeaveOne(w: map<Key, seq<Client>>, waiting: map<Key, seq<Client>>, c: Client, done: set<Key>, k: Key)
      requires LeftLists(w, waiting, c, done) && k in waiting && k !in done
      ensures LeftLists(w, Dropped(waiting, k, c), c, done + {k})
    {}

    static lemma LeftAll(clients: map<Client, Info>, w: map<Key, seq<Client>>, waiting: map<Key, seq<Client>>, c: Client)
      requires Mutual(clients, w) && c in clients && LeftLists(w, waiting, c, clients[c].keys)
      ensures forall k :: Waiters(waiting, k) == Without(Waiters(w, k), c)
    {
      hide Mutual, Waiters, Without;
      forall k ensures Waiters(waiting, k) == Without(Waiters(w, k), c) {
        if k !in clients[c].keys {
          MutualAt(clients, w, c, k);
          WithoutNone(Waiters(w, k), c);
        }
      }
    }

    static lemma KindOnly(clients: map<Client, Info>, waiting: map<Key, seq<Client>>, c: Client, info: Info)
      requires Mutual(clients, waiting) && c in clients && info.keys == clients[c].keys
      ensures Mutual(clients[c := info], waiting)
    {}

    /** Puts a client that is not waiting in the index. */
    method Enter(c: Client, keys: seq<Key>, info: Info)
      requires Consistent([]) && c in clients && clients[c].kind.Free?
      requires !info.kind.Free? && keys != [] && info.keys == set k | k in keys
      modifies this`clients, this`waiting, this`counters
      ensures Consistent([]) && clients == old(clients)[c := info]
      ensures forall k :: c !in old(Waiters(waiting, k))
      ensures forall k :: Waiters(waiting, k) == old(Waiters(waiting, k)) + if k in keys then [c] else []
      ensures forall k :: old(Calm(k)) && !(k in keys && k in db) ==> Calm(k)
    {
      hide Counted, Mutual;
      forall k ensures c !in Waiters(waiting, k) { MutualAt(clients, waiting, c, k); }
      EnterLists(c, keys);
      assert keys[0] in clients[c].keys;
      CountersFollow(old(clients), c, info);
      KindOnly(clients, waiting, c, info);
      clients := clients[c := info];
      counters := Bump(counters, info.kind, 1);
      assert clients == old(clients)[c := info];
    }

    /** A client starts to wait on keys. */
    method BlockForKeys(c: Client, kind: Kind, keys: seq<Key>, target: Option<Key>, head: bool)
      requires Valid() && c in clients && clients[c].kind.Free? && !kind.Free? && keys != []
      modifies this`clients, this`waiting, this`counters, this`clock, this`mixed
      ensures Valid() && clock == old(clock) + 1
      ensures clients == old(clients)[c := Info(kind, (set k | k in keys), target, head, old(clock))]
      ensures forall k :: Waiters(waiting, k) == old(Waiters(waiting, k)) + if k in keys then [c] else []
      ensures mixed == old(mixed) + set k | k in keys && !old(OnlyKind(clients, Waiters(waiting, k), kind))
      ensures forall k :: old(Calm(k)) && !(k in keys && k in db) ==> Calm(k)
    {
      hide Consistent, InTurn, Alike, OnlyKind, Waiters, Quiet;
      ghost var clients0, waiting0 := clients, waiting;
      var info := Info(kind, (set k | k in keys), target, head, clock);
      Enter(c, keys, info);
      assert forall k :: old(Calm(k)) && !(k in keys && k in db) ==> Calm(k);
      clock := clock + 1;
      mixed := mixed + set k | k in keys && !OnlyKind(clients0, Waiters(waiting0, k), kind);
      forall k | k !in mixed ensures Tidy(k) {
        BlockingKeepsTidy(clients0, Waiters(waiting0, k), log, clock - 1, k, c, info, k in keys);
      }
    }

    /** A client stops waiting: it leaves every list and is queued for its next command. */
    method UnblockClient(c: Client, ghost pending: seq<Key>)
      requires Consistent(pending) && c in clients && !clients[c].kind.Free?
      modifies this`clients, this`waiting, this`counters, this`unblocked
      ensures Consistent(pending)
      ensures clients == old(clients)[c := old(clients)[c].(kind := Free, keys := {}, target := None)]
      ensures forall k :: Waiters(waiting, k) == Without(old(Waiters(waiting, k)), c)
      ensures unblocked == Queued(old(unblocked), c)
    {
      hide Counted, Mutual;
      LeaveLists(c);
      var info := clients[c].(kind := Free, keys := {}, target := None);
      CountersFollow(old(clients), c, info);
      KindOnly(clients, waiting, c, info);
      counters := Bump(counters, clients[c].kind, -1);
      clients := clients[c := info];
      assert clients == old(clients)[c := info];
      if c !in unblocked { unblocked := unblocked + [c]; }
    }

    /** A key with waiting clients is queued once. */
    method SignalKeyAsReady(k: Key, ghost pending: seq<Key>)
      requires Consistent(pending)
      modifies this`ready, this`readySet
      ensures Consistent(pending)
      ensures ready == if k in waiting && k !in old(readySet) then old(ready) + [k] else old(ready)
      ensures readySet == if k in waiting then old(readySet) + {k} else old(readySet)
    {
      if k !in waiting { return; }
      if k in readySet { return; }
      ghost var before := pending + ready;
      ready := ready + [k];
      readySet := readySet + {k};
      assert pending + ready == before + [k];
    }

    // Serving

    /** Nothing is left to do for the key, or it is queued. */
    ghost predicate Calm(k: Key)
      reads this
    {
      Quiet(db, clients, waiting, k) || k in readySet
    }

    /** Gives an element to an unblocked client, and pushes it to the destination if there is one. */
    method ServeClientBlockedOnList(receiver: Client, since: nat, key: Key, target: Option<Key>, elem: Elem, ghost pending: seq<Key>)
      returns (ok: bool)
      requires Consistent(pending)
      modifies this`db, this`ready, this`readySet, this`log
      ensures Consistent(pending) && ok == !Refuses(old(db), target)
      ensures db == if target.None? || !ok then old(db) else old(db)[target.value := List([elem] + Items(old(db), target.value))]
      ensures log == old(log) + [if ok then Delivered(receiver, key, since, elem, target) else Refused(receiver, key, since)]
      ensures old(readySet) <= readySet <= old(readySet) + if target.Some? then {target.value} else {}
      ensures target.Some? && target.value !in old(db) && target.value in waiting ==> target.value in readySet
    {
      if target.Some? {
        var t := target.value;
        if t in db && !db[t].List? {
          log := log + [Refused(receiver, key, since)];
          return false;
        }
        if t !in db {
          db := db[t := List([])];
          SignalKeyAsReady(t, pending);
        }
        db := db[t := List([elem] + db[t].items)];
      }
      log := log + [Delivered(receiver, key, since, elem, target)];
      ok := true;
    }

    static lemma OnlyIfPresent(db: map<Key, Value>, key: Key)
      requires Items(db, key) != []
      ensures key in db && !Wanted(db[key]).Free?
    {}

    lemma StillWaits(k: Key, c: Client)
      requires Valid() && c in Waiters(waiting, k)
      ensures c in clients && !clients[c].kind.Free?
    {}

    lemma FirstInLine(key: Key, pending: seq<Key>)
      requires Consistent(pending) && key in waiting
      ensures waiting[key] != [] && waiting[key][0] in clients
    {}

    /** Pops an element for the first waiting client, which wants it, and gives it to the client. */
    method ServeReceiver(key: Key, ghost pending: seq<Key>)
      requires Consistent(pending) && key in waiting && Items(db, key) != []
      requires clients[waiting[key][0]].kind == Wanted(db[key])
      modifies this
      ensures Consistent(pending)
      ensures var receiver := old(waiting[key][0]);
              && clients == old(clients)[receiver := old(clients)[receiver].(kind := Free, keys := {}, target := None)]
              && (forall k :: Waiters(waiting, k) == Without(old(Waiters(waiting, k)), receiver))
              && db == AfterServing(old(db), key, old(clients)[receiver])
              && log == old(log) + [ReplyOf(old(db), key, receiver, old(clients)[receiver])]
      ensures var t := old(TargetOf(clients[waiting[key][0]]));
              && old(readySet) <= readySet <= old(readySet) + (if t.Some? then {t.value} else {})
              && (t.Some? && t.value !in old(db) && t.value in waiting ==> t.value in readySet)
      ensures unchanged(this`clock, this`mixed) && unblocked == Queued(old(unblocked), old(waiting[key][0]))
    {
      hide Consistent, Without, Head, Tail, Pushed, Items, WithItems, AfterServing, ReplyOf;
      FirstInLine(key, pending);
      OnlyIfPresent(db, key);
      var receiver := waiting[key][0];
      var info := clients[receiver];
      var items := Items(db, key);
      var elem, rest := Head(items, info.head), Tail(items, info.head);
      db := db[key := WithItems(db[key], rest)];
      UnblockClient(receiver, pending);
      var ok := ServeClientBlockedOnList(receiver, info.since, key, if info.kind.OnList? then info.target else None, elem, pending);
      if !ok {
        PutBack(old(db), key, info.head);
        db := db[key := WithItems(db[key], Pushed(rest, elem, info.head))];
      }
      ServedAsSpecified(old(db), key, receiver, info);
    }

    static lemma ServedAsSpecified(db0: map<Key, Value>, key: Key, receiver: Client, info: Info)
      requires Items(db0, key) != []
      ensures var popped, elem, target := Popped(db0, key, info.head), Head(Items(db0, key), info.head), TargetOf(info);
              if Refuses(popped, target)
              then AfterServing(db0, key, info) == db0 && ReplyOf(db0, key, receiver, info) == Refused(receiver, key, info.since)
              else && ReplyOf(db0, key, receiver, info) == Delivered(receiver, key, info.since, elem, target)
                   && AfterServing(db0, key, info) ==
                      if target.None? then popped else popped[target.value := List([elem] + Items(popped, target.value))]
    {}

    /** What the replies since a start have done, but for the list of the key being handled, which may be empty already. */
    ghost predicate Recorded(key: Key, clients0: map<Client, Info>, w0: map<Key, seq<Client>>, db0: map<Key, Value>, log0: seq<Reply>)
      reads this`clients, this`waiting, this`db, this`log
    {
      && log0 <= log && Explains(db0, clients0, log[|log0|..])
      && Sweep(db, key) == AfterReplies(db0, clients0, log[|log0|..]) && clients == Freed(clients0, Gone(log[|log0|..]))
      && StaysPut({key}, w0, waiting, log[|log0|..])
    }

    /** Serves the first waiting client; one client less is blocked, and no other key needs attention that is not queued. */
    method ServeFirst(key: Key, ghost pending: seq<Key>)
      requires Consistent(pending) && key in waiting && Items(db, key) != []
      requires clients[waiting[key][0]].kind == Wanted(db[key])
      modifies this
      ensures Consistent(pending)
      ensures var receiver := old(waiting[key][0]);
              && clients == old(clients)[receiver := old(clients)[receiver].(kind := Free, keys := {}, target := None)]
              && (forall k :: Waiters(waiting, k) == Without(old(Waiters(waiting, k)), receiver))
              && db == AfterServing(old(db), key, old(clients)[receiver])
              && log == old(log) + [ReplyOf(old(db), key, receiver, old(clients)[receiver])]
      ensures counters.all == old(counters.all) - 1
      ensures var t := old(TargetOf(clients[waiting[key][0]]));
              old(readySet) <= readySet <= old(readySet) + if t.Some? then {t.value} else {}
      ensures forall k :: k != key && old(Calm(k)) ==> Calm(k)
      ensures unblocked == Queued(old(unblocked), old(waiting[key][0]))
      ensures unchanged(this`clock, this`mixed) && forall k :: k != key && old(Tidy(k)) ==> Tidy(k)
    {
      hide Mutual, Counted, Without, AfterServing, InTurn, Alike, Queued;
      FirstWaiter(clients, waiting, key);
      ghost var receiver := waiting[key][0];
      ghost var clients0, waiting0, db0, log0 := clients, waiting, db, log;
      ServeReceiver(key, pending);
      OneLess(clients0, receiver, clients[receiver]);
      hide Quiet;
      forall k | k != key && old(Calm(k)) ensures Calm(k) {
        MutualAt(clients0, waiting0, receiver, k);
        MutualAt(clients, waiting, receiver, k);
        if k !in readySet {
          ServingKeepsQuiet(db0, clients0, waiting0, waiting, key, receiver, clients[receiver], k);
        }
      }
      forall k | k != key && old(Tidy(k)) ensures Tidy(k) {
        MutualAt(clients0, waiting0, receiver, k);
        LeavingKeepsTidy(clients0, Waiters(waiting0, k), log0, clock, k, receiver, clients[receiver]);
        OtherReply(clients, Waiters(waiting, k), log0, clock, k, log[|log0|]);
      }
    }

    /** The same, with the record kept. */
    method ServeRecorded(key: Key, ghost pending: seq<Key>, ghost w0: map<Key, seq<Client>>, ghost clients0: map<Client, Info>,
                         ghost db0: map<Key, Value>, ghost log0: seq<Reply>)
      requires Consistent(pending) && key in waiting && Items(db, key) != []
      requires clients[waiting[key][0]].kind == Wanted(db[key])
      modifies this
      ensures Consistent(pending)
      ensures var receiver := old(waiting[key][0]);
              && clients == old(clients)[receiver := old(clients)[receiver].(kind := Free, keys := {}, target := None)]
              && (forall k :: Waiters(waiting, k) == Without(old(Waiters(waiting, k)), receiver))
              && db == AfterServing(old(db), key, old(clients)[receiver])
              && log == old(log) + [ReplyOf(old(db), key, receiver, old(clients)[receiver])]
      ensures counters.all == old(counters.all) - 1
      ensures var t := old(TargetOf(clients[waiting[key][0]]));
              old(readySet) <= readySet <= old(readySet) + if t.Some? then {t.value} else {}
      ensures forall k :: k != key && old(Calm(k)) ==> Calm(k)
      ensures unblocked == Queued(old(unblocked), old(waiting[key][0]))
      ensures unchanged(this`clock, this`mixed) && forall k :: k != key && old(Tidy(k)) ==> Tidy(k)
      ensures old(Recorded(key, clients0, w0, db0, log0)) ==> Recorded(key, clients0, w0, db0, log0)
    {
      hide Queued, Mutual, Counted, Without, AfterServing, Tidy, Calm, AfterReplies, Explains, Sweep, Freed, Gone, StaysPut;
      FirstWaiter(clients, waiting, key);
      ghost var receiver, replies := waiting[key][0], if log0 <= log then log[|log0|..] else [];
      MutualAt(clients, waiting, receiver, key);
      assert receiver in Waiters(waiting, key);
      ghost var before, db1, clients1, waiting1 := Recorded(key, clients0, w0, db0, log0), db, clients, waiting;
      if before { RecordOne(db0, clients0, replies, db, clients, key, receiver); }
      ServeFirst(key, pending);
      if before {
        ghost var r := log[|log| - 1];
        assert log[|log0|..] == replies + [r];
        LeftElsewhere(key, clients1, w0, waiting1, waiting, replies, r);
      }
    }

    static lemma OneLess(clients0: map<Client, Info>, c: Client, freed: Info)
      requires c in clients0 && !clients0[c].kind.Free? && freed.kind.Free?
      ensures Counted(clients0[c := freed]).all == Counted(clients0).all - 1
    {
      CountersFollow(clients0, c, freed);
    }

    /** Moves the first waiting client, which waits for something else, to the end. */
    method RotateFirst(key: Key, ghost pending: seq<Key>)
      requires Consistent(pending) && key in waiting
      modifies this`waiting
      ensures Consistent(pending)
      ensures waiting == old(waiting)[key := old(waiting)[key][1..] + [old(waiting)[key][0]]]
      ensures forall k :: old(Calm(k)) ==> Calm(k)
      ensures forall k :: k != key && old(Tidy(k)) ==> Tidy(k)
    {
      hide Counted, InTurn, Alike;
      RotateKeepsMutual(clients, waiting, key);
      ghost var w := waiting;
      waiting := waiting[key := waiting[key][1..] + [waiting[key][0]]];
      assert forall c :: c in waiting[key] ==> c in w[key];
    }

    /** What holds after i of the clients that waited on the key at first have been looked at. */
    ghost predicate Progress(key: Key, kind: Kind, pending: seq<Key>, clients0: map<Client, Info>, waiting0: seq<Client>, db0: map<Key, Value>,
                             ready0: set<Key>, log0: seq<Reply>, i: nat)
      requires i <= |waiting0| && forall c :: c in waiting0 ==> c in clients0
      reads this
    {
      && Consistent(pending) && NoEmptyList({key}) && key in db && Wanted(db[key]) == kind && !kind.Free?
      && key in db0 && !db0[key].Other? && Fewer(clients0, clients)
      && Looked(db0, key, clients0, waiting0) == i + Looked(db, key, clients0, waiting0[i..])
      && Drained(db0, key, clients0, waiting0) == Drained(db, key, clients0, waiting0[i..])
      && ready0 <= readySet <= ready0 + Targets(clients0, waiting0)
      && Waiters(waiting, key) == waiting0[i..] + Only(clients0, waiting0[..i], kind, false)
      && (forall c :: c in Waiters(waiting, key) ==> c in clients && clients[c] == clients0[c])
      && log0 <= log && Answered(clients0, log[|log0|..], Only(clients0, waiting0[..i], kind, true), key)
      && Elements(db) + Taken(log) == Elements(db0) + Taken(log0)
    }

    lemma NextIsFirst(key: Key, kind: Kind, pending: seq<Key>, clients0: map<Client, Info>, waiting0: seq<Client>, db0: map<Key, Value>, ready0: set<Key>, log0: seq<Reply>, i: nat)
      requires i < |waiting0| && NoDup(waiting0) && forall c :: c in waiting0 ==> c in clients0
      requires Progress(key, kind, pending, clients0, waiting0, db0, ready0, log0, i)
      ensures key in waiting && waiting[key] != [] && waiting[key][0] == waiting0[i] && NoDup(waiting[key])
      ensures waiting0[i] in clients && clients[waiting0[i]] == clients0[waiting0[i]]
      ensures waiting[key][1..] == waiting0[i + 1..] + Only(clients0, waiting0[..i], kind, false)
      ensures Without(Waiters(waiting, key), waiting0[i]) == waiting[key][1..]
    {
      hide Only, Elements, Taken, ListsFull, Counted, Mutual, Looked, Drained, Targets, Answered, Fewer;
      assert waiting0[i..][0] == waiting0[i];
      assert waiting[key][0] in waiting[key];
      FirstWaiter(clients, waiting, key);
    }

    static lemma OnlyNext(clients0: map<Client, Info>, s: seq<Client>, i: nat, kind: Kind, wanted: bool)
      requires i < |s| && forall c :: c in s ==> c in clients0
      ensures Only(clients0, s[..i + 1], kind, wanted) ==
              Only(clients0, s[..i], kind, wanted) + if (clients0[s[i]].kind == kind) == wanted then [s[i]] else []
    {
      assert s[..i + 1][..i] == s[..i];
    }

    /** The client at position i is served, and the rest of the list stays. */
    method ServeNext(key: Key, ghost kind: Kind, ghost pending: seq<Key>, ghost w0: map<Key, seq<Client>>, ghost clients0: map<Client, Info>, ghost waiting0: seq<Client>,
                     ghost db0: map<Key, Value>, ghost ready0: set<Key>, ghost log0: seq<Reply>, ghost i: nat)
      requires i < |waiting0| && NoDup(waiting0) && forall c :: c in waiting0 ==> c in clients0
      requires Progress(key, kind, pending, clients0, waiting0, db0, ready0, log0, i)
      requires key in waiting && waiting[key] != [] && waiting[key][0] in clients && clients[waiting[key][0]].kind == kind && Items(db, key) != []
      modifies this
      ensures Progress(key, kind, pending, clients0, waiting0, db0, ready0, log0, i + 1)
      ensures key in db && Wanted(db[key]) == kind && counters.all == old(counters.all) - 1
      ensures forall k :: k != key && old(Calm(k)) ==> Calm(k)
      ensures unchanged(this`clock, this`mixed) && forall k :: k != key && old(Tidy(k)) ==> Tidy(k)
      ensures old(Recorded(key, clients0, w0, db0, log0)) ==> Recorded(key, clients0, w0, db0, log0)
      ensures old(log) <= log && unblocked == Queue(old(unblocked), log[|old(log)|..])
    {
      hide Queue, Queued, Consistent, Only, Elements, Taken, Without, AfterServing, ListsFull, Looked, Drained, Targets, Tidy, Calm, Fewer, Recorded, Answered;
      NextIsFirst(key, kind, pending, clients0, waiting0, db0, ready0, log0, i);
      ghost var receiver, info := waiting[key][0], clients[waiting[key][0]];
      ServingConserves(db, log, key, receiver, info);
      ServingKeepsLists(db, key, info);
      OnlyNext(clients0, waiting0, i, kind, true);
      OnlyNext(clients0, waiting0, i, kind, false);
      WithoutFirst(Waiters(waiting, key), waiting0, i, receiver);
      LookOnce(db, key, clients0, waiting0, i);
      OneFewer(clients0, clients, receiver);
      OneTarget(clients0, waiting0, i);
      ServeRecorded(key, pending, w0, clients0, db0, log0);
      assert log[|log0|..] == old(log)[|log0|..] + [log[|log| - 1]];
      AnsweredSnoc(clients0, old(log)[|log0|..], Only(clients0, waiting0[..i], kind, true), key, log[|log| - 1], receiver);
      assert log[|old(log)|..] == [log[|log| - 1]];
      QueueOne(old(unblocked), log[|log| - 1]);
    }

    static lemma AnsweredSnoc(clients: map<Client, Info>, replies: seq<Reply>, served: seq<Client>, key: Key, r: Reply, c: Client)
      requires Answered(clients, replies, served, key)
      requires c in clients && r.client == c && r.key == key && r.since == clients[c].since
      ensures Answered(clients, replies + [r], served + [c], key)
    {}

    static lemma OneTarget(clients: map<Client, Info>, w: seq<Client>, i: nat)
      requires i < |w| && forall c :: c in w ==> c in clients
      ensures TargetOf(clients[w[i]]).Some? ==> TargetOf(clients[w[i]]).value in Targets(clients, w)
    {}

    static lemma OneFewer(before: map<Client, Info>, after: map<Client, Info>, c: Client)
      requires Fewer(before, after) && c in after
      ensures Fewer(before, after[c := after[c].(kind := Free, keys := {}, target := None)])
    {}

    /** One look at a client is one step of Looked. */
    static lemma LookOnce(db: map<Key, Value>, key: Key, clients: map<Client, Info>, w: seq<Client>, i: nat)
      requires key in db && !db[key].Other? && i < |w| && forall c :: c in w ==> c in clients
      requires db[key].items != [] || (db[key].List? && clients[w[i]].kind != Wanted(db[key]))
      ensures var info := clients[w[i]];
              if info.kind != Wanted(db[key])
              then && Looked(db, key, clients, w[i..]) == 1 + Looked(db, key, clients, w[i + 1..])
                   && Drained(db, key, clients, w[i..]) == Drained(db, key, clients, w[i + 1..])
              else var after := AfterServing(db, key, info);
                   && key in after && !after[key].Other?
                   && Looked(db, key, clients, w[i..]) == 1 + Looked(after, key, clients, w[i + 1..])
                   && Drained(db, key, clients, w[i..]) == Drained(after, key, clients, w[i + 1..])
    {
      assert w[i..][0] == w[i] && w[i..][1..] == w[i + 1..];
    }

    static lemma WithoutFirst(s: seq<Client>, waiting0: seq<Client>, i: nat, receiver: Client)
      requires s != [] && s[0] == receiver && i < |waiting0| && NoDup(s)
      ensures forall c :: c in s[1..] ==> c in s && c != receiver
    {}

    /** The client at position i waits for something else and goes to the end. */
    method RotateNext(key: Key, ghost kind: Kind, ghost pending: seq<Key>, ghost w0: map<Key, seq<Client>>, ghost clients0: map<Client, Info>, ghost waiting0: seq<Client>,
                      ghost db0: map<Key, Value>, ghost ready0: set<Key>, ghost log0: seq<Reply>, ghost i: nat)
      requires i < |waiting0| && NoDup(waiting0) && forall c :: c in waiting0 ==> c in clients0
      requires Progress(key, kind, pending, clients0, waiting0, db0, ready0, log0, i)
      requires key in waiting && waiting[key] != [] && waiting[key][0] in clients && clients[waiting[key][0]].kind != kind
      requires db[key].List? || Items(db, key) != []
      modifies this`waiting
      ensures Progress(key, kind, pending, clients0, waiting0, db0, ready0, log0, i + 1)
      ensures forall k :: old(Calm(k)) ==> Calm(k)
      ensures forall k :: k != key && old(Tidy(k)) ==> Tidy(k)
      ensures old(Recorded(key, clients0, w0, db0, log0)) ==> Recorded(key, clients0, w0, db0, log0)
    {
      hide Consistent, Only, Elements, Taken, Without, ListsFull, Looked, Drained, Targets, Tidy, Fewer, AfterReplies, Explains, Freed, Gone, Minus;
      NextIsFirst(key, kind, pending, clients0, waiting0, db0, ready0, log0, i);
      OnlyNext(clients0, waiting0, i, kind, true);
      OnlyNext(clients0, waiting0, i, kind, false);
      LookOnce(db, key, clients0, waiting0, i);
      RotateFirst(key, pending);
      assert waiting[key] == waiting0[i + 1..] + Only(clients0, waiting0[..i + 1], kind, false);
      assert forall c :: c in waiting[key] ==> c in old(waiting)[key];
    }

    /**
     Serves the clients waiting on a key that holds a list or a sorted set, in the order in which they
     wait, until it is empty or no client that wants such a value is left. Whoever waits for something
     else and is passed over goes to the end of the list.
     */
    method ServeWaiters(key: Key, ghost pending: seq<Key>)
      requires Consistent(pending) && NoEmptyList({}) && key in db && !db[key].Other?
      modifies this
      ensures Consistent(pending) && NoEmptyList({})
      ensures Quiet(db, clients, waiting, key) && forall k :: k != key && old(Calm(k)) ==> Calm(k)
      ensures counters.all <= old(counters.all) && (counters.all == old(counters.all) ==> ready == old(ready))
      ensures Elements(db) + Taken(log) == old(Elements(db) + Taken(log))
      ensures old(log) <= log && forall c :: c in old(Waiters(waiting, key)) ==> c in old(clients)
      ensures Waiters(waiting, key) == old(Rest(db, key, clients, Waiters(waiting, key)))
      ensures db == old(Drained(db, key, clients, Waiters(waiting, key)))
      ensures old(readySet) <= readySet <= old(readySet + Targets(clients, Waiters(waiting, key)))
      ensures Answered(old(clients), log[|old(log)|..], old(Served(db, key, clients, Waiters(waiting, key))), key)
      ensures unchanged(this`clock, this`mixed) && Fewer(old(clients), clients) && forall k :: old(Tidy(k)) ==> Tidy(k)
      ensures Serviced(old(db), old(clients), old(waiting), db, clients, waiting, log[|old(log)|..])
      ensures unblocked == Queue(old(unblocked), log[|old(log)|..]) && StaysPut({key}, old(waiting), waiting, log[|old(log)|..])
    {
      hide Queue, StaysPut, Consistent, Elements, Taken, ListsFull, Only, Quiet, Looked, Drained, Targets, Answered, Calm, InTurn, Alike, Fewer, Recorded, Serviced;
      ghost var w0, clients0, waiting0, db0, ready0, log0 := waiting, clients, Waiters(waiting, key), db, readySet, log;
      WaitersKnown(key, pending);
      StartProgress(key, pending);
      StartRecord(key);
      ghost var i := ServeAll(key, pending, w0, clients0, waiting0, db0, ready0, log0);
      if old(Tidy(key)) { StaysTidy(key, Wanted(db0[key]), pending, clients0, waiting0, db0, ready0, log0, i); }
      EndRecord(key, clients0, w0, db0, log0);
      DeleteIfEmpty(key, Wanted(db0[key]), pending, clients0, waiting0, db0, ready0, log0, i);
    }

    lemma StartRecord(key: Key)
      requires key in db && !db[key].Other? && db[key].items != []
      ensures Recorded(key, clients, waiting, db, log)
    {
      hide StaysPut;
      assert log[|log|..] == [] && Gone([]) == {} && Freed(clients, {}) == clients;
      NothingMoved({key}, waiting);
    }

    lemma EndRecord(key: Key, clients0: map<Client, Info>, w0: map<Key, seq<Client>>, db0: map<Key, Value>, log0: seq<Reply>)
      requires key in db0 && !db0[key].Other? && db0[key].items != []
      requires NoDup(Waiters(w0, key)) && forall c :: c in Waiters(w0, key) ==> c in clients0
      requires Recorded(key, clients0, w0, db0, log0)
      requires Waiters(waiting, key) == Rest(db0, key, clients0, Waiters(w0, key))
      requires Answered(clients0, log[|log0|..], Served(db0, key, clients0, Waiters(w0, key)), key)
      ensures Serviced(db0, clients0, w0, Sweep(db, key), clients, waiting, log[|log0|..]) && StaysPut({key}, w0, waiting, log[|log0|..])
    {
      hide AfterReplies, Explains, Freed, Gone, Minus, Rest, Served, Answered, Alike;
      var replies := log[|log0|..];
      forall k ensures Remains(clients0, Waiters(w0, k), Waiters(waiting, k), Gone(replies)) {
        if k == key { ServedRemain(db0, key, clients0, Waiters(w0, key), replies); } else { MinusHas(Waiters(w0, k), Gone(replies)); }
      }
    }

    /** The loop over the clients that wait on a key. */
    method ServeAll(key: Key, ghost pending: seq<Key>, ghost w0: map<Key, seq<Client>>, ghost clients0: map<Client, Info>, ghost waiting0: seq<Client>,
                    ghost db0: map<Key, Value>, ghost ready0: set<Key>, ghost log0: seq<Reply>)
      returns (ghost i: nat)
      requires NoDup(waiting0) && (forall c :: c in waiting0 ==> c in clients0) && key in db && |waiting0| == |Waiters(waiting, key)|
      requires !db[key].Other? && Progress(key, Wanted(db[key]), pending, clients0, waiting0, db0, ready0, log0, 0)
      modifies this
      ensures i <= |waiting0| && Progress(key, old(Wanted(db[key])), pending, clients0, waiting0, db0, ready0, log0, i)
      ensures Looked(db, key, clients0, waiting0[i..]) == 0 && key in db && !db[key].Other?
      ensures Drained(db, key, clients0, waiting0[i..]) == if db[key].items == [] then db - {key} else db
      ensures i == |waiting0| || db[key].items == []
      ensures counters.all <= old(counters.all) && (counters.all == old(counters.all) ==> ready == old(ready))
      ensures forall k :: k != key && old(Calm(k)) ==> Calm(k)
      ensures unchanged(this`clock, this`mixed) && forall k :: k != key && old(Tidy(k)) ==> Tidy(k)
      ensures old(Recorded(key, clients0, w0, db0, log0)) ==> Recorded(key, clients0, w0, db0, log0)
      ensures old(log) <= log && unblocked == Queue(old(unblocked), log[|old(log)|..])
    {
      hide Queue, Progress, Looked, Drained, Calm, Tidy, Recorded, NoDup, Only;
      QueueNobody(unblocked);
      assert log[|log|..] == [];
      var kind := Wanted(db[key]);
      var n := if key in waiting then |waiting[key]| else 0;
      i := 0;
      while n > 0 && !(db[key].Zset? && db[key].items == [])
        invariant n == |waiting0| - i && n >= 0 && key in db && Wanted(db[key]) == kind && !kind.Free?
        invariant Progress(key, kind, pending, clients0, waiting0, db0, ready0, log0, i)
        invariant counters.all <= old(counters.all) && (counters.all == old(counters.all) ==> ready == old(ready))
        invariant forall k :: k != key && old(Calm(k)) ==> Calm(k)
        invariant clock == old(clock) && mixed == old(mixed)
        invariant forall k :: k != key && old(Tidy(k)) ==> Tidy(k)
        invariant old(Recorded(key, clients0, w0, db0, log0)) ==> Recorded(key, clients0, w0, db0, log0)
        invariant old(log) <= log && unblocked == Queue(old(unblocked), log[|old(log)|..])
        decreases n
      {
        NextIsFirst(key, kind, pending, clients0, waiting0, db0, ready0, log0, i);
        if clients[waiting[key][0]].kind != kind {
          RotateNext(key, kind, pending, w0, clients0, waiting0, db0, ready0, log0, i);
        } else if db[key].items == [] {
          break;
        } else {
          ghost var answers := log;
          ServeNext(key, kind, pending, w0, clients0, waiting0, db0, ready0, log0, i);
          QueueTwice(old(unblocked), answers[|old(log)|..], log[|answers|..]);
          assert log[|old(log)|..] == answers[|old(log)|..] + log[|answers|..];
        }
        n, i := n - 1, i + 1;
      }
      if i < |waiting0| { NextIsFirst(key, kind, pending, clients0, waiting0, db0, ready0, log0, i); }
      NoMoreLooked(db, key, clients0, waiting0, i);
    }

    static lemma NoMoreLooked(db: map<Key, Value>, key: Key, clients: map<Client, Info>, w: seq<Client>, i: nat)
      requires key in db && !db[key].Other? && i <= |w| && forall c :: c in w ==> c in clients
      requires i == |w| || (db[key].items == [] && (db[key].Zset? || clients[w[i]].kind == Wanted(db[key])))
      ensures Looked(db, key, clients, w[i..]) == 0
      ensures Drained(db, key, clients, w[i..]) == if db[key].items == [] then db - {key} else db
    {
      if i < |w| { assert w[i..][0] == w[i]; }
    }

    lemma StaysTidy(key: Key, kind: Kind, pending: seq<Key>, clients0: map<Client, Info>, waiting0: seq<Client>, db0: map<Key, Value>,
                    ready0: set<Key>, log0: seq<Reply>, i: nat)
      requires i <= |waiting0| && forall c :: c in waiting0 ==> c in clients0
      requires Progress(key, kind, pending, clients0, waiting0, db0, ready0, log0, i) && Looked(db, key, clients0, waiting0[i..]) == 0
      requires Wanted(db0[key]) == kind && db0[key].items != []
      requires InTurn(clients0, waiting0, log0, clock, key) && Alike(clients0, waiting0)
      ensures Tidy(key)
    {
      hide Consistent, Elements, Taken, ListsFull, Only, Looked, Drained, Targets, Answered, InTurn, Alike, Fewer;
      AlikeServed(db0, key, clients0, waiting0);
      var n :| 0 <= n <= |waiting0| && Served(db0, key, clients0, waiting0) == waiting0[..n]
               && Rest(db0, key, clients0, waiting0) == waiting0[n..];
      ServingInTurn(clients0, clients, waiting0, n, log0, log[|log0|..], clock, key);
      assert log == log0 + log[|log0|..];
    }

    lemma WaitersKnown(key: Key, pending: seq<Key>)
      requires Consistent(pending)
      ensures NoDup(Waiters(waiting, key)) && forall c :: c in Waiters(waiting, key) ==> c in clients
    {}

    lemma StartProgress(key: Key, pending: seq<Key>)
      requires Consistent(pending) && NoEmptyList({}) && key in db && !db[key].Other?
      requires forall c :: c in Waiters(waiting, key) ==> c in clients
      ensures Progress(key, Wanted(db[key]), pending, clients, Waiters(waiting, key), db, readySet, log, 0) && db[key].items != []
    {}

    /** A list without elements is removed. */
    method DeleteIfEmpty(key: Key, ghost kind: Kind, ghost pending: seq<Key>, ghost clients0: map<Client, Info>, ghost waiting0: seq<Client>,
                         ghost db0: map<Key, Value>, ghost ready0: set<Key>, ghost log0: seq<Reply>, ghost i: nat)
      requires i <= |waiting0| && forall c :: c in waiting0 ==> c in clients0
      requires Progress(key, kind, pending, clients0, waiting0, db0, ready0, log0, i)
      requires i == |waiting0| || db[key].items == []
      modifies this`db
      ensures Consistent(pending) && NoEmptyList({}) && Quiet(db, clients, waiting, key)
      ensures db == if old(db)[key].items == [] then old(db) - {key} else old(db)
      ensures db == Sweep(old(db), key)
      ensures forall k :: k != key && old(Calm(k)) ==> Calm(k)
      ensures Elements(db) + Taken(log) == Elements(db0) + Taken(log0)
    {
      hide Elements, Taken, Only, Mutual, Counted, Looked, Drained, Targets, Answered, Fewer;
      if db[key].items == [] {
        DeletingConserves(db, key);
        db := db - {key};
      } else {
        assert waiting0[i..] == [];
      }
    }

    /** Takes the first pending key; it may be queued again from now on. */
    method TakeKey(l: seq<Key>) returns (k: Key)
      requires Consistent(l) && l != []
      modifies this`readySet
      ensures k == l[0] && Consistent(l[1..]) && readySet == old(readySet) - {k}
      ensures forall m :: m != k && old(Calm(m)) ==> Calm(m)
    {
      hide Mutual, Counted, Quiet;
      k := l[0];
      NoDupTail(l + ready);
      assert (l + ready)[1..] == l[1..] + ready;
      readySet := readySet - {k};
    }

    /** Handles one key that became ready. */
    method HandleKey(k: Key, ghost pending: seq<Key>)
      requires Consistent(pending) && NoEmptyList({})
      modifies this
      ensures Consistent(pending) && NoEmptyList({})
      ensures Quiet(db, clients, waiting, k) && forall m :: m != k && old(Calm(m)) ==> Calm(m)
      ensures counters.all <= old(counters.all) && (counters.all == old(counters.all) ==> ready == old(ready))
      ensures Elements(db) + Taken(log) == old(Elements(db) + Taken(log)) && old(log) <= log
      ensures forall c :: c in old(Waiters(waiting, k)) ==> c in old(clients)
      ensures if k in old(db) && !old(db)[k].Other?
              then && Waiters(waiting, k) == old(Rest(db, k, clients, Waiters(waiting, k)))
                   && db == old(Drained(db, k, clients, Waiters(waiting, k)))
                   && Answered(old(clients), log[|old(log)|..], old(Served(db, k, clients, Waiters(waiting, k))), k)
              else waiting == old(waiting) && log == old(log) && db == old(db)
      ensures old(readySet) <= readySet <= old(readySet + Targets(clients, Waiters(waiting, k)))
      ensures unchanged(this`clock, this`mixed) && Fewer(old(clients), clients) && forall m :: old(Tidy(m)) ==> Tidy(m)
      ensures Serviced(old(db), old(clients), old(waiting), db, clients, waiting, log[|old(log)|..])
      ensures unblocked == Queue(old(unblocked), log[|old(log)|..]) && StaysPut({k}, old(waiting), waiting, log[|old(log)|..])
    {
      hide Queue, StaysPut, Consistent, Elements, Taken, ListsFull, Rest, Served, Drained, Answered, Calm, Tidy, Serviced;
      QueueNobody(unblocked);
      NothingMoved({k}, waiting);
      WaitersKnown(k, pending);
      NothingHappened(db, clients, waiting);
      assert log[|log|..] == [];
      if k in db && !db[k].Other? { ServeWaiters(k, pending); }
    }

    /** Every key is quiet or queued. */
    ghost predicate AllCalm()
      reads this
    {
      forall k :: Calm(k)
    }

    /**
     Handles the queue of ready keys until it stays empty. Serving a client may queue further keys, but
     each time one client less is blocked. Afterwards no key that was handled holds anything that a
     client waiting on it wants; and if that was so of all keys that were not queued, it is so of all.
     */
    method HandleClientsBlockedOnKeys() returns (ghost handled: set<Key>)
      requires Valid()
      modifies this
      ensures Valid() && ready == []
      ensures forall k :: k in old(ready) ==> k in handled
      ensures forall k :: k in handled ==> Quiet(db, clients, waiting, k)
      ensures old(AllCalm()) ==> forall k :: Quiet(db, clients, waiting, k)
      ensures Elements(db) + Taken(log) == old(Elements(db) + Taken(log)) && old(log) <= log
      ensures unchanged(this`clock, this`mixed) && Fewer(old(clients), clients)
      ensures Serviced(old(db), old(clients), old(waiting), db, clients, waiting, log[|old(log)|..])
      ensures unblocked == Queue(old(unblocked), log[|old(log)|..]) && StaysPut(handled, old(waiting), waiting, log[|old(log)|..])
    {
      hide Queue, StaysPut, Elements, Taken, Valid, Calm, Quiet, Tidy, Serviced;
      QueueNobody(unblocked);
      NothingMoved({}, waiting);
      NothingHappened(db, clients, waiting);
      assert log[|log|..] == [];
      handled := {};
      while ready != []
        invariant Valid() && clock == old(clock) && mixed == old(mixed) && Fewer(old(clients), clients)
        invariant forall k :: k in old(ready) ==> k in handled || k in ready
        invariant forall k :: k in handled ==> Calm(k)
        invariant old(AllCalm()) ==> AllCalm()
        invariant Elements(db) + Taken(log) == old(Elements(db) + Taken(log)) && old(log) <= log
        invariant Serviced(old(db), old(clients), old(waiting), db, clients, waiting, log[|old(log)|..])
        invariant unblocked == Queue(old(unblocked), log[|old(log)|..]) && StaysPut(handled, old(waiting), waiting, log[|old(log)|..])
        decreases counters.all, |ready|
      {
        ghost var db1, clients1, waiting1, log1 := db, clients, waiting, log;
        ghost var before := handled;
        handled := HandleQueue(before);
        StaysPutTwice(before, handled, old(waiting), waiting1, waiting, log1[|old(log)|..], log[|log1|..]);
        assert before + handled == handled;
        ServicedTwice(old(db), old(clients), old(waiting), db1, clients1, waiting1, db, clients, waiting,
                      log1[|old(log)|..], log[|log1|..]);
        QueueTwice(old(unblocked), log1[|old(log)|..], log[|log1|..]);
        assert log[|old(log)|..] == log1[|old(log)|..] + log[|log1|..];
      }
      forall k | Calm(k) ensures Quiet(db, clients, waiting, k) { NothingQueued(k); }
    }

    lemma NothingQueued(k: Key)
      requires Valid() && ready == []
      ensures Calm(k) ==> Quiet(db, clients, waiting, k)
    {
      hide Mutual, Counted, InOrder, Quiet;
    }

    /** Handles the keys that are queued now. */
    method HandleQueue(ghost before: set<Key>) returns (ghost handled: set<Key>)
      requires Valid()
      modifies this
      ensures Valid() && 0 <= counters.all && handled == before + set k | k in old(ready)
      ensures unchanged(this`clock, this`mixed) && Fewer(old(clients), clients)
      ensures old(forall k :: k in before ==> Calm(k)) ==> forall k :: k in handled ==> Calm(k)
      ensures old(AllCalm()) ==> AllCalm()
      ensures counters.all <= old(counters.all) && (counters.all == old(counters.all) ==> ready == [])
      ensures Elements(db) + Taken(log) == old(Elements(db) + Taken(log)) && old(log) <= log
      ensures Serviced(old(db), old(clients), old(waiting), db, clients, waiting, log[|old(log)|..])
      ensures unblocked == Queue(old(unblocked), log[|old(log)|..]) && StaysPut(handled, old(waiting), waiting, log[|old(log)|..])
    {
      hide Queue, StaysPut, Elements, Taken, ListsFull, Mutual, Quiet, Tidy, Serviced;
      var l := ready;
      ready := [];
      assert l + [] == [] + l;
      assert forall k :: old(Calm(k)) ==> Calm(k);
      handled := HandleList(l, before);
    }

    /** Handles the first pending key. */
    method HandleNext(l: seq<Key>)
      requires Consistent(l) && NoEmptyList({}) && l != []
      modifies this
      ensures Consistent(l[1..]) && NoEmptyList({})
      ensures Calm(l[0]) && forall k :: old(Calm(k)) ==> Calm(k)
      ensures counters.all <= old(counters.all) && (counters.all == old(counters.all) ==> ready == old(ready))
      ensures Elements(db) + Taken(log) == old(Elements(db) + Taken(log)) && old(log) <= log
      ensures unchanged(this`clock, this`mixed) && Fewer(old(clients), clients) && forall m :: old(Tidy(m)) ==> Tidy(m)
      ensures Serviced(old(db), old(clients), old(waiting), db, clients, waiting, log[|old(log)|..])
      ensures unblocked == Queue(old(unblocked), log[|old(log)|..]) && StaysPut({l[0]}, old(waiting), waiting, log[|old(log)|..])
    {
      hide Queue, StaysPut, Consistent, Elements, Taken, ListsFull, Quiet, Rest, Served, Drained, Targets, Answered, Tidy, Fewer, Serviced;
      var k := TakeKey(l);
      HandleKey(k, l[1..]);
    }

    /** Handles the keys of one queue; new keys go to the next. */
    method HandleList(keys: seq<Key>, ghost before: set<Key>) returns (ghost handled: set<Key>)
      requires Consistent(keys) && NoEmptyList({}) && ready == []
      modifies this
      ensures Consistent([]) && NoEmptyList({}) && handled == before + set k | k in keys
      ensures unchanged(this`clock, this`mixed) && Fewer(old(clients), clients) && forall m :: old(Tidy(m)) ==> Tidy(m)
      ensures old(forall k :: k in before ==> Calm(k)) ==> forall k :: k in handled ==> Calm(k)
      ensures old(AllCalm()) ==> AllCalm()
      ensures counters.all <= old(counters.all) && (counters.all == old(counters.all) ==> ready == [])
      ensures Elements(db) + Taken(log) == old(Elements(db) + Taken(log)) && old(log) <= log
      ensures Serviced(old(db), old(clients), old(waiting), db, clients, waiting, log[|old(log)|..])
      ensures unblocked == Queue(old(unblocked), log[|old(log)|..]) && StaysPut(handled, old(waiting), waiting, log[|old(log)|..])
    {
      hide Queue, StaysPut, Consistent, Elements, Taken, ListsFull, Calm, Tidy, Serviced;
      QueueNobody(unblocked);
      NothingMoved(before, waiting);
      NothingHappened(db, clients, waiting);
      assert log[|log|..] == [];
      var l := keys;
      ghost var done: seq<Key> := [];
      handled := before;
      while l != []
        invariant Consistent(l) && NoEmptyList({}) && done + l == keys && handled == before + set k | k in done
        invariant old(forall k :: k in before ==> Calm(k)) ==> forall k :: k in handled ==> Calm(k)
        invariant old(AllCalm()) ==> AllCalm()
        invariant counters.all <= old(counters.all) && (counters.all == old(counters.all) ==> ready == [])
        invariant Elements(db) + Taken(log) == old(Elements(db) + Taken(log)) && old(log) <= log
        invariant clock == old(clock) && mixed == old(mixed) && Fewer(old(clients), clients)
        invariant forall m :: old(Tidy(m)) ==> Tidy(m)
        invariant Serviced(old(db), old(clients), old(waiting), db, clients, waiting, log[|old(log)|..])
        invariant unblocked == Queue(old(unblocked), log[|old(log)|..]) && StaysPut(handled, old(waiting), waiting, log[|old(log)|..])
        decreases |l|
      {
        ghost var db1, clients1, waiting1, log1 := db, clients, waiting, log;
        HandleNext(l);
        ServicedTwice(old(db), old(clients), old(waiting), db1, clients1, waiting1, db, clients, waiting,
                      log1[|old(log)|..], log[|log1|..]);
        QueueTwice(old(unblocked), log1[|old(log)|..], log[|log1|..]);
        StaysPutTwice(handled, {l[0]}, old(waiting), waiting1, waiting, log1[|old(log)|..], log[|log1|..]);
        assert log[|old(log)|..] == log1[|old(log)|..] + log[|log1|..];
        done := done + [l[0]];
        handled := handled + {l[0]};
        l := l[1..];
      }
      assert done == keys;
    }

    /** A blocked client times out or disconnects. */
    method GiveUp(c: Client)
      requires Valid() && c in clients && !clients[c].kind.Free?
      modifies this`clients, this`waiting, this`counters, this`unblocked
      ensures Valid() && clients == old(clients)[c := old(clients)[c].(kind := Free, keys := {}, target := None)]
      ensures forall k :: Waiters(waiting, k) == Without(old(Waiters(waiting, k)), c)
      ensures unblocked == Queued(old(unblocked), c)
      ensures old(AllCalm()) ==> AllCalm()
    {
      hide Counted, Mutual, InTurn, Alike, Without;
      ghost var clients0, waiting0 := clients, waiting;
      forall k ensures forall d :: d in Without(Waiters(waiting, k), c) ==> d in Waiters(waiting, k) && d != c {
        MutualAt(clients, waiting, c, k);
        WithoutFacts(Waiters(waiting, k), c);
      }
      UnblockClient(c, []);
      assert forall k :: old(Calm(k)) ==> Calm(k);
      forall k | k !in mixed ensures Tidy(k) {
        MutualAt(clients0, waiting0, c, k);
        LeavingKeepsTidy(clients0, Waiters(waiting0, k), log, clock, k, c, clients[c]);
      }
    }

    /** A command pushes an element; a key that it creates is signalled. */
    method Push(key: Key, elem: Elem, head: bool) returns (ok: bool)
      requires Valid()
      modifies this`db, this`ready, this`readySet
      ensures Valid() && ok == !(key in old(db) && !old(db)[key].List?)
      ensures db == if ok then old(db)[key := List(Pushed(Items(old(db), key), elem, head))] else old(db)
      ensures ready == if key !in old(db) && key in waiting && key !in old(readySet) then old(ready) + [key] else old(ready)
      ensures readySet == if key !in old(db) && key in waiting then old(readySet) + {key} else old(readySet)
      ensures old(AllCalm()) ==> AllCalm()
    {
      hide Consistent, Tidy;
      ok := false;
      if key in db && !db[key].List? { return; }
      if key !in db {
        db := db[key := List([])];
        SignalKeyAsReady(key, []);
      }
      db := db[key := List(Pushed(db[key].items, elem, head))];
      ok := true;
      assert forall k :: old(Calm(k)) ==> Calm(k);
    }

    /** A command adds to a sorted set, which then has the given members in order; a key that it creates is signalled. */
    method AddToZset(key: Key, items: seq<Elem>) returns (ok: bool)
      requires Valid() && items != []
      modifies this`db, this`ready, this`readySet
      ensures Valid() && ok == !(key in old(db) && !old(db)[key].Zset?)
      ensures db == if ok then old(db)[key := Zset(items)] else old(db)
      ensures ready == if key !in old(db) && key in waiting && key !in old(readySet) then old(ready) + [key] else old(ready)
      ensures readySet == if key !in old(db) && key in waiting then old(readySet) + {key} else old(readySet)
      ensures old(AllCalm()) ==> AllCalm()
    {
      hide Consistent, Tidy;
      ok := false;
      if key in db && !db[key].Zset? { return; }
      if key !in db {
        db := db[key := Zset([])];
        SignalKeyAsReady(key, []);
      }
      db := db[key := Zset(items)];
      ok := true;
      assert forall k :: old(Calm(k)) ==> Calm(k);
    }

    /**
     A command stores a value under a key. A key that it creates is signalled, one that it overwrites is
     not: then a list or sorted set that somebody waits for stays unnoticed, unless the key is queued.
     */
    method SetKey(key: Key, v: Value)
      requires Valid() && (v.Other? || v.items != [])
      modifies this`db, this`ready, this`readySet
      ensures Valid() && db == old(db)[key := v]
      ensures ready == if key !in old(db) && !v.Other? && key in waiting && key !in old(readySet) then old(ready) + [key] else old(ready)
      ensures readySet == if key !in old(db) && !v.Other? && key in waiting then old(readySet) + {key} else old(readySet)
      ensures old(AllCalm()) ==>
                (AllCalm() <==> key !in old(db) || key in old(readySet) || v.Other?
                                || forall c :: c in Waiters(waiting, key) ==> clients[c].kind != Wanted(v))
    {
      hide Counted, Tidy;
      if key !in db {
        db := db[key := v];
        if !v.Other? { SignalKeyAsReady(key, []); }
      } else {
        db := db[key := v];
      }
      assert forall k :: k != key && old(Calm(k)) ==> Calm(k);
      assert Calm(key) <==> key in readySet || Quiet(db, clients, waiting, key);
    }

    /** A key is deleted, or expires. */
    method Delete(key: Key)
      requires Valid()
      modifies this`db
      ensures Valid() && db == old(db) - {key}
      ensures old(AllCalm()) ==> AllCalm()
    {
      hide Consistent, Tidy;
      db := db - {key};
      assert forall k :: old(Calm(k)) ==> Calm(k);
    }
  }

  // Two inputs

  /** Three clients wait on a key, the second for a sorted set of which one member is left: the first loses its turn to the third. */
  lemma FirstGoesLast(db: map<Key, Value>, key: Key, clients: map<Client, Info>, w: seq<Client>, c: Client, d: Client, e: Client)
    requires key in db && db[key].Zset? && |db[key].items| == 1 && w == [c, d, e]
    requires c in clients && clients[c].kind.OnList? && d in clients && clients[d].kind.OnZset? && e in clients
    ensures Served(db, key, clients, w) == [d] && Rest(db, key, clients, w) == [e, c] && Drained(db, key, clients, w) == db - {key}
  {
    var after := AfterServing(db, key, clients[d]);
    assert w[1..][0] == d && w[1..][1..] == [e];
    assert Looked(after, key, clients, [e]) == 0;
    assert Looked(db, key, clients, w[1..]) == 1;
    assert Drained(after, key, clients, [e]) == after - {key} == db - {key};
    assert Drained(db, key, clients, w[1..]) == db - {key};
    assert w[..2] == [c, d] && w[2..] == [e];
    OnlyOfTwo(clients, c, d, OnZset, true);
    OnlyOfTwo(clients, c, d, OnZset, false);
  }

  lemma OnlyOfTwo(clients: map<Client, Info>, c: Client, d: Client, kind: Kind, wanted: bool)
    requires c in clients && d in clients
    ensures Only(clients, [c], kind, wanted) == if (clients[c].kind == kind) == wanted then [c] else []
    ensures Only(clients, [c, d], kind, wanted) == Only(clients, [c], kind, wanted) + if (clients[d].kind == kind) == wanted then [d] else []
  {
    assert [c, d][..1] == [c];
  }

  /** Two clients that want the list there, and one element: the first is served and the other left. */
  lemma FirstIsServed(db: map<Key, Value>, key: Key, clients: map<Client, Info>, w: seq<Client>, c: Client, d: Client)
    requires key in db && db[key].List? && |db[key].items| == 1 && w == [c, d]
    requires c in clients && clients[c].kind.OnList? && clients[c].target.None? && d in clients && clients[d].kind.OnList?
    ensures Served(db, key, clients, w) == [c] && Rest(db, key, clients, w) == [d]
  {
    var after := AfterServing(db, key, clients[c]);
    assert w[1..] == [d] && Looked(after, key, clients, [d]) == 0;
    assert w[..1] == [c];
    OnlyOfTwo(clients, c, d, OnList, true);
    OnlyOfTwo(clients, c, d, OnList, false);
  }

  /**
   A client blocks for a list, another for a sorted set, a third for a list. A sorted set with one member is
   created and handled, then a list with one element: the third client is served and the first still waits.
   */
  method MixedKindsOvertake(key: Key, elem: Elem) returns (s: Server)
    ensures fresh(s) && s.Valid() && s.mixed == {key}
    ensures Waiters(s.waiting, key) == [1] && 1 in s.clients && |s.log| == 2
    ensures s.log[1].client == 3 && s.log[1].key == key && s.clients[1].since < s.log[1].since
  {
    hide Server.Consistent, Server.InOrder, Server.NoEmptyList, Rest, Served, Drained, Targets, OnlyKind, Server.Calm;
    s := ThreeBlock(key);
    var ok := s.AddToZset(key, [elem]);
    FirstGoesLast(s.db, key, s.clients, Waiters(s.waiting, key), 1, 2, 3);
    NoTargets(s.clients, Waiters(s.waiting, key));
    HandleOne(s, key);
    s.StillWaits(key, 1);
    s.StillWaits(key, 3);
    ok := s.Push(key, elem, true);
    FirstIsServed(s.db, key, s.clients, Waiters(s.waiting, key), 3, 1);
    HandleOne(s, key);
    s.StillWaits(key, 1);
  }

  /** A client waits for a list; its key is set to a string and then to a list: the list is there, the client waits, and nothing is queued. */
  method OverwriteUnnoticed(key: Key, elem: Elem) returns (s: Server)
    ensures fresh(s) && s.Valid() && s.ready == [] && s.db == map[key := List([elem])]
    ensures Waiters(s.waiting, key) == [1] && 1 in s.clients && s.clients[1].kind.OnList? && !s.Calm(key)
  {
    hide Server.Consistent, Server.InOrder, Server.NoEmptyList, OnlyKind;
    s := new Server({1});
    assert Waiters(s.waiting, key) == [];
    BlockOne(s, 1, OnList, key);
    s.SetKey(key, Other);
    s.SetKey(key, List([elem]));
    assert 1 in Waiters(s.waiting, key);
  }

  lemma NoTargets(clients: map<Client, Info>, w: seq<Client>)
    requires forall c :: c in w ==> c in clients && clients[c].target.None?
    ensures Targets(clients, w) == {}
  {}

  method ThreeBlock(key: Key) returns (s: Server)
    ensures fresh(s) && s.Valid() && s.mixed == {key} && s.clients.Keys == {1, 2, 3} && Waiters(s.waiting, key) == [1, 2, 3]
    ensures s.clients[1] == Info(OnList, {key}, None, true, 0)
    ensures s.clients[2] == Info(OnZset, {key}, None, true, 1)
    ensures s.clients[3] == Info(OnList, {key}, None, true, 2)
    ensures s.db == map[] && s.ready == [] && s.readySet == {} && s.log == []
  {
    hide Server.Consistent, Server.InOrder, Server.NoEmptyList, Server.Calm, OnlyKind;
    s := new Server({1, 2, 3});
    assert Waiters(s.waiting, key) == [];
    BlockOne(s, 1, OnList, key);
    BlockOne(s, 2, OnZset, key);
    NotOnlyKind(s.clients, Waiters(s.waiting, key), OnList, 2);
    BlockOne(s, 3, OnList, key);
  }

  lemma NotOnlyKind(clients: map<Client, Info>, w: seq<Client>, kind: Kind, c: Client)
    requires c in w && c in clients && clients[c].kind != kind
    ensures !OnlyKind(clients, w, kind)
  {}

  method BlockOne(s: Server, c: Client, kind: Kind, key: Key)
    requires s.Valid() && c in s.clients && s.clients[c].kind.Free? && !kind.Free?
    modifies s`clients, s`waiting, s`counters, s`clock, s`mixed
    ensures s.Valid() && s.clock == old(s.clock) + 1 && Waiters(s.waiting, key) == old(Waiters(s.waiting, key)) + [c]
    ensures s.clients == old(s.clients)[c := Info(kind, {key}, None, true, old(s.clock))]
    ensures old(s.mixed) <= s.mixed <= old(s.mixed) + {key}
    ensures !old(OnlyKind(s.clients, Waiters(s.waiting, key), kind)) ==> key in s.mixed
  {
    hide Server.Consistent, Server.InOrder, Server.NoEmptyList, Server.Calm, OnlyKind, Waiters;
    s.BlockForKeys(c, kind, [key], None, true);
    assert (set k | k in [key]) == {key};
  }

  /** Handles a queue that holds one key. */
  method HandleOne(s: Server, key: Key)
    requires s.Valid() && s.ready == [key] && key in s.db && !s.db[key].Other?
    modifies s
    ensures s.Valid() && unchanged(s`mixed, s`clock) && Fewer(old(s.clients), s.clients)
    ensures s.db == old(Drained(s.db, key, s.clients, Waiters(s.waiting, key)))
    ensures old(Targets(s.clients, Waiters(s.waiting, key))) == {} ==> s.ready == [] && s.readySet == {}
    ensures forall c :: c in old(Waiters(s.waiting, key)) ==> c in old(s.clients)
    ensures Waiters(s.waiting, key) == old(Rest(s.db, key, s.clients, Waiters(s.waiting, key)))
    ensures old(s.log) <= s.log
    ensures Answered(old(s.clients), s.log[|old(s.log)|..], old(Served(s.db, key, s.clients, Waiters(s.waiting, key))), key)
  {
    hide Rest, Served, Drained, Targets, Answered, Elements, Taken, ListsFull, Server.Tidy;
    assert [] + s.ready == s.ready + [];
    var l := s.ready;
    s.ready := [];
    var k := s.TakeKey(l);
    s.HandleKey(k, l[1..]);
    assert s.ready != [] ==> s.ready[0] in [] + s.ready;
  }
}
