/**
 Where a command on keys is served: the redirection decision of getNodeByQuery, and what it
 guarantees while a slot is being resharded. The decision loops over the keys of one or more
 commands; its result is specified without the loop. The resharding protocol has an owner a, a
 node b that imports the slot, any number of bystanders that learn of the new owner in their own
 time, clients that follow redirections at their own pace, and keys that move one at a time.
 */
module Routing {
  import opened Common

  type Key = string

  /** What a node knows and holds. Absent entries are null pointers of the source. */
  datatype View = View(
    me: Id, owner: map<nat, Id>, migrating: map<nat, Id>, importing: map<nat, Id>,
    present: set<Key>, up: bool, slaveOf: Option<Id>)

  /** The client's and the command's flags. */
  datatype Flags = Flags(asking: bool, migrate: bool, readonly: bool)

  datatype Route = Serve | Ask(node: Id) | Moved(node: Id) | TryAgain | CrossSlot | Unbound | Down

  // The decision

  predicate Migrating(v: View, slot: nat) {
    slot in v.owner && v.owner[slot] == v.me && slot in v.migrating
  }

  predicate Importing(v: View, slot: nat) {
    !Migrating(v, slot) && slot in v.importing
  }

  predicate Missing(v: View, keys: seq<Key>) {
    exists i :: 0 <= i < |keys| && keys[i] !in v.present
  }

  /** The command names at least two different keys. */
  predicate Several(keys: seq<Key>) {
    exists i :: 0 <= i < |keys| && keys[i] != keys[0]
  }

  predicate Crosses(hash: Key -> nat, keys: seq<Key>) {
    exists i :: 0 <= i < |keys| && hash(keys[i]) != hash(keys[0])
  }

  function RouteOf(v: View, hash: Key -> nat, keys: seq<Key>, flags: Flags): Route {
    if keys == [] then Serve
    else
      var slot := hash(keys[0]);
      if slot !in v.owner then Unbound
      else if Crosses(hash, keys) then CrossSlot
      else if !v.up then Down
      else if flags.migrate && Open(v, slot) then Serve
      else if Migrating(v, slot) && Missing(v, keys) then Ask(v.migrating[slot])
      else if Importing(v, slot) && flags.asking then
        (if Several(keys) && Missing(v, keys) then TryAgain else Serve)
      else if flags.readonly && v.slaveOf == Some(v.owner[slot]) then Serve
      else if v.owner[slot] != v.me then Moved(v.owner[slot])
      else Serve
  }

  function Flatten(commands: seq<seq<Key>>): seq<Key> {
    if commands == [] then [] else Flatten(commands[..|commands| - 1]) + commands[|commands| - 1]
  }

  /** This node is moving the slot, one way or the other. */
  predicate Open(v: View, slot: nat) {
    Migrating(v, slot) || Importing(v, slot)
  }

  /** What is known after some of the keys. */
  ghost predicate Scanned(v: View, hash: Key -> nat, seen: seq<Key>, slot: nat, several: bool, missing: nat) {
    seen != [] ==>
      && slot == hash(seen[0]) && slot in v.owner && !Crosses(hash, seen)
      && several == Several(seen)
      && (if Open(v, slot) then (missing > 0) == Missing(v, seen) else missing == 0)
  }

  lemma ScanNext(v: View, hash: Key -> nat, seen: seq<Key>, key: Key, slot: nat, several: bool, missing: nat)
    requires seen != [] && Scanned(v, hash, seen, slot, several, missing)
    ensures Crosses(hash, seen + [key]) <==> hash(key) != slot
    ensures hash(key) == slot ==>
      Scanned(v, hash, seen + [key], slot, several || key != seen[0],
              if Open(v, slot) && key !in v.present then missing + 1 else missing)
  {
    hide Open;
    var next := seen + [key];
    assert next[|seen|] == key && forall i :: 0 <= i < |seen| ==> next[i] == seen[i];
  }

  lemma {:induction false} FlattenPrefix(commands: seq<seq<Key>>, i: nat, seen: seq<Key>)
    requires i <= |commands| && Flatten(commands[..i]) == seen
    ensures |seen| <= |Flatten(commands)| && Flatten(commands)[..|seen|] == seen
    decreases |commands| - i
  {
    if i < |commands| {
      assert commands[..i + 1][..i] == commands[..i];
      FlattenPrefix(commands, i + 1, seen + commands[i]);
    } else {
      assert commands[..i] == commands;
    }
  }

  /** The rest of the keys cannot undo an error found early. */
  lemma CrossesEarly(hash: Key -> nat, keys: seq<Key>, seen: seq<Key>)
    requires |seen| <= |keys| && keys[..|seen|] == seen && Crosses(hash, seen)
    ensures Crosses(hash, keys)
  {}

  /** The outcome of looking at all keys. */
  datatype Scan = NoKeys | NotBound | Crossing | Keys(slot: nat, several: bool, missing: nat)

  /** Goes through the keys of the commands of a transaction. */
  method ScanKeys(v: View, hash: Key -> nat, commands: seq<seq<Key>>) returns (r: Scan)
    ensures var all := Flatten(commands);
            match r
            case NoKeys => all == []
            case NotBound => all != [] && hash(all[0]) !in v.owner
            case Crossing => all != [] && hash(all[0]) in v.owner && Crosses(hash, all)
            case Keys(slot, several, missing) => all != [] && Scanned(v, hash, all, slot, several, missing)
  {
    hide Crosses, Missing, Several, Open;
    ghost var all := Flatten(commands);
    ghost var seen: seq<Key> := [];
    var first, any, slot, several, missing := "", false, 0, false, 0;
    for i := 0 to |commands|
      invariant seen == Flatten(commands[..i])
      invariant any == (seen != []) && (any ==> first == seen[0])
      invariant Scanned(v, hash, seen, slot, several, missing)
    {
      assert commands[..i + 1][..i] == commands[..i];
      ghost var before := seen;
      for j := 0 to |commands[i]|
        invariant seen == before + commands[i][..j]
        invariant any == (seen != []) && (any ==> first == seen[0])
        invariant Scanned(v, hash, seen, slot, several, missing)
      {
        var key := commands[i][j];
        ghost var next := seen + [key];
        assert next == before + commands[i][..j + 1];
        EarlyPart(commands, i, j + 1, before, next);
        if !any {
          first, any, slot, several := key, true, hash(key), false;
          if slot !in v.owner { return NotBound; }
          missing := if Open(v, slot) && key !in v.present then 1 else 0;
          FirstKey(v, hash, key, slot, missing);
          assert next == [key];
        } else {
          ScanNext(v, hash, seen, key, slot, several, missing);
          if key != first {
            if hash(key) != slot {
              CrossesEarly(hash, all, next);
              return Crossing;
            }
            several := true;
          }
          if Open(v, slot) && key !in v.present { missing := missing + 1; }
        }
        seen := next;
      }
      assert commands[i][..|commands[i]|] == commands[i];
    }
    assert commands[..|commands|] == commands;
    r := if any then Keys(slot, several, missing) else NoKeys;
  }

  /** A command with its keys, or an EXEC with those of the commands queued, if there is a transaction. */
  datatype Query = Command(keys: seq<Key>) | Exec(multi: bool, queued: seq<seq<Key>>)

  function KeysOf(query: Query): seq<Key> {
    if query.Command? then query.keys else Flatten(query.queued)
  }

  /**
   The decision as the source makes it: all keys first, then the state of their slot. An EXEC without
   a transaction is served, to fail there; and so is everything when a module turns redirections off.
   */
  method GetNodeByQuery(v: View, hash: Key -> nat, redirects: bool, query: Query, flags: Flags) returns (r: Route)
    ensures r == if !redirects || (query.Exec? && !query.multi) then Serve else RouteOf(v, hash, KeysOf(query), flags)
  {
    hide Crosses, Missing, Several;
    if !redirects { return Serve; }
    if query.Exec? && !query.multi { return Serve; }
    var commands := if query.Exec? then query.queued else [query.keys];
    assert query.Command? ==> commands[..0] == [] && Flatten(commands) == query.keys;
    var scan := ScanKeys(v, hash, commands);
    match scan
    case NoKeys => return Serve;
    case NotBound => return Unbound;
    case Crossing => return CrossSlot;
    case Keys(slot, several, missing) =>
      if !v.up { return Down; }
      if Open(v, slot) && flags.migrate { return Serve; }
      if Migrating(v, slot) && missing > 0 { return Ask(v.migrating[slot]); }
      if Importing(v, slot) && flags.asking {
        if several && missing > 0 { return TryAgain; }
        return Serve;
      }
      if flags.readonly && v.slaveOf == Some(v.owner[slot]) { return Serve; }
      if v.owner[slot] != v.me { return Moved(v.owner[slot]); }
      r := Serve;
  }

  lemma FirstKey(v: View, hash: Key -> nat, key: Key, slot: nat, missing: nat)
    requires slot == hash(key) && slot in v.owner
    requires missing == if Open(v, slot) && key !in v.present then 1 else 0
    ensures Scanned(v, hash, [key], slot, false, missing)
  {}

  lemma EarlyPart(commands: seq<seq<Key>>, i: nat, j: nat, before: seq<Key>, seen: seq<Key>)
    requires i < |commands| && j <= |commands[i]|
    requires before == Flatten(commands[..i]) && seen == before + commands[i][..j]
    ensures |seen| <= |Flatten(commands)| && Flatten(commands)[..|seen|] == seen
  {
    assert commands[..i + 1][..i] == commands[..i];
    FlattenPrefix(commands, i + 1, before + commands[i]);
  }

  // A cluster at rest

  /** All nodes have the same slot map, whose owners are there, and no slot is open. */
  ghost predicate AtRest(views: map<Id, View>, owner: map<nat, Id>) {
    && (forall n :: n in views ==>
         views[n].me == n && views[n].owner == owner && views[n].migrating == map[] && views[n].importing == map[])
    && (forall slot :: slot in owner ==> owner[slot] in views)
  }

  /** Where a command is served when its client follows redirections, if anywhere. */
  function Answer(views: map<Id, View>, hash: Key -> nat, keys: seq<Key>, flags: Flags, at: Id, hops: nat): Option<Id>
    requires at in views
    decreases hops
  {
    match RouteOf(views[at], hash, keys, flags)
    case Serve => Some(at)
    case Ask(n) => if hops == 0 || n !in views then None else Answer(views, hash, keys, flags.(asking := true), n, hops - 1)
    case Moved(n) => if hops == 0 || n !in views then None else Answer(views, hash, keys, flags.(asking := false), n, hops - 1)
    case _ => None
  }

  predicate SameSlot(hash: Key -> nat, keys: seq<Key>) {
    forall i, j :: 0 <= i < |keys| && 0 <= j < |keys| ==> hash(keys[i]) == hash(keys[j])
  }

  /** A node that may answer for the owner of a slot: itself, or its replica for a reader that asked for that. */
  predicate Answers(v: View, owner: Id, flags: Flags) {
    v.me == owner || (flags.readonly && v.slaveOf == Some(owner))
  }

  /**
   In a cluster at rest, a command on keys of different slots, or of a slot without an owner, is served
   nowhere, and no command with keys is served by a node that takes the cluster for down. Any other is
   served where it arrives if that node may answer, and otherwise, after one redirection, by the owner.
   */
  lemma ServedByTheOwner(views: map<Id, View>, owner: map<nat, Id>, hash: Key -> nat, keys: seq<Key>, flags: Flags, at: Id, hops: nat)
    requires AtRest(views, owner) && at in views && keys != [] && hops >= 1
    ensures var slot := hash(keys[0]);
            Answer(views, hash, keys, flags, at, hops) ==
            if !SameSlot(hash, keys) || slot !in owner || !views[at].up then None
            else if Answers(views[at], owner[slot], flags) then Some(at)
            else if views[owner[slot]].up then Some(owner[slot]) else None
  {
    SameSlotIff(hash, keys);
    hide Crosses, SameSlot, Missing, Several;
    var slot := hash(keys[0]);
    if slot in owner {
      var home := owner[slot];
      assert Answer(views, hash, keys, flags.(asking := false), home, hops - 1)
          == if SameSlot(hash, keys) && views[home].up then Some(home) else None;
    }
  }

  lemma SameSlotIff(hash: Key -> nat, keys: seq<Key>)
    ensures SameSlot(hash, keys) <==> !Crosses(hash, keys)
  {}

  /** What a client is told when a command on keys cannot be served, in the order in which it is found out; without keys all is served. */
  lemma ErrorsTold(v: View, hash: Key -> nat, keys: seq<Key>, flags: Flags)
    ensures keys == [] ==> RouteOf(v, hash, keys, flags) == Serve
    ensures keys != [] && hash(keys[0]) !in v.owner ==> RouteOf(v, hash, keys, flags) == Unbound
    ensures keys != [] && hash(keys[0]) in v.owner && !SameSlot(hash, keys) ==> RouteOf(v, hash, keys, flags) == CrossSlot
    ensures keys != [] && hash(keys[0]) in v.owner && SameSlot(hash, keys) && !v.up ==> RouteOf(v, hash, keys, flags) == Down
  {
    SameSlotIff(hash, keys);
  }

  /** MIGRATE is served by the node that moves the slot, one way or the other, whichever keys are there. */
  lemma MigrateStays(v: View, hash: Key -> nat, keys: seq<Key>, flags: Flags)
    requires keys != [] && SameSlot(hash, keys) && v.up && flags.migrate && hash(keys[0]) in v.owner
    requires hash(keys[0]) in v.importing || (v.owner[hash(keys[0])] == v.me && hash(keys[0]) in v.migrating)
    ensures RouteOf(v, hash, keys, flags) == Serve
  {
    SameSlotIff(hash, keys);
  }

  // Resharding

  /** A client that follows redirections: where its command goes next, and whether it was told to ask. */
  datatype Client = Idle | Waiting(at: Id, asking: bool, keys: seq<Key>)

  /** A command that ran: where, on which keys, whether that node was moving the slot, and what every node held. */
  datatype Execution = Execution(at: Id, keys: seq<Key>, open: bool, held: map<Id, set<Key>>)

  /**
   A slot moves from a to b. held gives each node's keys of that slot; importing and migrating say
   whether b and a have been told; moved are the nodes that know b as the owner.
   */
  datatype Resharding = Resharding(
    a: Id, b: Id, slot: nat, held: map<Id, set<Key>>, importing: bool, migrating: bool, moved: set<Id>,
    clients: seq<Client>, log: seq<Execution>)

  datatype Step =
    | Issue(client: nat, keys: seq<Key>, at: Id)
    | Process(client: nat, after: set<Key>)
    | MarkImporting
    | MarkMigrating
    | Migrate(key: Key)
    | CloseImport
    | CloseMigration
    | Learn(n: Id)

  predicate Shaped(r: Resharding) {
    && r.a != r.b && r.a in r.held && r.b in r.held
    && forall i :: 0 <= i < |r.clients| && r.clients[i].Waiting? ==> r.clients[i].at in r.held
  }

  function OwnerAt(r: Resharding, n: Id): Id {
    if n in r.moved then r.b else r.a
  }

  /** Only a and b know of the resharding, and each until it has closed the slot. */
  function ViewAt(r: Resharding, n: Id): View
    requires n in r.held
  {
    View(n, map[r.slot := OwnerAt(r, n)],
         if n == r.a && r.migrating && r.a !in r.moved then map[r.slot := r.b] else map[],
         if n == r.b && r.importing && r.b !in r.moved then map[r.slot := r.a] else map[],
         r.held[n], true, None)
  }

  function Decision(r: Resharding, hash: Key -> nat, c: Client): Route
    requires c.Waiting? && c.at in r.held
  {
    RouteOf(ViewAt(r, c.at), hash, c.keys, Flags(c.asking, false, false))
  }

  predicate OnlyChanges(before: set<Key>, after: set<Key>, keys: seq<Key>) {
    forall k :: k in before + after && k !in keys ==> k in before && k in after
  }

  /**
   Keys move once both sides are told. The import is closed when a has no key of the slot left; the
   owner's side refuses to close while it has one. Others learn of b once it claims the slot.
   */
  predicate Enabled(r: Resharding, hash: Key -> nat, step: Step)
    requires Shaped(r)
  {
    match step
    case Issue(c, keys, at) =>
      c < |r.clients| && r.clients[c].Idle? && at in r.held && keys != [] && forall k :: k in keys ==> hash(k) == r.slot
    case Process(c, after) =>
      && c < |r.clients| && r.clients[c].Waiting?
      && (Decision(r, hash, r.clients[c]).Serve? ==> OnlyChanges(r.held[r.clients[c].at], after, r.clients[c].keys))
    case MarkImporting => r.b !in r.moved
    case MarkMigrating => r.a !in r.moved
    case Migrate(key) => r.importing && r.migrating && key in r.held[r.a]
    case CloseImport => r.importing && r.migrating && r.held[r.a] == {}
    case CloseMigration => r.migrating && r.held[r.a] == {}
    case Learn(n) => r.b in r.moved && n in r.held
  }

  /** The node a client is sent to. */
  function SentTo(r: Resharding, n: Id, asking: bool, keys: seq<Key>): Client {
    if n in r.held then Waiting(n, asking, keys) else Idle
  }

  /**
   A served command may create, change and delete its own keys and no others. MIGRATE moves a
   key in one step. An error or a result makes the client idle again.
   */
  function Apply(r: Resharding, hash: Key -> nat, step: Step): (q: Resharding)
    requires Shaped(r) && Enabled(r, hash, step)
    ensures Shaped(q) && q.a == r.a && q.b == r.b && q.slot == r.slot
  {
    match step
    case Issue(c, keys, at) => r.(clients := r.clients[c := Waiting(at, false, keys)])
    case Process(c, after) =>
      var client := r.clients[c];
      (match Decision(r, hash, client)
       case Serve => r.(held := r.held[client.at := after], clients := r.clients[c := Idle],
                        log := r.log + [Execution(client.at, client.keys, Open(ViewAt(r, client.at), r.slot), r.held)])
       case Ask(n) => r.(clients := r.clients[c := SentTo(r, n, true, client.keys)])
       case Moved(n) => r.(clients := r.clients[c := SentTo(r, n, false, client.keys)])
       case _ => r.(clients := r.clients[c := Idle]))
    case MarkImporting => r.(importing := true)
    case MarkMigrating => r.(migrating := true)
    case Migrate(key) =>
      r.(held := r.held[r.a := r.held[r.a] - {key}][r.b := r.held[r.b] + {key}])
    case CloseImport => r.(moved := r.moved + {r.b})
    case CloseMigration => r.(moved := r.moved + {r.a})
    case Learn(n) => r.(moved := r.moved + {n})
  }

  predicate Initial(r: Resharding) {
    && Shaped(r) && r.log == [] && (forall i :: 0 <= i < |r.clients| ==> r.clients[i].Idle?)
    && !r.importing && !r.migrating && r.moved == {}
    && (forall n :: n in r.held && n != r.a ==> r.held[n] == {})
  }

  ghost predicate Run(states: seq<Resharding>, steps: seq<Step>, hash: Key -> nat) {
    && |states| == |steps| + 1 && Initial(states[0])
    && forall i {:trigger steps[i]} :: 0 <= i < |steps| ==>
      Shaped(states[i]) && Enabled(states[i], hash, steps[i]) && states[i + 1] == Apply(states[i], hash, steps[i])
  }

  /**
   No other node had a copy of any of the command's keys; and a node that is moving the slot runs
   a command on several keys only if it has all of them.
   */
  predicate RanAtTheCopy(e: Execution) {
    && e.at in e.held && e.keys != []
    && (forall n, k :: n in e.held && n != e.at && k in e.keys ==> k !in e.held[n])
    && (e.open && Several(e.keys) ==> forall k :: k in e.keys ==> k in e.held[e.at])
  }

  /** A client that asks at b does so for a key that a no longer has. */
  predicate ClientFine(r: Resharding, hash: Key -> nat, c: Client)
    requires Shaped(r)
  {
    c.Waiting? ==>
      && c.keys != [] && (forall k :: k in c.keys ==> hash(k) == r.slot)
      && (c.asking ==> r.migrating && (c.at == r.b) && (!Several(c.keys) ==> c.keys[0] !in r.held[r.a]))
  }

  predicate OneCopy(r: Resharding)
    requires Shaped(r)
  {
    r.held[r.a] !! r.held[r.b] && forall n :: n in r.held && n != r.a && n != r.b ==> r.held[n] == {}
  }

  /** The order of the resharding: keys at b only once a migrates, and the slot has moved only once a is empty. */
  predicate InOrder(r: Resharding)
    requires Shaped(r)
  {
    && (!r.migrating ==> r.held[r.b] == {} && r.moved == {})
    && (r.moved != {} ==> r.held[r.a] == {})
    && (r.moved - {r.a} != {} ==> r.b in r.moved)
  }

  predicate Inv(r: Resharding, hash: Key -> nat) {
    && Shaped(r) && OneCopy(r) && InOrder(r)
    && (forall i :: 0 <= i < |r.clients| ==> ClientFine(r, hash, r.clients[i]))
    && (forall i :: 0 <= i < |r.log| ==> RanAtTheCopy(r.log[i]))
  }

  predicate Lacks(held: set<Key>, keys: seq<Key>) {
    exists k :: k in keys && k !in held
  }

  /** The decision during a resharding, spelled out. */
  lemma Decides(r: Resharding, hash: Key -> nat, c: Client)
    requires Shaped(r) && c.Waiting? && c.at in r.held && ClientFine(r, hash, c)
    ensures Decision(r, hash, c) ==
            if c.at == r.a && r.a !in r.moved then
              (if r.migrating && Lacks(r.held[r.a], c.keys) then Ask(r.b) else Serve)
            else if c.at == r.b && r.b in r.moved then Serve
            else if c.at == r.b && r.importing && c.asking then
              (if Several(c.keys) && Lacks(r.held[r.b], c.keys) then TryAgain else Serve)
            else Moved(OwnerAt(r, c.at))
  {}

  lemma OnlyKey(keys: seq<Key>)
    requires keys != [] && !Several(keys)
    ensures forall k :: k in keys <==> k == keys[0]
  {}

  lemma ServedAtTheCopy(r: Resharding, hash: Key -> nat, c: Client)
    requires Inv(r, hash) && c.Waiting? && c.at in r.held && ClientFine(r, hash, c) && Decision(r, hash, c).Serve?
    ensures c.at == r.a || c.at == r.b
    ensures RanAtTheCopy(Execution(c.at, c.keys, Open(ViewAt(r, c.at), r.slot), r.held))
    ensures c.at == r.a ==> r.a !in r.moved && (r.migrating ==> !Lacks(r.held[r.a], c.keys))
    ensures c.at == r.b ==> r.migrating && forall k :: k in c.keys ==> k !in r.held[r.a]
  {
    Decides(r, hash, c);
    hide Decision, RouteOf;
    if !Several(c.keys) { OnlyKey(c.keys); }
    hide Several;
  }

  lemma ServeKeepsInv(r: Resharding, hash: Key -> nat, c: nat, after: set<Key>)
    requires Inv(r, hash) && Enabled(r, hash, Process(c, after)) && Decision(r, hash, r.clients[c]).Serve?
    ensures Inv(Apply(r, hash, Process(c, after)), hash)
  {
    hide RouteOf, Several, RanAtTheCopy;
    var client := r.clients[c];
    var q := Apply(r, hash, Process(c, after));
    assert ClientFine(r, hash, client);
    ServedAtTheCopy(r, hash, client);
    forall k | k in q.held[r.a] && q.held[r.a] != r.held[r.a] ensures k !in r.held[r.b] {
      assert k in r.held[r.a] + after;
    }
    assert r.migrating ==> q.held[r.a] <= r.held[r.a];
    forall i | 0 <= i < |q.clients| ensures ClientFine(q, hash, q.clients[i]) {
      assert ClientFine(r, hash, r.clients[i]);
    }
  }

  lemma StepKeepsInv(r: Resharding, hash: Key -> nat, step: Step)
    requires Inv(r, hash) && Enabled(r, hash, step)
    ensures Inv(Apply(r, hash, step), hash)
  {
    var q := Apply(r, hash, step);
    if step.Process? {
      var client := r.clients[step.client];
      if Decision(r, hash, client).Serve? {
        ServeKeepsInv(r, hash, step.client, step.after);
        return;
      }
      Decides(r, hash, client);
      assert ClientFine(r, hash, client) && client.keys[0] in client.keys;
      if !Several(client.keys) { OnlyKey(client.keys); }
    }
    hide RouteOf, Several;
    forall i | 0 <= i < |q.clients| ensures ClientFine(q, hash, q.clients[i]) {
      assert ClientFine(r, hash, r.clients[i]);
    }
  }

  lemma {:induction false} RunKeepsInv(states: seq<Resharding>, steps: seq<Step>, hash: Key -> nat, n: nat)
    requires Run(states, steps, hash) && n < |states|
    ensures Inv(states[n], hash)
  {
    if n > 0 {
      RunKeepsInv(states, steps, hash, n - 1);
      StepKeepsInv(states[n - 1], hash, steps[n - 1]);
    }
  }

  /**
   From the first mark to the last node that learns of the new owner, no key is ever held by two
   nodes, and no command ever ran at a node while another had a copy of one of its keys.
   */
  lemma ReshardingIsSafe(states: seq<Resharding>, steps: seq<Step>, hash: Key -> nat, n: nat)
    requires Run(states, steps, hash) && n < |states|
    ensures forall m, m' :: m in states[n].held && m' in states[n].held && m != m' ==>
              states[n].held[m] !! states[n].held[m']
    ensures forall e :: e in states[n].log ==> RanAtTheCopy(e)
  {
    RunKeepsInv(states, steps, hash, n);
  }

  /**
   The import must not be closed while the owner has a key: the importing node would then serve
   commands on it, beside the owner's copy. Nothing but the operator's order prevents that.
   */
  lemma EarlyCloseServesTwice(r: Resharding, hash: Key -> nat, key: Key)
    requires Shaped(r) && key in r.held[r.a] && hash(key) == r.slot
    ensures var q := r.(moved := r.moved + {r.b});
            var c := Waiting(r.b, false, [key]);
            Decision(q, hash, c) == Serve && !RanAtTheCopy(Execution(r.b, c.keys, false, q.held))
  {
    var q := r.(moved := r.moved + {r.b});
    assert [key][0] == key && key in [key];
    Decides(q, hash, Waiting(r.b, false, [key]));
  }

  /** Where a command ends up when its client follows redirections and nothing else happens. */
  function Follow(r: Resharding, hash: Key -> nat, c: Client, hops: nat): Option<Id>
    requires c.Waiting? && c.at in r.held
    decreases hops
  {
    match Decision(r, hash, c)
    case Serve => Some(c.at)
    case Ask(n) => if hops == 0 || n !in r.held then None else Follow(r, hash, Waiting(n, true, c.keys), hops - 1)
    case Moved(n) => if hops == 0 || n !in r.held then None else Follow(r, hash, Waiting(n, false, c.keys), hops - 1)
    case _ => None
  }

  /**
   A command on the key can be served somewhere: the import is closed, or the owner's side is still
   open and either has the key, has not begun to migrate, or sends clients on to a node that imports.
   */
  predicate Reachable(r: Resharding, key: Key)
    requires Shaped(r)
  {
    r.b in r.moved || (r.a !in r.moved && (!r.migrating || r.importing || key in r.held[r.a]))
  }

  /** The one node where a command on the key should run. */
  function Home(r: Resharding, key: Key): Id
    requires Shaped(r)
  {
    if r.b in r.moved || (r.migrating && key !in r.held[r.a]) then r.b else r.a
  }

  lemma OneKey(key: Key)
    ensures [key][0] == key && !Several([key]) && forall k :: k in [key] <==> k == key
  {}

  lemma DecidesKey(r: Resharding, hash: Key -> nat, at: Id, asking: bool, key: Key)
    requires Shaped(r) && at in r.held && hash(key) == r.slot && (asking ==> at == r.b && r.migrating && key !in r.held[r.a])
    ensures Decision(r, hash, Waiting(at, asking, [key])) ==
            if at == r.a && r.a !in r.moved then (if r.migrating && key !in r.held[r.a] then Ask(r.b) else Serve)
            else if at == r.b && (r.b in r.moved || (r.importing && asking)) then Serve
            else Moved(OwnerAt(r, at))
  {
    OneKey(key);
    hide Decision, Several;
    assert Lacks(r.held[r.a], [key]) <==> key !in r.held[r.a];
    Decides(r, hash, Waiting(at, asking, [key]));
  }

  /** Until it is reachable, a command on the key is redirected for ever. */
  lemma {:induction false} Circles(r: Resharding, hash: Key -> nat, at: Id, asking: bool, key: Key, hops: nat)
    requires Shaped(r) && InOrder(r) && at in r.held && hash(key) == r.slot && !Reachable(r, key)
    requires asking ==> at == r.b && r.a !in r.moved
    ensures Follow(r, hash, Waiting(at, asking, [key]), hops) == None
    decreases hops
  {
    hide Decision;
    DecidesKey(r, hash, at, asking, key);
    if hops > 0 {
      var d := Decision(r, hash, Waiting(at, asking, [key]));
      Circles(r, hash, d.node, d.Ask?, key, hops - 1);
    }
  }

  lemma FollowHome(r: Resharding, hash: Key -> nat, at: Id, key: Key, hops: nat)
    requires Shaped(r) && InOrder(r) && at in r.held && hash(key) == r.slot && Reachable(r, key) && hops >= 2
    ensures Follow(r, hash, Waiting(at, false, [key]), hops) == Some(Home(r, key))
  {
    hide Decision;
    DecidesKey(r, hash, at, false, key);
    DecidesKey(r, hash, r.a, false, key);
    DecidesKey(r, hash, r.b, false, key);
    if r.migrating && key !in r.held[r.a] {
      DecidesKey(r, hash, r.b, true, key);
      var c := Waiting(r.b, true, [key]);
      assert Follow(r, hash, c, hops - 2) == Some(r.b) && Follow(r, hash, c, hops - 1) == Some(r.b);
    }
    if r.b in r.moved {
      var c := Waiting(r.b, false, [key]);
      assert Follow(r, hash, c, hops - 2) == Some(r.b) && Follow(r, hash, c, hops - 1) == Some(r.b);
    }
    assert Follow(r, hash, Waiting(r.a, false, [key]), hops - 1) == Some(Home(r, key));
    assert at in r.moved && at != r.a ==> at in r.moved - {r.a};
  }

  /**
   From any node, a command on one key is served within two redirections if and only if the key is
   reachable, and then at its home: where the key is, if anybody has it. Otherwise, which happens
   only while one side is marked or closed before the other, it goes in circles.
   */
  lemma FollowFindsKey(r: Resharding, hash: Key -> nat, at: Id, key: Key, hops: nat)
    requires Inv(r, hash) && at in r.held && hash(key) == r.slot && hops >= 2
    ensures Follow(r, hash, Waiting(at, false, [key]), hops) == if Reachable(r, key) then Some(Home(r, key)) else None
    ensures forall n :: n in r.held && key in r.held[n] && Reachable(r, key) ==> n == Home(r, key)
  {
    hide Follow;
    if Reachable(r, key) { FollowHome(r, hash, at, key, hops); } else { Circles(r, hash, at, false, key, hops); }
  }

  /** Migrating is marked before importing: a key that the old owner lacks is served nowhere. */
  lemma MarkedTooEarly(hash: Key -> nat, key: Key) returns (states: seq<Resharding>, steps: seq<Step>)
    ensures Run(states, steps, hash) && steps == [MarkMigrating] && Shaped(states[1])
    ensures !Reachable(states[1], key) && Lost(states[1], hash, key)
  {
    hide Follow, Decision;
    var r := NewResharding(hash(key));
    steps := [MarkMigrating];
    states := [r, Apply(r, hash, MarkMigrating)];
    LostIfUnreachable(states[1], hash, key);
  }

  /** The old owner closes the slot first: until the new owner does, no key of the slot is served. */
  lemma ClosedTooEarly(hash: Key -> nat, key: Key) returns (states: seq<Resharding>, steps: seq<Step>)
    ensures Run(states, steps, hash) && steps == [MarkImporting, MarkMigrating, CloseMigration] && Shaped(states[3])
    ensures !Reachable(states[3], key) && Lost(states[3], hash, key)
  {
    hide Follow, Decision;
    var r := NewResharding(hash(key));
    var r1 := Apply(r, hash, MarkImporting);
    var r2 := Apply(r1, hash, MarkMigrating);
    steps := [MarkImporting, MarkMigrating, CloseMigration];
    states := [r, r1, r2, Apply(r2, hash, CloseMigration)];
    LostIfUnreachable(states[3], hash, key);
  }

  function NewResharding(slot: nat): Resharding {
    Resharding(0, 1, slot, map[0 := {}, 1 := {}], false, false, {}, [], [])
  }

  /** A command on the key ends nowhere, wherever it starts and however many redirections are followed. */
  ghost predicate Lost(r: Resharding, hash: Key -> nat, key: Key) {
    forall at, hops: nat :: at in r.held ==> Follow(r, hash, Waiting(at, false, [key]), hops) == None
  }

  lemma LostIfUnreachable(r: Resharding, hash: Key -> nat, key: Key)
    requires Shaped(r) && InOrder(r) && hash(key) == r.slot && !Reachable(r, key)
    ensures Lost(r, hash, key)
  {
    hide Follow;
    forall at, hops: nat | at in r.held ensures Follow(r, hash, Waiting(at, false, [key]), hops) == None {
      Circles(r, hash, at, false, key, hops);
    }
  }

  // A resharding can be completed

  ghost predicate Leads(r: Resharding, q: Resharding, hash: Key -> nat) {
    exists states, steps :: Path(states, steps, hash) && states[0] == r && states[|steps|] == q
  }

  ghost predicate Path(states: seq<Resharding>, steps: seq<Step>, hash: Key -> nat) {
    && |states| == |steps| + 1
    && forall i {:trigger steps[i]} :: 0 <= i < |steps| ==>
      Shaped(states[i]) && Enabled(states[i], hash, steps[i]) && states[i + 1] == Apply(states[i], hash, steps[i])
  }

  lemma NoSteps(r: Resharding, hash: Key -> nat)
    ensures Leads(r, r, hash)
  {
    assert Path([r], [], hash) && [r][0] == r;
  }

  lemma OneMore(r: Resharding, q: Resharding, hash: Key -> nat, step: Step)
    requires Leads(r, q, hash) && Shaped(q) && Enabled(q, hash, step)
    ensures Leads(r, Apply(q, hash, step), hash)
  {
    hide Apply, Enabled, Shaped;
    var states, steps :| Path(states, steps, hash) && states[0] == r && states[|steps|] == q;
    var states', steps' := states + [Apply(q, hash, step)], steps + [step];
    forall i | 0 <= i < |steps'|
      ensures Shaped(states'[i]) && Enabled(states'[i], hash, steps'[i]) && states'[i + 1] == Apply(states'[i], hash, steps'[i])
    {
      assert i < |steps| ==> steps'[i] == steps[i];
    }
    assert Path(states', steps', hash) && states'[0] == r && states'[|steps'|] == Apply(q, hash, step);
  }

  lemma {:induction false} FollowIgnoresClients(r: Resharding, hash: Key -> nat, clients: seq<Client>, c: Client, hops: nat)
    requires c.Waiting? && c.at in r.held
    ensures Decision(r.(clients := clients), hash, c) == Decision(r, hash, c)
    ensures Follow(r.(clients := clients), hash, c, hops) == Follow(r, hash, c, hops)
    decreases hops
  {
    hide RouteOf;
    if hops > 0 {
      match Decision(r, hash, c)
      case Ask(n) => if n in r.held { FollowIgnoresClients(r, hash, clients, Waiting(n, true, c.keys), hops - 1); }
      case Moved(n) => if n in r.held { FollowIgnoresClients(r, hash, clients, Waiting(n, false, c.keys), hops - 1); }
      case _ =>
    }
  }

  /** A client whose redirections end somewhere is served there if it goes on, and nothing else need happen meanwhile. */
  lemma {:induction false} ClientIsServed(r: Resharding, q: Resharding, hash: Key -> nat, c: nat, hops: nat) returns (t: Resharding)
    requires Leads(r, q, hash) && Shaped(q) && c < |q.clients| && q.clients[c].Waiting? && q.clients[c].at in q.held
    requires Follow(q, hash, q.clients[c], hops).Some?
    ensures Leads(r, t, hash) && t == q.(clients := q.clients[c := Idle], log := t.log)
    ensures |t.log| == |q.log| + 1 && q.log <= t.log
    ensures var e := t.log[|q.log|]; e.at == Follow(q, hash, q.clients[c], hops).value && e.keys == q.clients[c].keys && e.held == q.held
    decreases hops
  {
    hide Leads, Decision;
    var client := q.clients[c];
    var step := Process(c, q.held[client.at]);
    OneMore(r, q, hash, step);
    var next := Apply(q, hash, step);
    match Decision(q, hash, client)
    case Serve =>
      t := next;
      assert q.held[client.at := q.held[client.at]] == q.held;
    case Ask(n) =>
      var sent := Waiting(n, true, client.keys);
      FollowIgnoresClients(q, hash, q.clients[c := sent], sent, hops - 1);
      t := ClientIsServed(r, next, hash, c, hops - 1);
      assert q.clients[c := sent][c := Idle] == q.clients[c := Idle];
    case Moved(n) =>
      var sent := Waiting(n, false, client.keys);
      FollowIgnoresClients(q, hash, q.clients[c := sent], sent, hops - 1);
      t := ClientIsServed(r, next, hash, c, hops - 1);
      assert q.clients[c := sent][c := Idle] == q.clients[c := Idle];
  }

  /** A command that a client issues anywhere is served where its redirections end, if they do. */
  lemma CommandIsServed(r: Resharding, hash: Key -> nat, c: nat, keys: seq<Key>, at: Id, hops: nat) returns (t: Resharding)
    requires Shaped(r) && c < |r.clients| && r.clients[c].Idle? && at in r.held && keys != [] && forall k :: k in keys ==> hash(k) == r.slot
    requires Follow(r, hash, Waiting(at, false, keys), hops).Some?
    ensures Leads(r, t, hash) && t == r.(log := t.log) && |t.log| == |r.log| + 1 && r.log <= t.log
    ensures var e := t.log[|r.log|]; e.at == Follow(r, hash, Waiting(at, false, keys), hops).value && e.keys == keys && e.held == r.held
  {
    hide Leads, Follow;
    var sent := Waiting(at, false, keys);
    NoSteps(r, hash);
    OneMore(r, r, hash, Issue(c, keys, at));
    FollowIgnoresClients(r, hash, r.clients[c := sent], sent, hops);
    t := ClientIsServed(r, Apply(r, hash, Issue(c, keys, at)), hash, c, hops);
    assert r.clients[c := sent][c := Idle] == r.clients;
  }

  /** The keys move one by one. */
  lemma {:induction false} MovesAll(r: Resharding, q: Resharding, hash: Key -> nat) returns (t: Resharding)
    requires Leads(r, q, hash) && Shaped(q) && q.importing && q.migrating
    ensures Leads(r, t, hash) && Shaped(t)
    ensures t == q.(held := q.held[q.a := {}][q.b := q.held[q.b] + q.held[q.a]])
    decreases |q.held[q.a]|
  {
    hide Leads;
    if q.held[q.a] == {} {
      t := q;
      assert q.held[q.b] + q.held[q.a] == q.held[q.b];
    } else {
      var key :| key in q.held[q.a];
      OneMore(r, q, hash, Migrate(key));
      t := MovesAll(r, Apply(q, hash, Migrate(key)), hash);
      assert q.held[q.b] + {key} + (q.held[q.a] - {key}) == q.held[q.b] + q.held[q.a];
    }
  }

  /** Every node learns of the new owner. */
  lemma {:induction false} LearnAll(r: Resharding, q: Resharding, hash: Key -> nat, rest: set<Id>) returns (t: Resharding)
    requires Leads(r, q, hash) && Shaped(q) && q.b in q.moved && rest <= q.held.Keys
    ensures Leads(r, t, hash) && Shaped(t) && t == q.(moved := q.moved + rest)
    decreases |rest|
  {
    hide Leads;
    if rest == {} {
      t := q;
      assert q.moved + rest == q.moved;
    } else {
      var n :| n in rest;
      OneMore(r, q, hash, Learn(n));
      t := LearnAll(r, Apply(q, hash, Learn(n)), hash, rest - {n});
      assert q.moved + {n} + (rest - {n}) == q.moved + rest;
    }
  }

  /**
   From any state before the slot is closed, it can be: both sides are marked, the keys are moved, both close it and all nodes
   learn of it. The new owner then has every key the old one had, and a command on any key of the slot is served there, after
   at most one redirection, wherever it comes in.
   */
  lemma ReshardingCompletes(r: Resharding, hash: Key -> nat) returns (t: Resharding)
    requires Shaped(r) && r.moved == {}
    ensures Leads(r, t, hash) && Shaped(t) && t.a == r.a && t.b == r.b && t.slot == r.slot
    ensures t.held == r.held[r.a := {}][r.b := r.held[r.b] + r.held[r.a]] && t.moved == r.held.Keys
    ensures forall key, at :: hash(key) == r.slot && at in r.held ==> Follow(t, hash, Waiting(at, false, [key]), 1) == Some(r.b)
  {
    hide Leads, Follow;
    NoSteps(r, hash);
    OneMore(r, r, hash, MarkImporting);
    var p := Apply(r, hash, MarkImporting);
    OneMore(r, p, hash, MarkMigrating);
    var q := MovesAll(r, Apply(p, hash, MarkMigrating), hash);
    OneMore(r, q, hash, CloseImport);
    var u := Apply(q, hash, CloseImport);
    OneMore(r, u, hash, CloseMigration);
    var v := Apply(u, hash, CloseMigration);
    t := LearnAll(r, v, hash, v.held.Keys);
    assert v.moved == {r.a, r.b} && t.moved == v.held.Keys == r.held.Keys;
    forall key, at | hash(key) == r.slot && at in r.held ensures Follow(t, hash, Waiting(at, false, [key]), 1) == Some(r.b) {
      ServedAfterwards(t, hash, key, at);
    }
  }

  lemma ServedAfterwards(t: Resharding, hash: Key -> nat, key: Key, at: Id)
    requires Shaped(t) && t.moved == t.held.Keys && hash(key) == t.slot && at in t.held
    ensures Follow(t, hash, Waiting(at, false, [key]), 1) == Some(t.b)
  {
    hide Decision;
    DecidesKey(t, hash, at, false, key);
    DecidesKey(t, hash, t.b, false, key);
    assert Follow(t, hash, Waiting(t.b, false, [key]), 0) == Some(t.b);
  }
}
