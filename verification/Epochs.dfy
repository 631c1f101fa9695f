/**
 Epochs across the whole cluster: every node keeps a current epoch and, for each node it knows,
 a configuration epoch. Epochs travel in packet headers and in UPDATE payloads; new ones are
 minted by elections, by collisions, by closing slots and by hand. Packets are never removed,
 so they may arrive late, out of order, repeatedly or not at all.
 */
module Epochs {
  import opened Common

  /** One node: its current epoch, the epoch of its last election, and the epochs of the nodes it knows. */
  datatype Node = Node(current: nat, auth: nat, known: map<Id, nat>)

  /** A header, and for an UPDATE the node reported and its epoch. */
  datatype Packet = Packet(src: Id, current: nat, config: nat, update: Update)

  datatype Update = NoUpdate | About(node: Id, config: nat)

  // The greatest epoch

  ghost predicate IsMaximum(m: nat, known: map<Id, nat>, current: nat) {
    && m >= current && (forall n :: n in known ==> known[n] <= m)
    && (m == current || exists n :: n in known && known[n] == m)
  }

  /** The greatest epoch a node knows, its current one included. */
  method MaxEpoch(known: map<Id, nat>, current: nat) returns (m: nat)
    ensures IsMaximum(m, known, current)
  {
    m := 0;
    var rest := known.Keys;
    while rest != {}
      invariant rest <= known.Keys
      invariant forall n :: n in known && n !in rest ==> known[n] <= m
      invariant m == 0 || exists n :: n in known && known[n] == m
      decreases |rest|
    {
      var n :| n in rest;
      if known[n] > m { m := known[n]; }
      rest := rest - {n};
    }
    if m < current { m := current; }
  }

  // What one node does

  datatype Event =
    | Receive(p: Packet)
    | Collide
    | BumpWithoutConsensus
    | RequestVotes
    | WinElection
    | SetConfigEpoch(epoch: nat)
    | Meet(node: Id)
    | Forget(node: Id)
    | SoftReset
    | HardReset(name: Id)

  predicate WellFormed(me: Id, n: Node) {
    me in n.known
  }

  function Raised(n: Node, epoch: nat): Node {
    if epoch > n.current then n.(current := epoch) else n
  }

  function Learnt(n: Node, node: Id, epoch: nat): Node {
    if node in n.known && epoch > n.known[node] then n.(known := n.known[node := epoch]) else n
  }

  /** A packet from an unknown node is ignored; otherwise the header counts first, then the payload. */
  function Received(n: Node, p: Packet): Node {
    if p.src !in n.known then n
    else
      var m := Learnt(Raised(n, p.current), p.src, p.config);
      if p.update.About? then Learnt(m, p.update.node, p.update.config) else m
  }

  function Minted(me: Id, n: Node): Node {
    n.(current := n.current + 1, known := n.known[me := n.current + 1])
  }

  /** Closing a slot takes a new epoch unless this node already has the greatest. */
  ghost predicate MustBump(me: Id, n: Node)
    requires WellFormed(me, n)
  {
    n.known[me] == 0 || !IsMaximum(n.known[me], n.known, n.current)
  }

  ghost function After(me: Id, n: Node, event: Event): (r: (Id, Node))
    requires WellFormed(me, n)
    ensures WellFormed(r.0, r.1)
  {
    match event
    case Receive(p) => (me, Received(n, p))
    case Collide => (me, Minted(me, n))
    case BumpWithoutConsensus => (me, if MustBump(me, n) then Minted(me, n) else n)
    case RequestVotes => (me, n.(current := n.current + 1, auth := n.current + 1))
    case WinElection => (me, if n.known[me] < n.auth then n.(known := n.known[me := n.auth]) else n)
    case SetConfigEpoch(epoch) =>
      if |n.known| > 1 || n.known[me] != 0 then (me, n)
      else (me, Raised(n.(known := n.known[me := epoch]), epoch))
    case Meet(node) => (me, if node in n.known then n else n.(known := n.known[node := 0]))
    case Forget(node) => (me, if node == me then n else n.(known := n.known - {node}))
    case SoftReset => (me, n.(known := map[me := n.known[me]]))
    case HardReset(name) => (name, Node(0, n.auth, map[name := 0]))
  }

  class Instance {
    var me: Id
    var current: nat
    var auth: nat
    var known: map<Id, nat>

    function State(): Node
      reads this
    {
      Node(current, auth, known)
    }

    method ProcessPacket(p: Packet)
      modifies this
      ensures me == old(me) && State() == Received(old(State()), p)
    {
      if p.src !in known { return; }
      if p.current > current { current := p.current; }
      if p.config > known[p.src] { known := known[p.src := p.config]; }
      if p.update.About? && p.update.node in known && known[p.update.node] < p.update.config {
        known := known[p.update.node := p.update.config];
      }
    }

    method BumpConfigEpochWithoutConsensus() returns (bumped: bool)
      requires WellFormed(me, State())
      modifies this
      ensures bumped == old(MustBump(me, State()))
      ensures (me, State()) == old(After(me, State(), BumpWithoutConsensus))
    {
      var max := MaxEpoch(known, current);
      bumped := known[me] == 0 || known[me] != max;
      if bumped {
        current := current + 1;
        known := known[me := current];
      }
    }

    method SetConfigEpochByHand(epoch: nat) returns (ok: bool)
      requires WellFormed(me, State())
      modifies this
      ensures ok == old(|known| <= 1 && known[me] == 0)
      ensures (me, State()) == old(After(me, State(), SetConfigEpoch(epoch)))
    {
      if |known| > 1 { return false; }
      if known[me] != 0 { return false; }
      known := known[me := epoch];
      if current < epoch { current := epoch; }
      ok := true;
    }

    method ForgetOthers()
      requires me in known
      modifies this`known
      ensures known == map[me := old(known)[me]]
    {
      var rest := known.Keys - {me};
      while rest != {}
        invariant me in known && known[me] == old(known)[me] && me !in rest
        invariant forall n :: n in known <==> n == me || n in rest
        decreases |rest|
      {
        var n :| n in rest;
        known := known - {n};
        rest := rest - {n};
      }
    }

    /** Forgets every other node; a hard reset also takes a new name and clears the epochs but the election's. */
    method Reset(hard: bool, name: Id)
      requires WellFormed(me, State())
      modifies this
      ensures (me, State()) == old(After(me, State(), if hard then HardReset(name) else SoftReset))
      ensures auth == old(auth) && current == (if hard then 0 else old(current)) && me == (if hard then name else old(me))
      ensures known == map[me := if hard then 0 else old(known)[old(me)]]
    {
      ForgetOthers();
      if hard {
        current := 0;
        known := map[name := 0];
        me := name;
      }
    }
  }

  // The cluster

  /** The nodes, each under its current name, and every packet sent so far. */
  datatype System = System(names: seq<Id>, nodes: seq<Node>, sent: set<Packet>)

  /** Node i sends a header with its own epoch or its master's, perhaps reporting a node; or something happens at i. */
  datatype Step = Send(i: nat, speaksFor: Id, report: set<Id>) | Happen(i: nat, event: Event)

  predicate Shaped(s: System) {
    |s.names| == |s.nodes| && forall i :: 0 <= i < |s.nodes| ==> WellFormed(s.names[i], s.nodes[i])
  }

  predicate Enabled(s: System, step: Step) {
    && step.i < |s.nodes|
    && (step.Send? ==> step.speaksFor in s.nodes[step.i].known && step.report <= s.nodes[step.i].known.Keys)
    && (step.Happen? && step.event.Receive? ==> step.event.p in s.sent)
  }

  function Packets(s: System, i: nat, speaksFor: Id, report: set<Id>): set<Packet>
    requires Shaped(s) && i < |s.nodes| && speaksFor in s.nodes[i].known && report <= s.nodes[i].known.Keys
  {
    var n := s.nodes[i];
    var header := Packet(s.names[i], n.current, n.known[speaksFor], NoUpdate);
    {header} + set node | node in report :: header.(update := About(node, n.known[node]))
  }

  ghost function Apply(s: System, step: Step): (t: System)
    requires Shaped(s) && Enabled(s, step)
    ensures Shaped(t)
  {
    match step
    case Send(i, speaksFor, report) => s.(sent := s.sent + Packets(s, i, speaksFor, report))
    case Happen(i, event) =>
      var (name, n) := After(s.names[i], s.nodes[i], event);
      s.(names := s.names[i := name], nodes := s.nodes[i := n])
  }

  predicate Initial(s: System) {
    && Shaped(s) && s.sent == {}
    && forall i :: 0 <= i < |s.nodes| ==> s.nodes[i] == Node(0, 0, map[s.names[i] := 0])
  }

  ghost predicate Run(states: seq<System>, steps: seq<Step>) {
    && |states| == |steps| + 1 && Initial(states[0])
    && forall k {:trigger steps[k]} :: 0 <= k < |steps| ==>
      Shaped(states[k]) && Enabled(states[k], steps[k]) && states[k + 1] == Apply(states[k], steps[k])
  }

  // The invariant

  /** A node's current epoch is at least every epoch it knows, and at least that of its last election. */
  predicate Bounded(n: Node) {
    n.auth <= n.current && forall node :: node in n.known ==> n.known[node] <= n.current
  }

  predicate PacketBounded(p: Packet) {
    p.config <= p.current && (p.update.About? ==> p.update.config <= p.current)
  }

  predicate AllBounded(s: System) {
    && (forall i :: 0 <= i < |s.nodes| ==> Bounded(s.nodes[i]))
    && (forall p :: p in s.sent ==> PacketBounded(p))
  }

  /** A hard reset clears the current epoch but not that of the last election. */
  predicate CleanReset(n: Node, event: Event) {
    event.HardReset? ==> n.auth == 0
  }

  /** Whatever happens to a bounded node leaves it bounded, except exactly a hard reset after an election. */
  lemma EventKeepsBounded(me: Id, n: Node, event: Event)
    requires WellFormed(me, n) && Bounded(n) && (event.Receive? ==> PacketBounded(event.p))
    ensures Bounded(After(me, n, event).1) <==> CleanReset(n, event)
  {}

  lemma StepKeepsBounded(s: System, step: Step)
    requires Shaped(s) && Enabled(s, step) && AllBounded(s)
    requires step.Happen? ==> CleanReset(s.nodes[step.i], step.event)
    ensures AllBounded(Apply(s, step))
  {
    if step.Happen? {
      hide After;
      EventKeepsBounded(s.names[step.i], s.nodes[step.i], step.event);
    }
  }

  /** Over every run without a hard reset of a node that stood for election, all nodes and packets stay bounded. */
  lemma {:induction false} GlobalEpochInvariant(states: seq<System>, steps: seq<Step>, k: nat)
    requires Run(states, steps) && k < |states|
    requires forall i {:trigger steps[i]} :: 0 <= i < k && steps[i].Happen? ==>
      CleanReset(states[i].nodes[steps[i].i], steps[i].event)
    ensures Shaped(states[k]) && AllBounded(states[k])
  {
    if k > 0 {
      hide AllBounded, Apply, CleanReset;
      GlobalEpochInvariant(states, steps, k - 1);
      StepKeepsBounded(states[k - 1], steps[k - 1]);
    } else {
      InitiallyBounded(states[0]);
    }
  }

  lemma InitiallyBounded(s: System)
    requires Initial(s)
    ensures AllBounded(s)
  {}

  /** An epoch is greater than every epoch a node knows. */
  predicate ExceedsAll(epoch: nat, n: Node) {
    epoch > n.current && epoch > n.auth && forall node :: node in n.known ==> epoch > n.known[node]
  }

  /**
   A collision always takes a new epoch, a closed slot exactly if this node's epoch is zero or smaller than
   another epoch it knows, and an election always; the epoch exceeds all that its node knows, and nothing
   else changes. Winning gives the node the epoch of the election.
   */
  lemma MintedExceedsAll(me: Id, n: Node)
    requires WellFormed(me, n) && Bounded(n)
    ensures var c := After(me, n, Collide).1;
            ExceedsAll(c.current, n) && c == Node(c.current, n.auth, n.known[me := c.current])
    ensures var b := After(me, n, BumpWithoutConsensus).1;
            if n.known[me] == 0 || n.known[me] < n.current || exists node :: node in n.known && n.known[me] < n.known[node]
            then ExceedsAll(b.current, n) && b == Node(b.current, n.auth, n.known[me := b.current]) else b == n
    ensures var v := After(me, n, RequestVotes).1;
            && ExceedsAll(v.current, n) && v == Node(v.current, v.current, n.known)
            && After(me, v, WinElection).1 == v.(known := n.known[me := v.current])
  {}

  // What nodes learn

  /** One node knows at least as much as another, of the same nodes. */
  predicate KnowsMore(a: Node, b: Node) {
    a.current >= b.current && a.known.Keys == b.known.Keys && forall node :: node in b.known ==> a.known[node] >= b.known[node]
  }

  /** What a packet says: nothing, if its sender is unknown. */
  predicate Says(n: Node, p: Packet) {
    p.src in n.known ==>
      && n.current >= p.current && n.known[p.src] >= p.config
      && (p.update.About? && p.update.node in n.known ==> n.known[p.update.node] >= p.update.config)
  }

  /** A packet teaches a node what it says, and no more than that. */
  lemma ReceivesExactly(me: Id, n: Node, p: Packet, m: Node)
    requires WellFormed(me, n)
    ensures var r := After(me, n, Receive(p)).1;
            && KnowsMore(r, n) && Says(r, p) && r.auth == n.auth
            && (KnowsMore(m, n) && Says(m, p) ==> KnowsMore(m, r))
  {}

  /** Packets may come in any order and any number of times. */
  lemma OrderOfPackets(me: Id, n: Node, p: Packet, q: Packet)
    requires WellFormed(me, n)
    ensures After(me, After(me, n, Receive(p)).1, Receive(q)).1 == After(me, After(me, n, Receive(q)).1, Receive(p)).1
    ensures After(me, After(me, n, Receive(p)).1, Receive(p)).1 == After(me, n, Receive(p)).1
  {
    var a, b := After(me, n, Receive(p)).1, After(me, n, Receive(q)).1;
    var ab, ba := After(me, a, Receive(q)).1, After(me, b, Receive(p)).1;
    hide After;
    ReceivesExactly(me, n, p, ba);
    ReceivesExactly(me, n, q, ab);
    ReceivesExactly(me, a, q, ba);
    ReceivesExactly(me, b, p, ab);
    ReceivesExactly(me, a, p, a);
    Antisymmetric(ab, ba);
    Antisymmetric(After(me, a, Receive(p)).1, a);
  }

  lemma Antisymmetric(a: Node, b: Node)
    requires a.auth == b.auth && KnowsMore(a, b) && KnowsMore(b, a)
    ensures a == b
  {
    assert a.known == b.known;
  }

  /**
   What a node reports reaches any other that knows it: after a packet from i about a node it knows, j has at least
   i's current epoch, the epoch i speaks for, and the epoch i knows of the node, if j knows that too.
   */
  lemma KnowledgeSpreads(s: System, i: nat, j: nat, speaksFor: Id, node: Id) returns (p: Packet)
    requires Shaped(s) && i < |s.nodes| && j < |s.nodes| && s.names[i] in s.nodes[j].known
    requires speaksFor in s.nodes[i].known && node in s.nodes[i].known
    ensures var send := Send(i, speaksFor, {node});
            && Enabled(s, send) && Enabled(Apply(s, send), Happen(j, Receive(p)))
            && var after := Apply(Apply(s, send), Happen(j, Receive(p))).nodes[j];
               && after.current >= s.nodes[i].current && after.known[s.names[i]] >= s.nodes[i].known[speaksFor]
               && (node in s.nodes[j].known ==> after.known[node] >= s.nodes[i].known[node])
  {
    var n := s.nodes[i];
    p := Packet(s.names[i], n.current, n.known[speaksFor], About(node, n.known[node]));
    var t := Apply(s, Send(i, speaksFor, {node}));
    assert p in t.sent;
    hide After;
    ReceivesExactly(s.names[j], s.nodes[j], p, s.nodes[j]);
  }

  /** Which nodes are known after an event, and that no other event changes that. */
  lemma KnownNodes(me: Id, n: Node, event: Event)
    requires WellFormed(me, n)
    ensures var (me', n') := After(me, n, event);
            && me' == (if event.HardReset? then event.name else me)
            && n'.known.Keys == match event
                                case Meet(node) => n.known.Keys + {node}
                                case Forget(node) => if node == me then n.known.Keys else n.known.Keys - {node}
                                case SoftReset => {me}
                                case HardReset(name) => {name}
                                case _ => n.known.Keys
  {}

  /** An epoch set by hand is taken exactly by a node alone without one, and then it is the greatest it knows. */
  lemma SetByHand(me: Id, n: Node, epoch: nat)
    requires WellFormed(me, n) && Bounded(n)
    ensures var r := After(me, n, SetConfigEpoch(epoch)).1;
            if n.known == map[me := 0] then r.known == map[me := epoch] && r.current >= epoch && r.current >= n.current
                                            && (r.current == epoch || r.current == n.current) && r.auth == n.auth
            else r == n
  {
    if n.known.Keys != {me} {
      var other :| other in n.known.Keys && other != me;
      SubsetSize({me, other}, n.known.Keys);
    }
  }

  /** In a bounded node the scan for the greatest epoch finds the current one, so a slot is closed
      without a new epoch exactly when this node's own epoch is the current one and not zero. */
  lemma BumpIffNotCurrent(me: Id, n: Node)
    requires WellFormed(me, n) && Bounded(n)
    ensures MustBump(me, n) <==> n.known[me] == 0 || n.known[me] != n.current
  {}

  /** Winning an election keeps the epochs below the current one if and only if the election's epoch is. */
  lemma WinKeepsBounded(me: Id, n: Node)
    requires WellFormed(me, n) && forall node :: node in n.known ==> n.known[node] <= n.current
    ensures (forall node :: node in After(me, n, WinElection).1.known ==>
              After(me, n, WinElection).1.known[node] <= After(me, n, WinElection).1.current)
            <==> n.auth <= n.current
  {}
}
