/**
 Resolution of configuration epoch collisions between masters. Two masters may hold the same
 configuration epoch; when a master hears of its own epoch from a master with a greater name it
 takes a new one. Masters are numbered by the order of their names, messages may be delayed,
 reordered, lost or delivered many times, and nothing else creates epochs.
 */
module Collision {
  import opened Common

  /** What one master knows: its own epochs, and the configuration epoch it last learnt of each other. */
  datatype Knowledge = Knowledge(current: nat, config: nat, view: seq<nat>)

  /** A packet: the header of its sender, and for an UPDATE what the sender knows of a third node. */
  datatype Packet = Packet(src: nat, dst: nat, current: nat, config: nat, update: Update)

  datatype Update = NoUpdate | About(node: nat, config: nat)

  // Receiving a packet

  function Known(me: nat, k: Knowledge, node: nat): nat
    requires node < |k.view|
  {
    if node == me then k.config else k.view[node]
  }

  /** The header rules: adopt a greater current epoch and a greater epoch of the sender. */
  function Heard(k: Knowledge, p: Packet): Knowledge
    requires p.src < |k.view|
  {
    k.(current := if p.current > k.current then p.current else k.current,
       view := if p.config > k.view[p.src] then k.view[p.src := p.config] else k.view)
  }

  /** An UPDATE that tells something new replaces what was known of the node. */
  function Updated(me: nat, k: Knowledge, u: Update): Knowledge
    requires u.About? ==> u.node < |k.view|
  {
    if u.NoUpdate? || Known(me, k, u.node) >= u.config then k
    else if u.node == me then k.(config := u.config)
    else k.(view := k.view[u.node := u.config])
  }

  predicate Collides(me: nat, k: Knowledge, p: Packet)
    requires p.src < |k.view|
  {
    p.update.NoUpdate? && p.config == k.config && Heard(k, p).view[p.src] == k.config && p.src > me
  }

  function Bumped(k: Knowledge): Knowledge {
    k.(current := k.current + 1, config := k.current + 1)
  }

  function Received(me: nat, k: Knowledge, p: Packet): Knowledge
    requires p.src < |k.view| && (p.update.About? ==> p.update.node < |k.view|)
  {
    if Collides(me, k, p) then Bumped(Heard(k, p)) else Updated(me, Heard(k, p), p.update)
  }

  /**
   What a packet does to a master: it never knows less, and knows what the packet says. Its own epoch changes
   only to a greater one: that of an UPDATE about itself, or, when a header from a greater name has the same
   epoch, one greater than all it knows of.
   */
  lemma ReceivesExactly(me: nat, k: Knowledge, p: Packet)
    requires me < |k.view| && p.src < |k.view| && p.src != me && (p.update.About? ==> p.update.node < |k.view|)
    requires k.config <= k.current
    ensures var r := Received(me, k, p);
            && |r.view| == |k.view| && r.current >= k.current && r.current >= p.current && r.view[p.src] >= p.config
            && (forall n :: 0 <= n < |k.view| ==> r.view[n] >= k.view[n])
            && (forall n :: 0 <= n < |k.view| && r.view[n] != k.view[n] ==>
                 (n == p.src && r.view[n] == p.config) || (p.update == About(n, r.view[n])))
            && (p.update.About? ==> Known(me, r, p.update.node) >= p.update.config)
            && (r.config != k.config <==>
                 (p.update.NoUpdate? && p.config == k.config && k.view[p.src] <= k.config && p.src > me)
                 || (p.update.About? && p.update.node == me && p.update.config > k.config))
            && (r.config != k.config ==> r.config == if p.update.NoUpdate? then r.current else p.update.config)
            && (r.config != k.config && p.update.NoUpdate? ==> r.current > k.current && r.current > p.current)
  {}

  class Master {
    const me: nat
    var current: nat
    var config: nat
    var view: seq<nat>

    constructor (me: nat, k: Knowledge)
      ensures this.me == me && State() == k
    {
      this.me := me;
      current, config, view := k.current, k.config, k.view;
    }

    function State(): Knowledge
      reads this
    {
      Knowledge(current, config, view)
    }

    method ProcessPacket(p: Packet)
      requires p.src < |view| && (p.update.About? ==> p.update.node < |view|) && p.src != me
      modifies this
      ensures State() == Received(me, old(State()), p)
    {
      if p.current > current { current := p.current; }
      if p.config > view[p.src] { view := view[p.src := p.config]; }
      match p.update
      case NoUpdate =>
        if p.config == config { HandleConfigEpochCollision(p.src); }
      case About(node, reported) =>
        var known := if node == me then config else view[node];
        if known < reported {
          if node == me { config := reported; } else { view := view[node := reported]; }
        }
    }

    method HandleConfigEpochCollision(sender: nat)
      requires sender < |view| && sender != me
      modifies this
      ensures State() == if old(view[sender] == config) && sender > me then Bumped(old(State())) else old(State())
    {
      if view[sender] != config { return; }
      if sender <= me { return; }
      current := current + 1;
      config := current;
    }
  }

  // The system of masters

  /**
   All masters and every packet ever sent: a packet may be delivered at any later time, any number
   of times or never. The set held[i] collects the configuration epochs master i has had, and
   bumps[i] counts how often it took a new one.
   */
  datatype System = System(masters: seq<Knowledge>, sent: set<Packet>, held: seq<set<nat>>, bumps: seq<nat>)

  datatype Step = Ping(src: nat, dst: nat) | SendUpdate(src: nat, dst: nat, node: nat) | Deliver(p: Packet)

  predicate Shaped(s: System) {
    && |s.held| == |s.masters| == |s.bumps|
    && (forall i :: 0 <= i < |s.masters| ==> |s.masters[i].view| == |s.masters|)
    && (forall p :: p in s.sent ==>
         && p.src < |s.masters| && p.dst < |s.masters| && p.src != p.dst
         && (p.update.About? ==> p.update.node < |s.masters|))
  }

  predicate Enabled(s: System, step: Step) {
    match step
    case Ping(src, dst) => src < |s.masters| && dst < |s.masters| && src != dst
    case SendUpdate(src, dst, node) => src < |s.masters| && dst < |s.masters| && node < |s.masters| && src != dst
    case Deliver(p) => p in s.sent
  }

  predicate Bumps(s: System, step: Step)
    requires Shaped(s) && Enabled(s, step)
  {
    step.Deliver? && Collides(step.p.dst, s.masters[step.p.dst], step.p)
  }

  function Header(s: System, src: nat, dst: nat): Packet
    requires src < |s.masters|
  {
    Packet(src, dst, s.masters[src].current, s.masters[src].config, NoUpdate)
  }

  function Apply(s: System, step: Step): (t: System)
    requires Shaped(s) && Enabled(s, step)
    ensures Shaped(t) && |t.masters| == |s.masters|
  {
    match step
    case Ping(src, dst) => s.(sent := s.sent + {Header(s, src, dst)})
    case SendUpdate(src, dst, node) =>
      s.(sent := s.sent + {Header(s, src, dst).(update := About(node, Known(src, s.masters[src], node)))})
    case Deliver(p) =>
      var k := Received(p.dst, s.masters[p.dst], p);
      s.(masters := s.masters[p.dst := k],
         held := s.held[p.dst := s.held[p.dst] + {k.config}],
         bumps := if Bumps(s, step) then s.bumps[p.dst := s.bumps[p.dst] + 1] else s.bumps)
  }

  /** Any epochs, equal or not, as long as nobody overestimates anybody. */
  predicate Initial(s: System) {
    && Shaped(s) && s.sent == {}
    && forall i :: 0 <= i < |s.masters| ==>
      && s.masters[i].config <= s.masters[i].current && s.held[i] == {s.masters[i].config} && s.bumps[i] == 0
      && forall j :: 0 <= j < |s.masters| ==> s.masters[i].view[j] <= s.masters[j].config
  }

  ghost predicate Run(states: seq<System>, steps: seq<Step>) {
    && |states| == |steps| + 1 && Initial(states[0])
    && forall i {:trigger steps[i]} :: 0 <= i < |steps| ==>
      Shaped(states[i]) && Enabled(states[i], steps[i]) && states[i + 1] == Apply(states[i], steps[i])
  }

  // What every step keeps

  /** Nobody, and no packet, has a greater epoch for a master than the master itself. */
  ghost predicate NotAhead(s: System)
    requires Shaped(s)
  {
    && (forall i, j :: 0 <= i < |s.masters| && 0 <= j < |s.masters| ==> s.masters[i].view[j] <= s.masters[j].config)
    && (forall p :: p in s.sent && p.update.About? ==> p.update.config <= s.masters[p.update.node].config)
    && (forall p :: p in s.sent ==> p.config in s.held[p.src])
  }

  ghost predicate HeldExact(s: System)
    requires Shaped(s)
  {
    forall i :: 0 <= i < |s.masters| ==>
      && s.masters[i].config <= s.masters[i].current && s.masters[i].config in s.held[i]
      && (forall x :: x in s.held[i] ==> x <= s.masters[i].config)
      && |s.held[i]| == s.bumps[i] + 1
  }

  ghost predicate HeldFrom(s: System, x: nat, i: nat)
    requires Shaped(s)
  {
    exists j :: i <= j < |s.masters| && x in s.held[j]
  }

  /** An epoch a master gave up had been held by a master with a greater name. */
  ghost predicate GivenUp(s: System)
    requires Shaped(s)
  {
    forall i, x :: 0 <= i < |s.masters| && x in s.held[i] && x != s.masters[i].config ==> HeldFrom(s, x, i + 1)
  }

  ghost predicate Inv(s: System) {
    Shaped(s) && NotAhead(s) && HeldExact(s) && GivenUp(s)
  }

  /** Master i now knows k; at most its own epoch is new, and its views stay behind the others. */
  predicate Changes(s: System, t: System, i: nat, k: Knowledge)
    requires Shaped(s)
  {
    && i < |s.masters| && |k.view| == |s.masters|
    && t == s.(masters := s.masters[i := k], held := s.held[i := s.held[i] + {k.config}], bumps := t.bumps)
    && |t.bumps| == |s.bumps| && k.config >= s.masters[i].config
    && forall j :: 0 <= j < |s.masters| ==> k.view[j] <= s.masters[j].config
  }

  lemma ChangeKeepsNotAhead(s: System, t: System, i: nat, k: Knowledge)
    requires Shaped(s) && Changes(s, t, i, k) && NotAhead(s)
    ensures Shaped(t) && NotAhead(t)
  {}

  lemma HeldFromGrows(s: System, t: System, i: nat, k: Knowledge, x: nat, m: nat)
    requires Shaped(s) && Shaped(t) && Changes(s, t, i, k) && HeldFrom(s, x, m)
    ensures HeldFrom(t, x, m)
  {
    var j :| m <= j < |s.masters| && x in s.held[j];
    assert x in t.held[j];
  }

  lemma ChangeKeepsGivenUp(s: System, t: System, i: nat, k: Knowledge)
    requires Shaped(s) && Shaped(t) && Changes(s, t, i, k) && GivenUp(s)
    requires k.config == s.masters[i].config || HeldFrom(s, s.masters[i].config, i + 1)
    ensures GivenUp(t)
  {
    forall m, x | 0 <= m < |t.masters| && x in t.held[m] && x != t.masters[m].config ensures HeldFrom(t, x, m + 1) {
      assert HeldFrom(s, x, m + 1);
      HeldFromGrows(s, t, i, k, x, m + 1);
    }
  }

  lemma BumpKeepsHeld(s: System, t: System, i: nat, k: Knowledge)
    requires Shaped(s) && Shaped(t) && Changes(s, t, i, k) && HeldExact(s)
    requires s.masters[i].config < k.config <= k.current && t.bumps == s.bumps[i := s.bumps[i] + 1]
    ensures HeldExact(t)
  {}

  lemma QuietKeepsHeld(s: System, t: System, i: nat, k: Knowledge)
    requires Shaped(s) && Shaped(t) && Changes(s, t, i, k) && HeldExact(s)
    requires s.masters[i].config == k.config <= k.current && t.bumps == s.bumps
    ensures HeldExact(t)
  {
    assert s.held[i] + {k.config} == s.held[i];
    assert t.held == s.held;
  }

  lemma HeardStaysBehind(s: System, p: Packet)
    requires Shaped(s) && NotAhead(s) && HeldExact(s) && p in s.sent
    ensures p.config <= s.masters[p.src].config
    ensures var k := Heard(s.masters[p.dst], p);
            |k.view| == |s.masters| && forall j :: 0 <= j < |s.masters| ==> k.view[j] <= s.masters[j].config
    ensures var k := Updated(p.dst, Heard(s.masters[p.dst], p), p.update);
            && k.config == s.masters[p.dst].config && |k.view| == |s.masters|
            && forall j :: 0 <= j < |s.masters| ==> k.view[j] <= s.masters[j].config
  {}

  lemma DeliveryChanges(s: System, p: Packet)
    requires Shaped(s) && NotAhead(s) && HeldExact(s) && p in s.sent
    ensures var k := Received(p.dst, s.masters[p.dst], p);
            && Changes(s, Apply(s, Deliver(p)), p.dst, k) && Apply(s, Deliver(p)).masters[p.dst] == k
            && (if Bumps(s, Deliver(p))
                then && s.masters[p.dst].config < k.config <= k.current && HeldFrom(s, s.masters[p.dst].config, p.dst + 1)
                     && Apply(s, Deliver(p)).bumps == s.bumps[p.dst := s.bumps[p.dst] + 1]
                else s.masters[p.dst].config == k.config <= k.current && Apply(s, Deliver(p)).bumps == s.bumps)
  {
    HeardStaysBehind(s, p);
    assert s.masters[p.dst].config <= s.masters[p.dst].current;
    assert p.config in s.held[p.src];
    hide NotAhead, HeldExact;
  }

  lemma DeliveryKeepsInv(s: System, p: Packet)
    requires Inv(s) && p in s.sent
    ensures Inv(Apply(s, Deliver(p)))
    ensures !Bumps(s, Deliver(p)) ==> Apply(s, Deliver(p)).masters[p.dst].config == s.masters[p.dst].config
  {
    hide NotAhead, HeldExact, GivenUp, Received, Changes, HeldFrom, Bumps, Apply;
    var t, i := Apply(s, Deliver(p)), p.dst;
    var k := Received(i, s.masters[i], p);
    DeliveryChanges(s, p);
    ChangeKeepsNotAhead(s, t, i, k);
    if Bumps(s, Deliver(p)) {
      BumpKeepsHeld(s, t, i, k);
    } else {
      QuietKeepsHeld(s, t, i, k);
    }
    ChangeKeepsGivenUp(s, t, i, k);
  }

  lemma SendKeepsInv(s: System, t: System, p: Packet)
    requires Inv(s) && Shaped(t) && t == s.(sent := s.sent + {p})
    requires p.src < |s.masters| && p.config == s.masters[p.src].config
    requires p.update.About? ==> p.update.node < |s.masters| && p.update.config <= s.masters[p.update.node].config
    ensures Inv(t)
  {
    assert GivenUp(t) by {
      forall m, x | 0 <= m < |t.masters| && x in t.held[m] && x != t.masters[m].config ensures HeldFrom(t, x, m + 1) {
        assert HeldFrom(s, x, m + 1);
      }
    }
  }

  lemma StepKeepsInv(s: System, step: Step)
    requires Inv(s) && Enabled(s, step)
    ensures Inv(Apply(s, step))
    ensures !Bumps(s, step) ==>
      forall i :: 0 <= i < |s.masters| ==> Apply(s, step).masters[i].config == s.masters[i].config
  {
    var t := Apply(s, step);
    match step
    case Deliver(p) => DeliveryKeepsInv(s, p);
    case Ping(src, dst) => SendKeepsInv(s, t, Header(s, src, dst));
    case SendUpdate(src, dst, node) =>
      SendKeepsInv(s, t, Header(s, src, dst).(update := About(node, Known(src, s.masters[src], node))));
  }

  lemma {:induction false} RunKeepsInv(states: seq<System>, steps: seq<Step>, n: nat)
    requires Run(states, steps) && n < |states|
    ensures Inv(states[n]) && |states[n].masters| == |states[0].masters|
  {
    if n == 0 {
      InitiallyInv(states[0]);
    } else {
      hide Inv, Apply;
      RunKeepsInv(states, steps, n - 1);
      StepKeepsInv(states[n - 1], steps[n - 1]);
    }
  }

  lemma InitiallyInv(s: System)
    requires Initial(s)
    ensures Inv(s)
  {}

  // Termination

  /** All the epochs ever held by master i and the masters with greater names. */
  ghost function EverHeld(s: System, i: nat): set<nat>
    requires Shaped(s) && i <= |s.masters|
    decreases |s.masters| - i
  {
    if i == |s.masters| then {} else s.held[i] + EverHeld(s, i + 1)
  }

  lemma {:induction false} EverHeldContains(s: System, i: nat, j: nat)
    requires Shaped(s) && i <= j < |s.masters|
    ensures s.held[j] <= EverHeld(s, i)
    decreases j - i
  {
    if i < j { EverHeldContains(s, i + 1, j); }
  }

  /** Every epoch given up is one of the greater masters', so each master adds at most its current one. */
  lemma HeldByGreater(s: System, i: nat)
    requires Shaped(s) && GivenUp(s) && i < |s.masters|
    ensures s.held[i] <= {s.masters[i].config} + EverHeld(s, i + 1)
  {
    hide EverHeld;
    forall x | x in s.held[i] && x != s.masters[i].config ensures x in EverHeld(s, i + 1) {
      assert HeldFrom(s, x, i + 1);
      var j :| i + 1 <= j < |s.masters| && x in s.held[j];
      EverHeldContains(s, i + 1, j);
    }
  }

  lemma {:induction false} FewEpochs(s: System, i: nat)
    requires Shaped(s) && GivenUp(s) && i <= |s.masters|
    ensures |EverHeld(s, i)| <= |s.masters| - i
    decreases |s.masters| - i
  {
    if i < |s.masters| {
      FewEpochs(s, i + 1);
      HeldByGreater(s, i);
      SubsetSize(EverHeld(s, i), {s.masters[i].config} + EverHeld(s, i + 1));
    }
  }

  /**
   In every run a master takes at most one new epoch for each master with a greater name, so the
   one with the greatest name takes none.
   */
  lemma FewBumps(states: seq<System>, steps: seq<Step>, n: nat, i: nat)
    requires Run(states, steps) && n < |states| && i < |states[0].masters|
    ensures |states[n].bumps| == |states[0].masters|
    ensures states[n].bumps[i] <= |states[0].masters| - 1 - i
  {
    RunKeepsInv(states, steps, n);
    var s := states[n];
    FewEpochs(s, i);
    EverHeldContains(s, i, i);
    SubsetSize(s.held[i], EverHeld(s, i));
  }

  function Sum(xs: seq<nat>): nat {
    if xs == [] then 0 else xs[0] + Sum(xs[1..])
  }

  lemma {:induction false} SumBound(xs: seq<nat>)
    requires forall i :: 0 <= i < |xs| ==> xs[i] <= |xs| - 1 - i
    ensures 2 * Sum(xs) <= |xs| * (|xs| - 1)
  {
    if xs != [] {
      var n := |xs| - 1;
      SumBound(xs[1..]);
      assert (n + 1) * n == n * (n - 1) + 2 * n;
    }
  }

  /** All masters together bump at most n(n - 1)/2 times, however long the run. */
  lemma FewBumpsInAll(states: seq<System>, steps: seq<Step>, n: nat)
    requires Run(states, steps) && n < |states|
    ensures var size := |states[0].masters|; 2 * Sum(states[n].bumps) <= size * (size - 1)
  {
    RunKeepsInv(states, steps, n);
    var s := states[n];
    forall i | 0 <= i < |s.bumps| ensures s.bumps[i] <= |s.bumps| - 1 - i { FewBumps(states, steps, n, i); }
    SumBound(s.bumps);
  }

  // Agreement

  predicate Distinct(s: System) {
    forall i, j :: 0 <= i < j < |s.masters| ==> s.masters[i].config != s.masters[j].config
  }

  /** Delivering anybody's latest header to anybody makes nobody bump. */
  predicate Settled(s: System)
    requires Shaped(s)
  {
    forall i, j :: 0 <= i < |s.masters| && 0 <= j < |s.masters| && i != j ==>
      !Collides(i, s.masters[i], Header(s, j, i))
  }

  /** In every reachable state the masters' epochs are distinct if and only if no bump is left to make. */
  lemma SettledIffDistinct(states: seq<System>, steps: seq<Step>, n: nat)
    requires Run(states, steps) && n < |states|
    ensures Shaped(states[n]) && (Settled(states[n]) <==> Distinct(states[n]))
  {
    RunKeepsInv(states, steps, n);
    var s := states[n];
    if Settled(s) {
      forall i, j | 0 <= i < j < |s.masters| ensures s.masters[i].config != s.masters[j].config {
        assert s.masters[i].view[j] <= s.masters[j].config;
        assert !Collides(i, s.masters[i], Header(s, j, i));
      }
    }
  }

  lemma {:induction false} NoBumpSameEpochs(states: seq<System>, steps: seq<Step>, a: nat, b: nat)
    requires Run(states, steps) && a <= b < |states|
    requires forall n {:trigger steps[n]} :: a <= n < b ==> !Bumps(states[n], steps[n])
    ensures |states[b].masters| == |states[a].masters|
    ensures forall i :: 0 <= i < |states[a].masters| ==> states[b].masters[i].config == states[a].masters[i].config
    decreases b - a
  {
    if a < b {
      NoBumpSameEpochs(states, steps, a, b - 1);
      RunKeepsInv(states, steps, b - 1);
      assert !Bumps(states[b - 1], steps[b - 1]);
      StepKeepsInv(states[b - 1], steps[b - 1]);
    }
  }

  /** Among the steps from a to b, master i receives a header carrying the epoch that j has at the end. */
  ghost predicate Informed(states: seq<System>, steps: seq<Step>, a: nat, b: nat, i: nat, j: nat)
    requires Run(states, steps) && a <= b < |states| && j < |states[b].masters|
  {
    exists n :: a <= n < b && steps[n].Deliver? && steps[n].p.update.NoUpdate?
                && steps[n].p.src == j && steps[n].p.dst == i && steps[n].p.config == states[b].masters[j].config
  }

  /** Once every latest header has been delivered and nobody bumped meanwhile, all epochs are distinct. */
  lemma QuietExchangeAgrees(states: seq<System>, steps: seq<Step>, a: nat, b: nat)
    requires Run(states, steps) && a <= b < |states|
    requires forall n {:trigger steps[n]} :: a <= n < b ==> !Bumps(states[n], steps[n])
    requires forall i, j :: 0 <= i < j < |states[b].masters| ==> Informed(states, steps, a, b, i, j)
    ensures Distinct(states[b])
  {
    forall i, j | 0 <= i < j < |states[b].masters|
      ensures states[b].masters[i].config != states[b].masters[j].config
    {
      assert Informed(states, steps, a, b, i, j);
      var n :| a <= n < b && steps[n].Deliver? && steps[n].p.update.NoUpdate?
               && steps[n].p.src == j && steps[n].p.dst == i && steps[n].p.config == states[b].masters[j].config;
      NoBumpSameEpochs(states, steps, n, b);
      RunKeepsInv(states, steps, n);
      assert !Bumps(states[n], steps[n]);
      assert states[n].masters[i].view[j] <= states[n].masters[j].config;
    }
  }

  /** What a master knows of a node reaches any other by an UPDATE. */
  lemma UpdateSpreads(s: System, src: nat, dst: nat, node: nat) returns (p: Packet)
    requires Inv(s) && src < |s.masters| && dst < |s.masters| && src != dst && node < |s.masters|
    ensures var t := Apply(s, SendUpdate(src, dst, node));
            && Enabled(t, Deliver(p)) && |t.masters| == |s.masters|
            && var k := Apply(t, Deliver(p)).masters[dst];
               && |k.view| == |s.masters| && Known(dst, k, node) >= Known(src, s.masters[src], node)
               && k.view[src] >= s.masters[src].config && k.current >= s.masters[src].current
  {
    hide HeldExact, GivenUp, NotAhead;
    p := Header(s, src, dst).(update := About(node, Known(src, s.masters[src], node)));
    assert Apply(s, SendUpdate(src, dst, node)) == s.(sent := s.sent + {p});
  }

  // Collisions can always be resolved

  lemma {:induction false} SumNext(xs: seq<nat>, i: nat)
    requires i < |xs|
    ensures Sum(xs[i := xs[i] + 1]) == Sum(xs) + 1
  {
    if i == 0 {
      assert xs[0 := xs[0] + 1][1..] == xs[1..];
    } else {
      SumNext(xs[1..], i - 1);
      assert xs[i := xs[i] + 1][1..] == xs[1..][i - 1 := xs[i] + 1];
    }
  }

  /** A run with one more step. */
  lemma OneMore(states: seq<System>, steps: seq<Step>, step: Step) returns (states': seq<System>)
    requires Run(states, steps) && Shaped(states[|steps|]) && Enabled(states[|steps|], step)
    ensures states' == states + [Apply(states[|steps|], step)] && Run(states', steps + [step])
  {
    hide Apply, Enabled, Shaped;
    var n, steps' := |steps|, steps + [step];
    states' := states + [Apply(states[n], step)];
    forall i | 0 <= i < |steps'|
      ensures Shaped(states'[i]) && Enabled(states'[i], steps'[i]) && states'[i + 1] == Apply(states'[i], steps'[i])
    {
      assert i < n ==> steps'[i] == steps[i];
    }
  }

  /** Of two masters with the same epoch, the one with the smaller name takes a new one when it hears the other. */
  lemma ResolvesOne(s: System, i: nat, j: nat)
    requires Inv(s) && i < j < |s.masters| && s.masters[i].config == s.masters[j].config
    ensures var p := Header(s, j, i);
            var t := Apply(s, Ping(j, i));
            Enabled(t, Deliver(p)) && |t.masters| == |s.masters|
            && Apply(t, Deliver(p)).bumps == s.bumps[i := s.bumps[i] + 1]
  {
    hide HeldExact, GivenUp, Received;
    var p := Header(s, j, i);
    assert s.masters[i].view[j] <= s.masters[j].config;
    assert Collides(i, s.masters[i], p);
    var t := Apply(s, Ping(j, i));
    assert t == s.(sent := s.sent + {p});
    hide Collides, NotAhead, Header;
    assert Bumps(t, Deliver(p));
  }

  lemma {:induction false} SettlesWithin(states: seq<System>, steps: seq<Step>, left: nat) returns (states': seq<System>, steps': seq<Step>)
    requires Run(states, steps)
    requires var size := |states[0].masters|; size * (size - 1) <= 2 * Sum(states[|steps|].bumps) + left
    ensures Run(states', steps') && states <= states' && steps <= steps' && Distinct(states'[|steps'|])
    decreases left
  {
    hide Apply, Sum, Inv;
    var s := states[|steps|];
    RunKeepsInv(states, steps, |steps|);
    if Distinct(s) {
      states', steps' := states, steps;
    } else {
      var i, j :| 0 <= i < j < |s.masters| && s.masters[i].config == s.masters[j].config;
      ShapedIfInv(s);
      ResolvesOne(s, i, j);
      var ping, deliver := Ping(j, i), Deliver(Header(s, j, i));
      var a := OneMore(states, steps, ping);
      var b := OneMore(a, steps + [ping], deliver);
      SumNext(s.bumps, i);
      FewBumpsInAll(b, steps + [ping] + [deliver], |steps| + 2);
      states', steps' := SettlesWithin(b, steps + [ping] + [deliver], left - 2);
    }
  }

  lemma ShapedIfInv(s: System)
    requires Inv(s)
    ensures Shaped(s)
  {}

  /** Every run can be continued to a state in which all epochs are distinct. */
  lemma EpochsCanSettle(states: seq<System>, steps: seq<Step>) returns (states': seq<System>, steps': seq<Step>)
    requires Run(states, steps)
    ensures Run(states', steps') && states <= states' && steps <= steps' && Distinct(states'[|steps'|])
  {
    hide Sum;
    var size := |states[0].masters|;
    states', steps' := SettlesWithin(states, steps, size * size);
  }
}
