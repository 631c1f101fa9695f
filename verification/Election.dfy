/**
 Failover elections of the cluster bus: how a replica asks the masters for their vote, how a
 master grants it, and how the votes are counted. A system is a set of nodes, the packets in
 flight and two logs; the steps are the handlers of cluster.c, packet loss, and everything else
 that can raise a node's epoch. The theorems are about every run of that system.
 */
module Election {
  import opened Common

  /** The election state of one node. */
  datatype Node = Node(
    current: nat, lastVote: nat, voted: map<Id, int>,
    authTime: int, authCount: nat, authSent: bool, authRank: int, authEpoch: nat, config: nat)

  /** A request for a vote: the header of the packet and the slots its sender claims. */
  datatype Ballot = Ballot(epoch: nat, config: nat, claimed: seq<bool>, force: bool)

  /** What a node knows when a request reaches it: its own role, the sender's, and the slot table. */
  datatype VoterView = VoterView(
    amSlave: bool, slots: nat, now: int, timeout: int,
    senderIsMaster: bool, master: Option<Id>, masterFailed: bool, slotConfig: seq<Option<nat>>)

  predicate WellFormed(view: VoterView, ballot: Ballot) {
    |view.slotConfig| == SLOTS && |ballot.claimed| == SLOTS
  }

  // Granting a vote

  /** A header's epoch is adopted when it is greater. */
  function Learn(n: Node, epoch: nat): Node {
    if epoch > n.current then n.(current := epoch) else n
  }

  function VotedTime(n: Node, master: Id): int {
    if master in n.voted then n.voted[master] else 0
  }

  /** No claimed slot is served by a master with a configuration newer than the requester's. */
  predicate SlotsNotNewer(view: VoterView, ballot: Ballot, upTo: nat)
    requires WellFormed(view, ballot) && upTo <= SLOTS
  {
    forall j :: 0 <= j < upTo && ballot.claimed[j] && view.slotConfig[j].Some? ==>
      view.slotConfig[j].value <= ballot.config
  }

  predicate HasRightToVote(view: VoterView) {
    !view.amSlave && view.slots > 0
  }

  predicate Grants(n: Node, view: VoterView, ballot: Ballot)
    requires WellFormed(view, ballot)
  {
    && HasRightToVote(view)
    && ballot.epoch >= n.current
    && n.lastVote != n.current
    && !view.senderIsMaster && view.master.Some? && (view.masterFailed || ballot.force)
    && view.now - VotedTime(n, view.master.value) >= 2 * view.timeout
    && SlotsNotNewer(view, ballot, SLOTS)
  }

  function AfterRequest(n: Node, view: VoterView, ballot: Ballot): Node
    requires WellFormed(view, ballot)
  {
    var m := Learn(n, ballot.epoch);
    if Grants(m, view, ballot)
    then m.(lastVote := m.current, voted := m.voted[view.master.value := view.now])
    else m
  }

  predicate GrantsOnReceipt(n: Node, view: VoterView, ballot: Ballot)
    requires WellFormed(view, ballot)
  {
    Grants(Learn(n, ballot.epoch), view, ballot)
  }

  // Running for election

  /** What a replica reads when it considers a failover. */
  datatype Situation = Situation(
    now: int, timeout: int, size: nat, manual: bool, manualRunning: bool,
    amMaster: bool, hasMaster: bool, masterFailed: bool, noFailover: bool, masterSlots: nat,
    dataTooOld: bool, delay: nat, rank: nat)

  datatype Outcome = Idle | Scheduled | Requested | Won

  function AuthTimeout(sit: Situation): int {
    if 2 * sit.timeout < 2000 then 2000 else 2 * sit.timeout
  }

  predicate MayFailOver(sit: Situation) {
    && !sit.amMaster && sit.hasMaster && (sit.masterFailed || sit.manual)
    && (!sit.noFailover || sit.manual) && sit.masterSlots != 0
    && (!sit.dataTooOld || sit.manual)
  }

  function Schedule(n: Node, sit: Situation): Node {
    n.(authTime := if sit.manualRunning then sit.now else sit.now + 500 + sit.delay % 500 + sit.rank * 1000,
       authRank := if sit.manualRunning then 0 else sit.rank,
       authCount := 0, authSent := false)
  }

  function Rerank(n: Node, sit: Situation): Node {
    if !n.authSent && !sit.manualRunning && sit.rank > n.authRank
    then n.(authTime := n.authTime + (sit.rank - n.authRank) * 1000, authRank := sit.rank)
    else n
  }

  function Quorum(size: nat): nat {
    size / 2 + 1
  }

  function AfterFailover(n: Node, sit: Situation): (Node, Outcome) {
    var age := sit.now - n.authTime;
    if !MayFailOver(sit) then (n, Idle)
    else if age > 2 * AuthTimeout(sit) then (Schedule(n, sit), Scheduled)
    else
      var m := Rerank(n, sit);
      if sit.now < m.authTime || age > AuthTimeout(sit) then (m, Idle)
      else if !m.authSent then
        (m.(current := m.current + 1, authEpoch := m.current + 1, authSent := true), Requested)
      else if m.authCount >= Quorum(sit.size) then
        (if m.config < m.authEpoch then m.(config := m.authEpoch) else m, Won)
      else (m, Idle)
  }

  /** A vote counts when its sender is a master with slots and its epoch is not older than the election's. */
  predicate Counts(n: Node, senderVotes: bool, epoch: nat) {
    senderVotes && epoch >= n.authEpoch
  }

  function AfterAck(n: Node, senderVotes: bool, epoch: nat): Node {
    var m := Learn(n, epoch);
    if Counts(n, senderVotes, epoch) then m.(authCount := m.authCount + 1) else m
  }

  // The handlers

  class Instance {
    var current: nat
    var lastVote: nat
    var voted: map<Id, int>
    var authTime: int
    var authCount: nat
    var authSent: bool
    var authRank: int
    var authEpoch: nat
    var config: nat

    function State(): Node
      reads this
    {
      Node(current, lastVote, voted, authTime, authCount, authSent, authRank, authEpoch, config)
    }

    /** A vote request is received: the header rule, then the decision, slot by slot. */
    method ProcessAuthRequest(view: VoterView, ballot: Ballot) returns (granted: bool)
      requires WellFormed(view, ballot)
      modifies this
      ensures granted == GrantsOnReceipt(old(State()), view, ballot)
      ensures State() == AfterRequest(old(State()), view, ballot)
    {
      if ballot.epoch > current { current := ballot.epoch; }
      granted := false;
      if view.amSlave || view.slots == 0 { return; }
      if ballot.epoch < current { return; }
      if lastVote == current { return; }
      if view.senderIsMaster || view.master.None? || (!view.masterFailed && !ballot.force) { return; }
      var last := if view.master.value in voted then voted[view.master.value] else 0;
      if view.now - last < 2 * view.timeout { return; }
      for j := 0 to SLOTS
        invariant SlotsNotNewer(view, ballot, j)
      {
        if ballot.claimed[j] && view.slotConfig[j].Some? && view.slotConfig[j].value > ballot.config {
          assert !SlotsNotNewer(view, ballot, SLOTS);
          return;
        }
      }
      lastVote := current;
      voted := voted[view.master.value := view.now];
      granted := true;
    }

    /** A vote is received. */
    method ProcessAuthAck(senderVotes: bool, epoch: nat)
      modifies this
      ensures State() == AfterAck(old(State()), senderVotes, epoch)
    {
      if epoch > current { current := epoch; }
      if senderVotes && epoch >= authEpoch { authCount := authCount + 1; }
    }

    /** The periodic attempt of a replica to take over from its master. */
    method HandleSlaveFailover(sit: Situation) returns (outcome: Outcome)
      modifies this
      ensures (State(), outcome) == AfterFailover(old(State()), sit)
    {
      var age := sit.now - authTime;
      var quorum := sit.size / 2 + 1;
      var timeout := 2 * sit.timeout;
      if timeout < 2000 { timeout := 2000; }
      outcome := Idle;
      if sit.amMaster || !sit.hasMaster || (!sit.masterFailed && !sit.manual)
         || (sit.noFailover && !sit.manual) || sit.masterSlots == 0 { return; }
      if sit.dataTooOld && !sit.manual { return; }
      if age > 2 * timeout {
        authTime := sit.now + 500 + sit.delay % 500;
        authCount := 0;
        authSent := false;
        authRank := sit.rank;
        authTime := authTime + authRank * 1000;
        if sit.manualRunning {
          authTime := sit.now;
          authRank := 0;
        }
        return Scheduled;
      }
      if !authSent && !sit.manualRunning && sit.rank > authRank {
        authTime := authTime + (sit.rank - authRank) * 1000;
        authRank := sit.rank;
      }
      if sit.now < authTime { return; }
      if age > timeout { return; }
      if !authSent {
        current := current + 1;
        authEpoch := current;
        authSent := true;
        return Requested;
      }
      if authCount >= quorum {
        if config < authEpoch { config := authEpoch; }
        outcome := Won;
      }
    }
  }

  // The system

  datatype Packet =
    | Request(src: Id, dst: Id, ballot: Ballot)
    | Ack(src: Id, dst: Id, epoch: nat)

  datatype Vote = Vote(voter: Id, epoch: nat, replica: Id)

  /** A won election, with the voters whose votes the winner had counted. */
  datatype Victory = Victory(replica: Id, epoch: nat, electors: set<Id>)

  /**
   The nodes, the packets in flight, the votes granted and the elections won so far. The set
   counted[r] names the senders of the votes that r has counted since it last reset its counter.
   */
  datatype System = System(
    nodes: seq<Node>, network: multiset<Packet>,
    votes: seq<Vote>, counted: seq<set<Id>>, victories: seq<Victory>)

  datatype Step =
    | Raise(n: Id, epoch: nat)
    | Failover(n: Id, sit: Situation, ballot: Ballot)
    | DeliverRequest(p: Packet, view: VoterView)
    | DeliverAck(p: Packet, senderVotes: bool)
    | Lose(p: Packet)

  predicate Shaped(s: System) {
    && |s.counted| == |s.nodes|
    && forall p :: p in s.network ==> p.dst < |s.nodes| && p.src < |s.nodes|
  }

  predicate Enabled(s: System, step: Step) {
    match step
    case Raise(n, _) => n < |s.nodes|
    case Failover(n, _, ballot) => n < |s.nodes| && |ballot.claimed| == SLOTS
    case DeliverRequest(p, view) => p in s.network && p.Request? && WellFormed(view, p.ballot)
    case DeliverAck(p, _) => p in s.network && p.Ack?
    case Lose(p) => p in s.network
  }

  /** The packets of a broadcast: one to every node. */
  function Broadcast(src: Id, ballot: Ballot, upTo: nat): (r: multiset<Packet>)
    ensures forall p :: p in r ==> p.Request? && p.src == src && p.ballot == ballot && p.dst < upTo
  {
    if upTo == 0 then multiset{}
    else Broadcast(src, ballot, upTo - 1) + multiset{Request(src, upTo - 1, ballot)}
  }

  function Apply(s: System, step: Step): (r: System)
    requires Shaped(s) && Enabled(s, step)
    ensures Shaped(r) && |r.nodes| == |s.nodes|
  {
    match step
    case Raise(n, epoch) => s.(nodes := s.nodes[n := Learn(s.nodes[n], epoch)])
    case Failover(n, sit, ballot) =>
      var (node, outcome) := AfterFailover(s.nodes[n], sit);
      var t := s.(nodes := s.nodes[n := node]);
      (match outcome
       case Idle => t
       case Scheduled => t.(counted := s.counted[n := {}])
       case Requested =>
         t.(network := s.network + Broadcast(n, ballot.(epoch := node.current), |s.nodes|))
       case Won => t.(victories := s.victories + [Victory(n, node.authEpoch, s.counted[n])]))
    case DeliverRequest(p, view) =>
      var v := s.nodes[p.dst];
      var t := s.(nodes := s.nodes[p.dst := AfterRequest(v, view, p.ballot)], network := s.network - multiset{p});
      if GrantsOnReceipt(v, view, p.ballot) then
        var epoch := Learn(v, p.ballot.epoch).current;
        t.(network := t.network + multiset{Ack(p.dst, p.src, epoch)},
           votes := s.votes + [Vote(p.dst, epoch, p.src)])
      else t
    case DeliverAck(p, senderVotes) =>
      var r := s.nodes[p.dst];
      var t := s.(nodes := s.nodes[p.dst := AfterAck(r, senderVotes, p.epoch)], network := s.network - multiset{p});
      if Counts(r, senderVotes, p.epoch) then t.(counted := s.counted[p.dst := s.counted[p.dst] + {p.src}]) else t
    case Lose(p) => s.(network := s.network - multiset{p})
  }

  predicate Initial(s: System) {
    && Shaped(s) && s.network == multiset{} && s.votes == [] && s.victories == []
    && forall n :: 0 <= n < |s.nodes| ==>
      s.counted[n] == {} && s.nodes[n].authCount == 0 && !s.nodes[n].authSent
      && s.nodes[n].authEpoch == 0 && s.nodes[n].lastVote <= s.nodes[n].current
  }

  /** A run: an initial system, and steps each leading from one state to the next. */
  ghost predicate Run(states: seq<System>, steps: seq<Step>) {
    && |states| == |steps| + 1 && Initial(states[0])
    && forall i {:trigger steps[i]} :: 0 <= i < |steps| ==>
      Shaped(states[i]) && Enabled(states[i], steps[i]) && states[i + 1] == Apply(states[i], steps[i])
  }

  // What the handlers do to a single node

  lemma FailoverFacts(n: Node, sit: Situation)
    ensures var (m, outcome) := AfterFailover(n, sit);
            && m.lastVote == n.lastVote && m.voted == n.voted
            && (outcome == Requested ==>
                 && !n.authSent && m.authSent && m.authCount == n.authCount
                 && m.current == m.authEpoch == n.current + 1)
            && (outcome != Requested ==> m.current == n.current && m.authEpoch == n.authEpoch)
            && (outcome == Scheduled ==> !m.authSent && m.authCount == 0)
            && (outcome == Idle || outcome == Won ==> m.authSent == n.authSent && m.authCount == n.authCount)
            && (outcome == Won ==> n.authSent && n.authCount >= Quorum(sit.size) && m.config >= m.authEpoch)
  {}

  lemma RequestFacts(n: Node, view: VoterView, ballot: Ballot)
    requires WellFormed(view, ballot) && n.lastVote <= n.current
    ensures var m := AfterRequest(n, view, ballot);
            && m.lastVote <= m.current && n.current <= m.current && n.lastVote <= m.lastVote
            && m.authCount == n.authCount && m.authSent == n.authSent && m.authEpoch == n.authEpoch
            && (GrantsOnReceipt(n, view, ballot) ==>
                 && HasRightToVote(view) && Learn(n, ballot.epoch).current == ballot.epoch == m.lastVote
                 && n.lastVote < ballot.epoch)
  {}

  // One vote for each epoch

  ghost predicate OneVoteEach(votes: seq<Vote>) {
    forall i, j :: 0 <= i < j < |votes| && votes[i].voter == votes[j].voter ==> votes[i].epoch < votes[j].epoch
  }

  ghost predicate VotesLogged(s: System) {
    && (forall i :: 0 <= i < |s.votes| ==>
         s.votes[i].voter < |s.nodes| && s.votes[i].epoch <= s.nodes[s.votes[i].voter].lastVote)
    && (forall n :: 0 <= n < |s.nodes| ==> s.nodes[n].lastVote <= s.nodes[n].current)
    && OneVoteEach(s.votes)
  }

  /** A step that grants nothing: votes are unchanged, and at each node they stay below its epoch. */
  lemma NoGrantKeepsVotesLogged(s: System, t: System)
    requires VotesLogged(s) && t.votes == s.votes && |t.nodes| == |s.nodes|
    requires forall n :: 0 <= n < |s.nodes| ==> s.nodes[n].lastVote <= t.nodes[n].lastVote <= t.nodes[n].current
    ensures VotesLogged(t)
  {}

  lemma GrantKeepsVotesLogged(s: System, t: System, v: Id, m: Node, epoch: nat, r: Id)
    requires VotesLogged(s) && v < |s.nodes| && t.nodes == s.nodes[v := m]
    requires t.votes == s.votes + [Vote(v, epoch, r)]
    requires s.nodes[v].lastVote < epoch == m.lastVote <= m.current
    ensures VotesLogged(t)
  {}

  lemma RequestKeepsVotesLogged(s: System, p: Packet, view: VoterView)
    requires Shaped(s) && Enabled(s, DeliverRequest(p, view)) && VotesLogged(s)
    ensures VotesLogged(Apply(s, DeliverRequest(p, view)))
  {
    hide AfterRequest, GrantsOnReceipt, VotesLogged, Broadcast;
    VotesBelowEpoch(s);
    var t, v := Apply(s, DeliverRequest(p, view)), s.nodes[p.dst];
    RequestFacts(v, view, p.ballot);
    if GrantsOnReceipt(v, view, p.ballot) {
      GrantKeepsVotesLogged(s, t, p.dst, AfterRequest(v, view, p.ballot), p.ballot.epoch, p.src);
    } else {
      NoGrantKeepsVotesLogged(s, t);
    }
  }

  lemma FailoverKeepsVotesLogged(s: System, n: Id, sit: Situation, ballot: Ballot)
    requires Shaped(s) && Enabled(s, Failover(n, sit, ballot)) && VotesLogged(s)
    ensures VotesLogged(Apply(s, Failover(n, sit, ballot)))
  {
    hide AfterFailover, VotesLogged, Broadcast;
    VotesBelowEpoch(s);
    FailoverFacts(s.nodes[n], sit);
    NoGrantKeepsVotesLogged(s, Apply(s, Failover(n, sit, ballot)));
  }

  lemma StepKeepsVotesLogged(s: System, step: Step)
    requires Shaped(s) && Enabled(s, step) && VotesLogged(s)
    ensures VotesLogged(Apply(s, step))
  {
    hide AfterFailover, VotesLogged;
    VotesBelowEpoch(s);
    match step
    case Failover(n, sit, ballot) => FailoverKeepsVotesLogged(s, n, sit, ballot);
    case DeliverRequest(p, view) => RequestKeepsVotesLogged(s, p, view);
    case _ => NoGrantKeepsVotesLogged(s, Apply(s, step));
  }

  lemma VotesBelowEpoch(s: System)
    requires VotesLogged(s)
    ensures forall n :: 0 <= n < |s.nodes| ==> s.nodes[n].lastVote <= s.nodes[n].current
  {}

  lemma {:induction false} RunKeepsVotesLogged(states: seq<System>, steps: seq<Step>, k: nat)
    requires Run(states, steps) && k < |states|
    ensures VotesLogged(states[k])
  {
    if k > 0 {
      RunKeepsVotesLogged(states, steps, k - 1);
      StepKeepsVotesLogged(states[k - 1], steps[k - 1]);
    }
  }

  /** In every run, whatever is lost, delayed or reordered, no node grants two votes in one epoch. */
  lemma OneVotePerEpoch(states: seq<System>, steps: seq<Step>, k: nat, i: nat, j: nat)
    requires Run(states, steps) && k < |states|
    requires i < |states[k].votes| && j < |states[k].votes|
    requires states[k].votes[i].voter == states[k].votes[j].voter
    requires states[k].votes[i].epoch == states[k].votes[j].epoch
    ensures i == j
  {
    RunKeepsVotesLogged(states, steps, k);
  }

  // At most one winner for each epoch

  /**
   The assumptions under which elections are safe: only the masters of a fixed set vote, no
   replica believes that set smaller than it is, and a replica that asks for votes has counted
   none since it last reset its counter.
   */
  predicate Orderly(s: System, step: Step, voters: set<Id>)
    requires Shaped(s) && Enabled(s, step)
  {
    match step
    case Failover(n, sit, _) =>
      sit.size >= |voters| && (AfterFailover(s.nodes[n], sit).1 == Requested ==> s.nodes[n].authCount == 0)
    case DeliverRequest(p, view) => HasRightToVote(view) ==> p.dst in voters
    case _ => true
  }

  ghost predicate OrderlyRun(states: seq<System>, steps: seq<Step>, voters: set<Id>) {
    && Run(states, steps)
    && forall i {:trigger steps[i]} :: 0 <= i < |steps| ==> Orderly(states[i], steps[i], voters)
  }

  /** Requests and votes never run ahead of the replica they are about. */
  ghost predicate NotAhead(s: System)
    requires Shaped(s)
  {
    && (forall n :: 0 <= n < |s.nodes| ==> s.nodes[n].authEpoch <= s.nodes[n].current)
    && (forall p :: p in s.network && p.Request? ==> p.ballot.epoch <= s.nodes[p.src].authEpoch)
    && (forall v :: v in s.votes ==> v.replica < |s.nodes| && v.epoch <= s.nodes[v.replica].authEpoch)
  }

  /** An acknowledgement in flight is the only one for a vote that was granted and is not counted yet. */
  ghost predicate AcksMatchVotes(s: System)
    requires Shaped(s)
  {
    forall p :: p in s.network && p.Ack? ==>
      && s.network[p] == 1 && Vote(p.src, p.epoch, p.dst) in s.votes
      && !(s.nodes[p.dst].authEpoch == p.epoch && p.src in s.counted[p.dst])
  }

  ghost predicate CountExact(s: System, voters: set<Id>)
    requires Shaped(s)
  {
    && (forall v :: v in s.votes ==> v.voter in voters)
    && forall n :: 0 <= n < |s.nodes| ==>
      && |s.counted[n]| == s.nodes[n].authCount
      && forall v :: v in s.counted[n] ==> Vote(v, s.nodes[n].authEpoch, n) in s.votes
  }

  ghost predicate VictoriesEarned(s: System, voters: set<Id>) {
    forall w :: w in s.victories ==>
      && |w.electors| >= Quorum(|voters|)
      && forall v :: v in w.electors ==> Vote(v, w.epoch, w.replica) in s.votes
  }

  ghost predicate Safe(s: System, voters: set<Id>) {
    && Shaped(s) && VotesLogged(s) && NotAhead(s) && AcksMatchVotes(s)
    && CountExact(s, voters) && VictoriesEarned(s, voters)
  }

  predicate SameTally(a: Node, b: Node) {
    a.authCount == b.authCount && a.authSent == b.authSent && a.authEpoch == b.authEpoch
  }

  /** Nothing is granted, counted, reset or won: at most packets are lost and epochs raised. */
  lemma QuietKeepsSafe(s: System, t: System, voters: set<Id>)
    requires Safe(s, voters) && VotesLogged(t) && |t.nodes| == |s.nodes| && t.network <= s.network
    requires t.votes == s.votes && t.counted == s.counted && t.victories == s.victories
    requires forall n :: 0 <= n < |s.nodes| ==> SameTally(s.nodes[n], t.nodes[n]) && s.nodes[n].current <= t.nodes[n].current
    ensures Safe(t, voters)
  {
    hide VotesLogged;
    forall p | p in t.network ensures p in s.network && t.network[p] <= s.network[p] {}
  }

  lemma ScheduleKeepsSafe(s: System, t: System, voters: set<Id>, n: Id, m: Node)
    requires Safe(s, voters) && VotesLogged(t) && n < |s.nodes| && t.nodes == s.nodes[n := m]
    requires !m.authSent && m.authCount == 0 && m.authEpoch == s.nodes[n].authEpoch && m.current == s.nodes[n].current
    requires t == s.(nodes := t.nodes, counted := s.counted[n := {}])
    ensures Safe(t, voters)
  {
    hide VotesLogged;
  }

  predicate Asked(s: System, t: System, n: Id, m: Node, ballot: Ballot) {
    && n < |s.nodes| && !s.nodes[n].authSent
    && m.authCount == s.nodes[n].authCount && m.authEpoch == m.current == s.nodes[n].current + 1 == ballot.epoch
    && t == s.(nodes := s.nodes[n := m], network := s.network + Broadcast(n, ballot, |s.nodes|))
  }

  lemma RequestKeepsAcks(s: System, t: System, n: Id, m: Node, ballot: Ballot)
    requires Shaped(s) && Shaped(t) && Asked(s, t, n, m, ballot) && AcksMatchVotes(s) && NotAhead(s)
    requires s.counted[n] == {}
    ensures AcksMatchVotes(t)
  {}

  lemma RequestKeepsNotAhead(s: System, t: System, n: Id, m: Node, ballot: Ballot)
    requires Shaped(s) && Shaped(t) && Asked(s, t, n, m, ballot) && NotAhead(s)
    ensures NotAhead(t)
  {}

  lemma RequestKeepsSafe(s: System, t: System, voters: set<Id>, n: Id, m: Node, ballot: Ballot)
    requires Safe(s, voters) && Shaped(t) && VotesLogged(t) && Asked(s, t, n, m, ballot) && s.nodes[n].authCount == 0
    ensures Safe(t, voters)
  {
    hide VotesLogged, Broadcast;
    assert s.counted[n] == {};
    RequestKeepsNotAhead(s, t, n, m, ballot);
    RequestKeepsAcks(s, t, n, m, ballot);
    hide NotAhead, AcksMatchVotes;
  }

  lemma WinKeepsSafe(s: System, t: System, voters: set<Id>, n: Id, m: Node, size: nat)
    requires Safe(s, voters) && VotesLogged(t) && n < |s.nodes| && t.nodes == s.nodes[n := m]
    requires SameTally(s.nodes[n], m) && m.current == s.nodes[n].current
    requires m.authCount >= Quorum(size) && size >= |voters|
    requires t == s.(nodes := t.nodes, victories := s.victories + [Victory(n, m.authEpoch, s.counted[n])])
    ensures Safe(t, voters)
  {
    hide VotesLogged;
    var u := t.(victories := s.victories);
    assert VotesLogged(u) by { SameVotesLogged(t, u); }
    QuietKeepsSafe(s, u, voters);
  }

  lemma SameVotesLogged(t: System, u: System)
    requires VotesLogged(t) && u.nodes == t.nodes && u.votes == t.votes
    ensures VotesLogged(u)
  {}

  predicate Granted(s: System, t: System, p: Packet, m: Node)
    requires Shaped(s)
  {
    && p in s.network && p.Request?
    && SameTally(s.nodes[p.dst], m) && m.current >= s.nodes[p.dst].current
    && t == s.(nodes := s.nodes[p.dst := m],
               network := s.network - multiset{p} + multiset{Ack(p.dst, p.src, p.ballot.epoch)},
               votes := s.votes + [Vote(p.dst, p.ballot.epoch, p.src)])
  }

  lemma GrantKeepsNotAhead(s: System, t: System, p: Packet, m: Node)
    requires Shaped(s) && Granted(s, t, p, m) && NotAhead(s)
    ensures Shaped(t) && NotAhead(t)
  {
    forall q | q in t.network && q != Ack(p.dst, p.src, p.ballot.epoch) ensures q in s.network {}
  }

  lemma GrantKeepsAcks(s: System, t: System, p: Packet, m: Node)
    requires Shaped(s) && Shaped(t) && Granted(s, t, p, m) && AcksMatchVotes(s)
    requires Vote(p.dst, p.ballot.epoch, p.src) !in s.votes
    requires forall v :: v in s.counted[p.src] ==> Vote(v, s.nodes[p.src].authEpoch, p.src) in s.votes
    ensures AcksMatchVotes(t)
  {}

  lemma GrantKeepsCount(s: System, t: System, p: Packet, m: Node, voters: set<Id>)
    requires Shaped(s) && Shaped(t) && Granted(s, t, p, m) && CountExact(s, voters) && p.dst in voters
    ensures CountExact(t, voters)
  {}

  lemma GrantKeepsSafe(s: System, t: System, voters: set<Id>, p: Packet, m: Node)
    requires Safe(s, voters) && VotesLogged(t) && Granted(s, t, p, m)
    requires s.nodes[p.dst].lastVote < p.ballot.epoch && p.dst in voters
    ensures Safe(t, voters)
  {
    NewVote(s, p.dst, p.ballot.epoch, p.src);
    hide VotesLogged;
    GrantKeepsNotAhead(s, t, p, m);
    GrantKeepsAcks(s, t, p, m);
    GrantKeepsCount(s, t, p, m, voters);
    hide NotAhead, AcksMatchVotes, CountExact;
  }

  lemma NewVote(s: System, v: Id, epoch: nat, r: Id)
    requires VotesLogged(s) && v < |s.nodes| && s.nodes[v].lastVote < epoch
    ensures Vote(v, epoch, r) !in s.votes
  {}

  predicate Counted(s: System, t: System, p: Packet, m: Node)
    requires Shaped(s)
  {
    && p in s.network && p.Ack?
    && p.epoch >= s.nodes[p.dst].authEpoch
    && SameTally(m, s.nodes[p.dst].(authCount := s.nodes[p.dst].authCount + 1)) && m.current >= s.nodes[p.dst].current
    && t == s.(nodes := s.nodes[p.dst := m], network := s.network - multiset{p},
               counted := s.counted[p.dst := s.counted[p.dst] + {p.src}])
  }

  lemma CountKeepsNotAhead(s: System, t: System, p: Packet, m: Node)
    requires Shaped(s) && Counted(s, t, p, m) && NotAhead(s)
    ensures Shaped(t) && NotAhead(t)
  {
    forall q | q in t.network ensures q in s.network {}
  }

  lemma CountKeepsAcks(s: System, t: System, p: Packet, m: Node)
    requires Shaped(s) && Shaped(t) && Counted(s, t, p, m) && AcksMatchVotes(s) && NotAhead(s)
    ensures AcksMatchVotes(t)
  {}

  lemma CountKeepsCount(s: System, t: System, p: Packet, m: Node, voters: set<Id>)
    requires Shaped(s) && Shaped(t) && Counted(s, t, p, m) && CountExact(s, voters)
    requires p.epoch == s.nodes[p.dst].authEpoch && p.src !in s.counted[p.dst]
    requires Vote(p.src, p.epoch, p.dst) in s.votes
    ensures CountExact(t, voters)
  {}

  lemma CountKeepsSafe(s: System, t: System, voters: set<Id>, p: Packet, m: Node)
    requires Safe(s, voters) && VotesLogged(t) && Counted(s, t, p, m)
    ensures Safe(t, voters)
  {
    hide VotesLogged;
    assert p.epoch == s.nodes[p.dst].authEpoch;
    CountKeepsNotAhead(s, t, p, m);
    CountKeepsAcks(s, t, p, m);
    CountKeepsCount(s, t, p, m, voters);
    hide NotAhead, AcksMatchVotes, CountExact;
  }

  lemma FailoverKeepsSafe(s: System, step: Step, voters: set<Id>)
    requires Safe(s, voters) && Enabled(s, step) && Orderly(s, step, voters) && step.Failover?
    requires VotesLogged(Apply(s, step))
    ensures Safe(Apply(s, step), voters)
  {
    hide AfterFailover, Broadcast, VotesLogged, NotAhead, AcksMatchVotes, CountExact, VictoriesEarned;
    var t, n := Apply(s, step), step.n;
    FailoverFacts(s.nodes[n], step.sit);
    var (m, outcome) := AfterFailover(s.nodes[n], step.sit);
    match outcome
    case Idle => QuietKeepsSafe(s, t, voters);
    case Scheduled => ScheduleKeepsSafe(s, t, voters, n, m);
    case Requested => RequestKeepsSafe(s, t, voters, n, m, step.ballot.(epoch := m.current));
    case Won => WinKeepsSafe(s, t, voters, n, m, step.sit.size);
  }

  lemma GrantEffect(s: System, p: Packet, view: VoterView)
    requires Shaped(s) && Enabled(s, DeliverRequest(p, view)) && s.nodes[p.dst].lastVote <= s.nodes[p.dst].current
    requires GrantsOnReceipt(s.nodes[p.dst], view, p.ballot)
    ensures Granted(s, Apply(s, DeliverRequest(p, view)), p, AfterRequest(s.nodes[p.dst], view, p.ballot))
    ensures HasRightToVote(view) && s.nodes[p.dst].lastVote < p.ballot.epoch
  {
    RequestFacts(s.nodes[p.dst], view, p.ballot);
    hide AfterRequest, GrantsOnReceipt;
  }

  lemma DeliverRequestKeepsSafe(s: System, step: Step, voters: set<Id>)
    requires Safe(s, voters) && Enabled(s, step) && Orderly(s, step, voters) && step.DeliverRequest?
    requires VotesLogged(Apply(s, step))
    ensures Safe(Apply(s, step), voters)
  {
    VotesBelowEpoch(s);
    assert Shaped(s);
    hide AfterRequest, GrantsOnReceipt, Safe;
    var t, p := Apply(s, step), step.p;
    if GrantsOnReceipt(s.nodes[p.dst], step.view, p.ballot) {
      GrantEffect(s, p, step.view);
      GrantKeepsSafe(s, t, voters, p, AfterRequest(s.nodes[p.dst], step.view, p.ballot));
    } else {
      RequestFacts(s.nodes[p.dst], step.view, p.ballot);
      QuietKeepsSafe(s, t, voters);
    }
  }

  lemma DeliverAckKeepsSafe(s: System, step: Step, voters: set<Id>)
    requires Safe(s, voters) && Enabled(s, step) && Orderly(s, step, voters) && step.DeliverAck?
    requires VotesLogged(Apply(s, step))
    ensures Safe(Apply(s, step), voters)
  {
    hide VotesLogged, NotAhead, AcksMatchVotes, CountExact, VictoriesEarned;
    var t, p := Apply(s, step), step.p;
    if Counts(s.nodes[p.dst], step.senderVotes, p.epoch) {
      CountKeepsSafe(s, t, voters, p, AfterAck(s.nodes[p.dst], step.senderVotes, p.epoch));
    } else {
      QuietKeepsSafe(s, t, voters);
    }
  }

  lemma StepKeepsSafe(s: System, step: Step, voters: set<Id>)
    requires Safe(s, voters) && Enabled(s, step) && Orderly(s, step, voters)
    ensures Safe(Apply(s, step), voters)
  {
    StepKeepsVotesLogged(s, step);
    hide VotesLogged, NotAhead, AcksMatchVotes, CountExact, VictoriesEarned, AfterFailover;
    match step
    case Failover(_, _, _) => FailoverKeepsSafe(s, step, voters);
    case DeliverRequest(_, _) => DeliverRequestKeepsSafe(s, step, voters);
    case DeliverAck(_, _) => DeliverAckKeepsSafe(s, step, voters);
    case _ => QuietKeepsSafe(s, Apply(s, step), voters);
  }

  lemma InitiallySafe(s: System, voters: set<Id>)
    requires Initial(s)
    ensures Safe(s, voters)
  {}

  lemma {:induction false} RunKeepsSafe(states: seq<System>, steps: seq<Step>, voters: set<Id>, k: nat)
    requires OrderlyRun(states, steps, voters) && k < |states|
    ensures Safe(states[k], voters)
  {
    hide Safe, Apply;
    if k == 0 {
      InitiallySafe(states[0], voters);
    } else {
      RunKeepsSafe(states, steps, voters, k - 1);
      StepKeepsSafe(states[k - 1], steps[k - 1], voters);
    }
  }

  lemma Overlap(a: set<Id>, b: set<Id>, all: set<Id>)
    requires a <= all && b <= all && |a| + |b| > |all|
    ensures exists x :: x in a && x in b
  {
    if a * b == {} {
      assert |a + b| == |a| + |b|;
      SubsetSize(a + b, all);
    } else {
      var x :| x in a * b;
    }
  }

  /**
   Election safety: in every orderly run, two elections won in the same epoch were won by the
   same replica.
   */
  lemma ElectionSafety(states: seq<System>, steps: seq<Step>, voters: set<Id>, k: nat, v: Victory, w: Victory)
    requires OrderlyRun(states, steps, voters) && k < |states|
    requires v in states[k].victories && w in states[k].victories && v.epoch == w.epoch
    ensures v.replica == w.replica
  {
    RunKeepsSafe(states, steps, voters, k);
    var s := states[k];
    Overlap(v.electors, w.electors, voters);
    var x :| x in v.electors && x in w.electors;
    var i :| 0 <= i < |s.votes| && s.votes[i] == Vote(x, v.epoch, v.replica);
    var j :| 0 <= j < |s.votes| && s.votes[j] == Vote(x, w.epoch, w.replica);
    OneVotePerEpoch(states, steps, k, i, j);
  }

  // Every vote had its reasons

  /** Why a master votes: spelled out, with the ballot's epoch new to it. */
  ghost predicate Deserves(voter: Node, view: VoterView, ballot: Ballot)
    requires WellFormed(view, ballot)
  {
    && !view.amSlave && view.slots > 0
    && ballot.epoch >= voter.current && voter.lastVote < ballot.epoch
    && !view.senderIsMaster && view.master.Some? && (view.masterFailed || ballot.force)
    && (view.master.value in voter.voted ==> view.now - voter.voted[view.master.value] >= 2 * view.timeout)
    && (view.master.value !in voter.voted ==> view.now >= 2 * view.timeout)
    && (forall j :: 0 <= j < SLOTS && ballot.claimed[j] && view.slotConfig[j].Some? ==> view.slotConfig[j].value <= ballot.config)
  }

  /**
   In every run, a vote is logged exactly when a request reaches a master that has reason to vote: the master of
   the requester has failed or the failover is forced, it has not voted about that master lately nor in that
   epoch, and no claimed slot is served under a newer configuration. The vote goes to the requester, in the
   epoch of the request.
   */
  lemma VotesHaveReasons(states: seq<System>, steps: seq<Step>, k: nat)
    requires Run(states, steps) && k < |steps|
    ensures var s, t := states[k], states[k + 1];
            if steps[k].DeliverRequest? && Deserves(s.nodes[steps[k].p.dst], steps[k].view, steps[k].p.ballot)
            then t.votes == s.votes + [Vote(steps[k].p.dst, steps[k].p.ballot.epoch, steps[k].p.src)]
            else t.votes == s.votes
  {
    hide AfterFailover, Broadcast, AfterRequest, GrantsOnReceipt, Deserves, Learn, VotesLogged;
    RunKeepsVotesLogged(states, steps, k);
    VotesBelowEpoch(states[k]);
    var s, step := states[k], steps[k];
    assert states[k + 1] == Apply(s, step);
    if step.DeliverRequest? { DeservesIff(s.nodes[step.p.dst], step.view, step.p.ballot); }
  }

  lemma DeservesIff(voter: Node, view: VoterView, ballot: Ballot)
    requires WellFormed(view, ballot) && voter.lastVote <= voter.current
    ensures Deserves(voter, view, ballot) <==> GrantsOnReceipt(voter, view, ballot)
    ensures Deserves(voter, view, ballot) ==>
              && Learn(voter, ballot.epoch).current == ballot.epoch
              && AfterRequest(voter, view, ballot) ==
                 voter.(current := ballot.epoch, lastVote := ballot.epoch, voted := voter.voted[view.master.value := view.now])
  {}

  /** In every run, a vote that arrives is counted exactly if its sender is a master with slots and it is not of an older election. */
  lemma VotesCountForReasons(states: seq<System>, steps: seq<Step>, k: nat, n: Id)
    requires Run(states, steps) && k < |steps| && n < |states[k].nodes|
    ensures |states[k + 1].nodes| == |states[k].nodes|
    ensures var before, after := states[k].nodes[n].authCount, states[k + 1].nodes[n].authCount;
            if steps[k].DeliverAck? && steps[k].p.dst == n
            then after == before + if steps[k].senderVotes && steps[k].p.epoch >= states[k].nodes[n].authEpoch then 1 else 0
            else after == before || (after == 0 && steps[k].Failover? && steps[k].n == n)
  {
    hide Broadcast, AfterFailover, AfterRequest, GrantsOnReceipt, VotesLogged;
    RunKeepsVotesLogged(states, steps, k);
    VotesBelowEpoch(states[k]);
    var s, step := states[k], steps[k];
    assert states[k + 1] == Apply(s, step);
    match step
    case Failover(r, sit, _) => FailoverFacts(s.nodes[r], sit);
    case DeliverRequest(p, view) => RequestFacts(s.nodes[p.dst], view, p.ballot);
    case _ =>
  }

  /** The time after which an election is too old. */
  function Patience(sit: Situation): int {
    if sit.timeout < 1000 then 2000 else 2 * sit.timeout
  }

  predicate MayTakeOver(sit: Situation) {
    && !sit.amMaster && sit.hasMaster && (sit.masterFailed || sit.manual) && sit.masterSlots > 0
    && (sit.manual || (!sit.noFailover && !sit.dataTooOld))
  }

  /**
   A replica does something only if it may take over. It then schedules an election exactly if the last is over for
   good; otherwise, until it has asked for votes, it waits a second more for each rank it has fallen back. It asks
   for votes, once, when the election is due and not too old; and it wins exactly if it has asked and has a
   quorum in that time, and its configuration epoch is then at least that of the election.
   */
  lemma ElectionsHaveReasons(n: Node, sit: Situation)
    ensures var (m, outcome) := AfterFailover(n, sit);
            var late := if !n.authSent && !sit.manualRunning && sit.rank > n.authRank then 1000 * (sit.rank - n.authRank) else 0;
            var inTime := MayTakeOver(sit) && n.authTime + late <= sit.now && sit.now - n.authTime <= Patience(sit);
            && (outcome == Scheduled <==> MayTakeOver(sit) && sit.now - n.authTime > 2 * Patience(sit))
            && (outcome == Requested <==> inTime && !n.authSent)
            && (outcome == Won <==> inTime && n.authSent && n.authCount > sit.size / 2)
            && (!MayTakeOver(sit) ==> m == n)
            && (outcome != Scheduled && MayTakeOver(sit) ==> m.authTime == n.authTime + late)
            && m.config == (if outcome == Won && n.config < n.authEpoch then n.authEpoch else n.config)
  {}

  // Progress

  /** Orderly steps lead from one state to another. */
  ghost predicate Leads(s: System, t: System, voters: set<Id>) {
    exists states, steps :: Path(states, steps, voters) && states[0] == s && states[|steps|] == t
  }

  ghost predicate Path(states: seq<System>, steps: seq<Step>, voters: set<Id>) {
    && |states| == |steps| + 1
    && forall i {:trigger steps[i]} :: 0 <= i < |steps| ==>
      && Shaped(states[i]) && Enabled(states[i], steps[i]) && Orderly(states[i], steps[i], voters)
      && states[i + 1] == Apply(states[i], steps[i])
  }

  lemma NoSteps(s: System, voters: set<Id>)
    ensures Leads(s, s, voters)
  {
    assert Path([s], [], voters);
    assert [s][0] == s;
  }

  lemma OneMore(s: System, t: System, voters: set<Id>, step: Step)
    requires Leads(s, t, voters) && Shaped(t) && Enabled(t, step) && Orderly(t, step, voters)
    ensures Leads(s, Apply(t, step), voters)
  {
    hide Apply, Orderly, Enabled, Shaped;
    var states, steps :| Path(states, steps, voters) && states[0] == s && states[|steps|] == t;
    var states', steps' := states + [Apply(t, step)], steps + [step];
    forall i | 0 <= i < |steps'|
      ensures && Shaped(states'[i]) && Enabled(states'[i], steps'[i]) && Orderly(states'[i], steps'[i], voters)
              && states'[i + 1] == Apply(states'[i], steps'[i])
    {
      assert i < |steps| ==> steps'[i] == steps[i];
    }
    assert Path(states', steps', voters) && states'[0] == s && states'[|steps'|] == Apply(t, step);
  }

  /** A replica whose master has failed, without a manual failover, that may try to take over. */
  predicate Eligible(sit: Situation, voters: nat) {
    && !sit.amMaster && sit.hasMaster && sit.masterFailed && !sit.noFailover && sit.masterSlots > 0 && !sit.dataTooOld
    && !sit.manual && !sit.manualRunning && sit.size == voters
  }

  /** When an election that is scheduled now is due. */
  function Due(sit: Situation): int {
    sit.now + 500 + sit.delay % 500 + sit.rank * 1000
  }

  /** A replica schedules an election, and asks for votes when it is due. */
  lemma AsksInTime(s: System, r: Id, sit: Situation, ballot: Ballot, voters: set<Id>) returns (t: System)
    requires Shaped(s) && r < |s.nodes| && Eligible(sit, |voters|) && |ballot.claimed| == SLOTS
    requires sit.now - s.nodes[r].authTime > 4000 && sit.now - s.nodes[r].authTime > 4 * sit.timeout
    ensures Shaped(t) && Leads(s, t, voters) && |t.nodes| == |s.nodes|
    ensures var e := s.nodes[r].current + 1;
            && t.nodes == s.nodes[r := s.nodes[r].(current := e, authEpoch := e, authSent := true, authCount := 0,
                                                   authTime := Due(sit), authRank := sit.rank)]
            && t.network == s.network + Broadcast(r, ballot.(epoch := e), |s.nodes|)
            && t.votes == s.votes && t.victories == s.victories && t.counted == s.counted[r := {}]
  {
    hide Broadcast, Leads;
    var first, second := Failover(r, sit, ballot), Failover(r, sit.(now := Due(sit)), ballot);
    NoSteps(s, voters);
    OneMore(s, s, voters, first);
    var u := Apply(s, first);
    assert u.nodes[r] == s.nodes[r].(authTime := Due(sit), authRank := sit.rank, authCount := 0, authSent := false);
    OneMore(s, u, voters, second);
    t := Apply(u, second);
  }

  /** A master that is asked votes, and the vote is counted. */
  lemma VoteCounts(s: System, t: System, r: Id, v: Id, ballot: Ballot, view: VoterView, voters: set<Id>) returns (u: System)
    requires Leads(s, t, voters) && Shaped(t) && r < |t.nodes| && v < |t.nodes| && v != r && v in voters
    requires Request(r, v, ballot) in t.network && WellFormed(view, ballot) && Deserves(t.nodes[v], view, ballot)
    requires t.nodes[v].lastVote <= t.nodes[v].current
    requires t.nodes[r].authEpoch == ballot.epoch == t.nodes[r].current
    ensures Shaped(u) && Leads(s, u, voters) && |u.nodes| == |t.nodes|
    ensures u.nodes[r] == t.nodes[r].(authCount := t.nodes[r].authCount + 1)
    ensures forall n :: 0 <= n < |t.nodes| && n != r && n != v ==> u.nodes[n] == t.nodes[n]
    ensures u.network == t.network - multiset{Request(r, v, ballot)} && u.victories == t.victories
  {
    hide Leads, AfterRequest, GrantsOnReceipt, Deserves;
    DeservesIff(t.nodes[v], view, ballot);
    var request, ack := Request(r, v, ballot), Ack(v, r, ballot.epoch);
    OneMore(s, t, voters, DeliverRequest(request, view));
    var w := Apply(t, DeliverRequest(request, view));
    assert ack in w.network && w.nodes[r] == t.nodes[r];
    OneMore(s, w, voters, DeliverAck(ack, true));
    u := Apply(w, DeliverAck(ack, true));
    assert t.network - multiset{request} + multiset{ack} - multiset{ack} == t.network - multiset{request};
  }

  /** Masters that can be reached and have reason to vote. */
  ghost predicate Willing(s: System, r: Id, quorum: seq<Id>, ballot: Ballot, views: seq<VoterView>, voters: set<Id>)
    requires |views| == |quorum|
  {
    forall i :: 0 <= i < |quorum| ==>
      && quorum[i] < |s.nodes| && quorum[i] != r && quorum[i] in voters && Request(r, quorum[i], ballot) in s.network
      && WellFormed(views[i], ballot) && s.nodes[quorum[i]].lastVote <= s.nodes[quorum[i]].current
      && Deserves(s.nodes[quorum[i]], views[i], ballot)
  }

  lemma {:induction false} AllVotesCount(s: System, t: System, r: Id, quorum: seq<Id>, ballot: Ballot, views: seq<VoterView>, voters: set<Id>)
    returns (u: System)
    requires Leads(s, t, voters) && Shaped(t) && r < |t.nodes| && |views| == |quorum| && Willing(t, r, quorum, ballot, views, voters)
    requires forall i, j :: 0 <= i < j < |quorum| ==> quorum[i] != quorum[j]
    requires t.nodes[r].authEpoch == ballot.epoch == t.nodes[r].current
    ensures Shaped(u) && Leads(s, u, voters) && |u.nodes| == |t.nodes| && u.victories == t.victories
    ensures u.nodes[r] == t.nodes[r].(authCount := t.nodes[r].authCount + |quorum|)
    decreases |quorum|
  {
    hide Leads, Deserves, Shaped;
    if quorum == [] {
      u := t;
    } else {
      var w := VoteCounts(s, t, r, quorum[0], ballot, views[0], voters);
      forall i | 0 <= i < |quorum| - 1
        ensures quorum[1..][i] != quorum[0] && Request(r, quorum[1..][i], ballot) in w.network
      {
        assert quorum[1..][i] == quorum[i + 1] && quorum[0] != quorum[i + 1];
        assert Request(r, quorum[i + 1], ballot) in t.network;
      }
      u := AllVotesCount(s, w, r, quorum[1..], ballot, views[1..], voters);
    }
  }

  /** What a replica knows of itself and of the masters that are to elect it: its next epoch is new to them, and its claims are current. */
  ghost predicate Electable(s: System, r: Id, quorum: seq<Id>, ballot: Ballot, views: seq<VoterView>, voters: set<Id>)
    requires |views| == |quorum| && |ballot.claimed| == SLOTS
  {
    && (forall i, j :: 0 <= i < j < |quorum| ==> quorum[i] != quorum[j])
    && (forall i :: 0 <= i < |quorum| ==>
      && quorum[i] < |s.nodes| && quorum[i] != r && quorum[i] in voters && |views[i].slotConfig| == SLOTS
      && s.nodes[quorum[i]].lastVote <= s.nodes[quorum[i]].current <= ballot.epoch && s.nodes[quorum[i]].lastVote < ballot.epoch
      && !views[i].amSlave && views[i].slots > 0 && !views[i].senderIsMaster && views[i].master.Some? && views[i].masterFailed
      && views[i].now - VotedTime(s.nodes[quorum[i]], views[i].master.value) >= 2 * views[i].timeout
      && forall j :: 0 <= j < SLOTS && ballot.claimed[j] && views[i].slotConfig[j].Some? ==> views[i].slotConfig[j].value <= ballot.config)
  }

  /**
   Progress: from any state, a replica of a failed master whose claims are current, and whose next epoch is new to a
   quorum of the masters, wins its election in an orderly run, without any manual failover.
   */
  lemma ElectionProgress(s: System, r: Id, sit: Situation, quorum: seq<Id>, ballot: Ballot, views: seq<VoterView>, voters: set<Id>)
    returns (t: System, v: Victory)
    requires Shaped(s) && r < |s.nodes| && |views| == |quorum| && |ballot.claimed| == SLOTS && !ballot.force
    requires Eligible(sit, |voters|) && ballot.epoch == s.nodes[r].current + 1
    requires sit.now - s.nodes[r].authTime > 4000 && sit.now - s.nodes[r].authTime > 4 * sit.timeout
    requires 2 * |quorum| > |voters| && Electable(s, r, quorum, ballot, views, voters)
    ensures Leads(s, t, voters) && v in t.victories && v.replica == r && v.epoch == ballot.epoch
    ensures |t.nodes| == |s.nodes| && t.nodes[r].config >= ballot.epoch
  {
    hide Leads, Broadcast, Deserves;
    var u := AsksInTime(s, r, sit, ballot, voters);
    assert Willing(u, r, quorum, ballot, views, voters) by {
      assert ballot.(epoch := s.nodes[r].current + 1) == ballot;
      BecomeWilling(s, u, r, quorum, ballot, views, voters);
    }
    var w := AllVotesCount(s, u, r, quorum, ballot, views, voters);
    var last := Failover(r, sit.(now := Due(sit)), ballot);
    OneMore(s, w, voters, last);
    t := Apply(w, last);
    v := Victory(r, ballot.epoch, w.counted[r]);
    assert t.victories == w.victories + [v];
  }

  lemma BecomeWilling(s: System, u: System, r: Id, quorum: seq<Id>, ballot: Ballot, views: seq<VoterView>, voters: set<Id>)
    requires |views| == |quorum| && |ballot.claimed| == SLOTS && Electable(s, r, quorum, ballot, views, voters)
    requires r < |s.nodes| && |u.nodes| == |s.nodes| && (forall n :: 0 <= n < |s.nodes| && n != r ==> u.nodes[n] == s.nodes[n])
    requires u.network == s.network + Broadcast(r, ballot, |s.nodes|)
    ensures Willing(u, r, quorum, ballot, views, voters)
  {
    forall i | 0 <= i < |quorum|
      ensures Request(r, quorum[i], ballot) in u.network && Deserves(u.nodes[quorum[i]], views[i], ballot)
    {
      BroadcastReaches(r, ballot, |s.nodes|, quorum[i]);
    }
  }

  // A hard reset

  /** A hard reset clears the epochs and the last vote and forgets the other nodes, but nothing of the election. */
  function HardReset(n: Node): Node {
    n.(current := 0, lastVote := 0, config := 0, voted := map[])
  }

  /**
   A node that is reset while it holds votes, learns the epochs of its new cluster and is a replica there
   still wins with the old votes; its configuration epoch then exceeds its current one if and only if the
   epochs of the new cluster are below that of the old election.
   */
  lemma ResetThenWin(n: Node, learnt: nat, sit: Situation)
    requires n.authSent && n.authCount >= Quorum(sit.size) && MayFailOver(sit)
    requires n.authTime <= sit.now <= n.authTime + AuthTimeout(sit)
    ensures var (m, outcome) := AfterFailover(Learn(HardReset(n), learnt), sit);
            && outcome == Won && m.config == n.authEpoch && m.current == learnt
            && (m.config > m.current <==> learnt < n.authEpoch)
  {}

  /** From the start: a manual failover, one vote, a hard reset, and a win in a cluster with one master. */
  lemma ResetAfterVote()
    ensures var (scheduled, first) := AfterFailover(Fresh(), Manual(5000));
            var (asked, second) := AfterFailover(scheduled, Manual(5000));
            var reset := HardReset(AfterAck(asked, true, 1));
            var (won, third) := AfterFailover(reset, Manual(5001).(size := 1));
            && first == Scheduled && second == Requested && third == Won && won.config == 1 && won.current == 0
  {
    var asked := AfterFailover(AfterFailover(Fresh(), Manual(5000)).0, Manual(5000)).0;
    ResetThenWin(AfterAck(asked, true, 1), 0, Manual(5001).(size := 1));
  }

  // A vote of an older election

  /**
   When a replica asks for votes, the votes it has counted are votes for it in the new epoch if and only if
   there are none: a vote counted since the election was scheduled is one of an older election.
   */
  lemma StaleVoteCondition(s: System, n: Id, sit: Situation, ballot: Ballot, voters: set<Id>)
    requires Safe(s, voters) && Enabled(s, Failover(n, sit, ballot)) && AfterFailover(s.nodes[n], sit).1 == Requested
    ensures var t := Apply(s, Failover(n, sit, ballot));
            (forall v :: v in t.counted[n] ==> Vote(v, t.nodes[n].authEpoch, n) in t.votes) <==> s.nodes[n].authCount == 0
  {
    hide VotesLogged, AcksMatchVotes, VictoriesEarned, AfterFailover, Broadcast;
    FailoverFacts(s.nodes[n], sit);
    var t := Apply(s, Failover(n, sit, ballot));
    assert t.counted[n] == s.counted[n] && t.votes == s.votes;
    if s.nodes[n].authCount != 0 {
      var v :| v in s.counted[n];
      assert Vote(v, t.nodes[n].authEpoch, n) !in s.votes;
    }
  }

  lemma BroadcastReaches(src: Id, ballot: Ballot, upTo: nat, dst: nat)
    requires dst < upTo
    ensures Request(src, dst, ballot) in Broadcast(src, ballot, upTo)
  {}

  /** The number of steps among the first k that break the assumptions. */
  ghost function Strays(states: seq<System>, steps: seq<Step>, voters: set<Id>, k: nat): nat
    requires Run(states, steps) && k <= |steps|
  {
    if k == 0 then 0
    else Strays(states, steps, voters, k - 1) + (if Orderly(states[k - 1], steps[k - 1], voters) then 0 else 1)
  }

  /** Some run with the given number of such steps ends in s. */
  ghost predicate Reachable(s: System, voters: set<Id>, strays: nat) {
    exists states, steps ::
      Run(states, steps) && states[|steps|] == s && Strays(states, steps, voters, |steps|) == strays
  }

  lemma {:induction false} StraysOfPrefix(states: seq<System>, steps: seq<Step>,
                                          states': seq<System>, steps': seq<Step>, voters: set<Id>, k: nat)
    requires Run(states, steps) && Run(states', steps') && k <= |steps|
    requires states <= states' && steps <= steps'
    ensures Strays(states', steps', voters, k) == Strays(states, steps, voters, k)
  {
    if k > 0 { StraysOfPrefix(states, steps, states', steps', voters, k - 1); }
  }

  lemma ExtendRun(states: seq<System>, steps: seq<Step>, step: Step)
    requires Run(states, steps) && Shaped(states[|steps|]) && Enabled(states[|steps|], step)
    ensures Run(states + [Apply(states[|steps|], step)], steps + [step])
  {
    hide Apply, Initial, Enabled, Shaped;
    var states', steps' := states + [Apply(states[|steps|], step)], steps + [step];
    forall i | 0 <= i < |steps'|
      ensures Shaped(states'[i]) && Enabled(states'[i], steps'[i]) && states'[i + 1] == Apply(states'[i], steps'[i])
    {
      assert i < |steps| ==> steps'[i] == steps[i];
    }
  }

  lemma StraysSnoc(states: seq<System>, steps: seq<Step>, step: Step, voters: set<Id>)
    requires Run(states, steps) && Shaped(states[|steps|]) && Enabled(states[|steps|], step)
    ensures var states', steps' := states + [Apply(states[|steps|], step)], steps + [step];
            && Run(states', steps') && states'[|steps'|] == Apply(states[|steps|], step)
            && Strays(states', steps', voters, |steps'|)
            == Strays(states, steps, voters, |steps|) + if Orderly(states[|steps|], step, voters) then 0 else 1
  {
    assert |states| == |steps| + 1;
    hide Run, Apply, Orderly, Enabled, Shaped;
    ExtendRun(states, steps, step);
    var states', steps' := states + [Apply(states[|steps|], step)], steps + [step];
    StraysOfPrefix(states, steps, states', steps', voters, |steps|);
    assert states'[|steps|] == states[|steps|] && steps'[|steps|] == step;
  }

  lemma Take(s: System, step: Step, voters: set<Id>, strays: nat)
    requires Reachable(s, voters, strays) && Shaped(s) && Enabled(s, step)
    ensures Reachable(Apply(s, step), voters, strays + if Orderly(s, step, voters) then 0 else 1)
  {
    hide Apply, Orderly, Enabled, Shaped, Strays, Initial;
    var states, steps :|
      Run(states, steps) && states[|steps|] == s && Strays(states, steps, voters, |steps|) == strays;
    StraysSnoc(states, steps, step, voters);
  }

  function Fresh(): Node {
    Node(0, 0, map[], 0, 0, false, 0, 0, 0)
  }

  /** A manual failover of a cluster with three masters, at a given time. */
  function Manual(now: int): Situation {
    Situation(now, 1000, 3, true, true, false, true, false, false, 1, false, 0, 0)
  }

  function Asking(epoch: nat): (b: Ballot)
    ensures |b.claimed| == SLOTS
  {
    Ballot(epoch, 0, seq(SLOTS, _ => false), true)
  }

  function Voting(now: int, master: Id): VoterView {
    VoterView(false, 1, now, 1000, false, Some(master), false, seq(SLOTS, _ => None))
  }

  /** Nodes 0 to 2 are masters; 3 and 4 are replicas of 0 and of 1. */
  function Five(): System {
    System(seq(5, _ => Fresh()), multiset{}, [], seq(5, _ => {}), [])
  }

  const MASTERS: set<Id> := {0, 1, 2}

  lemma Start()
    ensures Shaped(Five()) && Reachable(Five(), MASTERS, 0)
  {
    assert Run([Five()], []);
    assert Strays([Five()], [], MASTERS, 0) == 0;
  }

  lemma Schedules(s: System, n: Id, now: int, strays: nat) returns (t: System)
    requires Reachable(s, MASTERS, strays) && Shaped(s) && n < |s.nodes| && now - s.nodes[n].authTime > 4000
    ensures Reachable(t, MASTERS, strays) && Shaped(t)
    ensures t == s.(nodes := s.nodes[n := s.nodes[n].(authTime := now, authRank := 0, authCount := 0, authSent := false)],
                    counted := s.counted[n := {}])
  {
    hide Reachable, Broadcast;
    var step := Failover(n, Manual(now), Asking(0));
    Take(s, step, MASTERS, strays);
    t := Apply(s, step);
  }

  lemma Asks(s: System, n: Id, now: int, strays: nat) returns (t: System)
    requires Reachable(s, MASTERS, strays) && Shaped(s)
    requires n < |s.nodes| && s.nodes[n].authTime == now && !s.nodes[n].authSent
    ensures Reachable(t, MASTERS, strays + if s.nodes[n].authCount == 0 then 0 else 1) && Shaped(t)
    ensures var epoch := s.nodes[n].current + 1;
            t == s.(nodes := s.nodes[n := s.nodes[n].(current := epoch, authEpoch := epoch, authSent := true)],
                    network := s.network + Broadcast(n, Asking(epoch), |s.nodes|))
  {
    hide Reachable, Broadcast;
    var step := Failover(n, Manual(now), Asking(0));
    Take(s, step, MASTERS, strays);
    t := Apply(s, step);
    assert Asking(0).(epoch := s.nodes[n].current + 1) == Asking(s.nodes[n].current + 1);
  }

  lemma Votes(s: System, src: Id, dst: Id, epoch: nat, now: int, master: Id, strays: nat) returns (t: System)
    requires Reachable(s, MASTERS, strays) && Shaped(s)
    requires Request(src, dst, Asking(epoch)) in s.network && dst in MASTERS
    requires s.nodes[dst].current <= epoch && s.nodes[dst].lastVote != epoch
    requires master !in s.nodes[dst].voted && now >= 2000
    ensures Reachable(t, MASTERS, strays) && Shaped(t)
    ensures t ==
            s.(nodes := s.nodes[dst := s.nodes[dst].(current := epoch, lastVote := epoch, voted := s.nodes[dst].voted[master := now])],
               network := s.network - multiset{Request(src, dst, Asking(epoch))} + multiset{Ack(dst, src, epoch)},
               votes := s.votes + [Vote(dst, epoch, src)])
  {
    hide Reachable;
    var step := DeliverRequest(Request(src, dst, Asking(epoch)), Voting(now, master));
    assert GrantsOnReceipt(s.nodes[dst], Voting(now, master), Asking(epoch));
    Take(s, step, MASTERS, strays);
    t := Apply(s, step);
  }

  lemma Tallies(s: System, src: Id, dst: Id, epoch: nat, strays: nat) returns (t: System)
    requires Reachable(s, MASTERS, strays) && Shaped(s)
    requires Ack(src, dst, epoch) in s.network && s.nodes[dst].authEpoch <= epoch <= s.nodes[dst].current
    ensures Reachable(t, MASTERS, strays) && Shaped(t)
    ensures t == s.(nodes := s.nodes[dst := s.nodes[dst].(authCount := s.nodes[dst].authCount + 1)],
                    network := s.network - multiset{Ack(src, dst, epoch)},
                    counted := s.counted[dst := s.counted[dst] + {src}])
  {
    hide Reachable;
    Take(s, DeliverAck(Ack(src, dst, epoch), true), MASTERS, strays);
    t := Apply(s, DeliverAck(Ack(src, dst, epoch), true));
  }

  lemma Wins(s: System, n: Id, now: int, strays: nat) returns (t: System)
    requires Reachable(s, MASTERS, strays) && Shaped(s)
    requires n < |s.nodes| && s.nodes[n].authTime == now && s.nodes[n].authSent && s.nodes[n].authCount == 2
    ensures Reachable(t, MASTERS, strays) && Shaped(t)
    ensures t == s.(nodes := t.nodes, victories := s.victories + [Victory(n, s.nodes[n].authEpoch, s.counted[n])])
    ensures |t.nodes| == |s.nodes| && forall k :: 0 <= k < |s.nodes| && k != n ==> t.nodes[k] == s.nodes[k]
  {
    hide Reachable, Broadcast;
    Take(s, Failover(n, Manual(now), Asking(0)), MASTERS, strays);
    t := Apply(s, Failover(n, Manual(now), Asking(0)));
  }

  /** The first attempt of replica 3 gets one vote, whose acknowledgement is slow; it schedules a second. */
  lemma FirstAttempt() returns (s: System)
    ensures Reachable(s, MASTERS, 0) && Shaped(s)
    ensures s.nodes == Five().nodes[0 := Fresh().(current := 1, lastVote := 1, voted := map[0 := 5000])]
                                   [3 := Fresh().(current := 1, authEpoch := 1, authTime := 9001)]
    ensures Ack(0, 3, 1) in s.network && s.victories == []
  {
    hide Reachable, Asking, Broadcast, Shaped;
    Start();
    s := Five();
    s := Schedules(s, 3, 5000, 0);
    s := Asks(s, 3, 5000, 0);
    BroadcastReaches(3, Asking(1), 5, 0);
    s := Votes(s, 3, 0, 1, 5000, 0, 0);
    s := Schedules(s, 3, 9001, 0);
  }

  /** The slow acknowledgement is counted, then both replicas ask for votes in epoch 2. */
  lemma SecondAttempt() returns (s: System)
    ensures Reachable(s, MASTERS, 1) && Shaped(s)
    ensures s.nodes == [Fresh().(current := 1, lastVote := 1, voted := map[0 := 5000]), Fresh(), Fresh(),
                        Fresh().(current := 2, authEpoch := 2, authTime := 9001, authSent := true, authCount := 1),
                        Fresh().(current := 2, authEpoch := 2, authTime := 9001, authSent := true)]
    ensures Request(3, 1, Asking(2)) in s.network && Request(4, 0, Asking(2)) in s.network
    ensures Request(4, 2, Asking(2)) in s.network && s.victories == []
  {
    hide Reachable, Asking, Broadcast, Shaped;
    s := FirstAttempt();
    s := Tallies(s, 0, 3, 1, 0);
    s := Asks(s, 3, 9001, 0);
    s := Learns(s, 4, 1, 1);
    s := Schedules(s, 4, 9001, 1);
    s := Asks(s, 4, 9001, 1);
    BroadcastReaches(3, Asking(2), 5, 1);
    BroadcastReaches(4, Asking(2), 5, 0);
    BroadcastReaches(4, Asking(2), 5, 2);
  }

  lemma Learns(s: System, n: Id, epoch: nat, strays: nat) returns (t: System)
    requires Reachable(s, MASTERS, strays) && Shaped(s) && n < |s.nodes| && s.nodes[n].current <= epoch
    ensures Reachable(t, MASTERS, strays) && Shaped(t)
    ensures t == s.(nodes := s.nodes[n := s.nodes[n].(current := epoch)])
  {
    hide Reachable;
    Take(s, Raise(n, epoch), MASTERS, strays);
    t := Apply(s, Raise(n, epoch));
  }

  lemma SameLength(s: System)
    requires Shaped(s)
    ensures |s.counted| == |s.nodes|
  {}

  lemma Ballots() returns (s: System)
    ensures Reachable(s, MASTERS, 1) && Shaped(s) && |s.nodes| == |s.counted| == 5
    ensures s.nodes[3] == Fresh().(current := 2, authEpoch := 2, authTime := 9001, authSent := true, authCount := 1)
    ensures s.nodes[4] == Fresh().(current := 2, authEpoch := 2, authTime := 9001, authSent := true)
    ensures Ack(1, 3, 2) in s.network && Ack(0, 4, 2) in s.network && Ack(2, 4, 2) in s.network
    ensures s.victories == []
  {
    hide Reachable, Asking, Shaped;
    s := SecondAttempt();
    s := Votes(s, 3, 1, 2, 9001, 0, 1);
    s := Votes(s, 4, 0, 2, 9001, 1, 1);
    s := Votes(s, 4, 2, 2, 9001, 1, 1);
    SameLength(s);
  }

  /**
   The assumption about old votes is needed: with three masters, a run in which one replica asks for votes
   with a single old vote counted elects two replicas in epoch 2.
   */
  lemma StaleVoteElectsTwo() returns (s: System, v: Victory, w: Victory)
    ensures Reachable(s, MASTERS, 1)
    ensures v in s.victories && w in s.victories && v.epoch == w.epoch && v.replica != w.replica
  {
    hide Reachable, Shaped;
    s := Ballots();
    s := Tallies(s, 1, 3, 2, 1);
    s := Tallies(s, 0, 4, 2, 1);
    s := Tallies(s, 2, 4, 2, 1);
    v := Victory(3, 2, s.counted[3]);
    w := Victory(4, 2, s.counted[4]);
    s := Wins(s, 3, 9001, 1);
    s := Wins(s, 4, 9001, 1);
  }
}
