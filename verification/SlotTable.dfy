/**
 The hash slot table of a cluster node. It is kept twice: an array gives the owner of each slot,
 and each node carries a bitmap of its slots with their number. The methods are the operations
 of cluster.c that change either copy; all of them keep the two in agreement.
 */
module SlotTable {
  import opened Common
  import Epochs
  import SlotKeys

  const BYTES := 2048

  // Bitmaps

  predicate TestBit(bitmap: seq<bv8>, pos: nat)
    requires pos < 8 * |bitmap|
  {
    BitOf(bitmap[pos / 8], pos % 8)
  }

  function SetBit(bitmap: seq<bv8>, pos: nat): (r: seq<bv8>)
    requires pos < 8 * |bitmap|
    ensures |r| == |bitmap|
  {
    bitmap[pos / 8 := WithBit(bitmap[pos / 8], pos % 8)]
  }

  function ClearBit(bitmap: seq<bv8>, pos: nat): (r: seq<bv8>)
    requires pos < 8 * |bitmap|
    ensures |r| == |bitmap|
  {
    bitmap[pos / 8 := WithoutBit(bitmap[pos / 8], pos % 8)]
  }

  /** One bit of a byte. */
  predicate BitOf(b: bv8, i: nat)
    requires i < 8
  {
    b & (1 << i as bv8) != 0
  }

  function WithBit(b: bv8, i: nat): bv8
    requires i < 8
  {
    b | (1 << i as bv8)
  }

  function WithoutBit(b: bv8, i: nat): bv8
    requires i < 8
  {
    b & !(1 << i as bv8)
  }

  lemma MaskBits(b: bv8, i: bv8, j: bv8)
    requires i < 8 && j < 8
    ensures ((b | (1 << i)) & (1 << j) != 0) == (i == j || b & (1 << j) != 0)
    ensures ((b & !(1 << i)) & (1 << j) != 0) == (i != j && b & (1 << j) != 0)
  {}

  lemma BitIndex(i: nat, j: nat)
    requires i < 8 && j < 8
    ensures (i as bv8 == j as bv8) == (i == j) && i as bv8 < 8 && j as bv8 < 8
  {}

  lemma ByteUpdates(b: bv8, i: nat, j: nat)
    requires i < 8 && j < 8
    ensures BitOf(WithBit(b, i), j) == (i == j || BitOf(b, j))
    ensures BitOf(WithoutBit(b, i), j) == (i != j && BitOf(b, j))
  {
    BitIndex(i, j);
    MaskBits(b, i as bv8, j as bv8);
  }

  lemma BitUpdates(bitmap: seq<bv8>, pos: nat, q: nat)
    requires pos < 8 * |bitmap| && q < 8 * |bitmap|
    ensures TestBit(SetBit(bitmap, pos), q) == (q == pos || TestBit(bitmap, q))
    ensures TestBit(ClearBit(bitmap, pos), q) == (q != pos && TestBit(bitmap, q))
  {
    hide BitOf, WithBit, WithoutBit;
    if q / 8 == pos / 8 { ByteUpdates(bitmap[pos / 8], pos % 8, q % 8); }
  }

  // Nodes and the table as values

  datatype Node = Node(bitmap: seq<bv8>, numslots: nat, config: nat, isMaster: bool, slaveof: Option<Id>)

  /** The number of slots that a table gives to n. */
  function Owned(owner: seq<Option<Id>>, n: Id): nat {
    if owner == [] then 0
    else Owned(owner[..|owner| - 1], n) + if owner[|owner| - 1] == Some(n) then 1 else 0
  }

  lemma {:induction false} OwnedUpdate(owner: seq<Option<Id>>, j: nat, x: Option<Id>, n: Id)
    requires j < |owner|
    ensures Owned(owner[j := x], n) + (if owner[j] == Some(n) then 1 else 0)
         == Owned(owner, n) + (if x == Some(n) then 1 else 0)
  {
    var k := |owner| - 1;
    if j < k {
      assert owner[j := x][..k] == owner[..k][j := x];
      OwnedUpdate(owner[..k], j, x, n);
    } else {
      assert owner[j := x][..k] == owner[..k];
    }
  }

  lemma {:induction false} OwnedNone(owner: seq<Option<Id>>, n: Id)
    ensures Owned(owner, n) == 0 <==> forall j :: 0 <= j < |owner| ==> owner[j] != Some(n)
  {
    if owner != [] {
      var k := |owner| - 1;
      OwnedNone(owner[..k], n);
      assert forall j :: 0 <= j < k ==> owner[..k][j] == owner[j];
    }
  }

  /** Node n's bitmap has exactly the bits of the slots it owns, and numslots is their number. */
  predicate NodeAgrees(owner: seq<Option<Id>>, n: Id, node: Node) {
    && |node.bitmap| == BYTES && |owner| == SLOTS
    && (forall j :: 0 <= j < SLOTS ==> TestBit(node.bitmap, j) == (owner[j] == Some(n)))
    && node.numslots == Owned(owner, n)
  }

  predicate Agree(owner: seq<Option<Id>>, nodes: map<Id, Node>) {
    && |owner| == SLOTS
    && (forall j :: 0 <= j < SLOTS && owner[j].Some? ==> owner[j].value in nodes)
    && (forall n :: n in nodes ==> |nodes[n].bitmap| == BYTES && NodeAgrees(owner, n, nodes[n]))
  }

  /** The same node but for its slots. */
  predicate SameRole(a: Node, b: Node) {
    a.config == b.config && a.isMaster == b.isMaster && a.slaveof == b.slaveof
  }

  function WithSlot(node: Node, slot: nat): (r: Node)
    requires slot < 8 * |node.bitmap|
    ensures |r.bitmap| == |node.bitmap| && SameRole(r, node)
  {
    node.(bitmap := SetBit(node.bitmap, slot),
          numslots := if TestBit(node.bitmap, slot) then node.numslots else node.numslots + 1)
  }

  function WithoutSlot(node: Node, slot: nat): (r: Node)
    requires slot < 8 * |node.bitmap|
    ensures |r.bitmap| == |node.bitmap| && SameRole(r, node)
  {
    node.(bitmap := ClearBit(node.bitmap, slot),
          numslots := if TestBit(node.bitmap, slot) && node.numslots > 0 then node.numslots - 1 else node.numslots)
  }

  lemma AddKeepsNode(owner: seq<Option<Id>>, n: Id, node: Node, slot: nat, m: Id)
    requires NodeAgrees(owner, n, node) && slot < SLOTS && owner[slot].None?
    ensures NodeAgrees(owner[slot := Some(m)], n, if n == m then WithSlot(node, slot) else node)
  {
    hide TestBit, SetBit;
    OwnedUpdate(owner, slot, Some(m), n);
    forall j | 0 <= j < SLOTS ensures TestBit(SetBit(node.bitmap, slot), j) == (j == slot || TestBit(node.bitmap, j)) {
      BitUpdates(node.bitmap, slot, j);
    }
  }

  lemma DelKeepsNode(owner: seq<Option<Id>>, n: Id, node: Node, slot: nat)
    requires NodeAgrees(owner, n, node) && slot < SLOTS && owner[slot].Some?
    ensures NodeAgrees(owner[slot := None], n, if owner[slot] == Some(n) then WithoutSlot(node, slot) else node)
  {
    hide TestBit, ClearBit;
    OwnedUpdate(owner, slot, None, n);
    forall j | 0 <= j < SLOTS ensures TestBit(ClearBit(node.bitmap, slot), j) == (j != slot && TestBit(node.bitmap, j)) {
      BitUpdates(node.bitmap, slot, j);
    }
  }

  lemma AddKeepsAgree(owner: seq<Option<Id>>, nodes: map<Id, Node>, m: Id, slot: nat)
    requires Agree(owner, nodes) && slot < SLOTS && owner[slot].None? && m in nodes
    ensures NodeAgrees(owner, m, nodes[m])
    ensures Agree(owner[slot := Some(m)], nodes[m := WithSlot(nodes[m], slot)])
  {
    hide NodeAgrees;
    var nodes' := nodes[m := WithSlot(nodes[m], slot)];
    forall n | n in nodes' ensures NodeAgrees(owner[slot := Some(m)], n, nodes'[n]) {
      AddKeepsNode(owner, n, nodes[n], slot, m);
    }
  }

  lemma DelKeepsAgree(owner: seq<Option<Id>>, nodes: map<Id, Node>, slot: nat)
    requires Agree(owner, nodes) && slot < SLOTS && owner[slot].Some?
    ensures NodeAgrees(owner, owner[slot].value, nodes[owner[slot].value])
    ensures Agree(owner[slot := None], nodes[owner[slot].value := WithoutSlot(nodes[owner[slot].value], slot)])
  {
    hide NodeAgrees, WithoutSlot;
    var m := owner[slot].value;
    var nodes' := nodes[m := WithoutSlot(nodes[m], slot)];
    forall n | n in nodes' ensures NodeAgrees(owner[slot := None], n, nodes'[n]) {
      DelKeepsNode(owner, n, nodes[n], slot);
    }
  }

  predicate SameRoles(a: map<Id, Node>, b: map<Id, Node>) {
    a.Keys == b.Keys && forall n :: n in a ==> SameRole(a[n], b[n])
  }

  // Claims

  /** The slot's new owner when sender claims it: an unassigned or older configuration gives way. */
  function Rebound(owner: Option<Id>, ownerConfig: nat, importing: bool, sender: Id, epoch: nat): Option<Id> {
    if !importing && (owner.None? || ownerConfig < epoch) then Some(sender) else owner
  }

  function ConfigOf(owner: Option<Id>, nodes: map<Id, Node>): nat
    requires owner.Some? ==> owner.value in nodes
  {
    if owner.Some? then nodes[owner.value].config else 0
  }

  predicate Takes(owner: seq<Option<Id>>, importing: seq<Option<Id>>, nodes: map<Id, Node>,
                  sender: Id, epoch: nat, claims: seq<bv8>, j: nat)
    requires Agree(owner, nodes) && |importing| == SLOTS && |claims| == BYTES && j < SLOTS
  {
    && TestBit(claims, j) && owner[j] != Some(sender)
    && Rebound(owner[j], ConfigOf(owner[j], nodes), importing[j].Some?, sender, epoch) == Some(sender)
  }

  /** The owners once sender's claim to the slots of a bitmap has been considered up to slot k. */
  function Claimed(owner: seq<Option<Id>>, importing: seq<Option<Id>>, nodes: map<Id, Node>,
                   sender: Id, epoch: nat, claims: seq<bv8>, k: nat): (r: seq<Option<Id>>)
    requires Agree(owner, nodes) && |importing| == SLOTS && |claims| == BYTES && k <= SLOTS
    ensures |r| == SLOTS
  {
    seq(SLOTS, j requires 0 <= j < SLOTS =>
      if j < k && Takes(owner, importing, nodes, sender, epoch, claims, j) then Some(sender) else owner[j])
  }

  lemma ClaimStep(owner: seq<Option<Id>>, importing: seq<Option<Id>>, nodes: map<Id, Node>,
                  sender: Id, epoch: nat, claims: seq<bv8>, k: nat)
    requires Agree(owner, nodes) && |importing| == SLOTS && |claims| == BYTES && k < SLOTS
    ensures var c := Claimed(owner, importing, nodes, sender, epoch, claims, k);
            c[k] == owner[k] &&
            Claimed(owner, importing, nodes, sender, epoch, claims, k + 1) ==
              if Takes(owner, importing, nodes, sender, epoch, claims, k) then c[k := Some(sender)] else c
  {}

  /** What a claim does to the node that hears it: the server may stop. */
  datatype Outcome = Kept | Demoted | Crashed

  /** A slot of a given owner, or an unassigned one, is owned by somebody else now. */
  ghost predicate LostBy(before: seq<Option<Id>>, after: seq<Option<Id>>, from: Option<Id>) {
    |before| == |after| && exists j :: 0 <= j < |before| && before[j] == from && after[j] != from
  }

  predicate Landless(owner: seq<Option<Id>>, n: Id) {
    forall j :: 0 <= j < |owner| ==> owner[j] != Some(n)
  }

  ghost function OutcomeOf(before: seq<Option<Id>>, after: seq<Option<Id>>, me: Id, master: Option<Id>): Outcome {
    if !LostBy(before, after, master) then Kept
    else if master.None? then Crashed
    else if !Landless(after, master.value) then Kept
    else if !Landless(after, me) then Crashed
    else Demoted
  }

  /** A slot changes hands exactly if it is taken. */
  lemma LostIsTaken(owner: seq<Option<Id>>, importing: seq<Option<Id>>, nodes: map<Id, Node>,
                    sender: Id, epoch: nat, claims: seq<bv8>, j: nat)
    requires Agree(owner, nodes) && |importing| == SLOTS && |claims| == BYTES && j < SLOTS
    ensures var after := Claimed(owner, importing, nodes, sender, epoch, claims, SLOTS);
            && (after[j] != owner[j] <==> Takes(owner, importing, nodes, sender, epoch, claims, j))
            && (after[j] != owner[j] ==> after[j] == Some(sender))
  {}

  // Handing over and removing

  /** Up to slot k, the slots of one node go to another, or to none. */
  function Moved(owner: seq<Option<Id>>, from: Id, to: Option<Id>, k: nat): (r: seq<Option<Id>>)
    requires k <= |owner|
    ensures |r| == |owner|
  {
    seq(|owner|, j requires 0 <= j < |owner| => if j < k && owner[j] == Some(from) then to else owner[j])
  }

  lemma ChangedNodeAgrees(owner: seq<Option<Id>>, nodes: map<Id, Node>, n: Id, node: Node)
    requires Agree(owner, nodes) && n in nodes
    requires node.bitmap == nodes[n].bitmap && node.numslots == nodes[n].numslots
    ensures Agree(owner, nodes[n := node])
  {}

  /** Other nodes lose their master when it is removed. */
  function Orphaned(node: Node, n: Id): Node {
    if node.slaveof == Some(n) then node.(slaveof := None) else node
  }

  function WithoutNode(nodes: map<Id, Node>, n: Id): map<Id, Node> {
    map m | m in nodes && m != n :: Orphaned(nodes[m], n)
  }

  /** Only replicas have a master, and it is known. */
  predicate Linked(nodes: map<Id, Node>) {
    forall n :: n in nodes && nodes[n].slaveof.Some? ==> !nodes[n].isMaster && nodes[n].slaveof.value in nodes
  }

  lemma WithoutNodeLinked(nodes: map<Id, Node>, n: Id)
    requires Linked(nodes)
    ensures Linked(WithoutNode(nodes, n))
  {}

  /** A node without slots, as it is when it is first heard of. */
  function NewNode(): Node {
    Node(seq(BYTES, _ => 0), 0, 0, true, None)
  }

  lemma NewNodeAgrees(owner: seq<Option<Id>>, nodes: map<Id, Node>, n: Id)
    requires Agree(owner, nodes) && n !in nodes
    ensures Agree(owner, nodes[n := NewNode()])
  {
    hide Owned;
    OwnedNone(owner, n);
    assert forall j :: 0 <= j < SLOTS ==> !TestBit(NewNode().bitmap, j);
  }

  // Keys

  /** The keys that are left when those of some slots are deleted. */
  function Purged(dict: map<SlotKeys.Key, SlotKeys.Value>, hash: SlotKeys.Key -> nat, slots: seq<nat>): map<SlotKeys.Key, SlotKeys.Value> {
    map k | k in dict && hash(k) !in slots :: dict[k]
  }

  /** The keys that are left when those of the slots a node has lost are deleted. */
  function Remaining(dict: map<SlotKeys.Key, SlotKeys.Value>, hash: SlotKeys.Key -> nat, before: seq<Option<Id>>, after: seq<Option<Id>>,
                     me: Id): map<SlotKeys.Key, SlotKeys.Value>
    requires |before| == |after| == SLOTS && SlotKeys.HashesToSlots(hash)
  {
    map k | k in dict && !(before[hash(k)] == Some(me) && after[hash(k)] != Some(me)) :: dict[k]
  }

  /** Purging the slots with keys among those lost is enough, because the counters are right. */
  lemma PurgedIsRemaining(dict: map<SlotKeys.Key, SlotKeys.Value>, hash: SlotKeys.Key -> nat, before: seq<Option<Id>>,
                          after: seq<Option<Id>>, me: Id, dirty: seq<nat>, counts: seq<int>)
    requires |before| == |after| == SLOTS && SlotKeys.HashesToSlots(hash) && SlotKeys.CountsAgree(dict, hash, counts)
    requires forall j :: j in dirty ==> j < SLOTS && before[j] == Some(me) && after[j] != Some(me)
    requires forall j :: 0 <= j < SLOTS && before[j] == Some(me) && after[j] != Some(me) && counts[j] != 0 ==> j in dirty
    ensures Purged(dict, hash, dirty) == Remaining(dict, hash, before, after, me)
  {
    forall k | k in dict ensures hash(k) in dirty <==> before[hash(k)] == Some(me) && after[hash(k)] != Some(me) {
      assert k in SlotKeys.KeysIn(dict, hash, hash(k));
    }
  }

  /** The keys that are left keep their expiries. */
  ghost predicate KeepsExpires(before: map<SlotKeys.Key, int>, after: map<SlotKeys.Key, int>, dict: map<SlotKeys.Key, SlotKeys.Value>) {
    && (forall k :: k in after <==> k in before && k in dict)
    && (forall k :: k in after ==> after[k] == before[k])
  }

  lemma PurgeNext(dict: map<SlotKeys.Key, SlotKeys.Value>, hash: SlotKeys.Key -> nat, slots: seq<nat>, i: nat)
    requires i < |slots|
    ensures var before := Purged(dict, hash, slots[..i]);
            before - SlotKeys.KeysIn(before, hash, slots[i]) == Purged(dict, hash, slots[..i + 1])
  {
    assert slots[..i + 1] == slots[..i] + [slots[i]];
  }

  lemma WithoutNodeAgrees(owner: seq<Option<Id>>, nodes: map<Id, Node>, n: Id)
    requires Agree(owner, nodes) && forall j :: 0 <= j < SLOTS ==> owner[j] != Some(n)
    ensures Agree(owner, WithoutNode(nodes, n))
  {}

  class Cluster {
    const owner: array<Option<Id>>
    const importing: array<Option<Id>>
    const migrating: array<Option<Id>>
    var nodes: map<Id, Node>
    var myself: Id
    var current: nat

    ghost predicate Valid()
      reads this, owner, importing, migrating
    {
      && owner.Length == importing.Length == migrating.Length == SLOTS
      && owner != importing && owner != migrating && importing != migrating
      && Agree(owner[..], nodes) && Linked(nodes) && myself in nodes
    }

    /** Assigns an unassigned slot. */
    method AddSlot(n: Id, slot: nat) returns (ok: bool)
      requires Valid() && n in nodes && slot < SLOTS
      modifies this`nodes, owner
      ensures Valid() && SameRoles(nodes, old(nodes)) && ok == old(owner[slot].None?)
      ensures owner[..] == if ok then old(owner[..])[slot := Some(n)] else old(owner[..])
    {
      if owner[slot].Some? { return false; }
      AddKeepsAgree(owner[..], nodes, n, slot);
      nodes := nodes[n := WithSlot(nodes[n], slot)];
      owner[slot] := Some(n);
      assert owner[..] == old(owner[..])[slot := Some(n)];
      ok := true;
    }

    /** Unassigns a slot. The bit that the source asserts was set is set. */
    method DelSlot(slot: nat) returns (ok: bool)
      requires Valid() && slot < SLOTS
      modifies this`nodes, owner
      ensures Valid() && SameRoles(nodes, old(nodes)) && ok == old(owner[slot].Some?)
      ensures owner[..] == old(owner[..])[slot := None]
    {
      if owner[slot].None? {
        assert owner[..] == owner[..][slot := None];
        return false;
      }
      var n := owner[slot].value;
      DelKeepsAgree(owner[..], nodes, slot);
      assert TestBit(nodes[n].bitmap, slot);
      nodes := nodes[n := WithoutSlot(nodes[n], slot)];
      owner[slot] := None;
      assert owner[..] == old(owner[..])[slot := None];
      ok := true;
    }

    constructor (me: Id)
      ensures Valid() && fresh(owner) && fresh(importing) && fresh(migrating) && myself == me
      ensures forall j :: 0 <= j < SLOTS ==> owner[j].None? && importing[j].None? && migrating[j].None?
      ensures nodes == map[me := NewNode()] && current == 0
    {
      owner := new Option<Id>[SLOTS](_ => None);
      importing := new Option<Id>[SLOTS](_ => None);
      migrating := new Option<Id>[SLOTS](_ => None);
      nodes := map[me := NewNode()];
      myself, current := me, 0;
      new;
      OwnedNone(owner[..], me);
    }

    /** A node is heard of for the first time. */
    method AddNode(n: Id)
      requires Valid() && n !in nodes
      modifies this`nodes
      ensures Valid() && nodes == old(nodes)[n := NewNode()]
    {
      hide NodeAgrees;
      NewNodeAgrees(owner[..], nodes, n);
      nodes := nodes[n := NewNode()];
    }

    /** Gives a slot to a node, whoever had it. */
    method Reassign(n: Id, slot: nat)
      requires Valid() && n in nodes && slot < SLOTS
      modifies this`nodes, owner
      ensures Valid() && SameRoles(nodes, old(nodes))
      ensures owner[..] == old(owner[..])[slot := Some(n)]
    {
      hide TestBit, NodeAgrees;
      var _ := DelSlot(slot);
      var _ := AddSlot(n, slot);
    }

    /** Unassigns every slot of a node, found through its bitmap, and returns their number. */
    method DelNodeSlots(n: Id) returns (deleted: nat)
      requires Valid() && n in nodes
      modifies this`nodes, owner
      ensures Valid() && SameRoles(nodes, old(nodes))
      ensures owner[..] == Moved(old(owner[..]), n, None, SLOTS)
      ensures forall j :: 0 <= j < SLOTS ==> owner[j] == if old(owner[j]) == Some(n) then None else old(owner[j])
      ensures deleted == Owned(old(owner[..]), n)
    {
      hide TestBit, NodeAgrees;
      ghost var o := owner[..];
      deleted := 0;
      for j := 0 to SLOTS
        invariant Valid() && SameRoles(nodes, old(nodes))
        invariant owner[..] == Moved(o, n, None, j)
        invariant deleted == Owned(o[..j], n)
      {
        BitIsOwner(n, j);
        assert o[..j + 1][..j] == o[..j] && owner[j] == o[j];
        if TestBit(nodes[n].bitmap, j) {
          var _ := DelSlot(j);
          deleted := deleted + 1;
        }
        assert owner[..] == Moved(o, n, None, j + 1);
      }
      assert o[..SLOTS] == o;
    }

    lemma BitIsOwner(n: Id, j: nat)
      requires Valid() && n in nodes && j < SLOTS
      ensures |nodes[n].bitmap| == BYTES && TestBit(nodes[n].bitmap, j) == (owner[j] == Some(n))
    {}

    /** Takes a node's slots and the slots open to it away. */
    method ClearSlotsOf(n: Id)
      requires Valid()
      modifies this`nodes, owner, importing, migrating
      ensures Valid() && SameRoles(nodes, old(nodes))
      ensures owner[..] == Moved(old(owner[..]), n, None, SLOTS)
      ensures importing[..] == Moved(old(importing[..]), n, None, SLOTS)
      ensures migrating[..] == Moved(old(migrating[..]), n, None, SLOTS)
    {
      hide TestBit, Agree, Linked;
      ghost var o, i, m := owner[..], importing[..], migrating[..];
      for j := 0 to SLOTS
        invariant Valid() && SameRoles(nodes, old(nodes))
        invariant owner[..] == Moved(o, n, None, j)
        invariant importing[..] == Moved(i, n, None, j)
        invariant migrating[..] == Moved(m, n, None, j)
      {
        if importing[j] == Some(n) { importing[j] := None; }
        if migrating[j] == Some(n) { migrating[j] := None; }
        assert importing[..] == Moved(i, n, None, j + 1);
        assert migrating[..] == Moved(m, n, None, j + 1);
        assert owner[..] == Moved(o, n, None, j);
        if owner[j] == Some(n) { var _ := DelSlot(j); }
        assert owner[..] == Moved(o, n, None, j + 1);
      }
    }

    /** Forgets a node: its slots and open slots are cleared and its replicas have no master any more. */
    method DelNode(n: Id)
      requires Valid() && n in nodes && n != myself
      modifies this`nodes, owner, importing, migrating
      ensures Valid() && nodes.Keys == old(nodes).Keys - {n}
      ensures forall m :: m in nodes ==> SameRole(nodes[m], Orphaned(old(nodes)[m], n))
      ensures owner[..] == Moved(old(owner[..]), n, None, SLOTS)
      ensures importing[..] == Moved(old(importing[..]), n, None, SLOTS)
      ensures migrating[..] == Moved(old(migrating[..]), n, None, SLOTS)
    {
      hide Agree, Linked;
      ClearSlotsOf(n);
      WithoutNodeAgrees(owner[..], nodes, n);
      WithoutNodeLinked(nodes, n);
      nodes := WithoutNode(nodes, n);
    }

    // Roles

    /** A node that acts as a master is recorded as one. */
    method SetNodeAsMaster(n: Id)
      requires Valid() && n in nodes
      modifies this`nodes
      ensures Valid()
      ensures nodes == if old(nodes)[n].isMaster then old(nodes)
                       else old(nodes)[n := old(nodes)[n].(isMaster := true, slaveof := None)]
    {
      hide TestBit, Owned;
      if nodes[n].isMaster { return; }
      ChangedNodeAgrees(owner[..], nodes, n, nodes[n].(isMaster := true, slaveof := None));
      nodes := nodes[n := nodes[n].(isMaster := true, slaveof := None)];
    }

    /** The role a header announces for its sender: a master turned replica loses its slots. */
    method ProcessRole(sender: Id, slaveof: Option<Id>)
      requires Valid() && sender in nodes
      modifies this`nodes, owner
      ensures Valid() && nodes.Keys == old(nodes).Keys
      ensures forall n :: n in nodes && n != sender ==> SameRole(nodes[n], old(nodes)[n])
      ensures nodes[sender].isMaster == slaveof.None? && nodes[sender].config == old(nodes)[sender].config
      ensures nodes[sender].slaveof ==
              if slaveof.None? then None
              else if slaveof.value in nodes then slaveof else old(nodes)[sender].slaveof
      ensures owner[..] == if slaveof.Some? && old(nodes)[sender].isMaster
                           then Moved(old(owner[..]), sender, None, SLOTS) else old(owner[..])
    {
      hide TestBit, Owned, Agree, Moved;
      if slaveof.None? {
        SetNodeAsMaster(sender);
        return;
      }
      if nodes[sender].isMaster {
        var _ := DelNodeSlots(sender);
        ChangedNodeAgrees(owner[..], nodes, sender, nodes[sender].(isMaster := false));
        nodes := nodes[sender := nodes[sender].(isMaster := false)];
      }
      if slaveof.value in nodes && nodes[sender].slaveof != slaveof {
        ChangedNodeAgrees(owner[..], nodes, sender, nodes[sender].(slaveof := slaveof));
        nodes := nodes[sender := nodes[sender].(slaveof := slaveof)];
      }
    }

    method CloseAllSlots()
      requires Valid()
      modifies importing, migrating
      ensures Valid() && forall j :: 0 <= j < SLOTS ==> importing[j].None? && migrating[j].None?
    {
      ghost var o := owner[..];
      for j := 0 to SLOTS
        invariant owner[..] == o
        invariant forall i :: 0 <= i < j ==> importing[i].None? && migrating[i].None?
      {
        importing[j], migrating[j] := None, None;
      }
    }

    /** This node becomes a replica of n; it must not own slots. */
    method SetMaster(n: Id)
      requires Valid() && n in nodes && n != myself && nodes[myself].numslots == 0
      modifies this`nodes, importing, migrating
      ensures Valid()
      ensures nodes == old(nodes)[myself := old(nodes)[myself].(isMaster := false, slaveof := Some(n))]
      ensures old(nodes)[myself].isMaster ==> forall j :: 0 <= j < SLOTS ==> importing[j].None? && migrating[j].None?
      ensures !old(nodes)[myself].isMaster ==> importing[..] == old(importing[..]) && migrating[..] == old(migrating[..])
    {
      hide TestBit, Owned, NodeAgrees;
      if nodes[myself].isMaster { CloseAllSlots(); }
      ChangedNodeAgrees(owner[..], nodes, myself, nodes[myself].(isMaster := false, slaveof := Some(n)));
      nodes := nodes[myself := nodes[myself].(isMaster := false, slaveof := Some(n))];
    }

    // Claims

    /** This node is a master, or a replica without slots of a master it knows. */
    ghost predicate Settled()
      reads this
    {
      myself in nodes && (nodes[myself].isMaster || (nodes[myself].slaveof.Some? && nodes[myself].numslots == 0))
    }

    /** This node, or the master it replicates, if it has one. */
    function CurrentMaster(): Option<Id>
      requires myself in nodes
      reads this
    {
      if nodes[myself].isMaster then Some(myself) else nodes[myself].slaveof
    }

    static ghost predicate TakesFrom(o: seq<Option<Id>>, imp: seq<Option<Id>>, ns: map<Id, Node>,
                              sender: Id, epoch: nat, claims: seq<bv8>, j: nat, from: Option<Id>)
      requires Agree(o, ns) && |imp| == SLOTS && |claims| == BYTES && j < SLOTS
    {
      Takes(o, imp, ns, sender, epoch, claims, j) && o[j] == from
    }

    /**
     Gives sender the slots it claims and is entitled to. Returns whether one of them was owned by what
     this node takes for its master, and the slots with keys that were taken from this node.
     */
    method Rebind(sender: Id, epoch: nat, claims: seq<bv8>, counts: array<int>) returns (lost: bool, dirty: seq<nat>)
      requires Valid() && counts.Length == SLOTS && sender in nodes && sender != myself && |claims| == BYTES
      modifies this`nodes, owner
      ensures Valid() && SameRoles(nodes, old(nodes))
      ensures owner[..] == Claimed(old(owner[..]), importing[..], old(nodes), sender, epoch, claims, SLOTS)
      ensures lost <==> exists j :: 0 <= j < SLOTS && TakesFrom(old(owner[..]), importing[..], old(nodes), sender, epoch, claims, j, old(CurrentMaster()))
      ensures forall j :: j in dirty ==> j < SLOTS && TakesFrom(old(owner[..]), importing[..], old(nodes), sender, epoch, claims, j, Some(myself))
      ensures forall j :: 0 <= j < SLOTS ==>
                TakesFrom(old(owner[..]), importing[..], old(nodes), sender, epoch, claims, j, Some(myself)) && counts[j] != 0 ==>
                j in dirty
    {
      hide TestBit, NodeAgrees, Owned, Claimed, Linked;
      ghost var o, imp, ns := owner[..], importing[..], nodes;
      var curmaster := CurrentMaster();
      lost, dirty := false, [];
      ClaimStart(sender, epoch, claims);
      for j := 0 to SLOTS
        invariant Valid() && SameRoles(nodes, ns)
        invariant owner[..] == Claimed(o, imp, ns, sender, epoch, claims, j)
        invariant lost <==> exists i :: 0 <= i < j && TakesFrom(o, imp, ns, sender, epoch, claims, i, curmaster)
        invariant forall i :: i in dirty ==> i < j && TakesFrom(o, imp, ns, sender, epoch, claims, i, Some(myself))
        invariant forall i :: 0 <= i < j && TakesFrom(o, imp, ns, sender, epoch, claims, i, Some(myself)) && counts[i] != 0 ==> i in dirty
      {
        ClaimStep(o, imp, ns, sender, epoch, claims, j);
        assert owner[..][j] == owner[j] == o[j] && importing[j] == imp[j];
        ghost var takes := Takes(o, imp, ns, sender, epoch, claims, j);
        if TestBit(claims, j) && owner[j] != Some(sender) && importing[j].None? {
          if owner[j].None? || nodes[owner[j].value].config < epoch {
            assert takes;
            if owner[j] == Some(myself) && counts[j] != 0 { dirty := dirty + [j]; }
            if owner[j] == curmaster {
              lost := true;
              assert TakesFrom(o, imp, ns, sender, epoch, claims, j, curmaster);
            }
            Reassign(sender, j);
          }
        }
      }
    }

    lemma ClaimStart(sender: Id, epoch: nat, claims: seq<bv8>)
      requires Valid() && |claims| == BYTES
      ensures owner[..] == Claimed(owner[..], importing[..], nodes, sender, epoch, claims, 0)
    {}

    lemma NoSlots(n: Id)
      requires Valid() && n in nodes
      ensures nodes[n].numslots == 0 <==> forall j :: 0 <= j < SLOTS ==> owner[j] != Some(n)
    {
      hide TestBit;
      OwnedNone(owner[..], n);
      assert forall j :: 0 <= j < SLOTS ==> owner[..][j] == owner[j];
    }

    /** Deletes the keys of some slots. */
    static method DelKeysInSlots(db: SlotKeys.Database, slots: seq<nat>)
      requires db.Valid() && forall j :: j in slots ==> j < SLOTS
      modifies db, db.counts
      ensures db.Valid() && db.dict == Purged(old(db.dict), db.hash, slots)
      ensures KeepsExpires(old(db.expires), db.expires, db.dict)
    {
      hide SlotKeys.IndexAgrees, SlotKeys.CountsAgree, SlotKeys.KeysIn, Purged;
      PurgeNone(db.dict, db.hash);
      assert forall k :: k in db.expires ==> k in db.dict;
      for i := 0 to |slots|
        invariant db.Valid() && db.dict == Purged(old(db.dict), db.hash, slots[..i]) && KeepsExpires(old(db.expires), db.expires, db.dict)
      {
        ghost var dict, expires := db.dict, db.expires;
        PurgeNext(old(db.dict), db.hash, slots, i);
        assert slots[i] in slots;
        var _ := db.DelKeysInSlot(slots[i]);
        ExpiresFollow(old(db.expires), expires, dict, SlotKeys.KeysIn(dict, db.hash, slots[i]));
      }
      assert slots[..|slots|] == slots;
    }

    static lemma ExpiresFollow(was: map<SlotKeys.Key, int>, expires: map<SlotKeys.Key, int>, dict: map<SlotKeys.Key, SlotKeys.Value>,
                               gone: set<SlotKeys.Key>)
      requires KeepsExpires(was, expires, dict)
      ensures KeepsExpires(was, expires - gone, dict - gone)
    {}

    static lemma PurgeNone(dict: map<SlotKeys.Key, SlotKeys.Value>, hash: SlotKeys.Key -> nat)
      ensures Purged(dict, hash, []) == dict
    {}

    /**
     A master's claim to a set of slots, with its configuration epoch. If it takes the last slot of
     this node's master, or of this node, this node becomes a replica of the claimant. Otherwise the
     slots with keys that were taken from this node are returned. The server stops in two cases: an
     unassigned slot is claimed while this node is a replica without a master, which the source takes
     for a slot of its master; or the node to be demoted owns slots as a replica.
     */
    method ApplyClaim(sender: Id, epoch: nat, claims: seq<bv8>, redirects: bool, counts: array<int>)
      returns (outcome: Outcome, dirty: seq<nat>)
      requires Valid() && counts.Length == SLOTS && sender in nodes && |claims| == BYTES
      modifies this`nodes, owner, importing, migrating
      ensures Valid() && (old(Settled()) ==> Settled() && outcome != Crashed)
      ensures sender == myself ==> outcome == Kept && owner[..] == old(owner[..]) && nodes == old(nodes)
      ensures owner[..] == if sender == myself then old(owner[..])
                           else Claimed(old(owner[..]), old(importing[..]), old(nodes), sender, epoch, claims, SLOTS)
      ensures outcome == if redirects then OutcomeOf(old(owner[..]), owner[..], myself, old(CurrentMaster())) else Kept
      ensures outcome == Demoted ==> SameRoles(nodes, old(nodes)[myself := nodes[myself]]) && nodes[myself].config == old(nodes)[myself].config
                                     && !nodes[myself].isMaster && nodes[myself].slaveof == Some(sender)
      ensures outcome == Demoted ==> if old(nodes)[myself].isMaster
                                     then forall j :: 0 <= j < SLOTS ==> importing[j].None? && migrating[j].None?
                                     else importing[..] == old(importing[..]) && migrating[..] == old(migrating[..])
      ensures outcome != Demoted ==> SameRoles(nodes, old(nodes))
                                     && importing[..] == old(importing[..]) && migrating[..] == old(migrating[..])
      ensures !(redirects && outcome == Kept) ==> dirty == []
      ensures forall j :: j in dirty ==> j < SLOTS && old(owner[j]) == Some(myself) && owner[j] != Some(myself)
      ensures redirects && outcome == Kept ==> forall j :: 0 <= j < SLOTS ==>
                old(owner[j]) == Some(myself) && owner[j] != Some(myself) && counts[j] != 0 ==> j in dirty
    {
      hide TestBit, NodeAgrees, Owned, Takes, Claimed;
      outcome, dirty := Kept, [];
      if sender == myself { return; }
      ghost var o, imp, ns := owner[..], importing[..], nodes;
      var curmaster := CurrentMaster();
      NoSlots(myself);
      var lost, taken := Rebind(sender, epoch, claims, counts);
      forall j | 0 <= j < SLOTS
        ensures owner[j] != o[j] <==> Takes(o, imp, ns, sender, epoch, claims, j)
        ensures owner[j] != o[j] ==> owner[j] == Some(sender)
      {
        LostIsTaken(o, imp, ns, sender, epoch, claims, j);
      }
      NoSlots(myself);
      if !redirects { return; }
      if curmaster.Some? { NoSlots(curmaster.value); }
      LostIff(o, imp, ns, sender, epoch, claims, curmaster);
      if lost && curmaster.None? { return Crashed, []; }
      if lost && nodes[curmaster.value].numslots == 0 {
        if nodes[myself].numslots != 0 { return Crashed, []; }
        SetMaster(sender);
        outcome := Demoted;
      } else {
        dirty := taken;
      }
    }

    static lemma LostIff(o: seq<Option<Id>>, imp: seq<Option<Id>>, ns: map<Id, Node>, sender: Id, epoch: nat, claims: seq<bv8>, from: Option<Id>)
      requires Agree(o, ns) && |imp| == SLOTS && |claims| == BYTES
      ensures LostBy(o, Claimed(o, imp, ns, sender, epoch, claims, SLOTS), from) <==>
              exists j :: 0 <= j < SLOTS && TakesFrom(o, imp, ns, sender, epoch, claims, j, from)
    {
      hide Claimed, Takes;
      var after := Claimed(o, imp, ns, sender, epoch, claims, SLOTS);
      forall j | 0 <= j < SLOTS ensures (o[j] == from && after[j] != from) <==> TakesFrom(o, imp, ns, sender, epoch, claims, j, from) {
        LostIsTaken(o, imp, ns, sender, epoch, claims, j);
      }
    }

    /** A claim as the server hears it: the keys in the slots taken from this node are deleted, unless it is demoted, and no others. */
    method UpdateSlotsConfigWith(sender: Id, epoch: nat, claims: seq<bv8>, redirects: bool, db: SlotKeys.Database)
      returns (outcome: Outcome)
      requires Valid() && db.Valid() && sender in nodes && |claims| == BYTES
      modifies this`nodes, owner, importing, migrating, db, db.counts
      ensures Valid() && db.Valid() && (old(Settled()) ==> Settled() && outcome != Crashed)
      ensures owner[..] == if sender == myself then old(owner[..])
                           else Claimed(old(owner[..]), old(importing[..]), old(nodes), sender, epoch, claims, SLOTS)
      ensures outcome == if redirects then OutcomeOf(old(owner[..]), owner[..], myself, old(CurrentMaster())) else Kept
      ensures outcome == Demoted ==> SameRoles(nodes, old(nodes)[myself := nodes[myself]]) && nodes[myself].config == old(nodes)[myself].config
                                     && !nodes[myself].isMaster && nodes[myself].slaveof == Some(sender)
      ensures outcome == Demoted ==> if old(nodes)[myself].isMaster
                                     then forall j :: 0 <= j < SLOTS ==> importing[j].None? && migrating[j].None?
                                     else importing[..] == old(importing[..]) && migrating[..] == old(migrating[..])
      ensures outcome != Demoted ==> SameRoles(nodes, old(nodes))
                                     && importing[..] == old(importing[..]) && migrating[..] == old(migrating[..])
      ensures db.dict == if redirects && outcome == Kept then Remaining(old(db.dict), db.hash, old(owner[..]), owner[..], myself)
                         else old(db.dict)
      ensures KeepsExpires(old(db.expires), db.expires, db.dict)
    {
      hide Agree, Claimed, OutcomeOf, Settled, CurrentMaster, SlotKeys.IndexAgrees, Purged, Remaining;
      ghost var o, dict := owner[..], db.dict;
      var dirty;
      outcome, dirty := ApplyClaim(sender, epoch, claims, redirects, db.counts);
      PurgeNone(dict, db.hash);
      if redirects && outcome == Kept { PurgedIsRemaining(dict, db.hash, o, owner[..], myself, dirty, db.counts[..]); }
      if |dirty| > 0 { DelKeysInSlots(db, dirty); }
    }

    /** When the claimed bitmap is the one already known for the sender, its claim changes nothing. */
    lemma SameBitmapClaimsNothing(sender: Id, epoch: nat, claims: seq<bv8>)
      requires Valid() && sender in nodes && claims == nodes[sender].bitmap
      ensures |claims| == BYTES
      ensures Claimed(owner[..], importing[..], nodes, sender, epoch, claims, SLOTS) == owner[..]
    {}

    /** The header rule for the sender's epoch. */
    method LearnConfig(n: Id, epoch: nat)
      requires Valid() && n in nodes
      modifies this`nodes
      ensures Valid() && (old(Settled()) ==> Settled())
      ensures nodes == if epoch > old(nodes)[n].config then old(nodes)[n := old(nodes)[n].(config := epoch)] else old(nodes)
    {
      hide TestBit, Owned, NodeAgrees;
      if epoch > nodes[n].config {
        ChangedNodeAgrees(owner[..], nodes, n, nodes[n].(config := epoch));
        nodes := nodes[n := nodes[n].(config := epoch)];
      }
    }

    /**
     The slots in a master's header: they are looked at only when the bitmap differs from the one
     known, and the outcome is the same as if they always were.
     */
    method ProcessSlots(sender: Id, epoch: nat, claims: seq<bv8>, redirects: bool, db: SlotKeys.Database) returns (outcome: Outcome)
      requires Valid() && db.Valid() && sender in nodes && sender != myself && nodes[sender].isMaster && |claims| == BYTES
      modifies this`nodes, owner, importing, migrating, db, db.counts
      ensures Valid() && db.Valid() && (old(Settled()) ==> Settled() && outcome != Crashed)
      ensures owner[..] == Claimed(old(owner[..]), old(importing[..]), old(nodes), sender, epoch, claims, SLOTS)
      ensures outcome == if redirects then OutcomeOf(old(owner[..]), owner[..], myself, old(CurrentMaster())) else Kept
      ensures outcome == Demoted ==> SameRoles(nodes, old(nodes)[myself := nodes[myself]]) && nodes[myself].config == old(nodes)[myself].config
                                     && !nodes[myself].isMaster && nodes[myself].slaveof == Some(sender)
      ensures outcome == Demoted ==> if old(nodes)[myself].isMaster
                                     then forall j :: 0 <= j < SLOTS ==> importing[j].None? && migrating[j].None?
                                     else importing[..] == old(importing[..]) && migrating[..] == old(migrating[..])
      ensures outcome != Demoted ==> SameRoles(nodes, old(nodes))
                                     && importing[..] == old(importing[..]) && migrating[..] == old(migrating[..])
      ensures db.dict == if redirects && outcome == Kept then Remaining(old(db.dict), db.hash, old(owner[..]), owner[..], myself)
                         else old(db.dict)
      ensures KeepsExpires(old(db.expires), db.expires, db.dict)
    {
      hide TestBit, NodeAgrees, Owned, SlotKeys.IndexAgrees, SlotKeys.CountsAgree;
      if nodes[sender].bitmap != claims {
        outcome := UpdateSlotsConfigWith(sender, epoch, claims, redirects, db);
      } else {
        SameBitmapClaimsNothing(sender, epoch, claims);
        outcome := Kept;
      }
    }

    // Failover

    /** A replica that won its election takes over every slot of its master. */
    method FailoverReplaceYourMaster()
      requires Valid()
      modifies this`nodes, owner
      ensures Valid() && nodes.Keys == old(nodes).Keys && (old(Settled()) ==> Settled())
      ensures old(nodes[myself].isMaster || nodes[myself].slaveof.None?) ==> owner[..] == old(owner[..]) && nodes == old(nodes)
      ensures old(!nodes[myself].isMaster && nodes[myself].slaveof.Some?) ==>
                && owner[..] == Moved(old(owner[..]), old(nodes)[myself].slaveof.value, Some(myself), SLOTS)
                && (forall j :: 0 <= j < SLOTS ==>
                     owner[j] == if old(owner[j]) == old(nodes)[myself].slaveof then Some(myself) else old(owner[j]))
                && nodes[myself].isMaster && nodes[myself].slaveof.None? && nodes[myself].config == old(nodes)[myself].config
                && forall n :: n in nodes && n != myself ==> SameRole(nodes[n], old(nodes)[n])
    {
      hide TestBit, NodeAgrees, Owned;
      if nodes[myself].isMaster || nodes[myself].slaveof.None? { return; }
      var oldmaster := nodes[myself].slaveof.value;
      SetNodeAsMaster(myself);
      ghost var o, ns := owner[..], nodes;
      for j := 0 to SLOTS
        invariant Valid() && SameRoles(nodes, ns)
        invariant owner[..] == Moved(o, oldmaster, Some(myself), j)
      {
        assert owner[..][j] == owner[j] == o[j];
        BitIsOwner(oldmaster, j);
        if TestBit(nodes[oldmaster].bitmap, j) { Reassign(myself, j); }
        assert owner[..] == Moved(o, oldmaster, Some(myself), j + 1);
      }
    }

    // Commands

    method SetSlotMigrating(slot: nat, n: Id) returns (ok: bool)
      requires Valid() && slot < SLOTS
      modifies migrating
      ensures Valid() && ok == (nodes[myself].isMaster && owner[slot] == Some(myself) && n in nodes)
      ensures migrating[..] == if ok then old(migrating[..])[slot := Some(n)] else old(migrating[..])
    {
      ghost var o := owner[..];
      ok := nodes[myself].isMaster && owner[slot] == Some(myself) && n in nodes;
      if ok { migrating[slot] := Some(n); }
      assert owner[..] == o;
      assert migrating[..] == if ok then old(migrating[..])[slot := Some(n)] else old(migrating[..]);
    }

    method SetSlotImporting(slot: nat, n: Id) returns (ok: bool)
      requires Valid() && slot < SLOTS
      modifies importing
      ensures Valid() && ok == (nodes[myself].isMaster && owner[slot] != Some(myself) && n in nodes)
      ensures importing[..] == if ok then old(importing[..])[slot := Some(n)] else old(importing[..])
    {
      ghost var o := owner[..];
      ok := nodes[myself].isMaster && owner[slot] != Some(myself) && n in nodes;
      if ok { importing[slot] := Some(n); }
      assert owner[..] == o;
      assert importing[..] == if ok then old(importing[..])[slot := Some(n)] else old(importing[..]);
    }

    method SetSlotStable(slot: nat) returns (ok: bool)
      requires Valid() && slot < SLOTS
      modifies importing, migrating
      ensures Valid() && ok == nodes[myself].isMaster
      ensures importing[..] == if ok then old(importing[..])[slot := None] else old(importing[..])
      ensures migrating[..] == if ok then old(migrating[..])[slot := None] else old(migrating[..])
    {
      ghost var o := owner[..];
      ok := nodes[myself].isMaster;
      if ok { importing[slot], migrating[slot] := None, None; }
      assert owner[..] == o;
      assert importing[..] == if ok then old(importing[..])[slot := None] else old(importing[..]);
      assert migrating[..] == if ok then old(migrating[..])[slot := None] else old(migrating[..]);
    }

    function Configs(): map<Id, nat>
      reads this
    {
      map n | n in nodes :: nodes[n].config
    }

    /** Takes a new configuration epoch unless this node already has the greatest. */
    method BumpConfigEpoch() returns (bumped: bool)
      requires Valid()
      modifies this`nodes, this`current
      ensures Valid() && bumped == old(Epochs.MustBump(myself, Epochs.Node(current, 0, Configs())))
      ensures current == old(current) + if bumped then 1 else 0
      ensures nodes == if bumped then old(nodes)[myself := old(nodes)[myself].(config := current)] else old(nodes)
    {
      hide TestBit, NodeAgrees, Owned;
      var max := Epochs.MaxEpoch(Configs(), current);
      bumped := nodes[myself].config == 0 || nodes[myself].config != max;
      if bumped {
        current := current + 1;
        ChangedNodeAgrees(owner[..], nodes, myself, nodes[myself].(config := current));
        nodes := nodes[myself := nodes[myself].(config := current)];
      }
    }

    /** Assigns a slot by hand; refused while this node would leave keys behind. */
    method SetSlotNode(slot: nat, n: Id, counts: array<int>) returns (ok: bool)
      requires Valid() && slot < SLOTS && counts.Length == SLOTS
      modifies this`nodes, this`current, owner, importing, migrating
      ensures Valid() && nodes.Keys == old(nodes).Keys
      ensures forall m :: m in nodes && m != myself ==> SameRole(nodes[m], old(nodes)[m])
      ensures nodes[myself].isMaster == old(nodes)[myself].isMaster && nodes[myself].slaveof == old(nodes)[myself].slaveof
      ensures (nodes[myself].config, current) ==
              if ok && n == myself && old(importing[slot]).Some? && old(Epochs.MustBump(myself, Epochs.Node(current, 0, Configs())))
              then (old(current) + 1, old(current) + 1) else (old(nodes)[myself].config, old(current))
      ensures ok == old(nodes[myself].isMaster && n in nodes && !(owner[slot] == Some(myself) && n != myself && counts[slot] != 0))
      ensures migrating[..] == if ok && counts[slot] == 0 then old(migrating[..])[slot := None] else old(migrating[..])
      ensures owner[..] == if ok then old(owner[..])[slot := Some(n)] else old(owner[..])
      ensures importing[..] == if ok && n == myself then old(importing[..])[slot := None] else old(importing[..])
    {
      hide TestBit, Agree, Linked;
      ok := false;
      if !nodes[myself].isMaster || n !in nodes { return; }
      if owner[slot] == Some(myself) && n != myself && counts[slot] != 0 { return; }
      ghost var o := owner[..];
      if counts[slot] == 0 { migrating[slot] := None; }
      assert migrating[..] == if counts[slot] == 0 then old(migrating[..])[slot := None] else old(migrating[..]);
      if n == myself {
        if importing[slot].Some? {
          assert owner[..] == o;
          var _ := BumpConfigEpoch();
        }
        importing[slot] := None;
      }
      assert importing[..] == if n == myself then old(importing[..])[slot := None] else old(importing[..]);
      assert owner[..] == o;
      Reassign(n, slot);
      ok := true;
    }

    /** The slots named by ADDSLOTS or DELSLOTS: known, each once, and all free or all assigned. */
    ghost predicate Applicable(slots: seq<nat>, del: bool)
      requires owner.Length == SLOTS
      reads this, owner
    {
      && (forall i :: 0 <= i < |slots| ==> slots[i] < SLOTS && owner[slots[i]].Some? == del)
      && (forall i, k :: 0 <= i < k < |slots| ==> slots[i] != slots[k])
    }

    method CheckSlots(slots: seq<nat>, del: bool) returns (ok: bool)
      requires Valid()
      ensures ok == Applicable(slots, del)
    {
      var named := new bool[SLOTS](_ => false);
      for i := 0 to |slots|
        invariant Applicable(slots[..i], del)
        invariant forall j :: 0 <= j < SLOTS ==> named[j] == (j in slots[..i])
      {
        assert slots[..i + 1] == slots[..i] + [slots[i]];
        if slots[i] >= SLOTS || owner[slots[i]].Some? != del { return false; }
        if named[slots[i]] {
          var k :| 0 <= k < i && slots[..i][k] == slots[i];
          return false;
        }
        named[slots[i]] := true;
      }
      assert slots[..|slots|] == slots;
      ok := true;
    }

    /** ADDSLOTS and DELSLOTS: either every slot named changes or none does. */
    method AddOrDelSlots(slots: seq<nat>, del: bool) returns (ok: bool)
      requires Valid()
      modifies this`nodes, owner, importing
      ensures Valid() && SameRoles(nodes, old(nodes)) && ok == old(Applicable(slots, del))
      ensures !ok ==> owner[..] == old(owner[..]) && importing[..] == old(importing[..])
      ensures ok ==> forall j :: 0 <= j < SLOTS ==>
                && owner[j] == (if j !in slots then old(owner[j]) else if del then None else Some(myself))
                && importing[j] == if j in slots then None else old(importing[j])
      ensures old(Settled()) ==> (Settled() <==> old(nodes)[myself].isMaster || !ok || del || slots == [])
    {
      hide TestBit, Agree, Linked;
      NoSlots(myself);
      ok := CheckSlots(slots, del);
      if !ok { return; }
      ghost var o := owner[..];
      for j := 0 to SLOTS
        invariant Valid() && SameRoles(nodes, old(nodes))
        invariant forall i :: j <= i < SLOTS ==> owner[i] == o[i] && importing[i] == old(importing[i])
        invariant forall i :: 0 <= i < j ==>
                    && owner[i] == (if i !in slots then o[i] else if del then None else Some(myself))
                    && importing[i] == if i in slots then None else old(importing[i])
      {
        if j in slots {
          ghost var before := owner[..];
          importing[j] := None;
          assert owner[..] == before;
          if del { var _ := DelSlot(j); } else { var _ := AddSlot(myself, j); }
          assert owner[..] == before[j := if del then None else Some(myself)];
        }
      }
      NoSlots(myself);
      assert slots != [] ==> slots[0] in slots;
    }

    method Forget(n: Id) returns (ok: bool)
      requires Valid()
      modifies this`nodes, owner, importing, migrating
      ensures Valid() && (old(Settled()) ==> Settled())
      ensures ok == old(n in nodes && n != myself && !(!nodes[myself].isMaster && nodes[myself].slaveof == Some(n)))
      ensures nodes.Keys == old(nodes).Keys - if ok then {n} else {}
      ensures forall m :: m in nodes ==> SameRole(nodes[m], if ok then Orphaned(old(nodes)[m], n) else old(nodes)[m])
      ensures owner[..] == if ok then Moved(old(owner[..]), n, None, SLOTS) else old(owner[..])
      ensures importing[..] == if ok then Moved(old(importing[..]), n, None, SLOTS) else old(importing[..])
      ensures migrating[..] == if ok then Moved(old(migrating[..]), n, None, SLOTS) else old(migrating[..])
    {
      hide TestBit, NodeAgrees, Owned;
      ok := n in nodes && n != myself && !(!nodes[myself].isMaster && nodes[myself].slaveof == Some(n));
      if ok {
        NoSlots(myself);
        DelNode(n);
        NoSlots(myself);
      }
    }

    ghost predicate Nothing()
      requires owner.Length == importing.Length == migrating.Length == SLOTS
      reads owner, importing, migrating
    {
      forall j :: 0 <= j < SLOTS ==> owner[j].None? && importing[j].None? && migrating[j].None?
    }

    method UnassignAll()
      requires Valid()
      modifies this`nodes, owner, importing, migrating
      ensures Valid() && SameRoles(nodes, old(nodes)) && Nothing()
    {
      hide TestBit, NodeAgrees, Owned;
      CloseAllSlots();
      for j := 0 to SLOTS
        invariant Valid() && SameRoles(nodes, old(nodes))
        invariant forall i :: 0 <= i < SLOTS ==> importing[i].None? && migrating[i].None?
        invariant forall i :: 0 <= i < j ==> owner[i].None?
      {
        ghost var before := owner[..];
        var _ := DelSlot(j);
        assert forall i :: 0 <= i < SLOTS ==> owner[i] == owner[..][i] == before[j := None][i];
      }
    }

    method DelIdleNode(n: Id)
      requires Valid() && n in nodes && n != myself && Nothing()
      modifies this`nodes, owner, importing, migrating
      ensures Valid() && nodes.Keys == old(nodes).Keys - {n} && nodes[myself].isMaster == old(nodes)[myself].isMaster
      ensures Nothing() && nodes[myself].config == old(nodes)[myself].config
    {
      hide TestBit, NodeAgrees, Owned;
      ghost var o, i, m := owner[..], importing[..], migrating[..];
      DelNode(n);
      assert SameRole(nodes[myself], Orphaned(old(nodes)[myself], n));
      forall j | 0 <= j < SLOTS ensures owner[j].None? && importing[j].None? && migrating[j].None? {
        assert owner[..][j] == o[j] && importing[..][j] == i[j] && migrating[..][j] == m[j];
      }
    }

    method ForgetOthers()
      requires Valid() && Nothing() && nodes[myself].isMaster
      modifies this`nodes, owner, importing, migrating
      ensures Valid() && Nothing() && nodes.Keys == {myself} && nodes[myself].isMaster
      ensures nodes[myself].config == old(nodes)[myself].config
    {
      hide TestBit, Agree, Linked, Nothing;
      var rest := nodes.Keys - {myself};
      while rest != {}
        invariant Valid() && nodes[myself].isMaster && nodes[myself].config == old(nodes)[myself].config && Nothing()
        invariant myself !in rest && forall n :: n in nodes <==> n == myself || n in rest
        decreases |rest|
      {
        var n :| n in rest;
        DelIdleNode(n);
        rest := rest - {n};
      }
    }

    /** Every slot is released and every other node forgotten; a hard reset also clears the epochs and takes a new name. */
    method Reset(hard: bool, name: Id)
      requires Valid()
      modifies this, owner, importing, migrating
      ensures Valid() && Settled() && Nothing() && myself == if hard then name else old(myself)
      ensures nodes.Keys == {myself} && nodes[myself].isMaster && nodes[myself].numslots == 0
      ensures current == if hard then 0 else old(current)
      ensures nodes[myself].config == if hard then 0 else old(nodes[myself].config)
    {
      hide TestBit, Agree, Linked;
      SetNodeAsMaster(myself);
      UnassignAll();
      ForgetOthers();
      NoSlots(myself);
      if hard {
        current := 0;
        RenamedAgrees(owner[..], nodes, myself, name);
        nodes := map[name := nodes[myself].(config := 0)];
        myself := name;
      }
    }

    static lemma RenamedAgrees(o: seq<Option<Id>>, ns: map<Id, Node>, me: Id, name: Id)
      requires Agree(o, ns) && me in ns && ns[me].isMaster && (forall j :: 0 <= j < SLOTS ==> o[j].None?)
      requires ns.Keys == {me} && Linked(ns)
      ensures var renamed := map[name := ns[me].(config := 0)]; Agree(o, renamed) && Linked(renamed)
    {
      hide Owned;
      OwnedNone(o, me);
      OwnedNone(o, name);
    }
  }

  // Two claims at which the server stops

  /** The bitmap with one slot. */
  function OneSlot(slot: nat): (r: seq<bv8>)
    requires slot < SLOTS
    ensures |r| == BYTES
  {
    SetBit(seq(BYTES, _ => 0), slot)
  }

  lemma OneSlotBit(slot: nat, j: nat)
    requires slot < SLOTS && j < SLOTS
    ensures TestBit(OneSlot(slot), j) == (j == slot)
  {
    hide SetBit;
    var zeros: seq<bv8> := seq(BYTES, _ => 0);
    assert !TestBit(zeros, j);
    BitUpdates(zeros, slot, j);
  }

  /** Claiming one slot that is unassigned or held under a smaller epoch moves that slot only. */
  lemma OneSlotClaimed(owner: seq<Option<Id>>, importing: seq<Option<Id>>, nodes: map<Id, Node>, sender: Id, epoch: nat, slot: nat)
    requires Agree(owner, nodes) && |importing| == SLOTS && slot < SLOTS && importing[slot].None?
    requires owner[slot].None? || ConfigOf(owner[slot], nodes) < epoch
    ensures Claimed(owner, importing, nodes, sender, epoch, OneSlot(slot), SLOTS) == owner[slot := Some(sender)]
  {
    hide TestBit, OneSlot, NodeAgrees;
    forall j | 0 <= j < SLOTS ensures TestBit(OneSlot(slot), j) == (j == slot) { OneSlotBit(slot, j); }
  }

  /** A replica takes a slot of its own, which ADDSLOTS allows. */
  method MakeReplicaWithSlots() returns (c: Cluster)
    ensures fresh(c) && fresh(c.owner) && fresh(c.importing) && fresh(c.migrating) && c.Valid() && !c.Settled()
    ensures c.nodes.Keys == {0, 1, 2} && c.myself == 0 && !c.nodes[0].isMaster && c.nodes[0].slaveof == Some(1) && c.nodes[1].config == 0
    ensures c.owner[0] == Some(1) && c.owner[1] == Some(0) && c.importing[0].None?
    ensures forall j :: 2 <= j < SLOTS ==> c.owner[j].None?
  {
    hide TestBit, Agree, Linked, OneSlot, Claimed;
    c := new Cluster(0);
    c.AddNode(1);
    c.AddNode(2);
    var ok := c.AddSlot(1, 0);
    assert c.owner[..][1] == c.owner[1] && forall j :: 0 < j < SLOTS ==> c.owner[..][j] == c.owner[j] == None;
    c.NoSlots(0);
    c.SetMaster(1);
    ok := c.AddOrDelSlots([1], false);
  }

  /** When the master of such a replica loses its last slot, the server stops. */
  method ReplicaWithSlots(counts: array<int>) returns (c: Cluster, outcome: Outcome)
    requires counts.Length == SLOTS
    ensures outcome == Crashed && c.nodes.Keys == {0, 1, 2} && c.myself == 0
  {
    hide TestBit, NodeAgrees, OneSlot, Claimed;
    c := MakeReplicaWithSlots();
    ghost var o := c.owner[..];
    OneSlotClaimed(o, c.importing[..], c.nodes, 2, 1, 0);
    var dirty;
    outcome, dirty := c.ApplyClaim(2, 1, OneSlot(0), true, counts);
    assert c.owner[..][0] != o[0] && c.owner[..][1] == Some(0);
  }

  /** A replica without a master hears a claim to an unassigned slot. */
  method ReplicaWithoutMaster(counts: array<int>) returns (c: Cluster, outcome: Outcome)
    requires counts.Length == SLOTS
    ensures outcome == Crashed && c.nodes.Keys == {0, 2} && c.myself == 0
  {
    hide TestBit, NodeAgrees, Owned, OneSlot, Claimed;
    c := new Cluster(0);
    c.AddNode(1);
    c.AddNode(2);
    c.SetMaster(1);
    c.DelNode(1);
    ghost var o := c.owner[..];
    assert o[0] == c.owner[0] == None;
    OneSlotClaimed(o, c.importing[..], c.nodes, 2, 1, 0);
    var dirty;
    outcome, dirty := c.ApplyClaim(2, 1, OneSlot(0), true, counts);
    assert c.owner[..][0] != o[0];
  }
}
