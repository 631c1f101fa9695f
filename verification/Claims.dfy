/**
 How slot claims settle. A claim carries a master's configuration epoch and its slots; each is
 applied as the slot table applies it. In general a slot only ever moves to a strictly newer
 configuration; and when every master keeps to one claim and no two share an epoch, the table
 depends only on which claims arrived, not on their order or number.
 */
module Claims {
  import opened Common
  import opened SlotTable

  datatype Claim = Claim(node: Id, epoch: nat, slots: set<nat>)

  /** The owners of the slots, the slots being imported, and the epoch known of each node. */
  datatype Table = Table(owner: seq<Option<Id>>, importing: set<nat>, config: map<Id, nat>)

  predicate Known(t: Table) {
    forall j :: 0 <= j < |t.owner| && t.owner[j].Some? ==> t.owner[j].value in t.config
  }

  /** The epoch under which a slot is held. */
  function OwnerEpoch(t: Table, j: nat): nat
    requires Known(t) && j < |t.owner|
  {
    if t.owner[j].Some? then t.config[t.owner[j].value] else 0
  }

  /** The header rule for the claimant's epoch. */
  function Heard(t: Table, c: Claim): Table
    requires c.node in t.config
  {
    if c.epoch > t.config[c.node] then t.(config := t.config[c.node := c.epoch]) else t
  }

  function Applied(t: Table, c: Claim): (r: Table)
    requires Known(t) && c.node in t.config
    ensures Known(r) && |r.owner| == |t.owner| && r.config.Keys == t.config.Keys && r.importing == t.importing
  {
    var h := Heard(t, c);
    h.(owner := seq(|t.owner|, j requires 0 <= j < |t.owner| =>
         if j in c.slots && t.owner[j] != Some(c.node)
         then Rebound(t.owner[j], OwnerEpoch(h, j), j in t.importing, c.node, c.epoch)
         else t.owner[j]))
  }

  predicate Applicable(t: Table, cs: seq<Claim>) {
    forall c :: c in cs ==> c.node in t.config
  }

  function AppliedAll(t: Table, cs: seq<Claim>): (r: Table)
    requires Known(t) && Applicable(t, cs)
    ensures Known(r) && |r.owner| == |t.owner| && r.config.Keys == t.config.Keys && r.importing == t.importing
  {
    if cs == [] then t else Applied(AppliedAll(t, cs[..|cs| - 1]), cs[|cs| - 1])
  }

  // The slot table applies claims in this way

  function Epochs(nodes: map<Id, Node>): map<Id, nat> {
    map n | n in nodes :: nodes[n].config
  }

  function SlotsOf(bitmap: seq<bv8>): set<nat>
    requires |bitmap| == BYTES
  {
    set j | 0 <= j < SLOTS && TestBit(bitmap, j)
  }

  /** What the slot table computes for a header's claim is what this module says of it. */
  lemma TableAppliesClaims(owner: seq<Option<Id>>, importing: seq<Option<Id>>, nodes: map<Id, Node>,
                           sender: Id, epoch: nat, claims: seq<bv8>)
    requires Agree(owner, nodes) && |importing| == SLOTS && |claims| == BYTES && sender in nodes
    requires nodes[sender].config >= epoch
    ensures var t := Table(owner, (set j | 0 <= j < SLOTS && importing[j].Some?), Epochs(nodes));
            Known(t) &&
            Claimed(owner, importing, nodes, sender, epoch, claims, SLOTS) == Applied(t, Claim(sender, epoch, SlotsOf(claims))).owner
  {
    hide TestBit, NodeAgrees;
    assert forall j :: 0 <= j < SLOTS ==> (j in SlotsOf(claims)) == TestBit(claims, j);
  }

  // A slot only moves to a newer configuration

  lemma ClaimRebindsUpwards(t: Table, c: Claim, j: nat)
    requires Known(t) && c.node in t.config && j < |t.owner|
    ensures OwnerEpoch(Applied(t, c), j) >= OwnerEpoch(t, j)
    ensures Applied(t, c).owner[j] != t.owner[j] ==>
      && Applied(t, c).owner[j] == Some(c.node) && j in c.slots && j !in t.importing
      && (t.owner[j].Some? ==> OwnerEpoch(Applied(t, c), j) > OwnerEpoch(t, j))
  {}

  /** Through any sequence of claims, even stale and contradictory ones, a slot that has changed
      hands is held under a strictly greater epoch than before, and an imported slot never moves. */
  lemma {:induction false} ClaimsRebindUpwards(t: Table, cs: seq<Claim>, j: nat)
    requires Known(t) && Applicable(t, cs) && j < |t.owner|
    ensures OwnerEpoch(AppliedAll(t, cs), j) >= OwnerEpoch(t, j)
    ensures AppliedAll(t, cs).owner[j] != t.owner[j] && t.owner[j].Some? ==>
      OwnerEpoch(AppliedAll(t, cs), j) > OwnerEpoch(t, j)
    ensures j in t.importing || (forall c :: c in cs ==> j !in c.slots) ==> AppliedAll(t, cs).owner[j] == t.owner[j]
    ensures t.owner[j].Some? ==> AppliedAll(t, cs).owner[j].Some?
  {
    if cs != [] {
      var k := |cs| - 1;
      assert forall c :: c in cs[..k] ==> c in cs;
      ClaimsRebindUpwards(t, cs[..k], j);
      ClaimRebindsUpwards(AppliedAll(t, cs[..k]), cs[k], j);
    }
  }

  // Convergence

  /** Every node makes one claim, and no two nodes share an epoch. */
  predicate Consistent(cs: seq<Claim>) {
    forall c, d :: c in cs && d in cs && (c.node == d.node || c.epoch == d.epoch) ==> c == d
  }

  /** A table nobody owns a slot of, that knows no epoch newer than the claims to come. */
  predicate Unassigned(t: Table, cs: seq<Claim>) {
    && (forall j :: 0 <= j < |t.owner| ==> t.owner[j].None?) && t.importing == {}
    && Applicable(t, cs) && forall c :: c in cs ==> t.config[c.node] <= c.epoch
  }

  predicate IsGreatestClaimant(cs: seq<Claim>, j: nat, o: Option<Id>) {
    if o.None? then forall c :: c in cs ==> j !in c.slots
    else exists c :: c in cs && c.node == o.value && j in c.slots && forall d :: d in cs && j in d.slots ==> d.epoch <= c.epoch
  }

  lemma ExtendGreatest(cs: seq<Claim>, c: Claim, t: Table, j: nat)
    requires Known(t) && c.node in t.config && j < |t.owner| && t.importing == {}
    requires Consistent(cs + [c]) && IsGreatestClaimant(cs, j, t.owner[j])
    requires (forall d :: d in cs ==> d.node in t.config && t.config[d.node] == d.epoch) && t.config[c.node] <= c.epoch
    ensures IsGreatestClaimant(cs + [c], j, Applied(t, c).owner[j])
  {
    var ds := cs + [c];
    assert c in ds && forall d :: d in cs ==> d in ds;
    if t.owner[j].Some? {
      var b :| b in cs && b.node == t.owner[j].value && j in b.slots && forall d :: d in cs && j in d.slots ==> d.epoch <= b.epoch;
      assert b in ds;
      if j !in c.slots || c.epoch <= b.epoch {
        assert Applied(t, c).owner[j] == t.owner[j];
      } else {
        assert b.node != c.node;
        assert Applied(t, c).owner[j] == Some(c.node);
      }
    }
  }

  lemma AppliedConfig(t: Table, c: Claim, n: Id)
    requires Known(t) && c.node in t.config && n in t.config
    ensures Applied(t, c).config[n] == if c.node == n && c.epoch > t.config[n] then c.epoch else t.config[n]
  {}

  /** A node that keeps to one epoch is known by it once it has claimed, and never by a greater one. */
  lemma {:induction false} EpochLearnt(t: Table, cs: seq<Claim>, n: Id, epoch: nat, i: nat)
    requires Known(t) && Applicable(t, cs) && n in t.config && t.config[n] <= epoch
    requires forall m :: 0 <= m < |cs| && cs[m].node == n ==> cs[m].epoch == epoch
    ensures AppliedAll(t, cs).config[n] <= epoch
    ensures i < |cs| && cs[i].node == n ==> AppliedAll(t, cs).config[n] == epoch
  {
    hide Applied, Known;
    if cs != [] {
      var k := |cs| - 1;
      var before := cs[..k];
      forall m | 0 <= m < k && before[m].node == n ensures before[m].epoch == epoch { assert before[m] == cs[m]; }
      EpochLearnt(t, before, n, epoch, i);
      AppliedConfig(AppliedAll(t, before), cs[k], n);
      assert i < k ==> before[i] == cs[i];
    }
  }

  lemma Shorter(t: Table, cs: seq<Claim>, k: nat)
    requires Unassigned(t, cs) && Consistent(cs) && k <= |cs|
    ensures Unassigned(t, cs[..k]) && Consistent(cs[..k])
  {}

  /** Before its last claim, a table of consistent claims knows each claimant by the epoch of its claim. */
  lemma EpochsLearnt(t: Table, cs: seq<Claim>, k: nat, i: nat)
    requires Known(t) && Unassigned(t, cs) && Consistent(cs) && k < |cs| && i < |cs|
    ensures Applicable(t, cs[..k])
    ensures AppliedAll(t, cs[..k]).config[cs[i].node] <= cs[i].epoch
    ensures i < k ==> AppliedAll(t, cs[..k]).config[cs[i].node] == cs[i].epoch
  {
    Shorter(t, cs, k);
    assert cs[i] in cs;
    forall m | 0 <= m < k && cs[..k][m].node == cs[i].node ensures cs[..k][m].epoch == cs[i].epoch {
      assert cs[m] in cs;
    }
    hide AppliedAll, Consistent;
    EpochLearnt(t, cs[..k], cs[i].node, cs[i].epoch, i);
    assert i < k ==> cs[..k][i].node == cs[i].node;
  }

  lemma LastClaimKeepsGreatest(t: Table, cs: seq<Claim>, j: nat)
    requires Known(t) && Unassigned(t, cs) && Consistent(cs) && j < |t.owner| && cs != []
    requires t.importing == {} && Applicable(t, cs) && Applicable(t, cs[..|cs| - 1])
    requires IsGreatestClaimant(cs[..|cs| - 1], j, AppliedAll(t, cs[..|cs| - 1]).owner[j])
    ensures IsGreatestClaimant(cs, j, AppliedAll(t, cs).owner[j])
  {
    hide Applied, IsGreatestClaimant, Consistent, Unassigned, Heard;
    var k := |cs| - 1;
    EpochsLearnt(t, cs, k, k);
    forall c | c in cs[..k] ensures c.node in t.config && AppliedAll(t, cs[..k]).config[c.node] == c.epoch {
      var i :| 0 <= i < k && cs[..k][i] == c;
      EpochsLearnt(t, cs, k, i);
    }
    assert cs == cs[..k] + [cs[k]];
    ExtendGreatest(cs[..k], cs[k], AppliedAll(t, cs[..k]), j);
  }

  /** Each slot goes to the claimant with the greatest epoch; an unclaimed slot stays unassigned. */
  lemma {:induction false} ClaimsConverge(t: Table, cs: seq<Claim>, j: nat)
    requires Known(t) && Unassigned(t, cs) && Consistent(cs) && j < |t.owner|
    ensures IsGreatestClaimant(cs, j, AppliedAll(t, cs).owner[j])
  {
    if cs != [] {
      Shorter(t, cs, |cs| - 1);
      ClaimsConverge(t, cs[..|cs| - 1], j);
      LastClaimKeepsGreatest(t, cs, j);
    }
  }

  /** The same claims in any order and any number of times give the same owners. */
  lemma OrderDoesNotMatter(t: Table, cs: seq<Claim>, ds: seq<Claim>)
    requires Known(t) && Unassigned(t, cs) && Consistent(cs)
    requires forall c :: c in cs <==> c in ds
    ensures Applicable(t, ds) && AppliedAll(t, cs).owner == AppliedAll(t, ds).owner
  {
    hide AppliedAll;
    forall j | 0 <= j < |t.owner| ensures AppliedAll(t, cs).owner[j] == AppliedAll(t, ds).owner[j] {
      ClaimsConverge(t, cs, j);
      ClaimsConverge(t, ds, j);
    }
  }
}
