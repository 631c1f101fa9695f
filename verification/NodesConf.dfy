/**
 The part of nodes.conf that describes slots. A node's line lists the slots it serves as ranges,
 and this node's own line also marks the slots being moved. Lines are sequences of words here;
 numbers are printed and read as in the append-only file. Node names are strings of 40
 characters, all different, and a node is its position in the list of names.
 */
module NodesConf {
  import opened Common
  import opened SlotTable
  import Resp
  import SlotKeys

  const NAME_LENGTH := 40

  type Word = string

  predicate Names(names: seq<string>) {
    && (forall n :: 0 <= n < |names| ==> |names[n]| == NAME_LENGTH)
    && (forall n, m :: 0 <= n < m < |names| ==> names[n] != names[m])
  }

  // Printing

  function Number(n: nat): Word {
    Resp.Decimal(n)
  }

  function RangeWord(first: nat, last: nat): Word {
    if first == last then Number(first) else Number(first) + "-" + Number(last)
  }

  /** The end of the run of set bits that starts at j. */
  function RunEnd(bits: seq<bool>, j: nat): (k: nat)
    requires j <= |bits|
    ensures j <= k <= |bits| && (forall i :: j <= i < k ==> bits[i]) && (k < |bits| ==> !bits[k])
    ensures j < |bits| && bits[j] ==> j < k
    decreases |bits| - j
  {
    if j < |bits| && bits[j] then RunEnd(bits, j + 1) else j
  }

  /** One word for each run of set bits from j on. */
  function Ranges(bits: seq<bool>, j: nat): seq<Word>
    requires j <= |bits|
    decreases |bits| - j
  {
    if j == |bits| then []
    else if !bits[j] then Ranges(bits, j + 1)
    else [RangeWord(j, RunEnd(bits, j) - 1)] + Ranges(bits, RunEnd(bits, j))
  }

  lemma {:induction false} RunEndIs(bits: seq<bool>, j: nat, k: nat)
    requires j <= k <= |bits| && (forall i :: j <= i < k ==> bits[i]) && (k < |bits| ==> !bits[k])
    ensures RunEnd(bits, j) == k
    decreases k - j
  {}

  function BitsOf(bitmap: seq<bv8>): seq<bool>
    requires |bitmap| == BYTES
  {
    seq(SLOTS, j requires 0 <= j < SLOTS => TestBit(bitmap, j))
  }

  /** What is left to print at slot j, with a run that began at start if there is one. */
  function RangesLeft(bits: seq<bool>, start: int, j: nat): seq<Word>
    requires |bits| == SLOTS && start <= j <= SLOTS + 1 && (start >= 0 ==> start <= SLOTS)
  {
    if start >= 0 then Ranges(bits, start) else if j > SLOTS then [] else Ranges(bits, j)
  }

  /** A run that ends before slot j is one word; what is left is after it. */
  lemma RangeEnds(bits: seq<bool>, start: nat, j: nat)
    requires |bits| == SLOTS && start < j <= SLOTS && (forall i :: start <= i < j ==> bits[i]) && (j < SLOTS ==> !bits[j])
    ensures RangesLeft(bits, start, j) == [RangeWord(start, j - 1)] + RangesLeft(bits, -1, j + 1)
  {
    hide RangeWord, Ranges, RunEnd;
    RunEndIs(bits, start, j);
    RangesStep(bits, start);
    RangesStep(bits, j);
  }

  /** The slots of a node, in one pass that closes the last range when it reaches the last slot. */
  method GenSlots(bitmap: seq<bv8>) returns (words: seq<Word>)
    requires |bitmap| == BYTES
    ensures words == Ranges(BitsOf(bitmap), 0)
  {
    hide TestBit, RangeWord, Ranges, RunEnd, RangesLeft, BitsOf;
    ghost var bits := BitsOf(bitmap);
    BitsAre(bitmap);
    words := [];
    AllLeft(bits);
    var start, j := -1, 0;
    while j < SLOTS
      invariant 0 <= j <= SLOTS + 1 && -1 <= start <= j && (start != -1 ==> start < j < SLOTS)
      invariant start != -1 ==> forall i :: start <= i < j ==> bits[i]
      invariant words + RangesLeft(bits, start, j) == Ranges(bits, 0)
      decreases SLOTS - j
    {
      var bit := TestBit(bitmap, j);
      assert bit == bits[j];
      LeftStep(bits, start, j);
      if bit && start == -1 { start := j; }
      if start != -1 && (!bit || j == SLOTS - 1) {
        if bit && j == SLOTS - 1 { j := j + 1; }
        RangeEnds(bits, start, j);
        words := words + [RangeWord(start, j - 1)];
        start := -1;
      }
      j := j + 1;
    }
    NoneLeft(bits, j);
  }

  lemma BitsAre(bitmap: seq<bv8>)
    requires |bitmap| == BYTES
    ensures |BitsOf(bitmap)| == SLOTS && forall j :: 0 <= j < SLOTS ==> BitsOf(bitmap)[j] == TestBit(bitmap, j)
  {}

  lemma AllLeft(bits: seq<bool>)
    requires |bits| == SLOTS
    ensures RangesLeft(bits, -1, 0) == Ranges(bits, 0)
  {}

  lemma NoneLeft(bits: seq<bool>, j: nat)
    requires |bits| == SLOTS && SLOTS <= j <= SLOTS + 1
    ensures RangesLeft(bits, -1, j) == []
  {
    RangesStep(bits, SLOTS);
  }

  /** A clear bit outside a run, or a set bit, leaves the same to print. */
  lemma LeftStep(bits: seq<bool>, start: int, j: nat)
    requires |bits| == SLOTS && -1 <= start <= j < SLOTS
    ensures start == -1 && !bits[j] ==> RangesLeft(bits, -1, j + 1) == RangesLeft(bits, -1, j)
    ensures start == -1 ==> RangesLeft(bits, j, j) == RangesLeft(bits, -1, j) == RangesLeft(bits, j, j + 1)
    ensures start >= 0 ==> RangesLeft(bits, start, j) == RangesLeft(bits, start, j + 1)
  {
    RangesStep(bits, j);
  }

  lemma RangesStep(bits: seq<bool>, j: nat)
    requires j <= |bits|
    ensures Ranges(bits, j) == if j == |bits| then [] else if !bits[j] then Ranges(bits, j + 1)
            else [RangeWord(j, RunEnd(bits, j) - 1)] + Ranges(bits, RunEnd(bits, j))
  {}

  /** The mark of a slot: one that is migrating is not also marked as importing. */
  function MarkAt(migrating: Option<Id>, importing: Option<Id>, names: seq<string>, j: nat): seq<Word>
    requires (migrating.Some? ==> migrating.value < |names|) && (importing.Some? ==> importing.value < |names|)
  {
    if migrating.Some? then [Mark(j, '>', names[migrating.value])]
    else if importing.Some? then [Mark(j, '<', names[importing.value])]
    else []
  }

  /** The marks of the slots from j on. */
  function Marks(migrating: seq<Option<Id>>, importing: seq<Option<Id>>, names: seq<string>, j: nat): seq<Word>
    requires |migrating| == |importing| == SLOTS && j <= SLOTS && Known(migrating, names) && Known(importing, names)
    decreases SLOTS - j
  {
    if j == SLOTS then [] else MarkAt(migrating[j], importing[j], names, j) + Marks(migrating, importing, names, j + 1)
  }

  lemma MarksStep(migrating: seq<Option<Id>>, importing: seq<Option<Id>>, names: seq<string>, j: nat)
    requires |migrating| == |importing| == SLOTS && j <= SLOTS && Known(migrating, names) && Known(importing, names)
    ensures Marks(migrating, importing, names, j) ==
            if j == SLOTS then [] else MarkAt(migrating[j], importing[j], names, j) + Marks(migrating, importing, names, j + 1)
  {}

  predicate Known(slots: seq<Option<Id>>, names: seq<string>) {
    forall j :: 0 <= j < |slots| && slots[j].Some? ==> slots[j].value < |names|
  }

  function Mark(slot: nat, direction: char, name: string): Word {
    "[" + Number(slot) + "-" + [direction] + "-" + name + "]"
  }

  method GenMarks(migrating: array<Option<Id>>, importing: array<Option<Id>>, names: seq<string>) returns (words: seq<Word>)
    requires migrating.Length == importing.Length == SLOTS && Known(migrating[..], names) && Known(importing[..], names)
    ensures words == Marks(migrating[..], importing[..], names, 0)
  {
    hide MarkAt, Marks;
    ghost var mi, im := migrating[..], importing[..];
    words := [];
    for j := 0 to SLOTS
      invariant words + Marks(mi, im, names, j) == Marks(mi, im, names, 0)
    {
      MarksStep(mi, im, names, j);
      assert mi[j] == migrating[j] && im[j] == importing[j];
      words := words + MarkAt(migrating[j], importing[j], names, j);
    }
    MarksStep(mi, im, names, SLOTS);
  }

  // Loading

  /** What the lines loaded so far say: the owner of each slot, the marks, and the names of the nodes known. */
  datatype Loaded = Loaded(owner: seq<Option<Id>>, migrating: seq<Option<Id>>, importing: seq<Option<Id>>, names: seq<string>)

  predicate Shaped(t: Loaded) {
    |t.owner| == |t.migrating| == |t.importing| == SLOTS
  }

  function Dash(s: string): (i: nat)
    ensures i <= |s| && (i < |s| ==> s[i] == '-') && forall j :: 0 <= j < i ==> s[j] != '-'
  {
    if s == "" || s[0] == '-' then 0 else 1 + Dash(s[1..])
  }

  /** The node with a name; a name that is not known gives the next free position. */
  function Lookup(names: seq<string>, s: string): (n: nat)
    ensures n <= |names| && (n < |names| ==> names[n] == s)
  {
    if names == [] || names[0] == s then 0 else 1 + Lookup(names[1..], s)
  }

  /** Slots first to last go to n unless they are taken. */
  function Given(owner: seq<Option<Id>>, n: Id, first: int, last: int): (r: seq<Option<Id>>)
    ensures |r| == |owner|
  {
    seq(|owner|, j requires 0 <= j < |owner| => if first <= j <= last && owner[j].None? then Some(n) else owner[j])
  }

  /** One word of node n's line; None is a format error. A mark that names an unknown node makes it known. */
  function LoadWord(t: Loaded, n: Id, word: Word): (r: Option<Loaded>)
    requires Shaped(t)
    ensures r.Some? ==> Shaped(r.value)
  {
    var d := Dash(word);
    if word != "" && word[0] == '[' then
      if d + 3 + NAME_LENGTH > |word| then None
      else
        var slot, name := Resp.ReadNumber(word[1..d]), word[d + 3..d + 3 + NAME_LENGTH];
        if slot < 0 || slot >= SLOTS then None
        else
          var m := Lookup(t.names, name);
          var u := if m == |t.names| then t.(names := t.names + [name]) else t;
          if word[d + 1] == '>' then Some(u.(migrating := t.migrating[slot := Some(m)]))
          else Some(u.(importing := t.importing[slot := Some(m)]))
    else
      var first := Resp.ReadNumber(word[..d]);
      var last := if d < |word| then Resp.ReadNumber(word[d + 1..]) else first;
      if first < 0 || first >= SLOTS || last < 0 || last >= SLOTS then None
      else Some(t.(owner := Given(t.owner, n, first, last)))
  }

  function LoadWords(t: Loaded, n: Id, words: seq<Word>): (r: Option<Loaded>)
    requires Shaped(t)
    ensures r.Some? ==> Shaped(r.value)
    decreases |words|
  {
    if words == [] then Some(t)
    else
      var u := LoadWord(t, n, words[0]);
      if u.None? then None else LoadWords(u.value, n, words[1..])
  }

  // A word is read back

  lemma {:induction false} DashAfter(s: string, t: string)
    requires forall i :: 0 <= i < |s| ==> s[i] != '-'
    ensures Dash(s) == |s| && Dash(s + "-" + t) == |s|
  {
    if s != "" {
      assert (s + "-" + t)[1..] == s[1..] + "-" + t;
      DashAfter(s[1..], t);
    } else {
      assert (s + "-" + t)[0] == '-';
    }
  }

  lemma NumberReads(n: nat)
    ensures Resp.ReadNumber(Number(n)) == n
    ensures Number(n) != "" && Number(n)[0] != '[' && forall i :: 0 <= i < |Number(n)| ==> Number(n)[i] != '-'
  {
    Resp.NumberRoundTrip(n, "");
    assert Resp.Decimal(n) + "" == Resp.Decimal(n);
  }

  lemma RangeReads(t: Loaded, n: Id, first: nat, last: nat)
    requires Shaped(t) && first <= last < SLOTS
    ensures LoadWord(t, n, RangeWord(first, last)) == Some(t.(owner := Given(t.owner, n, first, last)))
  {
    hide Number, Resp.ReadNumber, Given;
    NumberReads(first);
    NumberReads(last);
    DashAfter(Number(first), Number(last));
    var a, b := Number(first), Number(last);
    var word := RangeWord(first, last);
    if first == last {
      assert a[..|a|] == a;
    } else {
      assert word[..|a|] == a && word[|a| + 1..] == b && word[0] == a[0];
    }
  }

  lemma {:induction false} LookupFinds(names: seq<string>, m: nat)
    requires m < |names| && forall i, j :: 0 <= i < j < |names| ==> names[i] != names[j]
    ensures Lookup(names, names[m]) == m
  {
    if m > 0 { LookupFinds(names[1..], m - 1); }
  }

  lemma MarkReads(t: Loaded, n: Id, slot: nat, direction: char, m: nat)
    requires Shaped(t) && slot < SLOTS && Names(t.names) && m < |t.names|
    ensures LoadWord(t, n, Mark(slot, direction, t.names[m])) ==
            Some(if direction == '>' then t.(migrating := t.migrating[slot := Some(m)])
                 else t.(importing := t.importing[slot := Some(m)]))
  {
    hide Number, Resp.ReadNumber, Lookup;
    NumberReads(slot);
    var a, name := "[" + Number(slot), t.names[m];
    var rest := [direction] + "-" + name + "]";
    var word := Mark(slot, direction, name);
    assert word == a + "-" + rest;
    DashAfter(a, rest);
    assert word[1..|a|] == Number(slot) && word[|a| + 1] == direction;
    assert word[|a| + 3..|a| + 3 + NAME_LENGTH] == name;
    LookupFinds(t.names, m);
  }

  // A line is read back

  lemma {:induction false} LoadWordsConcat(t: Loaded, n: Id, a: seq<Word>, b: seq<Word>)
    requires Shaped(t) && LoadWords(t, n, a).Some?
    ensures LoadWords(t, n, a + b) == LoadWords(LoadWords(t, n, a).value, n, b)
    decreases |a|
  {
    hide LoadWord;
    if a == [] {
      assert a + b == b;
    } else {
      assert (a + b)[1..] == a[1..] + b;
      LoadWordsConcat(LoadWord(t, n, a[0]).value, n, a[1..], b);
    }
  }

  /** The set bits from j on go to n where the slot is free. */
  function Filled(owner: seq<Option<Id>>, n: Id, bits: seq<bool>, j: nat): (r: seq<Option<Id>>)
    requires |owner| == |bits|
    ensures |r| == |owner|
  {
    seq(|owner|, i requires 0 <= i < |owner| => if i >= j && bits[i] && owner[i].None? then Some(n) else owner[i])
  }

  lemma {:induction false} RangesLoad(t: Loaded, n: Id, bits: seq<bool>, j: nat)
    requires Shaped(t) && |bits| == SLOTS && j <= SLOTS
    ensures LoadWords(t, n, Ranges(bits, j)) == Some(t.(owner := Filled(t.owner, n, bits, j)))
    decreases SLOTS - j
  {
    hide LoadWord, RangeWord, RunEnd;
    RangesStep(bits, j);
    if j == SLOTS {
      assert Filled(t.owner, n, bits, j) == t.owner;
    } else if !bits[j] {
      RangesLoad(t, n, bits, j + 1);
      assert Filled(t.owner, n, bits, j) == Filled(t.owner, n, bits, j + 1);
    } else {
      var k := RunEnd(bits, j);
      RangeReads(t, n, j, k - 1);
      var u := t.(owner := Given(t.owner, n, j, k - 1));
      RangesLoad(u, n, bits, k);
      assert Filled(u.owner, n, bits, k) == Filled(t.owner, n, bits, j);
      assert Ranges(bits, j)[1..] == Ranges(bits, k);
    }
  }

  /** The marks of the slots from j on replace those already there. */
  function Migrated(was: seq<Option<Id>>, migrating: seq<Option<Id>>, j: nat): (r: seq<Option<Id>>)
    requires |was| == |migrating|
    ensures |r| == |was|
  {
    seq(|was|, i requires 0 <= i < |was| => if i >= j && migrating[i].Some? then migrating[i] else was[i])
  }

  function Imported(was: seq<Option<Id>>, migrating: seq<Option<Id>>, importing: seq<Option<Id>>, j: nat): (r: seq<Option<Id>>)
    requires |was| == |migrating| == |importing|
    ensures |r| == |was|
  {
    seq(|was|, i requires 0 <= i < |was| =>
      if i >= j && migrating[i].None? && importing[i].Some? then importing[i] else was[i])
  }

  /** The marks of one slot applied. */
  function Marked(t: Loaded, migrating: Option<Id>, importing: Option<Id>, j: nat): (r: Loaded)
    requires Shaped(t) && j < SLOTS
    ensures Shaped(r)
  {
    if migrating.Some? then t.(migrating := t.migrating[j := migrating])
    else if importing.Some? then t.(importing := t.importing[j := importing])
    else t
  }

  lemma MarkAtLoads(t: Loaded, n: Id, migrating: Option<Id>, importing: Option<Id>, j: nat)
    requires Shaped(t) && Names(t.names) && j < SLOTS
    requires (migrating.Some? ==> migrating.value < |t.names|) && (importing.Some? ==> importing.value < |t.names|)
    ensures LoadWords(t, n, MarkAt(migrating, importing, t.names, j)) == Some(Marked(t, migrating, importing, j))
  {
    hide LoadWord, Mark;
    if migrating.Some? {
      MarkReads(t, n, j, '>', migrating.value);
    } else if importing.Some? {
      MarkReads(t, n, j, '<', importing.value);
    }
    assert |MarkAt(migrating, importing, t.names, j)| == 1 ==> MarkAt(migrating, importing, t.names, j)[1..] == [];
  }

  lemma MarkedThenRest(t: Loaded, migrating: seq<Option<Id>>, importing: seq<Option<Id>>, j: nat)
    requires Shaped(t) && |migrating| == |importing| == SLOTS && j < SLOTS
    ensures var u := Marked(t, migrating[j], importing[j], j);
            && u.owner == t.owner && u.names == t.names
            && Migrated(u.migrating, migrating, j + 1) == Migrated(t.migrating, migrating, j)
            && Imported(u.importing, migrating, importing, j + 1) == Imported(t.importing, migrating, importing, j)
  {}

  lemma {:induction false} MarksLoad(t: Loaded, n: Id, migrating: seq<Option<Id>>, importing: seq<Option<Id>>, j: nat)
    requires Shaped(t) && Names(t.names) && |migrating| == |importing| == SLOTS && j <= SLOTS
    requires Known(migrating, t.names) && Known(importing, t.names)
    ensures LoadWords(t, n, Marks(migrating, importing, t.names, j)) ==
            Some(t.(migrating := Migrated(t.migrating, migrating, j), importing := Imported(t.importing, migrating, importing, j)))
    decreases SLOTS - j
  {
    hide LoadWord, Marked, MarkAt;
    MarksStep(migrating, importing, t.names, j);
    if j == SLOTS {
      assert Migrated(t.migrating, migrating, j) == t.migrating;
      assert Imported(t.importing, migrating, importing, j) == t.importing;
    } else {
      hide Migrated, Imported, LoadWords, Marks;
      var u := Marked(t, migrating[j], importing[j], j);
      MarkAtLoads(t, n, migrating[j], importing[j], j);
      LoadWordsConcat(t, n, MarkAt(migrating[j], importing[j], t.names, j), Marks(migrating, importing, t.names, j + 1));
      MarkedThenRest(t, migrating, importing, j);
      MarksLoad(u, n, migrating, importing, j + 1);
    }
  }

  // The file is read back

  function BitsFor(owner: seq<Option<Id>>, n: Id): seq<bool> {
    seq(|owner|, j requires 0 <= j < |owner| => owner[j] == Some(n))
  }

  /** A bitmap that agrees with the table prints the slots the table gives to the node. */
  lemma BitmapIsOwner(owner: seq<Option<Id>>, nodes: map<Id, Node>, n: Id)
    requires Agree(owner, nodes) && n in nodes
    ensures |nodes[n].bitmap| == BYTES && BitsOf(nodes[n].bitmap) == BitsFor(owner, n)
  {}

  /** Every mark names a node that is known. */
  predicate KnownMarks(t: Loaded) {
    Known(t.migrating, t.names) && Known(t.importing, t.names)
  }

  /** The slot words of node n's line; only this node's line has the marks. */
  function LineOf(t: Loaded, me: Id, n: Id): seq<Word>
    requires Shaped(t) && KnownMarks(t)
  {
    Ranges(BitsFor(t.owner, n), 0) + if n == me then Marks(t.migrating, t.importing, t.names, 0) else []
  }

  /** The lines of the nodes in some order. */
  function Lines(t: Loaded, me: Id, order: seq<Id>): (r: seq<seq<Word>>)
    requires Shaped(t) && KnownMarks(t)
    ensures |r| == |order|
  {
    seq(|order|, i requires 0 <= i < |order| => LineOf(t, me, order[i]))
  }

  /** Loads a line for each of some nodes. */
  function LoadLines(order: seq<Id>, lines: seq<seq<Word>>, u: Loaded): (r: Option<Loaded>)
    requires |order| == |lines| && Shaped(u)
    ensures r.Some? ==> Shaped(r.value)
  {
    if order == [] then Some(u)
    else
      var k := |order| - 1;
      var v := LoadLines(order[..k], lines[..k], u);
      if v.None? then None else LoadWords(v.value, order[k], lines[k])
  }

  lemma LoadNextLine(order: seq<Id>, lines: seq<seq<Word>>, u: Loaded, k: nat)
    requires k < |order| == |lines| && Shaped(u)
    ensures var v := LoadLines(order[..k], lines[..k], u);
            LoadLines(order[..k + 1], lines[..k + 1], u) == if v.None? then None else LoadWords(v.value, order[k], lines[k])
  {
    assert order[..k + 1][..k] == order[..k] && lines[..k + 1][..k] == lines[..k];
  }

  lemma {:induction false} BadLine(order: seq<Id>, lines: seq<seq<Word>>, u: Loaded, k: nat)
    requires k <= |order| == |lines| && Shaped(u) && LoadLines(order[..k], lines[..k], u).None?
    ensures LoadLines(order, lines, u).None?
    decreases |order| - k
  {
    hide LoadLines, LoadWords;
    if k == |order| {
      assert order[..k] == order && lines[..k] == lines;
    } else {
      LoadNextLine(order, lines, u, k);
      BadLine(order, lines, u, k + 1);
    }
  }

  function Blank(names: seq<string>): (t: Loaded)
    ensures Shaped(t)
  {
    Loaded(seq(SLOTS, _ => None), seq(SLOTS, _ => None), seq(SLOTS, _ => None), names)
  }

  /** What is known when the lines of some nodes have been loaded: a slot that is migrating is not marked as importing. */
  function Partly(t: Loaded, me: Id, order: seq<Id>): (r: Loaded)
    requires Shaped(t)
    ensures Shaped(r)
  {
    Loaded(seq(SLOTS, j requires 0 <= j < SLOTS => if t.owner[j].Some? && t.owner[j].value in order then t.owner[j] else None),
           seq(SLOTS, j requires 0 <= j < SLOTS => if me in order then t.migrating[j] else None),
           seq(SLOTS, j requires 0 <= j < SLOTS => if me in order && t.migrating[j].None? then t.importing[j] else None),
           t.names)
  }

  lemma PartlyNext(t: Loaded, me: Id, order: seq<Id>, k: nat)
    requires Shaped(t) && k < |order|
    ensures var v, w := Partly(t, me, order[..k]), Partly(t, me, order[..k + 1]);
            && v.names == w.names == t.names
            && Filled(v.owner, order[k], BitsFor(t.owner, order[k]), 0) == w.owner
            && (if order[k] == me
                then Migrated(v.migrating, t.migrating, 0) == w.migrating && Imported(v.importing, t.migrating, t.importing, 0) == w.importing
                else v.migrating == w.migrating && v.importing == w.importing)
  {}

  lemma LineLoads(t: Loaded, me: Id, order: seq<Id>, k: nat)
    requires Shaped(t) && Names(t.names) && KnownMarks(t) && k < |order|
    ensures LoadWords(Partly(t, me, order[..k]), order[k], LineOf(t, me, order[k])) == Some(Partly(t, me, order[..k + 1]))
  {
    hide LoadWords, Ranges, Marks, Filled, BitsFor, Migrated, Imported, Partly;
    var n, v := order[k], Partly(t, me, order[..k]);
    var bits := BitsFor(t.owner, n);
    BitsLength(t.owner, n);
    PartlyNext(t, me, order, k);
    RangesLoad(v, n, bits, 0);
    var u := v.(owner := Filled(v.owner, n, bits, 0));
    if n == me {
      LoadWordsConcat(v, n, Ranges(bits, 0), Marks(t.migrating, t.importing, t.names, 0));
      MarksLoad(u, n, t.migrating, t.importing, 0);
    } else {
      assert Ranges(bits, 0) + [] == Ranges(bits, 0);
    }
  }

  lemma BitsLength(owner: seq<Option<Id>>, n: Id)
    ensures |BitsFor(owner, n)| == |owner|
  {}

  lemma {:induction false} LinesLoad(t: Loaded, me: Id, order: seq<Id>)
    requires Shaped(t) && Names(t.names) && KnownMarks(t)
    ensures LoadLines(order, Lines(t, me, order), Blank(t.names)) == Some(Partly(t, me, order))
  {
    hide LoadWords, LineOf;
    if order == [] {
      assert Partly(t, me, order) == Blank(t.names);
    } else {
      var k := |order| - 1;
      LinesLoad(t, me, order[..k]);
      LineLoads(t, me, order, k);
      assert order[..k + 1] == order && Lines(t, me, order)[..k] == Lines(t, me, order[..k]);
    }
  }

  /**
   Printing the table and loading it into an empty one restores every owner and every mark, in
   whatever order the nodes are printed, except the importing mark of a slot that is also
   migrating: so it restores everything if and only if there is no such slot.
   */
  lemma NodesConfRoundTrip(t: Loaded, me: Id, order: seq<Id>)
    requires Shaped(t) && Names(t.names) && KnownMarks(t)
    requires me in order && forall j :: 0 <= j < SLOTS && t.owner[j].Some? ==> t.owner[j].value in order
    ensures var r := LoadLines(order, Lines(t, me, order), Blank(t.names));
            && r.Some? && r.value.owner == t.owner && r.value.migrating == t.migrating && r.value.names == t.names
            && (forall j :: 0 <= j < SLOTS ==> r.value.importing[j] == if t.migrating[j].Some? then None else t.importing[j])
            && (r == Some(t) <==> forall j :: 0 <= j < SLOTS ==> t.migrating[j].None? || t.importing[j].None?)
  {
    hide LoadLines;
    LinesLoad(t, me, order);
    var p := Partly(t, me, order);
    assert p.owner == t.owner && p.migrating == t.migrating;
    if forall j :: 0 <= j < SLOTS ==> t.migrating[j].None? || t.importing[j].None? {
      assert p.importing == t.importing;
    }
  }

  // What loading refuses and keeps

  /** A word with a slot that does not exist. */
  ghost predicate Malformed(word: Word) {
    || (exists slot: nat :: slot >= SLOTS && word == Number(slot))
    || (exists first: nat, last: nat :: (first >= SLOTS || last >= SLOTS) && word == Number(first) + "-" + Number(last))
    || (exists slot: nat, direction: char, name: string :: slot >= SLOTS && word == Mark(slot, direction, name))
  }

  lemma MalformedRefused(t: Loaded, n: Id, word: Word)
    requires Shaped(t) && Malformed(word)
    ensures LoadWord(t, n, word).None?
  {
    hide Number, Resp.ReadNumber, Lookup;
    if slot: nat :| slot >= SLOTS && word == Number(slot) {
      NumberReads(slot);
      DashAfter(word, "");
      assert word[..|word|] == word;
    } else if first: nat, last: nat :| (first >= SLOTS || last >= SLOTS) && word == Number(first) + "-" + Number(last) {
      var a, b := Number(first), Number(last);
      NumberReads(first);
      NumberReads(last);
      DashAfter(a, b);
      assert word[..|a|] == a && word[|a| + 1..] == b && word[0] == a[0];
    } else {
      var slot: nat, direction: char, name: string :| slot >= SLOTS && word == Mark(slot, direction, name);
      NumberReads(slot);
      var a, rest := "[" + Number(slot), [direction] + "-" + name + "]";
      assert word == a + "-" + rest;
      DashAfter(a, rest);
      assert word[1..|a|] == Number(slot);
    }
  }

  /** A line with such a word is refused. */
  lemma {:induction false} BadLineRefused(t: Loaded, n: Id, words: seq<Word>, j: nat)
    requires Shaped(t) && j < |words| && Malformed(words[j])
    ensures LoadWords(t, n, words).None?
    decreases |words|
  {
    hide LoadWord, Malformed;
    if j == 0 {
      MalformedRefused(t, n, words[0]);
    } else if LoadWord(t, n, words[0]).Some? {
      BadLineRefused(LoadWord(t, n, words[0]).value, n, words[1..], j - 1);
    }
  }

  /** And so is a file with such a line. */
  lemma BadFileRefused(order: seq<Id>, lines: seq<seq<Word>>, u: Loaded, i: nat, j: nat)
    requires |order| == |lines| && Shaped(u) && i < |lines| && j < |lines[i]| && Malformed(lines[i][j])
    ensures LoadLines(order, lines, u).None?
  {
    hide LoadWords, Malformed, LoadLines;
    LoadNextLine(order, lines, u, i);
    var v := LoadLines(order[..i], lines[..i], u);
    if v.Some? { BadLineRefused(v.value, order[i], lines[i], j); }
    BadLine(order, lines, u, i + 1);
  }

  /** A slot that was given away keeps its owner; a line gives slots only to its own node. */
  lemma {:induction false} FirstLineWins(t: Loaded, n: Id, words: seq<Word>)
    requires Shaped(t) && LoadWords(t, n, words).Some?
    ensures var r := LoadWords(t, n, words).value;
            forall j :: 0 <= j < SLOTS ==> if t.owner[j].Some? then r.owner[j] == t.owner[j] else r.owner[j] == None || r.owner[j] == Some(n)
    decreases |words|
  {
    hide Resp.ReadNumber, Lookup;
    if words != [] { FirstLineWins(LoadWord(t, n, words[0]).value, n, words[1..]); }
  }

  // Loading into the slot table

  function TableOf(c: Cluster, names: seq<string>): Loaded
    reads c, c.owner, c.importing, c.migrating
  {
    Loaded(c.owner[..], c.migrating[..], c.importing[..], names)
  }

  /** Every node has a name. */
  ghost predicate Named(c: Cluster, names: seq<string>)
    reads c
  {
    forall n :: n in c.nodes ==> n < |names|
  }

  /** Adds a range of slots one by one; slots that are taken stay as they are. */
  method AddRange(c: Cluster, n: Id, first: nat, last: nat)
    requires c.Valid() && n in c.nodes && last < SLOTS
    modifies c`nodes, c.owner
    ensures c.Valid() && c.nodes.Keys == old(c.nodes).Keys
    ensures c.owner[..] == Given(old(c.owner[..]), n, first, last)
  {
    hide TestBit, NodeAgrees, Owned;
    ghost var o := c.owner[..];
    var start := first;
    while start <= last
      invariant first <= start && (if first <= last then start <= last + 1 else start == first)
      invariant c.Valid() && c.nodes.Keys == old(c.nodes).Keys
      invariant c.owner[..] == Given(o, n, first, start - 1)
      decreases last + 1 - start
    {
      assert c.owner[..][start] == c.owner[start] == o[start];
      var _ := c.AddSlot(n, start);
      start := start + 1;
      assert c.owner[..] == Given(o, n, first, start - 1);
    }
    assert c.owner[..] == Given(o, n, first, last);
  }

  /** Loads one word into the table, whose two copies stay in agreement; a node that is mentioned for the first time is added. */
  method LoadOne(c: Cluster, names: seq<string>, n: Id, word: Word) returns (ok: bool, names': seq<string>)
    requires c.Valid() && n in c.nodes && Named(c, names)
    modifies c`nodes, c.owner, c.importing, c.migrating
    ensures c.Valid() && Named(c, names') && old(c.nodes).Keys <= c.nodes.Keys && |names| <= |names'|
    ensures var r := LoadWord(old(TableOf(c, names)), n, word); ok == r.Some? && (ok ==> TableOf(c, names') == r.value)
  {
    hide TestBit, NodeAgrees, Owned, Resp.ReadNumber, Dash, Lookup;
    ok, names' := false, names;
    var d := Dash(word);
    if word != "" && word[0] == '[' {
      if d + 3 + NAME_LENGTH > |word| { return; }
      var slot, name := Resp.ReadNumber(word[1..d]), word[d + 3..d + 3 + NAME_LENGTH];
      if slot < 0 || slot >= SLOTS { return; }
      var m := Lookup(names, name);
      if m == |names| { names' := names + [name]; }
      if m !in c.nodes { c.AddNode(m); }
      ghost var o, mi, im := c.owner[..], c.migrating[..], c.importing[..];
      if word[d + 1] == '>' { c.migrating[slot] := Some(m); } else { c.importing[slot] := Some(m); }
      assert c.owner[..] == o;
      assert c.migrating[..] == if word[d + 1] == '>' then mi[slot := Some(m)] else mi;
      assert c.importing[..] == if word[d + 1] == '>' then im else im[slot := Some(m)];
      ok := true;
    } else {
      var first := Resp.ReadNumber(word[..d]);
      var last := if d < |word| then Resp.ReadNumber(word[d + 1..]) else first;
      if first < 0 || first >= SLOTS || last < 0 || last >= SLOTS { return; }
      AddRange(c, n, first, last);
      ok := true;
    }
  }

  /** Loads the slot words of a node's line. */
  method LoadLine(c: Cluster, names: seq<string>, n: Id, words: seq<Word>) returns (ok: bool, names': seq<string>)
    requires c.Valid() && n in c.nodes && Named(c, names)
    modifies c`nodes, c.owner, c.importing, c.migrating
    ensures c.Valid() && Named(c, names') && old(c.nodes).Keys <= c.nodes.Keys && |names| <= |names'|
    ensures var r := LoadWords(old(TableOf(c, names)), n, words); ok == r.Some? && (ok ==> TableOf(c, names') == r.value)
  {
    hide TestBit, Agree, Linked, LoadWord;
    ok, names' := true, names;
    for i := 0 to |words|
      invariant c.Valid() && Named(c, names') && old(c.nodes).Keys <= c.nodes.Keys && |names| <= |names'|
      invariant LoadWords(old(TableOf(c, names)), n, words) == LoadWords(TableOf(c, names'), n, words[i..])
    {
      assert words[i..][1..] == words[i + 1..];
      ok, names' := LoadOne(c, names', n, words[i]);
      if !ok { return; }
    }
    assert words[|words|..] == [];
  }

  // Saving and loading the whole table

  /** Prints the lines of the nodes from their bitmaps, and the marks on this node's line. */
  method SaveConfig(c: Cluster, names: seq<string>, order: seq<Id>) returns (lines: seq<seq<Word>>)
    requires c.Valid() && KnownMarks(TableOf(c, names)) && forall n :: n in order ==> n in c.nodes
    ensures lines == Lines(TableOf(c, names), c.myself, order)
  {
    hide Agree, Ranges, Marks, BitsOf, BitsFor;
    lines := [];
    for i := 0 to |order|
      invariant lines == Lines(TableOf(c, names), c.myself, order[..i])
    {
      var n := order[i];
      BitmapIsOwner(c.owner[..], c.nodes, n);
      var line := GenSlots(c.nodes[n].bitmap);
      if n == c.myself {
        var marks := GenMarks(c.migrating, c.importing, names);
        line := line + marks;
      } else {
        assert line + [] == line;
      }
      assert line == LineOf(TableOf(c, names), c.myself, n);
      lines := lines + [line];
      assert lines == Lines(TableOf(c, names), c.myself, order[..i + 1]);
    }
    assert order[..|order|] == order;
  }

  /** Loads lines into a new table; a node is added when its line comes, or a mark that names it. */
  method LoadConfig(names: seq<string>, me: Id, order: seq<Id>, lines: seq<seq<Word>>) returns (d: Cluster, ok: bool, names': seq<string>)
    requires |order| == |lines| && me < |names| && forall n :: n in order ==> n < |names|
    ensures fresh(d) && d.Valid() && d.myself == me
    ensures var r := LoadLines(order, lines, Blank(names)); ok == r.Some? && (ok ==> TableOf(d, names') == r.value)
    ensures ok ==> Named(d, names') && me in d.nodes && forall n :: n in order ==> n in d.nodes
  {
    hide Agree, Linked, LoadWords, LoadLines;
    d := new Cluster(me);
    ok, names' := true, names;
    assert TableOf(d, names) == Blank(names);
    LoadNoLines(names);
    for i := 0 to |order|
      invariant d.Valid() && fresh(d) && fresh(d.owner) && fresh(d.importing) && fresh(d.migrating) && d.myself == me
      invariant Named(d, names') && |names| <= |names'| && forall n :: n in order[..i] ==> n in d.nodes
      invariant LoadLines(order[..i], lines[..i], Blank(names)) == Some(TableOf(d, names'))
    {
      LoadNextLine(order, lines, Blank(names), i);
      ghost var t := TableOf(d, names');
      assert order[i] in order;
      if order[i] !in d.nodes { d.AddNode(order[i]); }
      assert TableOf(d, names') == t;
      ok, names' := LoadLine(d, names', order[i], lines[i]);
      if !ok {
        BadLine(order, lines, Blank(names), i + 1);
        return;
      }
    }
    assert order[..|order|] == order && lines[..|lines|] == lines;
  }

  lemma LoadNoLines(names: seq<string>)
    ensures LoadLines([], [], Blank(names)) == Some(Blank(names))
  {}

  lemma SameByte(x: bv8, y: bv8)
    requires forall i :: 0 <= i < 8 ==> BitOf(x, i) == BitOf(y, i)
    ensures x == y
  {
    assert BitOf(x, 0) == BitOf(y, 0) && BitOf(x, 1) == BitOf(y, 1) && BitOf(x, 2) == BitOf(y, 2) && BitOf(x, 3) == BitOf(y, 3);
    assert BitOf(x, 4) == BitOf(y, 4) && BitOf(x, 5) == BitOf(y, 5) && BitOf(x, 6) == BitOf(y, 6) && BitOf(x, 7) == BitOf(y, 7);
  }

  /** Nodes that agree with the same table have the same bitmap, byte by byte, and the same count. */
  lemma SameSlots(owner: seq<Option<Id>>, n: Id, a: Node, b: Node)
    requires NodeAgrees(owner, n, a) && NodeAgrees(owner, n, b)
    ensures a.bitmap == b.bitmap && a.numslots == b.numslots
  {
    forall k | 0 <= k < BYTES ensures a.bitmap[k] == b.bitmap[k] {
      forall i | 0 <= i < 8 ensures BitOf(a.bitmap[k], i) == BitOf(b.bitmap[k], i) {
        var j := 8 * k + i;
        assert j / 8 == k && j % 8 == i;
        assert TestBit(a.bitmap, j) == TestBit(b.bitmap, j);
      }
      SameByte(a.bitmap[k], b.bitmap[k]);
    }
  }

  /**
   Saving a table and loading it into a new one restores the owners, every node's bitmap and count, and
   the marks, except the importing marks of slots that are also migrating.
   */
  method SaveAndLoad(c: Cluster, names: seq<string>, order: seq<Id>) returns (d: Cluster)
    requires c.Valid() && Names(names) && KnownMarks(TableOf(c, names)) && forall n :: n in c.nodes <==> 0 <= n < |names|
    requires forall n :: n in order <==> n in c.nodes
    ensures fresh(d) && d.Valid() && d.myself == c.myself && d.nodes.Keys == c.nodes.Keys
    ensures d.owner[..] == c.owner[..] && d.migrating[..] == c.migrating[..]
    ensures forall n :: n in c.nodes ==> d.nodes[n].bitmap == c.nodes[n].bitmap && d.nodes[n].numslots == c.nodes[n].numslots
    ensures forall j :: 0 <= j < SLOTS ==> d.importing[j] == if c.migrating[j].Some? then None else c.importing[j]
    ensures d.importing[..] == c.importing[..] <==> forall j :: 0 <= j < SLOTS ==> c.migrating[j].None? || c.importing[j].None?
  {
    hide NodeAgrees, LoadLines, Lines;
    ghost var t := TableOf(c, names);
    var lines := SaveConfig(c, names, order);
    var ok, names';
    d, ok, names' := LoadConfig(names, c.myself, order, lines);
    NodesConfRoundTrip(t, c.myself, order);
    forall n | n in c.nodes ensures d.nodes[n].bitmap == c.nodes[n].bitmap && d.nodes[n].numslots == c.nodes[n].numslots {
      SameSlots(c.owner[..], n, c.nodes[n], d.nodes[n]);
    }
    assert forall j :: 0 <= j < SLOTS ==> d.importing[j] == d.importing[..][j];
  }

  /** Node 0 owns two slots and migrates the first to node 1. */
  method MigratesOne() returns (c: Cluster)
    ensures fresh(c) && fresh(c.owner) && fresh(c.importing) && fresh(c.migrating) && c.Valid()
    ensures c.myself == 0 && c.nodes.Keys == {0, 1} && c.nodes[0].isMaster && c.nodes[0].config == 0
    ensures c.owner[0] == c.owner[1] == Some(0) && c.migrating[0] == Some(1) && c.importing[0].None?
    ensures forall j :: 0 < j < SLOTS ==> c.migrating[j].None? && c.importing[j].None?
  {
    hide TestBit, Agree, Linked;
    c := new Cluster(0);
    c.AddNode(1);
    var ok := c.AddOrDelSlots([0, 1], false);
    assert c.migrating[..] == c.migrating[..][0 := None];
    ok := c.SetSlotMigrating(0, 1);
    assert forall j :: 0 < j < SLOTS ==> c.migrating[j] == c.migrating[..][j];
  }

  /** The slot is then lost to a claim of node 1, and imported back. */
  method BothMarks(db: SlotKeys.Database) returns (c: Cluster)
    requires db.Valid()
    modifies db, db.counts
    ensures fresh(c) && c.Valid() && c.nodes.Keys == {0, 1}
    ensures c.migrating[0] == Some(1) && c.importing[0] == Some(1)
    ensures forall j :: 0 < j < SLOTS ==> c.migrating[j].None? && c.importing[j].None?
  {
    hide NodeAgrees, Linked, OneSlot, Claimed, Remaining, SlotKeys.IndexAgrees, SlotKeys.CountsAgree;
    c := MigratesOne();
    ghost var o, imp, mig := c.owner[..], c.importing[..], c.migrating[..];
    OneSlotClaimed(o, imp, c.nodes, 1, 1, 0);
    var outcome := c.UpdateSlotsConfigWith(1, 1, OneSlot(0), true, db);
    assert c.owner[..][1] == Some(0) && c.owner[..][0] == Some(1);
    assert outcome == Kept;
    assert c.importing[..] == imp && c.migrating[..] == mig;
    var ok := c.SetSlotImporting(0, 1);
    assert c.importing[..] == imp[0 := Some(1)];
  }

  /** Saving and loading that table loses the importing mark. */
  method ImportingMarkIsLost(db: SlotKeys.Database, names: seq<string>) returns (c: Cluster, d: Cluster)
    requires db.Valid() && Names(names) && |names| == 2
    modifies db, db.counts
    ensures c.Valid() && d.Valid() && c.importing[0] == Some(1) && d.importing[0].None?
  {
    c := BothMarks(db);
    d := SaveAndLoad(c, names, [0, 1]);
  }
}
