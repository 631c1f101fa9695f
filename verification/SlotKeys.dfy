/**
 The keys of database 0 by hash slot. In cluster mode every key of the main dictionary is also in
 a sorted index of byte strings, under its slot's two bytes followed by the key, and a counter
 per slot tells how many keys it has. The radix tree of the source is a strictly sorted sequence
 here, and the hash is any function of keys to slots.
 */
module SlotKeys {
  import opened Common

  type Byte = x: int | 0 <= x < 256
  type Key = seq<Byte>
  type Value = string

  // The order of byte strings

  predicate Less(a: Key, b: Key) {
    if a == [] then b != []
    else b != [] && (a[0] < b[0] || (a[0] == b[0] && Less(a[1..], b[1..])))
  }

  lemma {:induction false} LessTotal(a: Key, b: Key)
    ensures a == b || Less(a, b) || Less(b, a)
    ensures !(Less(a, b) && Less(b, a)) && !Less(a, a)
  {
    if a != [] && b != [] && a[0] == b[0] {
      LessTotal(a[1..], b[1..]);
      if a[1..] == b[1..] { assert a == [a[0]] + a[1..] && b == [b[0]] + b[1..]; }
    }
    if a != [] { LessTotal(a[1..], a[1..]); }
  }

  lemma {:induction false} LessTransitive(a: Key, b: Key, c: Key)
    requires Less(a, b) && Less(b, c)
    ensures Less(a, c)
  {
    if a != [] && a[0] == b[0] == c[0] { LessTransitive(a[1..], b[1..], c[1..]); }
  }

  predicate Sorted(s: seq<Key>) {
    forall i, j :: 0 <= i < j < |s| ==> Less(s[i], s[j])
  }

  // The tree's operations

  function Insert(s: seq<Key>, e: Key): seq<Key> {
    if s == [] then [e]
    else if s[0] == e then s
    else if Less(e, s[0]) then [e] + s
    else [s[0]] + Insert(s[1..], e)
  }

  function Remove(s: seq<Key>, e: Key): seq<Key> {
    if s == [] then [] else if s[0] == e then s[1..] else [s[0]] + Remove(s[1..], e)
  }

  /** The position of the first entry that is not less than e. */
  function Seek(s: seq<Key>, e: Key): (i: nat)
    ensures i <= |s| && (i < |s| ==> !Less(s[i], e)) && forall j :: 0 <= j < i ==> Less(s[j], e)
  {
    if s == [] || !Less(s[0], e) then 0 else 1 + Seek(s[1..], e)
  }

  lemma {:induction false} InsertFacts(s: seq<Key>, e: Key)
    requires Sorted(s)
    ensures Sorted(Insert(s, e)) && forall x :: x in Insert(s, e) <==> x == e || x in s
  {
    if s != [] {
      assert s == [s[0]] + s[1..];
      LessTotal(e, s[0]);
      if s[0] != e && Less(e, s[0]) {
        forall j | 0 <= j < |s| ensures Less(e, s[j]) {
          if j > 0 { LessTransitive(e, s[0], s[j]); }
        }
      } else if s[0] != e {
        InsertFacts(s[1..], e);
        var t := Insert(s[1..], e);
        forall x | x in t ensures Less(s[0], x) {
          if x != e { var j :| 0 <= j < |s[1..]| && s[1..][j] == x; assert s[j + 1] == x; }
        }
      }
    }
  }

  lemma {:induction false} RemoveFacts(s: seq<Key>, e: Key)
    requires Sorted(s)
    ensures Sorted(Remove(s, e)) && forall x :: x in Remove(s, e) <==> x in s && x != e
  {
    if s != [] {
      assert s == [s[0]] + s[1..];
      forall x | x in s[1..] ensures Less(s[0], x) && x != s[0] {
        var j :| 0 <= j < |s[1..]| && s[1..][j] == x;
        assert s[j + 1] == x;
        LessTotal(x, x);
      }
      if s[0] != e { RemoveFacts(s[1..], e); }
    }
  }

  // Entries

  function Indexed(slot: nat, key: Key): Key
    requires slot < SLOTS
  {
    [slot / 256, slot % 256] + key
  }

  lemma IndexedParts(slot: nat, key: Key)
    requires slot < SLOTS
    ensures Indexed(slot, key)[2..] == key
    ensures Indexed(slot, key)[0] == slot / 256 && Indexed(slot, key)[1] == slot % 256
  {}

  /** Entries are ordered by slot first; an entry is not before its slot's two bytes. */
  lemma OrderedBySlot(slot: nat, key: Key, other: nat, key': Key)
    requires slot < SLOTS && other < SLOTS
    ensures slot < other ==> Less(Indexed(slot, key), Indexed(other, key'))
    ensures Less(Indexed(slot, key), Indexed(other, [])) <==> slot < other
  {
    var a, b := Indexed(slot, key), Indexed(other, key');
    SlotBytes(slot, other);
    assert a[1..][0] == slot % 256 && b[1..][0] == other % 256 && a[1..][1..] == key;
    var c := Indexed(other, []);
    assert c[1..][0] == other % 256 && c[1..][1..] == [] && !Less(key, []);
    assert Less(a[1..], c[1..]) <==> slot % 256 < other % 256;
    assert Less(a, c) <==> a[0] < c[0] || (a[0] == c[0] && Less(a[1..], c[1..]));
  }

  lemma SlotBytes(slot: nat, other: nat)
    ensures slot < other <==> slot / 256 < other / 256 || (slot / 256 == other / 256 && slot % 256 < other % 256)
  {}

  // Agreement with the dictionary

  function KeysIn(dict: map<Key, Value>, hash: Key -> nat, slot: nat): set<Key> {
    set k | k in dict && hash(k) == slot
  }

  ghost predicate HashesToSlots(hash: Key -> nat) {
    forall k :: hash(k) < SLOTS
  }

  /** An entry is a key of the dictionary under its slot. */
  predicate IsEntry(dict: map<Key, Value>, hash: Key -> nat, e: Key) {
    |e| >= 2 && e[2..] in dict && hash(e[2..]) < SLOTS && e == Indexed(hash(e[2..]), e[2..])
  }

  ghost predicate IndexAgrees(dict: map<Key, Value>, hash: Key -> nat, index: seq<Key>)
    requires HashesToSlots(hash)
  {
    && Sorted(index)
    && (forall e :: e in index ==> IsEntry(dict, hash, e))
    && (forall k :: k in dict ==> Indexed(hash(k), k) in index)
  }

  ghost predicate CountsAgree(dict: map<Key, Value>, hash: Key -> nat, counts: seq<int>) {
    |counts| == SLOTS && forall s :: 0 <= s < SLOTS ==> counts[s] == |KeysIn(dict, hash, s)|
  }

  lemma AddKeepsIndex(dict: map<Key, Value>, hash: Key -> nat, index: seq<Key>, k: Key, v: Value)
    requires HashesToSlots(hash) && IndexAgrees(dict, hash, index)
    ensures IndexAgrees(dict[k := v], hash, Insert(index, Indexed(hash(k), k)))
  {
    hide Insert, Sorted;
    InsertFacts(index, Indexed(hash(k), k));
    IndexedParts(hash(k), k);
  }

  lemma DeleteKeepsIndex(dict: map<Key, Value>, hash: Key -> nat, index: seq<Key>, k: Key)
    requires HashesToSlots(hash) && IndexAgrees(dict, hash, index)
    ensures IndexAgrees(dict - {k}, hash, Remove(index, Indexed(hash(k), k)))
  {
    hide Remove, Sorted;
    RemoveFacts(index, Indexed(hash(k), k));
    forall m | m in dict && m != k ensures Indexed(hash(m), m) != Indexed(hash(k), k) {
      IndexedParts(hash(k), k);
      IndexedParts(hash(m), m);
    }
  }

  lemma AddCounts(dict: map<Key, Value>, hash: Key -> nat, k: Key, v: Value, s: nat)
    ensures |KeysIn(dict[k := v], hash, s)| == |KeysIn(dict, hash, s)| + if k !in dict && hash(k) == s then 1 else 0
  {
    assert KeysIn(dict[k := v], hash, s) == KeysIn(dict, hash, s) + if hash(k) == s then {k} else {};
  }

  lemma DeleteCounts(dict: map<Key, Value>, hash: Key -> nat, k: Key, s: nat)
    ensures |KeysIn(dict - {k}, hash, s)| == |KeysIn(dict, hash, s)| - if k in dict && hash(k) == s then 1 else 0
  {
    assert KeysIn(dict - {k}, hash, s) == KeysIn(dict, hash, s) - if hash(k) == s then {k} else {};
  }

  lemma {:induction false} DistinctCount(s: seq<Key>, t: set<Key>)
    requires (forall i, j :: 0 <= i < j < |s| ==> s[i] != s[j]) && t == set k | k in s
    ensures |t| == |s|
  {
    if s != [] {
      var n := |s| - 1;
      var u := set k | k in s[..n];
      DistinctCount(s[..n], u);
      assert s[n] !in u;
      forall k ensures k in t <==> k in u + {s[n]} { assert k in s <==> k in s[..n] || k == s[n]; }
      assert t == u + {s[n]};
    }
  }

  /** The slot of an entry of the index. */
  function SlotAt(hash: Key -> nat, e: Key): nat
    requires |e| >= 2
  {
    hash(e[2..])
  }

  /** Entries before the sought position belong to smaller slots; from there on, to the slot or greater ones. */
  lemma SeekSlot(dict: map<Key, Value>, hash: Key -> nat, index: seq<Key>, slot: nat, j: nat)
    requires HashesToSlots(hash) && IndexAgrees(dict, hash, index) && slot < SLOTS && j < |index|
    ensures |index[j]| >= 2 && index[j][2..] in dict
    ensures j < Seek(index, Indexed(slot, [])) <==> SlotAt(hash, index[j]) < slot
    ensures index[j][0] == SlotAt(hash, index[j]) / 256 && index[j][1] == SlotAt(hash, index[j]) % 256
  {
    var e := index[j];
    assert IsEntry(dict, hash, e);
    var i := Seek(index, Indexed(slot, []));
    OrderedBySlot(hash(e[2..]), e[2..], slot, []);
    if j > i {
      assert IsEntry(dict, hash, index[i]);
      OrderedBySlot(hash(index[i][2..]), index[i][2..], slot, []);
      OrderedBySlot(hash(e[2..]), e[2..], hash(index[i][2..]), index[i][2..]);
      LessTotal(e, index[i]);
    }
  }

  /** Entries are in the order of their slots, and their keys differ. */
  lemma LaterEntry(dict: map<Key, Value>, hash: Key -> nat, index: seq<Key>, i: nat, j: nat)
    requires HashesToSlots(hash) && IndexAgrees(dict, hash, index) && i < j < |index|
    ensures |index[i]| >= 2 && |index[j]| >= 2
    ensures SlotAt(hash, index[i]) <= SlotAt(hash, index[j]) && index[i][2..] != index[j][2..]
  {
    var e, f := index[i], index[j];
    assert IsEntry(dict, hash, e) && IsEntry(dict, hash, f);
    LessTotal(e, f);
    OrderedBySlot(hash(f[2..]), f[2..], hash(e[2..]), e[2..]);
    LessTotal(e, e);
  }

  lemma SameSlotBytes(a: nat, b: nat)
    ensures a == b <==> a / 256 == b / 256 && a % 256 == b % 256
  {}

  class Database {
    const hash: Key -> nat
    const counts: array<int>
    var dict: map<Key, Value>
    var expires: map<Key, int>
    var index: seq<Key>

    ghost predicate Valid()
      reads this, counts
    {
      && HashesToSlots(hash) && expires.Keys <= dict.Keys
      && IndexAgrees(dict, hash, index) && CountsAgree(dict, hash, counts[..])
    }

    constructor (hash: Key -> nat)
      requires HashesToSlots(hash)
      ensures Valid() && this.hash == hash && dict == map[] && fresh(counts)
    {
      this.hash := hash;
      counts := new int[SLOTS](_ => 0);
      dict, expires, index := map[], map[], [];
    }

    /** Records a key's slot when it is added, or forgets it when it is deleted. */
    method SlotToKeyUpdateKey(k: Key, add: bool)
      requires hash(k) < SLOTS && counts.Length == SLOTS
      modifies this`index, counts
      ensures index == if add then Insert(old(index), Indexed(hash(k), k)) else Remove(old(index), Indexed(hash(k), k))
      ensures counts[..] == old(counts[..])[hash(k) := old(counts[hash(k)]) + if add then 1 else -1]
    {
      var slot := hash(k);
      counts[slot] := counts[slot] + if add then 1 else -1;
      var entry := [slot / 256, slot % 256] + k;
      index := if add then Insert(index, entry) else Remove(index, entry);
    }

    /** Adds a key that is not there yet. */
    method Add(k: Key, v: Value)
      requires Valid() && k !in dict
      modifies this`dict, this`index, counts
      ensures Valid() && dict == old(dict)[k := v]
    {
      hide Sorted, Insert, IsEntry;
      AddKeepsIndex(dict, hash, index, k, v);
      forall s | 0 <= s < SLOTS
        ensures |KeysIn(dict[k := v], hash, s)| == |KeysIn(dict, hash, s)| + if hash(k) == s then 1 else 0
      {
        AddCounts(dict, hash, k, v, s);
      }
      dict := dict[k := v];
      SlotToKeyUpdateKey(k, true);
    }

    /** Replaces the value of a key that is there; its expiry stays. */
    method Overwrite(k: Key, v: Value)
      requires Valid() && k in dict
      modifies this`dict
      ensures Valid() && dict == old(dict)[k := v]
    {
      hide Sorted;
      assert forall s :: KeysIn(dict[k := v], hash, s) == KeysIn(dict, hash, s);
      dict := dict[k := v];
    }

    /** Deletes a key with its expiry; tells whether it was there. */
    method Delete(k: Key) returns (deleted: bool)
      requires Valid()
      modifies this`dict, this`expires, this`index, counts
      ensures Valid() && deleted == (k in old(dict)) && dict == old(dict) - {k} && expires == old(expires) - {k}
    {
      hide Sorted, Remove, IsEntry;
      expires := expires - {k};
      if k !in dict { return false; }
      DeleteKeepsIndex(dict, hash, index, k);
      forall s | 0 <= s < SLOTS
        ensures |KeysIn(dict - {k}, hash, s)| == |KeysIn(dict, hash, s)| - if hash(k) == s then 1 else 0
      {
        DeleteCounts(dict, hash, k, s);
      }
      dict := dict - {k};
      SlotToKeyUpdateKey(k, false);
      deleted := true;
    }

    /** Sets a key, new or not, without an expiry. */
    method SetKey(k: Key, v: Value)
      requires Valid()
      modifies this`dict, this`expires, this`index, counts
      ensures Valid() && dict == old(dict)[k := v] && expires == old(expires) - {k}
    {
      hide IndexAgrees, CountsAgree;
      if k !in dict { Add(k, v); } else { Overwrite(k, v); }
      expires := expires - {k};
    }

    method SetExpire(k: Key, when: int)
      requires Valid() && k in dict
      modifies this`expires
      ensures Valid() && expires == old(expires)[k := when]
    {
      hide IndexAgrees, CountsAgree;
      expires := expires[k := when];
    }

    /** Moves a key to another name, replacing what is there. */
    method Move(from: Key, to: Key)
      requires Valid() && from in dict && from != to
      modifies this`dict, this`expires, this`index, counts
      ensures Valid() && dict == (old(dict) - {from})[to := old(dict)[from]]
      ensures expires == if from in old(expires) then (old(expires) - {from})[to := old(expires)[from]] else old(expires) - {from, to}
    {
      hide IndexAgrees, CountsAgree;
      ghost var d, e := dict, expires;
      var v, has := dict[from], from in expires;
      var expire := if has then expires[from] else -1;
      MoveOrder(d, from, to, v);
      MoveOrder(e, from, to, expire);
      if to in dict { var _ := Delete(to); }
      assert dict == d - {to} && expires == e - {to};
      Add(to, v);
      if has { SetExpire(to, expire); }
      var _ := Delete(from);
    }

    static lemma MoveOrder<T>(m: map<Key, T>, from: Key, to: Key, v: T)
      requires from != to
      ensures (m - {to})[to := v] - {from} == (m - {from})[to := v]
      ensures m - {to} - {from} == m - {from, to}
      ensures to !in m ==> m - {to} == m
    {}

    /** Gives a key another name, with its value and expiry. */
    method Rename(from: Key, to: Key, nx: bool) returns (ok: bool)
      requires Valid()
      modifies this`dict, this`expires, this`index, counts
      ensures Valid()
      ensures ok == (from in old(dict) && (from == to ==> !nx) && (nx ==> to !in old(dict)))
      ensures !ok || from == to ==> dict == old(dict) && expires == old(expires)
      ensures ok && from != to ==>
                && dict == (old(dict) - {from})[to := old(dict)[from]]
                && expires == if from in old(expires) then (old(expires) - {from})[to := old(expires)[from]] else old(expires) - {from, to}
    {
      hide IndexAgrees, CountsAgree;
      if from !in dict { return false; }
      if from == to { return !nx; }
      if to in dict && nx { return false; }
      Move(from, to);
      ok := true;
    }

    /** Empties the database together with the index and the counters. */
    method Flush() returns (removed: nat)
      requires Valid()
      modifies this`dict, this`expires, this`index, counts
      ensures Valid() && dict == map[] && expires == map[] && removed == |old(dict)|
    {
      removed := |dict|;
      dict, expires, index := map[], map[], [];
      for s := 0 to SLOTS
        invariant dict == map[] && expires == map[] && index == []
        invariant forall t :: 0 <= t < s ==> counts[t] == 0
      {
        counts[s] := 0;
      }
    }

    method CountKeysInSlot(slot: nat) returns (n: nat)
      requires Valid() && slot < SLOTS
      ensures n == |KeysIn(dict, hash, slot)|
    {
      hide IndexAgrees;
      n := counts[slot];
    }

    /** Up to count keys of a slot, in the order of the index. */
    method GetKeysInSlot(slot: nat, count: nat) returns (keys: seq<Key>)
      requires Valid() && slot < SLOTS
      ensures forall i, j :: 0 <= i < j < |keys| ==> keys[i] != keys[j]
      ensures forall k :: k in keys ==> k in KeysIn(dict, hash, slot)
      ensures |keys| == if count < |KeysIn(dict, hash, slot)| then count else |KeysIn(dict, hash, slot)|
    {
      hide IndexAgrees, CountsAgree;
      var start := Seek(index, Indexed(slot, []));
      var i, left := start, count;
      keys := [];
      while left > 0 && i < |index|
        invariant start <= i <= |index| && left == count - |keys| && |keys| == i - start && left >= 0
        invariant forall p :: start <= p < i ==>
          |index[p]| >= 2 && keys[p - start] == index[p][2..] && index[p][2..] in KeysIn(dict, hash, slot)
        decreases left
      {
        SeekSlot(dict, hash, index, slot, i);
        SameSlotBytes(SlotAt(hash, index[i]), slot);
        if index[i][0] != slot / 256 || index[i][1] != slot % 256 { break; }
        keys := keys + [index[i][2..]];
        i, left := i + 1, left - 1;
      }
      forall a, b | 0 <= a < b < |keys| ensures keys[a] != keys[b] { LaterEntry(dict, hash, index, start + a, start + b); }
      forall k | k in keys ensures k in KeysIn(dict, hash, slot) {
        var j :| 0 <= j < |keys| && keys[j] == k;
        assert index[start + j][2..] == k;
      }
      DistinctCount(keys, set k | k in keys);
      if left > 0 { AllFound(slot, start, i, keys); }
      SubsetSize((set k | k in keys), KeysIn(dict, hash, slot));
    }

    /** When the entry after the last one taken is of another slot, all keys of the slot were taken. */
    lemma AllFound(slot: nat, start: nat, i: nat, keys: seq<Key>)
      requires Valid() && slot < SLOTS && start == Seek(index, Indexed(slot, [])) && start <= i <= |index| && |keys| == i - start
      requires forall p :: start <= p < i ==> |index[p]| >= 2 && keys[p - start] == index[p][2..]
      requires forall k :: k in keys ==> k in KeysIn(dict, hash, slot)
      requires i < |index| ==> |index[i]| >= 2 && SlotAt(hash, index[i]) != slot
      ensures (set k | k in keys) == KeysIn(dict, hash, slot)
    {
      forall k | k in KeysIn(dict, hash, slot) ensures k in keys {
        var e := Indexed(slot, k);
        var j :| 0 <= j < |index| && index[j] == e;
        IndexedParts(slot, k);
        SeekSlot(dict, hash, index, slot, j);
        if j >= i {
          SeekSlot(dict, hash, index, slot, i);
          if j > i { LaterEntry(dict, hash, index, i, j); }
        }
        assert keys[j - start] == k;
      }
    }

    /** A slot that has keys has one at the sought position. */
    lemma FirstOfSlot(slot: nat)
      requires Valid() && slot < SLOTS && counts[slot] != 0
      ensures var i := Seek(index, Indexed(slot, []));
              i < |index| && |index[i]| >= 2 && index[i][2..] in dict && hash(index[i][2..]) == slot
    {
      assert |KeysIn(dict, hash, slot)| != 0;
      var k :| k in KeysIn(dict, hash, slot);
      var j :| 0 <= j < |index| && index[j] == Indexed(slot, k);
      IndexedParts(slot, k);
      SeekSlot(dict, hash, index, slot, j);
      var i := Seek(index, Indexed(slot, []));
      SeekSlot(dict, hash, index, slot, i);
      if i < j { LaterEntry(dict, hash, index, i, j); }
    }

    /** Deletes the keys of a slot, the first in the index each time, until the slot's counter is zero. */
    method DelKeysInSlot(slot: nat) returns (deleted: nat)
      requires Valid() && slot < SLOTS
      modifies this`dict, this`expires, this`index, counts
      ensures Valid() && deleted == |KeysIn(old(dict), hash, slot)|
      ensures dict == old(dict) - KeysIn(old(dict), hash, slot)
      ensures expires == old(expires) - KeysIn(old(dict), hash, slot)
    {
      hide IndexAgrees;
      deleted := 0;
      ghost var gone: set<Key> := {};
      while counts[slot] != 0
        invariant Valid() && gone <= KeysIn(old(dict), hash, slot) && |gone| == deleted
        invariant dict == old(dict) - gone && expires == old(expires) - gone
        decreases counts[slot]
      {
        FirstOfSlot(slot);
        var k := index[Seek(index, Indexed(slot, []))][2..];
        ghost var before := dict;
        DeleteCounts(dict, hash, k, slot);
        var _ := Delete(k);
        gone := gone + {k};
        deleted := deleted + 1;
      }
      assert KeysIn(dict, hash, slot) == {};
      assert forall k :: k in KeysIn(old(dict), hash, slot) && k !in gone ==> k in KeysIn(dict, hash, slot);
      assert gone == KeysIn(old(dict), hash, slot);
    }
  }
}
