/**
 Writing the append-only file: commands are appended to a buffer, and the buffer is written out
 before the event loop is entered again. Writes may be short, interrupted or fail, and what a
 failed write left in the file may or may not be removed again. Nothing fed is ever lost or
 written twice.
 */
module AofBuffer {
  datatype Policy = Always | EverySecond | No

  /** What one call of write returns. */
  datatype WriteResult = Wrote(n: nat) | Interrupted | Error

  /** The number of bytes written by repeated calls, and whether all of them were. */
  function Total(len: nat, results: seq<WriteResult>): (r: (nat, bool))
    ensures r.0 <= len && (r.1 <==> r.0 == len)
    decreases |results|
  {
    if len == 0 then (0, true)
    else if results == [] then (len, true)
    else match results[0]
      case Error => (0, false)
      case Interrupted => Total(len, results[1..])
      case Wrote(n) =>
        var m := if n > len then len else n;
        var (t, ok) := Total(len - m, results[1..]);
        (m + t, ok)
  }

  /** The bytes that calls without an error accept. */
  function Accepted(results: seq<WriteResult>): nat {
    if results == [] then 0
    else Accepted(results[1..]) + if results[0].Wrote? then results[0].n else 0
  }

  /** Short and interrupted calls do not matter; the first error ends the write unless everything was accepted before it. */
  lemma {:induction false} TotalUntilError(len: nat, before: seq<WriteResult>, after: seq<WriteResult>)
    requires Error !in before
    ensures Total(len, before) == (len, true)
    ensures Total(len, before + [Error] + after) == if Accepted(before) >= len then (len, true) else (Accepted(before), false)
    decreases |before|
  {
    if before == [] {
      assert before + [Error] + after == [Error] + after;
    } else {
      assert (before + [Error] + after)[1..] == before[1..] + [Error] + after;
      var m := if before[0].Wrote? then (if before[0].n > len then len else before[0].n) else 0;
      TotalUntilError(len - m, before[1..], after);
    }
  }

  /** The time, the policy, and what the system calls will do. */
  datatype Situation = Situation(
    now: int, policy: Policy, syncing: bool, noFsync: bool, results: seq<WriteResult>, truncates: bool)

  /** What is seen of the file between two operations. */
  datatype View = View(file: string, buf: string, ok: bool, size: nat, synced: nat)

  /** A write of the whole buffer was attempted, with the given results of the calls. */
  predicate Attempted(before: View, after: View, sit: Situation) {
    var (t, ok) := Total(|before.buf|, sit.results);
    var k := if ok then |before.buf| else if sit.truncates then 0 else t;
    after.file == before.file + before.buf[..k] && after.buf == before.buf[k..] && after.ok == ok
  }

  class Aof {
    var file: string
    var buf: string
    var currentSize: nat
    var fsyncOffset: nat
    var lastWriteOk: bool
    var postponed: int
    var lastFsync: int
    ghost var fed: string

    /** File and buffer together are everything fed, and the recorded sizes are right. */
    ghost predicate Valid()
      reads this
    {
      file + buf == fed && currentSize == |file| && fsyncOffset <= currentSize
    }

    function Seen(): View
      reads this
    {
      View(file, buf, lastWriteOk, currentSize, fsyncOffset)
    }

    constructor ()
      ensures Valid() && file == buf == fed == "" && lastWriteOk && postponed == 0 && lastFsync == 0
    {
      file, buf, currentSize, fsyncOffset := "", "", 0, 0;
      lastWriteOk, postponed, lastFsync, fed := true, 0, 0, "";
    }

    method Feed(bytes: string)
      requires Valid()
      modifies this`buf, this`fed
      ensures Valid() && fed == old(fed) + bytes && buf == old(buf) + bytes
    {
      buf := buf + bytes;
      fed := fed + bytes;
    }

    /** Writes data at the end of the file, retrying after short and interrupted writes. */
    method AofWrite(data: string, results: seq<WriteResult>) returns (n: int)
      modifies this`file
      ensures var (t, ok) := Total(|data|, results);
              n == (if !ok && t == 0 then -1 else t) && file == old(file) + data[..t]
    {
      var len, total, i := |data|, 0, 0;
      while len > 0
        invariant 0 <= total && len == |data| - total && len >= 0 && 0 <= i <= |results|
        invariant file == old(file) + data[..total]
        invariant var (t, ok) := Total(|data|, results);
                  var (u, ok') := Total(len, results[i..]);
                  t == total + u && ok == ok'
        decreases |results| - i, len
      {
        if i == |results| {
          file := file + data[total..];
          total, len := |data|, 0;
          assert data[..total] == data;
        } else {
          var result := results[i];
          assert results[i..][1..] == results[i + 1..];
          i := i + 1;
          match result {
            case Error => return if total > 0 then total else -1;
            case Interrupted =>
            case Wrote(k) =>
              var m := if k > len then len else k;
              file := file + data[total..total + m];
              assert data[..total] + data[total..total + m] == data[..total + m];
              total, len := total + m, len - m;
          }
        }
      }
      n := total;
    }

    /** With a background fsync going on, the write may wait up to two seconds. */
    ghost predicate Waits(sit: Situation, force: bool)
      reads this
    {
      sit.policy.EverySecond? && !force && sit.syncing && (postponed == 0 || sit.now - postponed < 2)
    }

    method TryFsync(sit: Situation)
      requires Valid()
      modifies this`fsyncOffset, this`lastFsync
      ensures Valid()
      ensures fsyncOffset ==
              if !sit.noFsync && (sit.policy.Always? || (sit.policy.EverySecond? && sit.now > old(lastFsync) && !sit.syncing))
              then currentSize else old(fsyncOffset)
      ensures lastFsync ==
              if !sit.noFsync && (sit.policy.Always? || (sit.policy.EverySecond? && sit.now > old(lastFsync)))
              then sit.now else old(lastFsync)
    {
      if sit.noFsync { return; }
      if sit.policy.Always? {
        fsyncOffset := currentSize;
        lastFsync := sit.now;
      } else if sit.policy.EverySecond? && sit.now > lastFsync {
        if !sit.syncing { fsyncOffset := currentSize; }
        lastFsync := sit.now;
      }
    }

    /** What a write of the whole buffer does to the file and the buffer. */
    twostate predicate WrittenOut(sit: Situation, exited: bool)
      reads this
    {
      var (t, ok) := Total(|old(buf)|, sit.results);
      && exited == (!ok && sit.policy.Always?)
      && (ok ==> file == old(file) + old(buf) && buf == "" && lastWriteOk)
      && (!ok && !exited ==>
           var k := if sit.truncates then 0 else t;
           file == old(file) + old(buf)[..k] && buf == old(buf)[k..] && !lastWriteOk)
    }

    /** The write itself; after an error under the ALWAYS policy the server ends. */
    method WriteOut(sit: Situation) returns (exited: bool)
      requires Valid() && buf != ""
      modifies this`file, this`buf, this`currentSize, this`lastWriteOk
      ensures !exited ==> Valid()
      ensures WrittenOut(sit, exited) && (!exited ==> Attempted(old(Seen()), Seen(), sit))
    {
      hide Total;
      exited := false;
      var n := AofWrite(buf, sit.results);
      if n == |buf| {
        lastWriteOk := true;
        currentSize := currentSize + n;
        buf := "";
        return;
      }
      if n != -1 && sit.truncates {
        file := file[..currentSize];
        n := -1;
      }
      assert n == -1 ==> file == old(file);
      if sit.policy.Always? { return true; }
      lastWriteOk := false;
      if n > 0 {
        currentSize := currentSize + n;
        buf := buf[n..];
      }
      assert old(buf)[0..] == old(buf) && old(buf)[..0] == "";
    }

    /**
     Writes the buffer out. A failed or short write leaves what was not written in the buffer; what
     was written stays in the file only if it could not be removed again. Under the ALWAYS policy
     such a failure ends the server. A write that is postponed leaves the time of the first
     postponement, and a write that is attempted clears it.
     */
    method Flush(sit: Situation, force: bool) returns (exited: bool)
      requires Valid()
      modifies this`file, this`buf, this`currentSize, this`fsyncOffset, this`lastWriteOk, this`postponed, this`lastFsync
      ensures !exited ==> Valid()
      ensures old(buf) == "" || old(Waits(sit, force)) ==>
                !exited && file == old(file) && buf == old(buf) && lastWriteOk == old(lastWriteOk)
      ensures old(buf) != "" && !old(Waits(sit, force)) ==> WrittenOut(sit, exited) && (!exited ==> Attempted(old(Seen()), Seen(), sit))
      ensures postponed == if old(buf) == "" then old(postponed)
                           else if old(Waits(sit, force)) then (if old(postponed) == 0 then sit.now else old(postponed))
                           else 0
      ensures var tries := if old(buf) == "" then sit.policy.EverySecond? && old(fsyncOffset) != old(currentSize) && !sit.syncing
                           else !old(Waits(sit, force)) && !exited && lastWriteOk;
              var due := tries && !sit.noFsync && (sit.policy.Always? || (sit.policy.EverySecond? && sit.now > old(lastFsync)));
              && lastFsync == (if due then sit.now else old(lastFsync))
              && fsyncOffset == (if due && (sit.policy.Always? || !sit.syncing) then currentSize else old(fsyncOffset))
    {
      hide Total, Attempted;
      exited := false;
      if buf == "" {
        if sit.policy.EverySecond? && fsyncOffset != currentSize && sit.now > lastFsync && !sit.syncing {
          TryFsync(sit);
        }
        return;
      }
      if sit.policy.EverySecond? && !force && sit.syncing {
        if postponed == 0 {
          postponed := sit.now;
          return;
        }
        if sit.now - postponed < 2 { return; }
      }
      ghost var before := Seen();
      exited := WriteOut(sit);
      ghost var after := Seen();
      postponed := 0;
      if !exited && lastWriteOk { TryFsync(sit); }
      if !exited { SameAttempt(before, after, Seen(), sit); }
    }

    static lemma SameAttempt(before: View, after: View, synced: View, sit: Situation)
      requires Attempted(before, after, sit) && synced.file == after.file && synced.buf == after.buf && synced.ok == after.ok
      ensures Attempted(before, synced, sit)
    {}
  }

  // Any sequence of feeds and flushes

  datatype Operation = Feeding(bytes: string) | Flushing(sit: Situation, force: bool)

  function AllFed(ops: seq<Operation>): string {
    if ops == [] then ""
    else AllFed(ops[..|ops| - 1]) + BytesOf(ops[|ops| - 1])
  }

  /** The clock is set and never goes back. */
  ghost predicate ClockRuns(ops: seq<Operation>) {
    && (forall i :: 0 <= i < |ops| && ops[i].Flushing? ==> 0 < ops[i].sit.now)
    && (forall i, j :: 0 <= i < j < |ops| && ops[i].Flushing? && ops[j].Flushing? ==> ops[i].sit.now <= ops[j].sit.now)
  }

  /** No flush from i on, before j, attempted a write. */
  ghost predicate Untouched(views: seq<View>, ops: seq<Operation>, i: nat, j: nat)
    requires j <= |ops| && j < |views|
  {
    forall k :: i <= k < j && ops[k].Flushing? ==> !Attempted(views[k], views[k + 1], ops[k].sit)
  }

  /** A flush that found something to write, when no write was attempted since, is what a later one waits for. */
  ghost predicate Remembered(views: seq<View>, ops: seq<Operation>, j: nat, postponed: int)
    requires j <= |ops| && j < |views|
  {
    forall i :: 0 <= i < j && ops[i].Flushing? && views[i].buf != "" && Untouched(views, ops, i, j) ==>
      views[j].buf != "" && 0 < postponed <= ops[i].sit.now
  }

  /** Two flushes two seconds apart: unless there was nothing to write at the first, a write is attempted at one of them or between. */
  ghost predicate Timely(views: seq<View>, ops: seq<Operation>, i: nat, j: nat)
    requires j < |ops| && j + 1 < |views|
  {
    i <= j && ops[i].Flushing? && ops[j].Flushing? && views[i].buf != "" && ops[j].sit.now - ops[i].sit.now >= 2 ==>
      exists k :: i <= k <= j && ops[k].Flushing? && Attempted(views[k], views[k + 1], ops[k].sit)
  }

  /** A flush in a later second than all before it, that can synchronise and leaves no error, synchronises all that is written. */
  ghost predicate Synchronises(views: seq<View>, ops: seq<Operation>, j: nat)
    requires j < |ops| && j + 1 < |views|
  {
    && ops[j].Flushing? && ops[j].sit.policy.EverySecond? && !ops[j].sit.syncing && !ops[j].sit.noFsync && views[j + 1].ok
    && (forall i :: 0 <= i < j && ops[i].Flushing? ==> ops[i].sit.now < ops[j].sit.now) ==>
      views[j + 1].synced == views[j + 1].size
  }

  /** A step that attempts no write keeps what is remembered. */
  lemma RememberedNext(views: seq<View>, ops: seq<Operation>, j: nat, before: int, after: int)
    requires j < |ops| && |views| == j + 2 && Remembered(views[..j + 1], ops, j, before)
    requires ops[j].Flushing? && views[j].buf != "" ==>
               Attempted(views[j], views[j + 1], ops[j].sit)
               || (views[j + 1].buf != "" && 0 < after <= ops[j].sit.now && (before != 0 ==> after == before))
    requires !(ops[j].Flushing? && views[j].buf != "") ==> after == before && (views[j].buf != "" ==> views[j + 1].buf != "")
    ensures Remembered(views, ops, j + 1, after)
  {
    hide Attempted;
    forall i | 0 <= i < j + 1 && ops[i].Flushing? && views[i].buf != "" && Untouched(views, ops, i, j + 1)
      ensures views[j + 1].buf != "" && 0 < after <= ops[i].sit.now
    {
      if i < j {
        assert Untouched(views[..j + 1], ops, i, j);
        assert views[..j + 1][i].buf == views[i].buf;
        assert views[..j + 1][j].buf != "";
      }
    }
  }

  lemma TimelyNext(views: seq<View>, ops: seq<Operation>, i: nat, j: nat, before: int)
    requires j < |ops| && |views| == j + 2 && Remembered(views[..j + 1], ops, j, before)
    requires ops[j].Flushing? && views[j].buf != "" && !Attempted(views[j], views[j + 1], ops[j].sit) ==>
               before == 0 || ops[j].sit.now - before < 2
    ensures Timely(views, ops, i, j)
  {
    hide Attempted;
    assert i <= j ==> views[..j + 1][i] == views[i] && (Untouched(views, ops, i, j + 1) ==> Untouched(views[..j + 1], ops, i, j));
  }

  lemma EarlierKept(views: seq<View>, more: seq<View>, ops: seq<Operation>, i: nat, j: nat)
    requires j < |ops| && j + 1 < |views| && views <= more
    ensures Timely(views, ops, i, j) ==> Timely(more, ops, i, j)
    ensures Synchronises(views, ops, j) ==> Synchronises(more, ops, j)
  {
    hide Attempted;
    assert more[j + 1] == views[j + 1] && (i <= j ==> more[i] == views[i]);
    if Timely(views, ops, i, j) && i <= j && ops[i].Flushing? && ops[j].Flushing? && views[i].buf != "" && ops[j].sit.now - ops[i].sit.now >= 2 {
      var k :| i <= k <= j && ops[k].Flushing? && Attempted(views[k], views[k + 1], ops[k].sit);
      assert more[k] == views[k] && more[k + 1] == views[k + 1];
    }
  }

  /** What is known of the first j operations when the clock runs. */
  ghost predicate Punctual(views: seq<View>, ops: seq<Operation>, j: nat, postponed: int, lastFsync: int)
    requires j <= |ops| && |views| == j + 1
  {
    && Remembered(views, ops, j, postponed)
    && 0 <= postponed && (forall k :: j <= k < |ops| && ops[k].Flushing? ==> postponed <= ops[k].sit.now)
    && (lastFsync == 0 || exists k :: 0 <= k < j && ops[k].Flushing? && ops[k].sit.now == lastFsync)
    && (forall i, k :: 0 <= i < |ops| && 0 <= k < j ==> Timely(views, ops, i, k))
    && (forall k :: 0 <= k < j ==> Synchronises(views, ops, k))
  }

  /** What one operation does to the times that are kept. */
  ghost predicate Keeps(before: View, after: View, op: Operation, postponed: int, lastFsync: int, postponed': int, lastFsync': int) {
    if op.Feeding? || before.buf == "" then
      && postponed' == postponed && (before.buf != "" ==> after.buf != "")
      && (op.Feeding? ==> lastFsync' == lastFsync)
      && (op.Flushing? ==> (lastFsync' == lastFsync || lastFsync' == op.sit.now) && SyncedNow(after, op.sit, lastFsync))
    else
      && (lastFsync' == lastFsync || lastFsync' == op.sit.now) && SyncedNow(after, op.sit, lastFsync)
      && (if Attempted(before, after, op.sit) then postponed' == 0 || postponed' == postponed || (postponed == 0 && postponed' == op.sit.now)
          else && after.buf != "" && (postponed == 0 || op.sit.now - postponed < 2)
               && postponed' == if postponed == 0 then op.sit.now else postponed)
  }

  ghost predicate SyncedNow(after: View, sit: Situation, lastFsync: int) {
    sit.policy.EverySecond? && !sit.noFsync && !sit.syncing && sit.now > lastFsync && after.ok ==> after.synced == after.size
  }

  lemma PunctualNext(views: seq<View>, next: View, ops: seq<Operation>, j: nat, postponed: int, lastFsync: int, postponed': int, lastFsync': int)
    requires ClockRuns(ops) && j < |ops| && |views| == j + 1 && Punctual(views, ops, j, postponed, lastFsync)
    requires Keeps(views[j], next, ops[j], postponed, lastFsync, postponed', lastFsync')
    ensures Punctual(views + [next], ops, j + 1, postponed', lastFsync')
  {
    hide Attempted, Remembered, Timely, Synchronises;
    var more := views + [next];
    assert more[..j + 1] == views && more[j] == views[j];
    RememberedNext(more, ops, j, postponed, postponed');
    forall i, k | 0 <= i < |ops| && 0 <= k <= j ensures Timely(more, ops, i, k) {
      if k < j { EarlierKept(views, more, ops, i, k); } else { TimelyNext(more, ops, i, j, postponed); }
    }
    forall k | 0 <= k <= j ensures Synchronises(more, ops, k) {
      if k < j { EarlierKept(views, more, ops, 0, k); } else { SynchronisesNext(more, ops, j, lastFsync); }
    }
  }

  lemma SynchronisesNext(views: seq<View>, ops: seq<Operation>, j: nat, lastFsync: int)
    requires ClockRuns(ops) && j < |ops| && |views| == j + 2
    requires lastFsync == 0 || exists k :: 0 <= k < j && ops[k].Flushing? && ops[k].sit.now == lastFsync
    requires ops[j].Flushing? ==> SyncedNow(views[j + 1], ops[j].sit, lastFsync)
    ensures Synchronises(views, ops, j)
  {}

  function BytesOf(op: Operation): string {
    if op.Feeding? then op.bytes else ""
  }

  method Perform(aof: Aof, op: Operation) returns (exited: bool)
    requires aof.Valid()
    modifies aof
    ensures exited ==> op.Flushing? && op.sit.policy.Always?
    ensures !exited ==> aof.Valid() && aof.fed == old(aof.fed) + BytesOf(op)
    ensures !exited ==> Keeps(old(aof.Seen()), aof.Seen(), op, old(aof.postponed), old(aof.lastFsync), aof.postponed, aof.lastFsync)
  {
    hide Attempted, Total;
    exited := false;
    match op
    case Feeding(bytes) => aof.Feed(bytes);
    case Flushing(sit, force) => exited := aof.Flush(sit, force);
  }

  lemma PunctualAtFirst(ops: seq<Operation>, first: View)
    requires ClockRuns(ops)
    ensures Punctual([first], ops, 0, 0, 0)
  {}

  /**
   Whatever is fed and however the flushes go, file and buffer together are what was fed, in order
   and once; the server ends only under the ALWAYS policy. While the clock runs, a write is never
   put off for more than two seconds, and what is written is synchronised every second.
   */
  method Session(ops: seq<Operation>) returns (file: string, buf: string, size: nat, synced: nat, exited: bool, ghost views: seq<View>)
    ensures !exited ==> file + buf == AllFed(ops) && size == |file| && synced <= size
    ensures exited ==> exists op :: op in ops && op.Flushing? && op.sit.policy.Always?
    ensures !exited ==> |views| == |ops| + 1 && views[|ops|].file == file && views[|ops|].buf == buf
    ensures !exited ==> forall i :: 0 <= i <= |ops| ==> views[i].file + views[i].buf == AllFed(ops[..i])
    ensures !exited && ClockRuns(ops) ==> forall i, j :: 0 <= i < |ops| && 0 <= j < |ops| ==> Timely(views, ops, i, j)
    ensures !exited && ClockRuns(ops) ==> forall j :: 0 <= j < |ops| ==> Synchronises(views, ops, j)
  {
    hide Keeps, Punctual, ClockRuns;
    var aof := new Aof();
    views := [aof.Seen()];
    exited := false;
    if ClockRuns(ops) { PunctualAtFirst(ops, aof.Seen()); }
    for i := 0 to |ops|
      invariant fresh(aof) && aof.Valid() && aof.fed == AllFed(ops[..i])
      invariant |views| == i + 1 && views[i] == aof.Seen()
      invariant forall k :: 0 <= k <= i ==> views[k].file + views[k].buf == AllFed(ops[..k])
      invariant ClockRuns(ops) ==> Punctual(views, ops, i, aof.postponed, aof.lastFsync)
    {
      assert ops[..i + 1][..i] == ops[..i] && ops[i] in ops;
      ghost var postponed, lastFsync := aof.postponed, aof.lastFsync;
      exited := Perform(aof, ops[i]);
      if exited { return aof.file, aof.buf, aof.currentSize, aof.fsyncOffset, true, views; }
      if ClockRuns(ops) { PunctualNext(views, aof.Seen(), ops, i, postponed, lastFsync, aof.postponed, aof.lastFsync); }
      views := views + [aof.Seen()];
    }
    assert ops[..|ops|] == ops;
    if ClockRuns(ops) { PunctualMeans(views, ops, aof.postponed, aof.lastFsync); }
    return aof.file, aof.buf, aof.currentSize, aof.fsyncOffset, false, views;
  }

  lemma PunctualMeans(views: seq<View>, ops: seq<Operation>, postponed: int, lastFsync: int)
    requires |views| == |ops| + 1 && Punctual(views, ops, |ops|, postponed, lastFsync)
    ensures forall i, j :: 0 <= i < |ops| && 0 <= j < |ops| ==> Timely(views, ops, i, j)
    ensures forall j :: 0 <= j < |ops| ==> Synchronises(views, ops, j)
  {}
}
