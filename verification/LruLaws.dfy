/** What callers of the cache can rely on: laws of runs for every operation, in terms of what was in the bucket. */
module LruLaws {
  import opened Basics
  import opened LruSpec

  /** The entries of other keys, in their order. */
  function Others(es: seq<Entry>, key: Key): seq<Entry> {
    if es == [] then []
    else (if es[0].key == key then [] else [es[0]]) + Others(es[1..], key)
  }

  lemma {:induction false} AbsentLeavesAll(es: seq<Entry>, key: Key)
    requires forall e | e in es :: e.key != key
    ensures Others(es, key) == es
  {
    if es != [] {
      AbsentLeavesAll(es[1..], key);
    }
  }

  lemma {:induction false} WithoutIsOthers(es: seq<Entry>, i: nat)
    requires DistinctKeys(es) && i < |es|
    ensures Without(es, i) == Others(es, es[i].key)
    decreases i
  {
    if i == 0 {
      AbsentLeavesAll(es[1..], es[0].key);
      assert Without(es, 0) == es[1..];
    } else {
      WithoutIsOthers(es[1..], i - 1);
      assert Without(es, i) == [es[0]] + Without(es[1..], i - 1);
    }
  }

  /** The place of the one entry of a key. */
  lemma FindsEntry(es: seq<Entry>, e: Entry)
    requires DistinctKeys(es) && e in es
    ensures Find(es, e.key).Some? && es[Find(es, e.key).value] == e
    ensures Without(es, Find(es, e.key).value) == Others(es, e.key)
  {
    var j :| 0 <= j < |es| && es[j] == e;
    WithoutIsOthers(es, Find(es, e.key).value);
  }

  ghost predicate IsAbsent(es: seq<Entry>, key: Key) {
    forall e | e in es :: e.key != key
  }

  lemma FindsNothing(es: seq<Entry>, key: Key)
    requires IsAbsent(es, key)
    ensures Find(es, key) == None
  {
    assert forall i | 0 <= i < |es| :: es[i] in es;
  }

  /** What a Get answers about an entry that is there. */
  function Read(e: Entry, now: int): Reply {
    if e.expireTime != NEVER && now > e.expireTime then ExpiredKey else Found(e.data)
  }

  // ---------- what an operation leaves ----------

  /** The entries when e has just been used and the others of the bucket are as they were. */
  ghost predicate UsedAmong(es: seq<Entry>, e: Entry, was: seq<Entry>) {
    es == [e] + Others(was, e.key)
  }

  /** After an entry was used, it is read back once fewer than maxSize distinct other keys have been used. */
  lemma UsedIsRead(es: seq<Entry>, maxSize: nat, e: Entry, ops: seq<Timed>, keys: set<Key>, now: int, stamp: int)
    requires BucketInv(es, maxSize) && es != [] && es[0] == e && |keys| < maxSize
    requires e.key !in keys && forall i | 0 <= i < |ops| :: ops[i].op.key in keys
    ensures Apply(Run(es, maxSize, ops), maxSize, Get(e.key), now, stamp).reply == Read(e, now)
  {
    assert Behind(es, e, keys);
    RecentEntrySurvives(es, maxSize, ops, e, keys);
    GetReadsEntry(Run(es, maxSize, ops), maxSize, e, keys, now, stamp);
  }

  /**
   A Get that finds an entry makes it the most recently used, and one that finds it expired drops it; a miss
   changes nothing.
   */
  lemma GetUses(es: seq<Entry>, maxSize: nat, e: Entry, key: Key, now: int, stamp: int)
    requires BucketInv(es, maxSize)
    ensures var r := Apply(es, maxSize, Get(key), now, stamp);
            && (e in es && e.key == key ==>
                  && r.reply == Read(e, now)
                  && r.entries == if r.reply == ExpiredKey then Others(es, key) else [e] + Others(es, key))
            && (IsAbsent(es, key) ==> r == Outcome(es, Missing))
  {
    if e in es && e.key == key {
      FindsEntry(es, e);
    } else if IsAbsent(es, key) {
      FindsNothing(es, key);
    }
  }

  /** A new key comes first; a full bucket loses exactly its least recently used entry. */
  lemma NewKeyEvictsOldest(es: seq<Entry>, maxSize: nat, op: Op, now: int, stamp: int)
    requires BucketInv(es, maxSize) && maxSize > 0 && IsAbsent(es, op.key) && (op.Set? || op.SetIfNX? || op.Count?)
    ensures var es' := Apply(es, maxSize, op, now, stamp).entries;
            es' != [] && es'[0].key == op.key && es'[1..] == if |es| < maxSize then es else es[..maxSize - 1]
  {
    FindsNothing(es, op.key);
  }

  /** A used key comes first, and all others stay in their order. */
  lemma KnownKeyMovesFirst(es: seq<Entry>, maxSize: nat, e: Entry, op: Op, now: int, stamp: int)
    requires BucketInv(es, maxSize) && e in es && e.key == op.key && (op.Set? || op.SetIfNX? || op.Count?)
    ensures var es' := Apply(es, maxSize, op, now, stamp).entries;
            es' != [] && UsedAmong(es', es'[0], es) && es'[0].key == op.key
  {
    FindsEntry(es, e);
  }

  // ---------- Delete ----------

  lemma DeleteRemoves(es: seq<Entry>, maxSize: nat, key: Key, now: int, stamp: int)
    requires BucketInv(es, maxSize)
    ensures Apply(es, maxSize, Delete(key), now, stamp) == Outcome(Others(es, key), Deleted)
    ensures IsAbsent(Others(es, key), key)
  {
    OthersLackKey(es, key);
    if e :| e in es && e.key == key {
      FindsEntry(es, e);
    } else {
      FindsNothing(es, key);
      AbsentLeavesAll(es, key);
    }
  }

  lemma {:induction false} OthersLackKey(es: seq<Entry>, key: Key)
    ensures IsAbsent(Others(es, key), key)
  {
    if es != [] {
      OthersLackKey(es[1..], key);
    }
  }

  lemma {:induction false} StaysAbsent(es: seq<Entry>, maxSize: nat, ops: seq<Timed>, key: Key)
    requires IsAbsent(es, key) && forall i | 0 <= i < |ops| :: ops[i].op.key != key
    ensures IsAbsent(Run(es, maxSize, ops), key)
    decreases |ops|
  {
    if ops != [] {
      var t := ops[0];
      ApplyAddsOnlyItsKey(es, maxSize, t.op, t.now, t.stamp);
      StaysAbsent(Apply(es, maxSize, t.op, t.now, t.stamp).entries, maxSize, ops[1..], key);
    }
  }

  /** A deleted key is missing until it is set again, and every other entry stays, in its order. */
  lemma DeletedIsMissing(
    es: seq<Entry>, maxSize: nat, key: Key, del: Timed, ops: seq<Timed>, now: int, stamp: int)
    requires BucketInv(es, maxSize) && del.op == Delete(key)
    requires forall i | 0 <= i < |ops| :: ops[i].op.key != key
    ensures Run(es, maxSize, [del]) == Others(es, key)
    ensures Apply(Run(es, maxSize, [del] + ops), maxSize, Get(key), now, stamp).reply == Missing
  {
    DeleteRemoves(es, maxSize, key, del.now, del.stamp);
    StaysAbsent(Others(es, key), maxSize, ops, key);
    assert ([del] + ops)[1..] == ops && [del][1..] == [];
    FindsNothing(Run(Others(es, key), maxSize, ops), key);
  }

  // ---------- SetIfNX ----------

  /** The entry that an operation with an expiry time leaves for a value. */
  function NewEntry(t: Timed, data: Data): Entry
    requires !t.op.Get? && !t.op.Delete?
  {
    Entry(t.op.key, data, if t.op.expireTime == NEVER then NEVER else Wrap64(t.stamp + t.op.expireTime))
  }

  /** Nothing is there for the operation: no entry, or one whose time is up. */
  ghost predicate NothingAlive(es: seq<Entry>, t: Timed) {
    forall e | e in es && e.key == t.op.key :: e.expireTime != NEVER && t.now >= e.expireTime
  }

  /** The entry is there for the operation. */
  ghost predicate IsLive(es: seq<Entry>, e: Entry, t: Timed) {
    e in es && e.key == t.op.key && (e.expireTime == NEVER || t.now < e.expireTime)
  }

  /** One entry of the key and no other, or none. */
  lemma AliveOrNothing(es: seq<Entry>, t: Timed)
    requires DistinctKeys(es)
    ensures NothingAlive(es, t) <==> Find(es, t.op.key).None? || !Alive(es[Find(es, t.op.key).value], t.now)
    ensures forall e | IsLive(es, e, t) :: Find(es, t.op.key).Some? && es[Find(es, t.op.key).value] == e
  {
    match Find(es, t.op.key)
    case None =>
      assert forall i | 0 <= i < |es| :: es[i] in es;
    case Some(i) =>
      OnlyEntry(es, es[i]);
  }

  lemma SetIfNXUses(es: seq<Entry>, maxSize: nat, put: Timed)
    requires BucketInv(es, maxSize) && put.op.SetIfNX?
    ensures var r := Apply(es, maxSize, put.op, put.now, put.stamp);
            && r.entries != [] && r.entries[0].key == put.op.key
            && (NothingAlive(es, put) ==> r.reply == Stored && r.entries[0] == NewEntry(put, put.op.data))
            && (forall e | IsLive(es, e, put) :: r.reply == Refused && r.entries[0] == e)
  {
    AliveOrNothing(es, put);
  }

  /** SetIfNX is refused by a live entry, which is still read, and otherwise its value is read. */
  lemma SetIfNXThenGet(
    es: seq<Entry>, maxSize: nat, put: Timed, ops: seq<Timed>, keys: set<Key>, now: int, stamp: int)
    requires BucketInv(es, maxSize) && |keys| < maxSize && put.op.SetIfNX?
    requires put.op.key !in keys && forall i | 0 <= i < |ops| :: ops[i].op.key in keys
    ensures var reply := Apply(es, maxSize, put.op, put.now, put.stamp).reply;
            var later := Apply(Run(es, maxSize, [put] + ops), maxSize, Get(put.op.key), now, stamp).reply;
            && (NothingAlive(es, put) ==> reply == Stored && later == Read(NewEntry(put, put.op.data), now))
            && (forall e | IsLive(es, e, put) :: reply == Refused && later == Read(e, now))
  {
    var es' := Apply(es, maxSize, put.op, put.now, put.stamp).entries;
    SetIfNXUses(es, maxSize, put);
    ApplyKeepsBucket(es, maxSize, put.op, put.now, put.stamp);
    assert ([put] + ops)[1..] == ops;
    UsedIsRead(es', maxSize, es'[0], ops, keys, now, stamp);
  }

  lemma OnlyEntry(es: seq<Entry>, e: Entry)
    requires DistinctKeys(es) && e in es
    ensures forall other | other in es && other.key == e.key :: other == e
  {
  }

  // ---------- counting ----------

  /** Where counting by one in that direction would leave the 64-bit range. */
  function LastCount(step: int): int {
    if step > 0 then 0x7FFF_FFFF_FFFF_FFFF else -0x8000_0000_0000_0000
  }

  /** What a count answers about a live entry, and what that entry becomes. */
  function CountOn(e: Entry, count: Timed): (Reply, Entry)
    requires count.op.Count?
  {
    if e.data.Int64? && e.data.n != LastCount(count.op.step) then
      (Counted(e.data.n + count.op.step), NewEntry(count, Int64(e.data.n + count.op.step)))
    else (NotCountable, e)
  }

  lemma CountUses(es: seq<Entry>, maxSize: nat, count: Timed)
    requires BucketInv(es, maxSize) && count.op.Count? && (count.op.step == 1 || count.op.step == -1)
    ensures var r := Apply(es, maxSize, count.op, count.now, count.stamp);
            && r.entries != [] && r.entries[0].key == count.op.key
            && (NothingAlive(es, count) ==>
                  r.reply == Counted(count.op.step) && r.entries[0] == NewEntry(count, Int64(count.op.step)))
            && (forall e | IsLive(es, e, count) :: (r.reply, r.entries[0]) == CountOn(e, count))
  {
    AliveOrNothing(es, count);
  }

  /**
   Counting starts from the step on a key that is missing or whose time is up; on a live integer it adds the
   step, and refuses at the end of the 64-bit range and for anything else. What it answers is read later.
   */
  lemma CountThenGet(
    es: seq<Entry>, maxSize: nat, count: Timed, ops: seq<Timed>, keys: set<Key>, now: int, stamp: int)
    requires BucketInv(es, maxSize) && |keys| < maxSize && count.op.Count? && (count.op.step == 1 || count.op.step == -1)
    requires count.op.key !in keys && forall i | 0 <= i < |ops| :: ops[i].op.key in keys
    ensures var reply := Apply(es, maxSize, count.op, count.now, count.stamp).reply;
            var later := Apply(Run(es, maxSize, [count] + ops), maxSize, Get(count.op.key), now, stamp).reply;
            && (NothingAlive(es, count) ==>
                  reply == Counted(count.op.step) && later == Read(NewEntry(count, Int64(count.op.step)), now))
            && (forall e | IsLive(es, e, count) ::
                  reply == CountOn(e, count).0 && later == Read(CountOn(e, count).1, now))
  {
    var es' := Apply(es, maxSize, count.op, count.now, count.stamp).entries;
    CountUses(es, maxSize, count);
    ApplyKeepsBucket(es, maxSize, count.op, count.now, count.stamp);
    assert ([count] + ops)[1..] == ops;
    UsedIsRead(es', maxSize, es'[0], ops, keys, now, stamp);
  }

  // ---------- the whole cache ----------

  /** In the whole cache a deleted key is missing until an operation uses it again. */
  lemma DeletedFromCache(segments: seq<seq<Entry>>, maxSize: nat, del: Timed, ops: seq<Timed>, now: int, stamp: int)
    requires |segments| == SEGMENT_COUNT && del.op.Delete? && BucketInv(segments[SegmentOf(del.op.key)], maxSize)
    requires forall t | t in ops :: t.op.key != del.op.key
    ensures ReplyOf(RunAll(segments, maxSize, [del] + ops), maxSize, Timed(Get(del.op.key), now, stamp)) == Missing
  {
    var j := SegmentOf(del.op.key);
    assert ([del] + ops)[1..] == ops;
    SegmentsAreIndependent(segments, maxSize, [del] + ops, j);
    assert Reaching([del] + ops, j) == [del] + Reaching(ops, j);
    DeletedIsMissing(segments[j], maxSize, del.op.key, del, Reaching(ops, j), now, stamp);
  }
}
