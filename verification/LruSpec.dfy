/**
 What one bucket of the cache means: a list of entries, most recently used first. The operations
 say what the cache does to that list; the results are about any sequence of operations.
 */
module LruSpec {
  import opened Basics

  type Key = seq<bv8>

  const NEVER := -1

  const MAX_INT64 := 0x7FFF_FFFF_FFFF_FFFF
  const MIN_INT64 := -0x8000_0000_0000_0000

  /** The cache stores anything, but counts only 64-bit integers. */
  datatype Data = Int64(n: int) | Other(text: string)

  datatype Entry = Entry(key: Key, data: Data, expireTime: int)

  /** Addition of 64-bit integers wraps around. */
  function Wrap64(x: int): int {
    (x - MIN_INT64) % 0x1_0000_0000_0000_0000 + MIN_INT64
  }

  function ExpiresAt(now: int, expireTime: int): int {
    if expireTime == NEVER then NEVER else Wrap64(now + expireTime)
  }

  /** An entry that Get drops. */
  predicate Expired(e: Entry, now: int) {
    e.expireTime != NEVER && now > e.expireTime
  }

  /** An entry that SetIfNX, INCR and DECR respect; at the very moment of expiry it is neither. */
  predicate Alive(e: Entry, now: int) {
    e.expireTime == NEVER || now < e.expireTime
  }

  // ---------- lists of entries ----------

  predicate HasKey(es: seq<Entry>, key: Key) {
    exists i :: 0 <= i < |es| && es[i].key == key
  }

  ghost predicate DistinctKeys(es: seq<Entry>) {
    forall i, j | 0 <= i < j < |es| :: es[i].key != es[j].key
  }

  function Find(es: seq<Entry>, key: Key): (r: Option<nat>)
    ensures r.Some? <==> HasKey(es, key)
    ensures r.Some? ==> r.value < |es| && es[r.value].key == key
  {
    if es == [] then None
    else if es[0].key == key then Some(0)
    else
      assert HasKey(es[1..], key) ==> HasKey(es, key);
      match Find(es[1..], key)
      case None => None
      case Some(i) => Some(i + 1)
  }

  /** The entry at i becomes e and moves to the front. */
  function Refresh(es: seq<Entry>, i: nat, e: Entry): seq<Entry>
    requires i < |es|
  {
    [e] + Without(es, i)
  }

  lemma RefreshThenDrop(es: seq<Entry>, i: nat, e: Entry)
    requires i < |es|
    ensures Without(Refresh(es, i, e), 0) == Without(es, i)
  {
  }

  /** A new entry; a full bucket loses its least recently used one. */
  function Push(es: seq<Entry>, maxSize: nat, e: Entry): seq<Entry> {
    [e] + if |es| + 1 > maxSize && es != [] then es[..|es| - 1] else es
  }

  // ---------- the operations ----------

  datatype Op =
    | Set(key: Key, data: Data, expireTime: int)
    | Get(key: Key)
    | Delete(key: Key)
    | SetIfNX(key: Key, data: Data, expireTime: int)
    | Count(key: Key, step: int, expireTime: int)   // INCR adds 1, DECR adds -1

  datatype Reply = Stored | Found(data: Data) | Missing | ExpiredKey | Deleted | Refused | Counted(n: int) | NotCountable

  datatype Outcome = Outcome(entries: seq<Entry>, reply: Reply)

  /** What a count makes of the value it finds, or None at the end of the 64-bit range. */
  function Counting(data: Data, step: int): Option<int> {
    if !data.Int64? || data.n == (if step > 0 then MAX_INT64 else MIN_INT64) then None
    else Some(data.n + step)
  }

  /** An operation on a key that the bucket does not hold. */
  function OnMissing(es: seq<Entry>, maxSize: nat, op: Op, stamp: int): Outcome {
    match op
    case Set(key, data, t) => Outcome(Push(es, maxSize, Entry(key, data, ExpiresAt(stamp, t))), Stored)
    case SetIfNX(key, data, t) => Outcome(Push(es, maxSize, Entry(key, data, ExpiresAt(stamp, t))), Stored)
    case Count(key, n, t) => Outcome(Push(es, maxSize, Entry(key, Int64(n), ExpiresAt(stamp, t))), Counted(n))
    case Get(_) => Outcome(es, Missing)
    case Delete(_) => Outcome(es, Deleted)
  }

  /** An operation on the key of the entry at i. */
  function OnFound(es: seq<Entry>, i: nat, op: Op, now: int, stamp: int): Outcome
    requires i < |es|
  {
    match op
    case Set(key, data, t) => Outcome(Refresh(es, i, Entry(key, data, ExpiresAt(stamp, t))), Stored)
    case Get(_) =>
      if Expired(es[i], now) then Outcome(Without(es, i), ExpiredKey)
      else Outcome(Refresh(es, i, es[i]), Found(es[i].data))
    case Delete(_) => Outcome(Without(es, i), Deleted)
    case SetIfNX(key, data, t) =>
      if Alive(es[i], now) then Outcome(Refresh(es, i, es[i]), Refused)
      else Outcome(Refresh(es, i, Entry(key, data, ExpiresAt(stamp, t))), Stored)
    case Count(key, n, t) =>
      if !Alive(es[i], now) then
        Outcome(Refresh(es, i, Entry(key, Int64(n), ExpiresAt(stamp, t))), Counted(n))
      else
        match Counting(es[i].data, n)
        case None => Outcome(Refresh(es, i, es[i]), NotCountable)
        case Some(m) => Outcome(Refresh(es, i, Entry(key, Int64(m), ExpiresAt(stamp, t))), Counted(m))
  }

  /** One operation; now is the clock when expiry is checked and stamp when a new expiry is set. */
  function Apply(es: seq<Entry>, maxSize: nat, op: Op, now: int, stamp: int): Outcome {
    match Find(es, op.key)
    case None => OnMissing(es, maxSize, op, stamp)
    case Some(i) => OnFound(es, i, op, now, stamp)
  }

  // ---------- the bucket invariant ----------

  ghost predicate BucketInv(es: seq<Entry>, maxSize: nat) {
    DistinctKeys(es) && |es| <= maxSize
  }

  lemma WithoutKeepsKeys(es: seq<Entry>, i: nat)
    requires i < |es| && DistinctKeys(es)
    ensures DistinctKeys(Without(es, i)) && !HasKey(Without(es, i), es[i].key)
    ensures forall k | k != es[i].key :: HasKey(Without(es, i), k) <==> HasKey(es, k)
  {
    forall k | k != es[i].key && HasKey(es, k)
      ensures HasKey(Without(es, i), k)
    {
      var j :| 0 <= j < |es| && es[j].key == k;
      assert Without(es, i)[if j < i then j else j - 1].key == k;
    }
  }

  lemma ApplyKeepsBucket(es: seq<Entry>, maxSize: nat, op: Op, now: int, stamp: int)
    requires BucketInv(es, maxSize) && maxSize > 0
    ensures BucketInv(Apply(es, maxSize, op, now, stamp).entries, maxSize)
  {
    if Find(es, op.key).Some? {
      WithoutKeepsKeys(es, Find(es, op.key).value);
    }
  }

  // ---------- segments ----------

  const SEGMENT_COUNT := 16

  function HashStep(h: bv32, b: bv8): bv32 {
    (h * 16777619) ^ (b as bv32)
  }

  /** The hash of a key, over its bytes from first to last. */
  function HashOf(key: Key): bv32 {
    if key == [] then 2166136261 else HashStep(HashOf(key[..|key| - 1]), key[|key| - 1])
  }

  /** The low four bits of a hash. */
  function Pick(h: bv32): (i: nat)
    ensures i < SEGMENT_COUNT
  {
    assert h & 15 <= 15;
    (h & 15) as nat
  }

  function SegmentOf(key: Key): (i: nat)
    ensures i < SEGMENT_COUNT
  {
    Pick(HashOf(key))
  }

  /** Every key is in the segment its hash picks. */
  ghost predicate InSegment(es: seq<Entry>, segment: nat) {
    forall i | 0 <= i < |es| :: SegmentOf(es[i].key) == segment
  }

  lemma ApplyAddsOnlyItsKey(es: seq<Entry>, maxSize: nat, op: Op, now: int, stamp: int)
    ensures forall e | e in Apply(es, maxSize, op, now, stamp).entries :: e.key == op.key || HasKey(es, e.key)
  {
  }

  lemma ApplyKeepsSegment(es: seq<Entry>, maxSize: nat, op: Op, now: int, stamp: int)
    requires InSegment(es, SegmentOf(op.key))
    ensures InSegment(Apply(es, maxSize, op, now, stamp).entries, SegmentOf(op.key))
  {
    ApplyAddsOnlyItsKey(es, maxSize, op, now, stamp);
  }

  // ---------- recency ----------

  datatype Timed = Timed(op: Op, now: int, stamp: int)

  function Run(es: seq<Entry>, maxSize: nat, ops: seq<Timed>): seq<Entry>
    decreases |ops|
  {
    if ops == [] then es
    else Run(Apply(es, maxSize, ops[0].op, ops[0].now, ops[0].stamp).entries, maxSize, ops[1..])
  }

  /** Entry e is in the list, and every entry used more recently has a key in the given set. */
  ghost predicate Behind(es: seq<Entry>, e: Entry, keys: set<Key>) {
    exists p :: 0 <= p < |es| && es[p] == e && forall i | 0 <= i < p :: es[i].key in keys
  }

  lemma {:induction false} AheadBound(es: seq<Entry>, p: nat, keys: set<Key>)
    requires p <= |es| && DistinctKeys(es) && forall i | 0 <= i < p :: es[i].key in keys
    ensures p <= |keys|
  {
    if p > 0 {
      var rest := keys - {es[p - 1].key};
      AheadBound(es, p - 1, rest);
      assert keys == rest + {es[p - 1].key};
    }
  }

  lemma PushKeepsBehind(es: seq<Entry>, maxSize: nat, e: Entry, added: Entry, keys: set<Key>)
    requires BucketInv(es, maxSize) && |keys| < maxSize
    requires Behind(es, e, keys) && added.key in keys && !HasKey(es, added.key)
    ensures Behind(Push(es, maxSize, added), e, keys)
  {
    var p :| 0 <= p < |es| && es[p] == e && forall i | 0 <= i < p :: es[i].key in keys;
    AheadBound(es, p, keys - {added.key});
    assert keys == (keys - {added.key}) + {added.key};
    assert Push(es, maxSize, added)[p + 1] == e;
  }

  lemma MoveKeepsBehind(es: seq<Entry>, e: Entry, i: nat, moved: Entry, keys: set<Key>)
    requires i < |es| && es[i].key in keys && e.key !in keys && moved.key in keys && Behind(es, e, keys)
    ensures Behind(Without(es, i), e, keys) && Behind(Refresh(es, i, moved), e, keys)
  {
    var p :| 0 <= p < |es| && es[p] == e && forall i | 0 <= i < p :: es[i].key in keys;
    var q := if p < i then p else p - 1;
    assert Without(es, i)[q] == e;
    assert Refresh(es, i, moved)[q + 1] == e;
  }

  lemma ApplyKeepsBehind(es: seq<Entry>, maxSize: nat, t: Timed, e: Entry, keys: set<Key>)
    requires BucketInv(es, maxSize) && |keys| < maxSize
    requires Behind(es, e, keys) && t.op.key in keys && e.key !in keys
    ensures Behind(Apply(es, maxSize, t.op, t.now, t.stamp).entries, e, keys)
  {
    var es' := Apply(es, maxSize, t.op, t.now, t.stamp).entries;
    match Find(es, t.op.key)
    case None =>
      if es' != es {
        PushKeepsBehind(es, maxSize, e, es'[0], keys);
      }
    case Some(i) =>
      MoveKeepsBehind(es, e, i, if es' == [] then es[i] else Entry(t.op.key, es'[0].data, es'[0].expireTime), keys);
      assert es[i] == Entry(t.op.key, es[i].data, es[i].expireTime);
      MoveKeepsBehind(es, e, i, es[i], keys);
  }

  /**
   An entry survives any operations on fewer than maxSize distinct other keys, in any order and as
   many as one likes, with its value and expiry untouched.
   */
  lemma {:induction false} RecentEntrySurvives(
    es: seq<Entry>, maxSize: nat, ops: seq<Timed>, e: Entry, keys: set<Key>)
    requires BucketInv(es, maxSize) && |keys| < maxSize
    requires Behind(es, e, keys) && e.key !in keys
    requires forall i | 0 <= i < |ops| :: ops[i].op.key in keys
    ensures BucketInv(Run(es, maxSize, ops), maxSize)
    ensures Behind(Run(es, maxSize, ops), e, keys)
    decreases |ops|
  {
    if ops != [] {
      var t := ops[0];
      ApplyKeepsBucket(es, maxSize, t.op, t.now, t.stamp);
      ApplyKeepsBehind(es, maxSize, t, e, keys);
      RecentEntrySurvives(Apply(es, maxSize, t.op, t.now, t.stamp).entries, maxSize, ops[1..], e, keys);
    }
  }

  /** Set leaves its entry in front. */
  lemma SetPutsInFront(es: seq<Entry>, maxSize: nat, key: Key, data: Data, t: int, now: int, stamp: int)
    ensures Behind(Apply(es, maxSize, Set(key, data, t), now, stamp).entries,
                   Entry(key, data, ExpiresAt(stamp, t)), {})
  {
    assert Apply(es, maxSize, Set(key, data, t), now, stamp).entries[0] == Entry(key, data, ExpiresAt(stamp, t));
  }

  lemma GetReadsEntry(es: seq<Entry>, maxSize: nat, e: Entry, keys: set<Key>, now: int, stamp: int)
    requires DistinctKeys(es) && Behind(es, e, keys)
    ensures Apply(es, maxSize, Get(e.key), now, stamp).reply == if Expired(e, now) then ExpiredKey else Found(e.data)
  {
  }

  /**
   A value set stays readable: after operations on fewer than maxSize distinct other keys, Get
   returns it, unless its time is up, and then says so.
   */
  lemma SetThenGet(
    es: seq<Entry>, maxSize: nat, key: Key, data: Data, t: int, put: Timed, ops: seq<Timed>, keys: set<Key>,
    now: int, stamp: int)
    requires BucketInv(es, maxSize) && |keys| < maxSize
    requires put.op == Set(key, data, t)
    requires key !in keys && forall i | 0 <= i < |ops| :: ops[i].op.key in keys
    ensures var after := Run(es, maxSize, [put] + ops);
            var e := Entry(key, data, ExpiresAt(put.stamp, t));
            Apply(after, maxSize, Get(key), now, stamp).reply == if Expired(e, now) then ExpiredKey else Found(data)
  {
    var e := Entry(key, data, ExpiresAt(put.stamp, t));
    var first := Apply(es, maxSize, put.op, put.now, put.stamp).entries;
    SetPutsInFront(es, maxSize, key, data, t, put.now, put.stamp);
    ApplyKeepsBucket(es, maxSize, put.op, put.now, put.stamp);
    assert Behind(first, e, keys);
    RecentEntrySurvives(first, maxSize, ops, e, keys);
    assert ([put] + ops)[1..] == ops;
    GetReadsEntry(Run(first, maxSize, ops), maxSize, e, keys, now, stamp);
  }

  /**
   A positive expiry time keeps the entry alive at first exactly when it does not overflow the
   clock. Set and SetIfNX cap it at twenty years; INCR and DECR do not.
   */
  lemma ExpiryOverflow(key: Key, data: Data, stamp: int, t: int)
    requires 0 <= stamp <= MAX_INT64 && 0 < t <= MAX_INT64
    ensures Alive(Entry(key, data, ExpiresAt(stamp, t)), stamp) <==> stamp + t <= MAX_INT64
    ensures stamp + t <= MAX_INT64 ==> ExpiresAt(stamp, t) == stamp + t
  {
  }

  // ---------- the whole cache: one list per segment ----------

  /** An operation goes to the segment of its key. */
  function ApplyAll(segments: seq<seq<Entry>>, maxSize: nat, t: Timed): (r: seq<seq<Entry>>)
    requires |segments| == SEGMENT_COUNT
    ensures |r| == SEGMENT_COUNT
  {
    var j := SegmentOf(t.op.key);
    segments[j := Apply(segments[j], maxSize, t.op, t.now, t.stamp).entries]
  }

  function ReplyOf(segments: seq<seq<Entry>>, maxSize: nat, t: Timed): Reply
    requires |segments| == SEGMENT_COUNT
  {
    Apply(segments[SegmentOf(t.op.key)], maxSize, t.op, t.now, t.stamp).reply
  }

  function RunAll(segments: seq<seq<Entry>>, maxSize: nat, ops: seq<Timed>): (r: seq<seq<Entry>>)
    requires |segments| == SEGMENT_COUNT
    ensures |r| == SEGMENT_COUNT
    decreases |ops|
  {
    if ops == [] then segments else RunAll(ApplyAll(segments, maxSize, ops[0]), maxSize, ops[1..])
  }

  /** The operations that reach one segment. */
  function Reaching(ops: seq<Timed>, segment: nat): (r: seq<Timed>)
    ensures forall i | 0 <= i < |r| :: r[i] in ops && SegmentOf(r[i].op.key) == segment
  {
    if ops == [] then []
    else (if SegmentOf(ops[0].op.key) == segment then [ops[0]] else []) + Reaching(ops[1..], segment)
  }

  /** Segments do not disturb one another: each runs as a cache of its own on the operations that reach it. */
  lemma {:induction false} SegmentsAreIndependent(
    segments: seq<seq<Entry>>, maxSize: nat, ops: seq<Timed>, segment: nat)
    requires |segments| == SEGMENT_COUNT && segment < SEGMENT_COUNT
    ensures RunAll(segments, maxSize, ops)[segment] == Run(segments[segment], maxSize, Reaching(ops, segment))
    decreases |ops|
  {
    if ops != [] {
      SegmentsAreIndependent(ApplyAll(segments, maxSize, ops[0]), maxSize, ops[1..], segment);
      if SegmentOf(ops[0].op.key) == segment {
        assert Reaching(ops, segment)[1..] == Reaching(ops[1..], segment);
      } else {
        assert Reaching(ops, segment) == Reaching(ops[1..], segment);
      }
    }
  }

  /**
   In the whole cache a value set stays readable while fewer than maxSize distinct other keys of
   its own segment are used, whatever happens in the fifteen others.
   */
  lemma CachedValueSurvives(
    segments: seq<seq<Entry>>, maxSize: nat, put: Timed, ops: seq<Timed>, keys: set<Key>, now: int, stamp: int)
    requires |segments| == SEGMENT_COUNT && put.op.Set?
    requires BucketInv(segments[SegmentOf(put.op.key)], maxSize) && |keys| < maxSize && put.op.key !in keys
    requires forall t | t in ops && SegmentOf(t.op.key) == SegmentOf(put.op.key) :: t.op.key in keys
    ensures var after := RunAll(segments, maxSize, [put] + ops);
            var e := Entry(put.op.key, put.op.data, ExpiresAt(put.stamp, put.op.expireTime));
            ReplyOf(after, maxSize, Timed(Get(put.op.key), now, stamp))
            == if Expired(e, now) then ExpiredKey else Found(put.op.data)
  {
    var j := SegmentOf(put.op.key);
    assert ([put] + ops)[1..] == ops;
    SegmentsAreIndependent(segments, maxSize, [put] + ops, j);
    SetThenGet(segments[j], maxSize, put.op.key, put.op.data, put.op.expireTime, put, Reaching(ops, j), keys, now, stamp);
    assert Reaching([put] + ops, j) == [put] + Reaching(ops, j);
  }
}
