/** The concurrent cache: sixteen buckets, each key in the one its hash picks. */
module SegmentedCache {
  import opened Basics
  import opened LruSpec
  import opened LruCache

  const TWENTY_YEARS := 20 * 365 * 24 * 3600 * 1_000_000_000   // nanoseconds

  /** The expiry times that Set and SetIfNX take; INCR and DECR take the positive ones and NEVER. */
  predicate SetTakes(expireTime: int) {
    NEVER <= expireTime <= TWENTY_YEARS
  }

  predicate CountTakes(expireTime: int) {
    expireTime > 0 || expireTime == NEVER
  }

  /**
   Set takes minus one, and times from zero to twenty years of nanoseconds: none that overflows the clock for
   the next two hundred and fifty years. Counting takes minus one and every positive time, so it also takes
   some that do.
   */
  lemma TimesTaken(expireTime: int, key: Key, data: Data, stamp: int)
    requires 0 <= stamp <= 0x7FFF_FFFF_FFFF_FFFF - 630_720_000_000_000_000
    ensures SetTakes(expireTime) <==> expireTime == -1 || 0 <= expireTime <= 630_720_000_000_000_000
    ensures CountTakes(expireTime) <==> expireTime == -1 || 1 <= expireTime
    ensures SetTakes(expireTime) && expireTime > 0 ==>
              var e := LruSpec.Entry(key, data, ExpiresAt(stamp, expireTime));
              forall now | stamp <= now < stamp + expireTime :: Alive(e, now) && !Expired(e, now)
  {
  }

  class ConcurrencyLRUCache {
    const buckets: seq<Bucket>

    ghost function Repr(): set<object>
      reads buckets
    {
      set i, o | 0 <= i < |buckets| && o in buckets[i].Repr() :: o
    }

    ghost predicate Valid()
      reads buckets, Repr()
    {
      && |buckets| == SEGMENT_COUNT
      && (forall i, j | 0 <= i < j < |buckets| :: buckets[i] != buckets[j])
      && (forall i | 0 <= i < |buckets| :: buckets[i].Valid() && buckets[i].maxSize == buckets[0].maxSize)
      && (forall i | 0 <= i < |buckets| :: InSegment(buckets[i].Entries(), i))
    }

    /** The meaning of the cache: what the buckets hold, most recently used first. */
    ghost function Segments(): (r: seq<seq<LruSpec.Entry>>)
      reads buckets, Repr()
      ensures |r| == |buckets| && forall i | 0 <= i < |r| :: r[i] == buckets[i].Entries()
    {
      seq(|buckets|, i requires 0 <= i < |buckets| reads buckets, Repr() => buckets[i].Entries())
    }

    constructor (maxEntries: nat)
      requires maxEntries > 0
      ensures Valid() && fresh(buckets) && Segments() == seq(SEGMENT_COUNT, i => [])
      ensures 0 <= SEGMENT_COUNT * buckets[0].maxSize - maxEntries < SEGMENT_COUNT
    {
      var size := maxEntries / SEGMENT_COUNT;
      if maxEntries % SEGMENT_COUNT > 0 {
        size := size + 1;
      }
      var made: seq<Bucket> := [];
      for i := 0 to SEGMENT_COUNT
        invariant |made| == i && fresh(made)
        invariant forall k | 0 <= k < i :: made[k].Valid() && made[k].maxSize == size && made[k].list == []
        invariant forall k, l | 0 <= k < l < i :: made[k] != made[l]
      {
        var b := new Bucket(size);
        made := made + [b];
      }
      buckets := made;
    }

    /** A cache for at least maxEntries entries, or none for a size that is not positive. */
    static method New(maxEntries: int) returns (cache: ConcurrencyLRUCache?)
      ensures cache == null <==> maxEntries <= 0
      ensures cache != null ==> cache.Valid() && fresh(cache.buckets) && cache.Segments() == seq(SEGMENT_COUNT, i => [])
      ensures cache != null ==> 0 <= SEGMENT_COUNT * cache.buckets[0].maxSize - maxEntries < SEGMENT_COUNT
    {
      if maxEntries <= 0 {
        return null;
      }
      cache := new ConcurrencyLRUCache(maxEntries);
    }

    static method Index(key: Key) returns (j: nat)
      ensures j == SegmentOf(key)
    {
      var hash: bv32 := 2166136261;
      for i := 0 to |key|
        invariant hash == HashOf(key[..i])
      {
        assert key[..i + 1][..i] == key[..i];
        hash := HashStep(hash, key[i]);
      }
      assert key[..|key|] == key;
      j := Pick(hash);
    }

    /** No bucket shares an element with the bucket at j: an element's key tells its bucket. */
    lemma NoneShares(j: nat)
      requires Valid() && j < |buckets|
      ensures forall i | 0 <= i < |buckets| && i != j :: buckets[i].Repr() !! buckets[j].Repr()
    {
    }

    /** When the bucket of the key has done the operation and the others are as before, the cache has done it. */
    twostate lemma Settle(t: Timed)
      requires old(Valid())
      requires forall i, o | 0 <= i < |buckets| && i != SegmentOf(t.op.key) && o in old(buckets[i].Repr()) :: unchanged(o)
      requires buckets[SegmentOf(t.op.key)].Valid()
      requires var b := buckets[SegmentOf(t.op.key)];
               b.Entries() == Apply(old(b.Entries()), b.maxSize, t.op, t.now, t.stamp).entries
      ensures Valid() && Segments() == ApplyAll(old(Segments()), buckets[0].maxSize, t)
    {
      var j := SegmentOf(t.op.key);
      OthersStay(j);
      ApplyKeepsSegment(old(buckets[j].Entries()), buckets[0].maxSize, t.op, t.now, t.stamp);
    }

    twostate lemma OthersStay(j: nat)
      requires old(Valid()) && j < |buckets|
      requires forall i, o | 0 <= i < |buckets| && i != j && o in old(buckets[i].Repr()) :: unchanged(o)
      ensures forall i | 0 <= i < |buckets| && i != j ::
                buckets[i].Valid() && buckets[i].Entries() == old(buckets[i].Entries())
    {
      forall i | 0 <= i < |buckets| && i != j
        ensures buckets[i].Valid() && buckets[i].Entries() == old(buckets[i].Entries())
      {
        BucketStays(i);
      }
    }

    twostate lemma BucketStays(i: nat)
      requires old(Valid()) && i < |buckets| && forall o | o in old(buckets[i].Repr()) :: unchanged(o)
      ensures buckets[i].Valid() && buckets[i].Entries() == old(buckets[i].Entries())
    {
      var b := buckets[i];
      assert b in old(b.Repr());
      assert unchanged(b);
      forall e | e in b.list
        ensures unchanged(e)
      {
        assert (e as object) in old(b.Repr());
      }
    }

    method Set(key: Key, data: Data, expireTime: int, ghost now: int, stamp: int) returns (ok: bool)
      requires Valid()
      modifies buckets[SegmentOf(key)].Repr()
      ensures Valid() && fresh(buckets[SegmentOf(key)].Repr() - old(buckets[SegmentOf(key)].Repr()))
      ensures ok <==> SetTakes(expireTime)
      ensures ok ==> Segments() == ApplyAll(old(Segments()), buckets[0].maxSize,
                                            Timed(LruSpec.Set(key, data, expireTime), now, stamp))
      ensures !ok ==> Segments() == old(Segments())
    {
      if expireTime < NEVER || expireTime > TWENTY_YEARS {
        return false;
      }
      var j := Index(key);
      NoneShares(j);
      buckets[j].SetValue(key, data, expireTime, now, stamp);
      Settle(Timed(LruSpec.Set(key, data, expireTime), now, stamp));
      return true;
    }

    method Get(key: Key, now: int, ghost stamp: int) returns (reply: Reply)
      requires Valid()
      modifies buckets[SegmentOf(key)].Repr()
      ensures Valid() && fresh(buckets[SegmentOf(key)].Repr() - old(buckets[SegmentOf(key)].Repr()))
      ensures var t := Timed(LruSpec.Get(key), now, stamp);
              Segments() == ApplyAll(old(Segments()), buckets[0].maxSize, t) &&
              reply == ReplyOf(old(Segments()), buckets[0].maxSize, t)
    {
      var j := Index(key);
      NoneShares(j);
      reply := buckets[j].GetValue(key, now, stamp);
      Settle(Timed(LruSpec.Get(key), now, stamp));
    }

    method Delete(key: Key, ghost now: int, ghost stamp: int)
      requires Valid()
      modifies buckets[SegmentOf(key)].Repr()
      ensures Valid() && fresh(buckets[SegmentOf(key)].Repr() - old(buckets[SegmentOf(key)].Repr()))
      ensures Segments() == ApplyAll(old(Segments()), buckets[0].maxSize, Timed(LruSpec.Delete(key), now, stamp))
    {
      var j := Index(key);
      NoneShares(j);
      buckets[j].DelValue(key, now, stamp);
      Settle(Timed(LruSpec.Delete(key), now, stamp));
    }

    method SetIfNX(key: Key, data: Data, expireTime: int, now: int, stamp: int) returns (done: bool)
      requires Valid()
      modifies buckets[SegmentOf(key)].Repr()
      ensures Valid() && fresh(buckets[SegmentOf(key)].Repr() - old(buckets[SegmentOf(key)].Repr()))
      ensures var t := Timed(LruSpec.SetIfNX(key, data, expireTime), now, stamp);
              if SetTakes(expireTime) then
                Segments() == ApplyAll(old(Segments()), buckets[0].maxSize, t) &&
                (done <==> ReplyOf(old(Segments()), buckets[0].maxSize, t) == Stored)
              else Segments() == old(Segments()) && !done
    {
      if expireTime < NEVER || expireTime > TWENTY_YEARS {
        return false;
      }
      ghost var reply;
      done, reply := SetIfAbsent(key, data, expireTime, now, stamp);
    }

    method SetIfAbsent(key: Key, data: Data, expireTime: int, now: int, stamp: int)
      returns (done: bool, ghost reply: Reply)
      requires Valid()
      modifies buckets[SegmentOf(key)].Repr()
      ensures Valid() && fresh(buckets[SegmentOf(key)].Repr() - old(buckets[SegmentOf(key)].Repr()))
      ensures var t := Timed(LruSpec.SetIfNX(key, data, expireTime), now, stamp);
              Segments() == ApplyAll(old(Segments()), buckets[0].maxSize, t) &&
              reply == ReplyOf(old(Segments()), buckets[0].maxSize, t)
      ensures done <==> reply == Stored
    {
      var j := Index(key);
      NoneShares(j);
      done, reply := buckets[j].SetIfNotExist(key, data, expireTime, now, stamp);
      Settle(Timed(LruSpec.SetIfNX(key, data, expireTime), now, stamp));
    }

    /** Counting up or down in the bucket of the key. */
    method Counted(key: Key, step: int, expireTime: int, now: int, stamp: int) returns (reply: Reply)
      requires Valid() && (step == 1 || step == -1)
      modifies buckets[SegmentOf(key)].Repr()
      ensures Valid() && fresh(buckets[SegmentOf(key)].Repr() - old(buckets[SegmentOf(key)].Repr()))
      ensures var t := Timed(Count(key, step, expireTime), now, stamp);
              Segments() == ApplyAll(old(Segments()), buckets[0].maxSize, t) &&
              reply == ReplyOf(old(Segments()), buckets[0].maxSize, t)
    {
      var j := Index(key);
      NoneShares(j);
      reply := buckets[j].Recount(key, step, expireTime, now, stamp);
      Settle(Timed(Count(key, step, expireTime), now, stamp));
    }

    method Incr(key: Key, expireTime: int, now: int, stamp: int) returns (reply: Option<Reply>)
      requires Valid()
      modifies buckets[SegmentOf(key)].Repr()
      ensures Valid() && fresh(buckets[SegmentOf(key)].Repr() - old(buckets[SegmentOf(key)].Repr()))
      ensures var t := Timed(Count(key, 1, expireTime), now, stamp);
              if CountTakes(expireTime) then
                Segments() == ApplyAll(old(Segments()), buckets[0].maxSize, t) &&
                reply == Some(ReplyOf(old(Segments()), buckets[0].maxSize, t))
              else Segments() == old(Segments()) && reply == None
    {
      if expireTime <= 0 && expireTime != NEVER {
        return None;
      }
      var r := Counted(key, 1, expireTime, now, stamp);
      return Some(r);
    }

    method Decr(key: Key, expireTime: int, now: int, stamp: int) returns (reply: Option<Reply>)
      requires Valid()
      modifies buckets[SegmentOf(key)].Repr()
      ensures Valid() && fresh(buckets[SegmentOf(key)].Repr() - old(buckets[SegmentOf(key)].Repr()))
      ensures var t := Timed(Count(key, -1, expireTime), now, stamp);
              if CountTakes(expireTime) then
                Segments() == ApplyAll(old(Segments()), buckets[0].maxSize, t) &&
                reply == Some(ReplyOf(old(Segments()), buckets[0].maxSize, t))
              else Segments() == old(Segments()) && reply == None
    {
      if expireTime <= 0 && expireTime != NEVER {
        return None;
      }
      var r := Counted(key, -1, expireTime, now, stamp);
      return Some(r);
    }
  }
}
