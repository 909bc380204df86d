/** The segmented LRU cache: an index and a list of shared elements in every bucket. */
module LruCache {
  import opened Basics
  import opened LruSpec

  class Element {
    const key: Key
    var data: Data
    var expireTime: int

    constructor (key: Key, data: Data, expireTime: int)
      ensures this.key == key && this.data == data && this.expireTime == expireTime
    {
      this.key, this.data, this.expireTime := key, data, expireTime;
    }

    function Entry(): LruSpec.Entry
      reads this
    {
      LruSpec.Entry(key, data, expireTime)
    }
  }

  ghost function EntriesOf(list: seq<Element>): (es: seq<LruSpec.Entry>)
    reads list
    ensures |es| == |list|
    ensures forall i | 0 <= i < |list| :: es[i] == list[i].Entry()
  {
    seq(|list|, i requires 0 <= i < |list| reads list => list[i].Entry())
  }

  lemma EntriesWithout(list: seq<Element>, i: nat)
    requires i < |list|
    ensures EntriesOf(Without(list, i)) == Without(EntriesOf(list), i)
  {
  }

  lemma EntriesCons(e: Element, list: seq<Element>)
    ensures EntriesOf([e] + list) == [e.Entry()] + EntriesOf(list)
  {
  }

  lemma SameTail(e: LruSpec.Entry, a: seq<LruSpec.Entry>, b: seq<LruSpec.Entry>)
    requires [e] + a == [e] + b
    ensures a == b
  {
    assert ([e] + a)[1..] == a && ([e] + b)[1..] == b;
  }

  twostate lemma EntriesStay(list: seq<Element>)
    requires forall e | e in list :: unchanged(e)
    ensures EntriesOf(list) == old(EntriesOf(list))
  {
    forall i | 0 <= i < |list|
      ensures EntriesOf(list)[i] == old(EntriesOf(list)[i])
    {
      assert list[i] in list;
    }
  }

  lemma EntriesRefresh(list: seq<Element>, i: nat)
    requires i < |list|
    ensures EntriesOf([list[i]] + Without(list, i)) == Refresh(EntriesOf(list), i, EntriesOf(list)[i])
  {
    EntriesWithout(list, i);
  }

  /** The index and the list are in bijection by key, and the list has no element twice. */
  ghost predicate Bijection(elemIndex: map<Key, Element>, list: seq<Element>) {
    && (forall i | 0 <= i < |list| :: list[i].key in elemIndex && elemIndex[list[i].key] == list[i])
    && (forall key | key in elemIndex :: elemIndex[key] in list && elemIndex[key].key == key)
    && (forall i, j | 0 <= i < j < |list| :: list[i] != list[j])
  }

  lemma BijectionWithout(elemIndex: map<Key, Element>, list: seq<Element>, i: nat)
    requires Bijection(elemIndex, list) && i < |list|
    ensures Bijection(elemIndex - {list[i].key}, Without(list, i))
  {
    var rest := Without(list, i);
    forall j | 0 <= j < |rest|
      ensures rest[j].key != list[i].key
    {
      assert rest[j] == list[if j < i then j else j + 1];
    }
    forall key | key in elemIndex && key != list[i].key
      ensures elemIndex[key] in rest
    {
      var j :| 0 <= j < |list| && list[j] == elemIndex[key];
      assert rest[if j < i then j else j - 1] == elemIndex[key];
    }
  }

  lemma BijectionWith(elemIndex: map<Key, Element>, list: seq<Element>, e: Element)
    requires Bijection(elemIndex, list) && e.key !in elemIndex
    ensures Bijection(elemIndex[e.key := e], [e] + list)
  {
    assert forall i | 0 <= i < |list| :: list[i].key != e.key;
    forall key | key in elemIndex
      ensures elemIndex[key] in [e] + list
    {
      var j :| 0 <= j < |list| && list[j] == elemIndex[key];
      assert ([e] + list)[j + 1] == elemIndex[key];
    }
  }

  lemma BijectionMoved(elemIndex: map<Key, Element>, list: seq<Element>, i: nat)
    requires Bijection(elemIndex, list) && i < |list|
    ensures Bijection(elemIndex, [list[i]] + Without(list, i))
  {
    BijectionWithout(elemIndex, list, i);
    BijectionWith(elemIndex - {list[i].key}, Without(list, i), list[i]);
    assert (elemIndex - {list[i].key})[list[i].key := list[i]] == elemIndex;
  }

  class Bucket {
    const maxSize: nat
    var elemIndex: map<Key, Element>
    var list: seq<Element>            // front first

    ghost predicate Valid()
      reads this
    {
      0 < maxSize && |list| <= maxSize && Bijection(elemIndex, list)
    }

    ghost function Repr(): set<object>
      reads this
    {
      {this} + set e: object | e in list
    }

    /** The meaning of the bucket: its entries, most recently used first. */
    ghost function Entries(): (es: seq<LruSpec.Entry>)
      reads Repr()
    {
      EntriesOf(list)
    }

    constructor (maxSize: nat)
      requires maxSize > 0
      ensures Valid() && this.maxSize == maxSize && list == []
    {
      this.maxSize, elemIndex, list := maxSize, map[], [];
    }

    /** The index finds the element that a search of the list would find. */
    lemma IndexFinds(key: Key)
      requires Valid()
      ensures key in elemIndex <==> HasKey(Entries(), key)
      ensures key in elemIndex ==>
                Find(Entries(), key).Some? && list[Find(Entries(), key).value] == elemIndex[key]
    {
    }

    /** Moves the element at position i of the list to its front. */
    method MoveToFront(v: Element, ghost i: nat)
      requires Valid() && i < |list| && list[i] == v
      modifies this`list
      ensures Valid() && list == [v] + Without(old(list), i)
      ensures Entries() == Refresh(old(Entries()), i, old(Entries())[i])
    {
      var j :| 0 <= j < |list| && list[j] == v;
      assert j == i;
      var moved := [list[j]] + Without(list, j);
      BijectionMoved(elemIndex, list, i);
      EntriesRefresh(list, i);
      assert EntriesOf(moved) == Refresh(Entries(), i, Entries()[i]);
      list := moved;
    }

    method SafeDeleteByKey(key: Key, v: Element, ghost i: nat)
      requires Valid() && i < |list| && list[i] == v && v.key == key
      modifies this`list, this`elemIndex
      ensures Valid() && list == Without(old(list), i) && elemIndex == old(elemIndex) - {key}
      ensures forall e | e in list :: e in old(list)
      ensures Entries() == Without(old(Entries()), i)
    {
      BijectionWithout(elemIndex, list, i);
      EntriesWithout(list, i);
      var j :| 0 <= j < |list| && list[j] == v;
      assert j == i;
      list, elemIndex := Without(list, j), elemIndex - {key};
    }

    method SafeRemoveOldest()
      requires Valid()
      modifies this`list, this`elemIndex
      ensures Valid()
      ensures list == if old(list) == [] then [] else old(list)[..|old(list)| - 1]
      ensures Entries() == if old(list) == [] then [] else old(Entries())[..|old(list)| - 1]
      ensures elemIndex.Keys <= old(elemIndex.Keys)
    {
      if list == [] {
        return;
      }
      var v := list[|list| - 1];
      SafeDeleteByKey(v.key, v, |list| - 1);
    }

    method PushFront(e: Element)
      requires Valid() && e.key !in elemIndex && |list| < maxSize
      modifies this`list, this`elemIndex
      ensures Valid() && list == [e] + old(list)
      ensures Entries() == [e.Entry()] + old(Entries())
    {
      BijectionWith(elemIndex, list, e);
      EntriesCons(e, list);
      list, elemIndex := [e] + list, elemIndex[e.key := e];
    }

    method SetInner(key: Key, data: Data, expireTime: int, stamp: int)
      requires Valid() && key !in elemIndex
      modifies this`list, this`elemIndex
      ensures Valid() && forall e | e in list :: e in old(list) || fresh(e)
      ensures Entries() == Push(old(Entries()), maxSize, LruSpec.Entry(key, data, ExpiresAt(stamp, expireTime)))
    {
      if |list| + 1 > maxSize {
        SafeRemoveOldest();
      }
      ghost var kept := Entries();
      var e := new Element(key, data, ExpiresAt(stamp, expireTime));
      assert Entries() == kept;
      PushFront(e);
    }

    /** Overwrites the element at the front, before the others. */
    method PkgElement(ele: Element, data: Data, expireTime: int, ghost others: seq<LruSpec.Entry>)
      requires Valid() && list != [] && list[0] == ele && Entries() == [ele.Entry()] + others
      modifies ele
      ensures Entries() == [LruSpec.Entry(ele.key, data, expireTime)] + others
    {
      ghost var rest := list[1..];
      FrontIsOnce(rest, ele);
      EntriesCons(ele, rest);
      SameTail(ele.Entry(), EntriesOf(rest), others);
      label before:
      ele.data, ele.expireTime := data, expireTime;
      EntriesStay@before(rest);
      EntriesCons(ele, rest);
    }

    lemma FrontIsOnce(rest: seq<Element>, ele: Element)
      requires Valid() && list != [] && list[0] == ele && rest == list[1..]
      ensures list == [ele] + rest && ele !in rest
    {
    }

    /** Looks a key up in the index and moves its element to the front. */
    method Touch(key: Key) returns (ele: Element, ghost i: nat)
      requires Valid() && key in elemIndex
      modifies this`list
      ensures Valid() && list != [] && list[0] == ele && forall e | e in list :: e in old(list)
      ensures ele in old(list) && ele.key == key && elemIndex == old(elemIndex)
      ensures Find(old(Entries()), key) == Some(i) && old(Entries())[i] == ele.Entry()
      ensures Entries() == Refresh(old(Entries()), i, ele.Entry())
    {
      IndexFinds(key);
      ele := elemIndex[key];
      i := Find(Entries(), key).value;
      MoveToFront(ele, i);
    }

    method SetValue(key: Key, data: Data, expireTime: int, ghost now: int, stamp: int)
      requires Valid()
      modifies Repr()
      ensures Valid() && forall e | e in list :: e in old(list) || fresh(e)
      ensures Entries() == Apply(old(Entries()), maxSize, Set(key, data, expireTime), now, stamp).entries
    {
      ghost var es, op := Entries(), Set(key, data, expireTime);
      IndexFinds(key);
      if key !in elemIndex {
        assert Apply(es, maxSize, op, now, stamp) == OnMissing(es, maxSize, op, stamp);
        SetInner(key, data, expireTime, stamp);
        return;
      }
      var v, i := Touch(key);
      assert Apply(es, maxSize, op, now, stamp) == OnFound(es, i, op, now, stamp);
      PkgElement(v, data, ExpiresAt(stamp, expireTime), Without(es, i));
    }

    method GetValue(key: Key, now: int, ghost stamp: int) returns (reply: Reply)
      requires Valid()
      modifies Repr()
      ensures Valid() && forall e | e in list :: e in old(list) || fresh(e)
      ensures Outcome(Entries(), reply) == Apply(old(Entries()), maxSize, Get(key), now, stamp)
    {
      IndexFinds(key);
      if key !in elemIndex {
        return Missing;
      }
      reply := GetFound(key, now, stamp);
    }

    method GetFound(key: Key, now: int, ghost stamp: int) returns (reply: Reply)
      requires Valid() && key in elemIndex && Find(Entries(), key).Some?
      modifies Repr()
      ensures Valid() && forall e | e in list :: e in old(list)
      ensures Outcome(Entries(), reply)
              == OnFound(old(Entries()), old(Find(Entries(), key).value), Get(key), now, stamp)
    {
      ghost var es := Entries();
      var ele, i := Touch(key);
      var overdue := ele.expireTime != NEVER && now > ele.expireTime;
      assert overdue <==> Expired(es[i], now);
      if overdue {
        DropFirst(key, ele, es, i);
        return ExpiredKey;
      }
      return Found(ele.data);
    }

    /** Deletes the element that has just moved to the front from position i of the list es. */
    method DropFirst(key: Key, ele: Element, ghost es: seq<LruSpec.Entry>, ghost i: nat)
      requires Valid() && list != [] && list[0] == ele && ele.key == key
      requires i < |es| && Entries() == Refresh(es, i, es[i])
      modifies this`list, this`elemIndex
      ensures Valid() && Entries() == Without(es, i) && forall e | e in list :: e in old(list)
    {
      RefreshThenDrop(es, i, es[i]);
      SafeDeleteByKey(key, ele, 0);
    }

    method DelValue(key: Key, ghost now: int, ghost stamp: int)
      requires Valid()
      modifies Repr()
      ensures Valid() && forall e | e in list :: e in old(list) || fresh(e)
      ensures Entries() == Apply(old(Entries()), maxSize, Delete(key), now, stamp).entries
    {
      IndexFinds(key);
      if key in elemIndex {
        SafeDeleteByKey(key, elemIndex[key], Find(Entries(), key).value);
      }
    }

    method SetIfNotExist(key: Key, data: Data, expireTime: int, now: int, stamp: int)
      returns (done: bool, ghost reply: Reply)
      requires Valid()
      modifies Repr()
      ensures Valid() && forall e | e in list :: e in old(list) || fresh(e)
      ensures Outcome(Entries(), reply) == Apply(old(Entries()), maxSize, SetIfNX(key, data, expireTime), now, stamp)
      ensures done <==> reply == Stored
    {
      ghost var es, op := Entries(), SetIfNX(key, data, expireTime);
      IndexFinds(key);
      if key !in elemIndex {
        assert Apply(es, maxSize, op, now, stamp) == OnMissing(es, maxSize, op, stamp);
        SetInner(key, data, expireTime, stamp);
        return true, Stored;
      }
      var ele, i := Touch(key);
      assert Apply(es, maxSize, op, now, stamp) == OnFound(es, i, op, now, stamp);
      if ele.expireTime == NEVER || now < ele.expireTime {
        return false, Refused;
      }
      PkgElement(ele, data, ExpiresAt(stamp, expireTime), Without(es, i));
      return true, Stored;
    }

    /** What INCR and DECR do to a key they find: ele has moved to the front from position i of es. */
    method CountElement(
      ele: Element, step: int, expireTime: int, now: int, stamp: int, ghost es: seq<LruSpec.Entry>, ghost i: nat)
      returns (reply: Reply)
      requires Valid() && list != [] && list[0] == ele && (step == 1 || step == -1)
      requires i < |es| && es[i] == ele.Entry() && Entries() == Refresh(es, i, es[i])
      modifies ele
      ensures Outcome(Entries(), reply) == OnFound(es, i, Count(ele.key, step, expireTime), now, stamp)
    {
      var newValue := step;
      if ele.expireTime == NEVER || now < ele.expireTime {
        if !ele.data.Int64? || ele.data.n == (if step > 0 then MAX_INT64 else MIN_INT64) {
          return NotCountable;
        }
        newValue := ele.data.n + step;
      }
      PkgElement(ele, Int64(newValue), ExpiresAt(stamp, expireTime), Without(es, i));
      return Counted(newValue);
    }

    method Increment(key: Key, expireTime: int, now: int, stamp: int) returns (reply: Reply)
      requires Valid()
      modifies Repr()
      ensures Valid() && forall e | e in list :: e in old(list) || fresh(e)
      ensures Outcome(Entries(), reply) == Apply(old(Entries()), maxSize, Count(key, 1, expireTime), now, stamp)
    {
      ghost var es, op := Entries(), Count(key, 1, expireTime);
      IndexFinds(key);
      if key !in elemIndex {
        assert Apply(es, maxSize, op, now, stamp) == OnMissing(es, maxSize, op, stamp);
        SetInner(key, Int64(1), expireTime, stamp);
        return Counted(1);
      }
      var ele, i := Touch(key);
      assert Apply(es, maxSize, op, now, stamp) == OnFound(es, i, op, now, stamp);
      reply := CountElement(ele, 1, expireTime, now, stamp, es, i);
    }

    method Decrement(key: Key, expireTime: int, now: int, stamp: int) returns (reply: Reply)
      requires Valid()
      modifies Repr()
      ensures Valid() && forall e | e in list :: e in old(list) || fresh(e)
      ensures Outcome(Entries(), reply) == Apply(old(Entries()), maxSize, Count(key, -1, expireTime), now, stamp)
    {
      ghost var es, op := Entries(), Count(key, -1, expireTime);
      IndexFinds(key);
      if key !in elemIndex {
        assert Apply(es, maxSize, op, now, stamp) == OnMissing(es, maxSize, op, stamp);
        SetInner(key, Int64(-1), expireTime, stamp);
        return Counted(-1);
      }
      var ele, i := Touch(key);
      assert Apply(es, maxSize, op, now, stamp) == OnFound(es, i, op, now, stamp);
      reply := CountElement(ele, -1, expireTime, now, stamp, es, i);
    }

    /** INCR for step 1, DECR for step -1. */
    method Recount(key: Key, step: int, expireTime: int, now: int, stamp: int) returns (reply: Reply)
      requires Valid() && (step == 1 || step == -1)
      modifies Repr()
      ensures Valid() && forall e | e in list :: e in old(list) || fresh(e)
      ensures Outcome(Entries(), reply) == Apply(old(Entries()), maxSize, Count(key, step, expireTime), now, stamp)
    {
      if step == 1 {
        reply := Increment(key, expireTime, now, stamp);
      } else {
        reply := Decrement(key, expireTime, now, stamp);
      }
    }
  }
}
