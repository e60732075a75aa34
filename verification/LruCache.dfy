/** The cache as mem.cpp builds it: a list of nodes in order of use, and a table from keys to the
    cached bytes and the node of the key. */
module LruCache {
  import opened Basics
  import opened LruModel

  class ListNode {
    const key: word64
    const size: nat

    constructor (key: word64, size: nat)
      ensures this.key == key && this.size == size
    {
      this.key := key;
      this.size := size;
    }
  }

  /** `it` is the list position of the key: the node itself. */
  datatype CacheValue = CacheValue(data: seq<byte>, it: ListNode)

  /** Removing the node a list position points at. */
  function Erase(list: seq<ListNode>, it: ListNode): (r: seq<ListNode>)
    ensures forall n :: n in r ==> n in list
  {
    if list == [] then [] else if list[0] == it then list[1..] else [list[0]] + Erase(list[1..], it)
  }

  /** The list and the table describe the same entries: list keys are distinct and are the table's
      keys, and every table entry points at its own node, which records its size. */
  ghost predicate LinkedOn(list: seq<ListNode>, cache: map<word64, CacheValue>) {
    && (forall i, j :: 0 <= i < j < |list| ==> list[i].key != list[j].key)
    && (forall i :: 0 <= i < |list| ==>
          && list[i].key in cache
          && cache[list[i].key].it == list[i]
          && list[i].size == |cache[list[i].key].data|)
    && (forall key :: key in cache ==> cache[key].it in list && cache[key].it.key == key)
  }

  function EntriesOf(list: seq<ListNode>, cache: map<word64, CacheValue>): (es: seq<Entry>)
    ensures |es| == |list|
    ensures forall i :: 0 <= i < |es| ==> es[i] == EntryOf(list[i].key, cache)
  {
    seq(|list|, i requires 0 <= i < |list| => EntryOf(list[i].key, cache))
  }

  function EntryOf(key: word64, cache: map<word64, CacheValue>): Entry {
    Entry(key, if key in cache then cache[key].data else [])
  }

  lemma {:induction false} EraseAt(list: seq<ListNode>, i: nat)
    requires i < |list| && forall j, k :: 0 <= j < k < |list| ==> list[j].key != list[k].key
    ensures Erase(list, list[i]) == list[..i] + list[i + 1..]
  {
    if i > 0 {
      EraseAt(list[1..], i - 1);
      assert list[1..][..i - 1] == list[1..i] && list[1..][i..] == list[i + 1..];
      assert [list[0]] + (list[1..i] + list[i + 1..]) == list[..i] + list[i + 1..];
    }
  }

  /** Taking a key out of the list and out of the table keeps them in step. */
  lemma {:induction false} UnlinkKeepsStep(list: seq<ListNode>, cache: map<word64, CacheValue>, i: nat)
    requires LinkedOn(list, cache) && i < |list|
    ensures LinkedOn(list[..i] + list[i + 1..], cache - {list[i].key})
  {
    var list', cache' := list[..i] + list[i + 1..], cache - {list[i].key};
    assert forall k :: 0 <= k < |list'| ==> list'[k] == list[if k < i then k else k + 1];
    forall key | key in cache' ensures cache'[key].it in list' {
      var j :| 0 <= j < |list| && list[j] == cache[key].it;
      assert list'[if j < i then j else j - 1] == list[j];
    }
  }

  lemma {:induction false} UnlinkEntries(list: seq<ListNode>, cache: map<word64, CacheValue>, i: nat)
    requires LinkedOn(list, cache) && i < |list|
    ensures EntriesOf(list[..i] + list[i + 1..], cache - {list[i].key})
         == EntriesOf(list, cache)[..i] + EntriesOf(list, cache)[i + 1..]
  {
  }

  lemma {:induction false} Unlink(list: seq<ListNode>, cache: map<word64, CacheValue>, i: nat)
    requires LinkedOn(list, cache) && i < |list|
    ensures var list', cache' := list[..i] + list[i + 1..], cache - {list[i].key};
      LinkedOn(list', cache') && EntriesOf(list', cache') == Remove(EntriesOf(list, cache), list[i].key)
  {
    UnlinkKeepsStep(list, cache, i);
    UnlinkEntries(list, cache, i);
    EntriesDistinct(list, cache);
    hide Remove, LinkedOn;
    RemoveAt(EntriesOf(list, cache), i);
  }

  lemma {:induction false} EntriesDistinct(list: seq<ListNode>, cache: map<word64, CacheValue>)
    requires LinkedOn(list, cache)
    ensures DistinctKeys(EntriesOf(list, cache))
  {
  }

  lemma {:induction false} UnlinkLast(list: seq<ListNode>, cache: map<word64, CacheValue>)
    requires LinkedOn(list, cache) && list != []
    ensures var n := |list| - 1;
      && LinkedOn(list[..n], cache - {list[n].key})
      && EntriesOf(list[..n], cache - {list[n].key}) == EntriesOf(list, cache)[..n]
      && list[n].size == |EntriesOf(list, cache)[n].data|
  {
    var n := |list| - 1;
    assert list[..n] + list[n + 1..] == list[..n];
    UnlinkKeepsStep(list, cache, n);
    UnlinkEntries(list, cache, n);
  }

  /** Putting a new key in front keeps them in step. */
  lemma {:induction false} Link(list: seq<ListNode>, cache: map<word64, CacheValue>, node: ListNode, data: seq<byte>)
    requires LinkedOn(list, cache) && node.key !in cache && node.size == |data|
    ensures var list', cache' := [node] + list, cache[node.key := CacheValue(data, node)];
      LinkedOn(list', cache') && EntriesOf(list', cache') == [Entry(node.key, data)] + EntriesOf(list, cache)
  {
    hide LinkedOn, EntriesOf;
    LinkKeepsStep(list, cache, node, data);
    LinkedEntries(list, cache, node, data);
  }

  lemma {:induction false} LinkKeepsStep(list: seq<ListNode>, cache: map<word64, CacheValue>, node: ListNode,
                                         data: seq<byte>)
    requires LinkedOn(list, cache) && node.key !in cache && node.size == |data|
    ensures LinkedOn([node] + list, cache[node.key := CacheValue(data, node)])
  {
    var list', cache' := [node] + list, cache[node.key := CacheValue(data, node)];
    assert list'[0] == node && forall k :: 1 <= k < |list'| ==> list'[k] == list[k - 1];
    forall key | key in cache' ensures cache'[key].it in list' {
      if key != node.key {
        var j :| 0 <= j < |list| && list[j] == cache[key].it;
        assert list'[j + 1] == list[j];
      }
    }
  }

  lemma {:induction false} EntriesOfCons(list: seq<ListNode>, cache: map<word64, CacheValue>)
    requires list != []
    ensures EntriesOf(list, cache) == [EntryOf(list[0].key, cache)] + EntriesOf(list[1..], cache)
  {
    hide EntryOf;
  }

  lemma {:induction false} SameEntries(list: seq<ListNode>, cache: map<word64, CacheValue>, cache': map<word64,
                                       CacheValue>)
    requires forall k :: 0 <= k < |list| ==> EntryOf(list[k].key, cache) == EntryOf(list[k].key, cache')
    ensures EntriesOf(list, cache) == EntriesOf(list, cache')
  {
    hide EntryOf;
  }

  lemma {:induction false} LinkedEntries(list: seq<ListNode>, cache: map<word64, CacheValue>, node: ListNode,
                                         data: seq<byte>)
    requires LinkedOn(list, cache) && node.key !in cache
    ensures EntriesOf([node] + list, cache[node.key := CacheValue(data, node)])
         == [Entry(node.key, data)] + EntriesOf(list, cache)
  {
    hide EntriesOf;
    var cache' := cache[node.key := CacheValue(data, node)];
    EntriesOfCons([node] + list, cache');
    assert ([node] + list)[1..] == list;
    SameEntries(list, cache, cache');
  }

  lemma {:induction false} TableKeys(list: seq<ListNode>, cache: map<word64, CacheValue>, key: word64)
    requires LinkedOn(list, cache)
    ensures key in cache <==> Find(EntriesOf(list, cache), key).Some?
    ensures key in cache ==> Find(EntriesOf(list, cache), key) == Some(cache[key].data)
  {
    var es := EntriesOf(list, cache);
    if key in cache {
      var i :| 0 <= i < |list| && list[i] == cache[key].it;
      FindAt(es, i);
    } else {
      assert forall e :: e in es ==> e.key in cache;
    }
  }

  lemma {:induction false} EraseNode(list: seq<ListNode>, cache: map<word64, CacheValue>, key: word64)
    requires LinkedOn(list, cache) && key in cache
    ensures var list' := Erase(list, cache[key].it);
      LinkedOn(list', cache - {key}) && EntriesOf(list', cache - {key}) == Remove(EntriesOf(list, cache), key)
    ensures cache[key].it.key == key && cache[key].it.size == |cache[key].data|
  {
    hide Remove;
    var i :| 0 <= i < |list| && list[i] == cache[key].it;
    EraseAt(list, i);
    Unlink(list, cache, i);
  }

  lemma {:induction false} MoveToFront(list: seq<ListNode>, cache: map<word64, CacheValue>, key: word64)
    requires LinkedOn(list, cache) && key in cache
    ensures var list' := [cache[key].it] + Erase(list, cache[key].it);
      LinkedOn(list', cache)
      && EntriesOf(list', cache) == [Entry(key, cache[key].data)] + Remove(EntriesOf(list, cache), key)
  {
    hide Remove, LinkedOn, EntriesOf, Erase;
    var value := cache[key];
    EraseNode(list, cache, key);
    Link(Erase(list, value.it), cache - {key}, value.it, value.data);
    assert (cache - {key})[key := value] == cache;
  }

  class LRUCache {
    var list: seq<ListNode>
    var cache: map<word64, CacheValue>
    const capacity: nat
    var size: nat

    ghost function View(): Lru
      reads this
    {
      Lru(capacity, EntriesOf(list, cache), size)
    }

    ghost predicate Valid()
      reads this
    {
      LinkedOn(list, cache) && Inv(View())
    }

    constructor (capacity: nat)
      ensures Valid() && View() == Lru(capacity, [], 0)
    {
      this.capacity := capacity;
      list := [];
      cache := map[];
      size := 0;
    }

    predicate CanFit(bytes: nat) {
      capacity >= bytes
    }

    predicate Exists(key: word64)
      reads this
    {
      key in cache
    }

    /** `stuck` where the source takes the last element of an empty list, which is undefined. */
    method PutValue(key: word64, value: seq<byte>) returns (stuck: bool)
      requires Valid()
      modifies this
      ensures Unaccounted(old(View()), key) >= 0
      ensures stuck <==> Put(old(View()), key, value).None?
      ensures !stuck ==> Valid() && View() == Put(old(View()), key, value).value
    {
      hide Bytes, Remove, Find, Kept, LinkedOn, EntriesOf;
      stuck := false;
      ghost var before := View();
      PutKeepsInv(before, key, value);
      TableKeys(list, cache, key);
      if !CanFit(|value|) {
        return;
      }
      if key in cache {
        DropKey(key);
      } else {
        RemoveAbsent(before.entries, key);
      }
      ghost var drift := Unaccounted(before, key);
      stuck := MakeRoom(|value|, drift);
      if stuck {
        return;
      }
      var node := new ListNode(key, |value|);
      Link(list, cache, node, value);
      list := [node] + list;
      cache := cache[key := CacheValue(value, node)];
      size := size + |value|;
    }

    /** Erases the node of a key and its table entry; the account is not touched. */
    method DropKey(key: word64)
      requires LinkedOn(list, cache) && key in cache
      modifies this`list, this`cache
      ensures LinkedOn(list, cache) && key !in cache
      ensures View() == old(View()).(entries := Remove(old(View()).entries, key))
    {
      hide Remove, LinkedOn, EntriesOf, Erase;
      EraseNode(list, cache, key);
      list := Erase(list, cache[key].it);
      cache := cache - {key};
    }

    /** Drops least recently used entries until `bytes` more fit. `drift` is what the account holds
        beyond the entries; if that alone leaves no room the list runs empty and the loop is stuck. */
    method MakeRoom(bytes: nat, ghost drift: nat) returns (stuck: bool)
      requires LinkedOn(list, cache) && size == drift + Bytes(View().entries)
      modifies this
      ensures LinkedOn(list, cache) && cache.Keys <= old(cache.Keys)
      ensures stuck <==> drift + bytes > capacity
      ensures !stuck ==> View().entries == Kept(old(View()).entries, capacity - bytes - drift)
      ensures size == drift + Bytes(View().entries)
    {
      hide Bytes, Remove, Kept, LinkedOn, EntriesOf;
      ghost var rest, room := View().entries, capacity - bytes - drift;
      while size + bytes > capacity
        invariant LinkedOn(list, cache) && cache.Keys <= old(cache.Keys)
        invariant size == drift + Bytes(View().entries)
        invariant room >= 0 ==> Kept(rest, room) == Kept(View().entries, room)
        decreases |list|
      {
        KeptStep(View().entries, room);
        if list == [] {
          return true;
        }
        var back := list[|list| - 1];
        UnlinkLast(list, cache);
        cache := cache - {back.key};
        size := size - back.size;
        list := list[..|list| - 1];
      }
      KeptStep(View().entries, room);
      return false;
    }

    /** The stored bytes, moving the entry to the front; None is the source's range error. */
    method GetValue(key: word64) returns (r: Option<seq<byte>>)
      requires Valid()
      modifies this
      ensures Valid()
      ensures match Get(old(View()), key)
        case None => r == None && View() == old(View())
        case Some(result) => r == Some(result.1) && View() == result.0
    {
      hide Bytes, Remove, Find, LinkedOn, EntriesOf, Erase;
      TableKeys(list, cache, key);
      if key !in cache {
        return None;
      }
      GetKeepsInv(View(), key);
      MoveToFront(list, cache, key);
      var value := cache[key];
      list := [value.it] + Erase(list, value.it);
      return Some(value.data);
    }
  }

  /** What a valid cache says about a key, in terms of its entries. */
  lemma {:induction false} KeyFacts(c: LRUCache, key: word64)
    requires c.Valid()
    ensures Inv(c.View())
    ensures c.Exists(key) <==> Find(c.View().entries, key).Some?
  {
    hide Find, LinkedOn, EntriesOf;
    TableKeys(c.list, c.cache, key);
  }

  lemma {:induction false} KeptStep(es: seq<Entry>, room: int)
    ensures 0 <= Bytes(es) <= room ==> Kept(es, room) == es
    ensures 0 <= room < Bytes(es) ==> es != [] && Kept(es, room) == Kept(es[..|es| - 1], room)
    ensures es != [] ==> Bytes(es) == Bytes(es[..|es| - 1]) + |es[|es| - 1].data|
    ensures es == [] ==> Bytes(es) == 0
  {
  }
}
