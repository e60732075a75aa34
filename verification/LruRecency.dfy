/** The least-recently-used cache really is one: its entries stand in order of use, as the calls alone tell
    it, and it drops nothing that would have fitted. */
module LruRecency {
  import opened Basics
  import opened LruModel

  const NEVER: int := -1

  /** The call uses the key: a get of it, or a put of it that is not too large to store. */
  predicate Uses(capacity: nat, op: Op, key: word64) {
    op.key == key && (op.PutOp? ==> |op.data| <= capacity)
  }

  /** The number of the last call that used the key. */
  function LastUse(capacity: nat, ops: seq<Op>, key: word64): (n: int)
    ensures NEVER <= n < |ops|
    ensures n >= 0 ==> Uses(capacity, ops[n], key)
    ensures forall i :: n < i < |ops| ==> !Uses(capacity, ops[i], key)
  {
    if ops == [] then NEVER
    else
      var n := |ops| - 1;
      if Uses(capacity, ops[n], key) then n else LastUse(capacity, ops[..n], key)
  }

  /** Later used keys stand before earlier used ones, and every key was used. */
  ghost predicate InOrderOfUse(es: seq<Entry>, capacity: nat, ops: seq<Op>) {
    && (forall i, j :: 0 <= i < j < |es| ==> LastUse(capacity, ops, es[i].key) > LastUse(capacity, ops, es[j].key))
    && (forall i :: 0 <= i < |es| ==> LastUse(capacity, ops, es[i].key) >= 0)
  }

  function Empty(capacity: nat): Lru {
    Lru(capacity, [], 0)
  }

  lemma {:induction false} RunAppend(s: Lru, ops: seq<Op>, op: Op)
    ensures Run(s, ops + [op]) == (if Run(s, ops).None? then None else Apply(Run(s, ops).value, op))
    decreases |ops|
  {
    hide Apply;
    if ops == [] {
      assert [op] == [] + [op] && [op][1..] == [];
    } else {
      assert (ops + [op])[1..] == ops[1..] + [op];
      if Apply(s, ops[0]).Some? {
        RunAppend(Apply(s, ops[0]).value, ops[1..], op);
      }
    }
  }

  lemma {:induction false} LastUseAppend(capacity: nat, ops: seq<Op>, op: Op, key: word64)
    ensures LastUse(capacity, ops + [op], key)
         == if Uses(capacity, op, key) then |ops| else LastUse(capacity, ops, key)
  {
    assert (ops + [op])[..|ops|] == ops;
  }

  lemma {:induction false} TailInOrderOfUse(es: seq<Entry>, capacity: nat, ops: seq<Op>)
    requires es != [] && InOrderOfUse(es, capacity, ops)
    ensures InOrderOfUse(es[1..], capacity, ops)
    ensures forall e :: e in es[1..] ==> LastUse(capacity, ops, e.key) < LastUse(capacity, ops, es[0].key)
    ensures LastUse(capacity, ops, es[0].key) >= 0
  {
    hide LastUse;
    assert forall i :: 0 <= i < |es[1..]| ==> es[1..][i] == es[i + 1];
  }

  lemma {:induction false} ConsInOrderOfUse(e: Entry, rest: seq<Entry>, capacity: nat, ops: seq<Op>)
    requires InOrderOfUse(rest, capacity, ops) && LastUse(capacity, ops, e.key) >= 0
    requires forall r :: r in rest ==> LastUse(capacity, ops, r.key) < LastUse(capacity, ops, e.key)
    ensures InOrderOfUse([e] + rest, capacity, ops)
  {
    hide LastUse;
    assert forall i :: 0 < i < |[e] + rest| ==> ([e] + rest)[i] == rest[i - 1] && rest[i - 1] in rest;
  }

  /** Taking a key out leaves the others in their order. */
  lemma {:induction false} RemoveInOrderOfUse(es: seq<Entry>, key: word64, capacity: nat, ops: seq<Op>)
    requires InOrderOfUse(es, capacity, ops)
    ensures InOrderOfUse(Remove(es, key), capacity, ops)
  {
    hide LastUse, InOrderOfUse, Remove;
    if es == [] {
      NothingToRemove(key);
    } else {
      RemoveHead(es, key);
      TailInOrderOfUse(es, capacity, ops);
      RemoveInOrderOfUse(es[1..], key, capacity, ops);
      if es[0].key != key {
        ConsInOrderOfUse(es[0], Remove(es[1..], key), capacity, ops);
      }
    }
  }

  lemma {:induction false} NothingToRemove(key: word64)
    ensures Remove([], key) == []
  {
  }

  lemma {:induction false} PartInOrderOfUse(es: seq<Entry>, key: word64, n: nat, capacity: nat, ops: seq<Op>)
    requires InOrderOfUse(es, capacity, ops) && n <= |Remove(es, key)|
    ensures InOrderOfUse(Remove(es, key)[..n], capacity, ops)
  {
    hide LastUse, Remove;
    RemoveInOrderOfUse(es, key, capacity, ops);
  }

  /** A new latest entry in front of others whose keys the call does not use. */
  lemma {:induction false} FrontInOrderOfUse(e: Entry, rest: seq<Entry>, capacity: nat, ops: seq<Op>, op: Op)
    requires InOrderOfUse(rest, capacity, ops) && Uses(capacity, op, e.key)
    requires forall r :: r in rest ==> r.key != e.key
    ensures InOrderOfUse([e] + rest, capacity, ops + [op])
  {
    hide LastUse, InOrderOfUse;
    LastUseAppend(capacity, ops, op, e.key);
    UsesEarlier(capacity, ops);
    assert forall key :: Uses(capacity, op, key) ==> key == e.key;
    UnusedInOrder(rest, capacity, ops, op);
    forall r | r in rest ensures LastUse(capacity, ops + [op], r.key) < |ops| {
      LastUseAppend(capacity, ops, op, r.key);
    }
    ConsInOrderOfUse(e, rest, capacity, ops + [op]);
  }

  lemma {:induction false} UsesEarlier(capacity: nat, ops: seq<Op>)
    ensures forall key :: LastUse(capacity, ops, key) < |ops|
  {
  }

  lemma {:induction false} UnusedInOrder(es: seq<Entry>, capacity: nat, ops: seq<Op>, op: Op)
    requires InOrderOfUse(es, capacity, ops) && forall e :: e in es ==> !Uses(capacity, op, e.key)
    ensures InOrderOfUse(es, capacity, ops + [op])
  {
    hide LastUse;
    forall i | 0 <= i < |es|
      ensures LastUse(capacity, ops + [op], es[i].key) == LastUse(capacity, ops, es[i].key)
    {
      LastUseAppend(capacity, ops, op, es[i].key);
    }
  }

  lemma {:induction false} StepInOrderOfUse(s: Lru, ops: seq<Op>, op: Op)
    requires Inv(s) && InOrderOfUse(s.entries, s.capacity, ops) && Apply(s, op).Some?
    ensures InOrderOfUse(Apply(s, op).value.entries, s.capacity, ops + [op])
  {
    hide InOrderOfUse, LastUse, Bytes, Remove, Find, Kept, DistinctKeys;
    match op
    case PutOp(key, data) =>
      if |data| > s.capacity {
        UnusedInOrder(s.entries, s.capacity, ops, op);
      } else {
        var kept := Kept(Remove(s.entries, key), s.capacity - |data| - Unaccounted(s, key));
        PartInOrderOfUse(s.entries, key, |kept|, s.capacity, ops);
        FrontInOrderOfUse(Entry(key, data), kept, s.capacity, ops, op);
      }
    case GetOp(key) =>
      var rest := Remove(s.entries, key);
      PartInOrderOfUse(s.entries, key, |rest|, s.capacity, ops);
      assert rest[..|rest|] == rest;
      FrontInOrderOfUse(Entry(key, Find(s.entries, key).value), rest, s.capacity, ops, op);
  }

  lemma {:induction false} RunKeeps(capacity: nat, ops: seq<Op>)
    requires Run(Empty(capacity), ops).Some?
    ensures Inv(Run(Empty(capacity), ops).value) && Run(Empty(capacity), ops).value.capacity == capacity
    ensures InOrderOfUse(Run(Empty(capacity), ops).value.entries, capacity, ops)
  {
    hide InOrderOfUse, Apply, Inv, Run;
    if ops == [] {
      NothingRun(capacity);
    } else {
      var n := |ops| - 1;
      assert ops == ops[..n] + [ops[n]];
      RunAppend(Empty(capacity), ops[..n], ops[n]);
      RunKeeps(capacity, ops[..n]);
      var s := Run(Empty(capacity), ops[..n]).value;
      ApplyKeepsDrift(s, ops[n]);
      StepInOrderOfUse(s, ops[..n], ops[n]);
    }
  }

  lemma {:induction false} NothingRun(capacity: nat)
    ensures Run(Empty(capacity), []) == Some(Empty(capacity))
    ensures Inv(Empty(capacity)) && InOrderOfUse([], capacity, [])
  {
  }

  /** The recency law: after any run of calls from an empty cache the entries stand in strictly descending
      order of last use. */
  lemma {:induction false} EntriesInOrderOfUse(capacity: nat, ops: seq<Op>)
    requires Run(Empty(capacity), ops).Some?
    ensures var es := Run(Empty(capacity), ops).value.entries;
      && (forall i, j :: 0 <= i < j < |es| ==> LastUse(capacity, ops, es[i].key) > LastUse(capacity, ops, es[j].key))
      && (forall i :: 0 <= i < |es| ==> LastUse(capacity, ops, es[i].key) >= 0)
  {
    hide LastUse, Run;
    RunKeeps(capacity, ops);
  }

  // ----- What a put drops

  lemma {:induction false} KeyIn(es: seq<Entry>, key: word64)
    requires Find(es, key).Some?
    ensures exists i :: 0 <= i < |es| && es[i].key == key
  {
  }

  /** A put drops the entries after some point and no others, and no more of them than it must. */
  lemma {:induction false} PutDropsTail(s: Lru, key: word64, data: seq<byte>)
    requires Inv(s) && |data| <= s.capacity
    requires Unaccounted(s, key) >= 0 && Put(s, key, data).Some?
    ensures var r, rest := Put(s, key, data).value, Remove(s.entries, key);
      var n := |r.entries| - 1;
      && 0 <= n <= |rest| && r.entries == [Entry(key, data)] + rest[..n]
      && (n == |rest| || r.size + |rest[n].data| > s.capacity)
  {
    hide Bytes, Remove, Find, DistinctKeys, Kept;
    var rest, room := Remove(s.entries, key), s.capacity - |data| - Unaccounted(s, key);
    var n := |Kept(rest, room)|;
    if n < |rest| {
      KeptIsLongest(rest, room, n + 1);
      BytesSplit(rest[..n], [rest[n]]);
      BytesOne(rest[n]);
      assert rest[..n] + [rest[n]] == rest[..n + 1];
    }
  }

  /** Every key a call drops was used earlier than every key that stays. */
  lemma {:induction false} DropsTheLeastRecent(capacity: nat, ops: seq<Op>, op: Op, gone: word64, stays: word64)
    requires Run(Empty(capacity), ops).Some? && Run(Empty(capacity), ops + [op]).Some?
    requires var before, after := Run(Empty(capacity), ops).value, Run(Empty(capacity), ops + [op]).value;
      && Find(before.entries, gone).Some? && Find(after.entries, gone).None?
      && Find(after.entries, stays).Some?
    ensures LastUse(capacity, ops, gone) < LastUse(capacity, ops + [op], stays)
  {
    hide InOrderOfUse, LastUse, Run, Bytes, Remove, Find, Kept, DistinctKeys, Put, Get, Unaccounted;
    var s := Run(Empty(capacity), ops).value;
    RunAppend(Empty(capacity), ops, op);
    RunKeeps(capacity, ops);
    LastUseAppend(capacity, ops, op, stays);
    UsesEarlier(capacity, ops);
    match op
    case PutOp(key, data) =>
      PutKeepsInv(s, key, data);
      PutFinds(s, key, data, gone);
      if |data| <= capacity && stays != key {
        PutDropsTail(s, key, data);
        var n := |Put(s, key, data).value.entries| - 1;
        DroppedEarlier(s.entries, Entry(key, data), n, capacity, ops, gone, stays);
      }
      if |data| > capacity {
        PutTooLarge(s, key, data);
      }
    case GetOp(key) =>
      GetFinds(s, key, gone);
  }

  lemma {:induction false} PutTooLarge(s: Lru, key: word64, data: seq<byte>)
    requires |data| > s.capacity && Unaccounted(s, key) >= 0
    ensures Put(s, key, data) == Some(s)
  {
  }

  lemma {:induction false} DroppedEarlier(es: seq<Entry>, e: Entry, n: nat, capacity: nat, ops: seq<Op>, gone: word64,
                                          stays: word64)
    requires InOrderOfUse(es, capacity, ops) && n <= |Remove(es, e.key)|
    requires var after := [e] + Remove(es, e.key)[..n];
      Find(es, gone).Some? && Find(after, gone).None? && Find(after, stays).Some? && stays != e.key
    ensures LastUse(capacity, ops, gone) < LastUse(capacity, ops, stays)
  {
    hide LastUse, Remove, Find, InOrderOfUse;
    var rest := Remove(es, e.key);
    var kept := rest[..n];
    KeyIn(es, gone);
    var i :| 0 <= i < |es| && es[i].key == gone;
    assert es[i] in rest;
    FindCons(e, kept, gone);
    FindCons(e, kept, stays);
    KeyIn(kept, stays);
    var j :| 0 <= j < |kept| && kept[j].key == stays;
    var k :| 0 <= k < |rest| && rest[k] == es[i];
    assert forall m :: 0 <= m < n ==> rest[m] in kept;
    assert rest[..|rest|] == rest;
    PartInOrderOfUse(es, e.key, |rest|, capacity, ops);
    LaterIsEarlierUsed(rest, j, k, capacity, ops);
  }

  lemma {:induction false} LaterIsEarlierUsed(es: seq<Entry>, j: nat, k: nat, capacity: nat, ops: seq<Op>)
    requires InOrderOfUse(es, capacity, ops) && j < k < |es|
    ensures LastUse(capacity, ops, es[j].key) > LastUse(capacity, ops, es[k].key)
  {
  }
}
