/** What the least-recently-used cache of mem.cpp does, as functions on its contents, and what holds
    over every run of it. */
module LruModel {
  import opened Basics

  datatype Entry = Entry(key: word64, data: seq<byte>)

  /** `entries` is in order of use, latest first; `size` is the cache's own account of its bytes. */
  datatype Lru = Lru(capacity: nat, entries: seq<Entry>, size: nat)

  function Bytes(es: seq<Entry>): nat {
    if es == [] then 0 else Bytes(es[..|es| - 1]) + |es[|es| - 1].data|
  }

  function Find(es: seq<Entry>, key: word64): (r: Option<seq<byte>>)
    ensures r.Some? ==> Entry(key, r.value) in es
    ensures r.None? <==> forall e :: e in es ==> e.key != key
  {
    if es == [] then None
    else if es[0].key == key then Some(es[0].data)
    else Find(es[1..], key)
  }

  function Remove(es: seq<Entry>, key: word64): (r: seq<Entry>)
    ensures forall e :: e in r <==> e in es && e.key != key
    ensures |r| <= |es|
  {
    if es == [] then []
    else (if es[0].key == key then [] else [es[0]]) + Remove(es[1..], key)
  }

  ghost predicate DistinctKeys(es: seq<Entry>) {
    forall i, j :: 0 <= i < j < |es| ==> es[i].key != es[j].key
  }

  /** What is left when entries are dropped from the least recently used end until `room` suffices. */
  function Kept(es: seq<Entry>, room: nat): (r: seq<Entry>)
    ensures |r| <= |es| && r == es[..|r|] && Bytes(r) <= room
  {
    if Bytes(es) <= room then es else Kept(es[..|es| - 1], room)
  }

  /** The byte count that no entry accounts for once `key` is taken out. */
  function Unaccounted(s: Lru, key: word64): int {
    s.size - Bytes(Remove(s.entries, key))
  }

  /** LRUCache::put; None where it would ask for the last entry of an empty list. */
  function Put(s: Lru, key: word64, data: seq<byte>): Option<Lru>
    requires Unaccounted(s, key) >= 0
  {
    if |data| > s.capacity then Some(s)
    else
      var drift := Unaccounted(s, key);
      if drift + |data| > s.capacity then None
      else
        var kept := Kept(Remove(s.entries, key), s.capacity - |data| - drift);
        Some(Lru(s.capacity, [Entry(key, data)] + kept, drift + Bytes(kept) + |data|))
  }

  /** LRUCache::get moves the entry to the front; None is the range error. */
  function Get(s: Lru, key: word64): Option<(Lru, seq<byte>)> {
    var found := Find(s.entries, key);
    if found.None? then None
    else Some((s.(entries := [Entry(key, found.value)] + Remove(s.entries, key)), found.value))
  }

  // ----- Byte accounting

  lemma {:induction false} BytesSplit(xs: seq<Entry>, ys: seq<Entry>)
    ensures Bytes(xs + ys) == Bytes(xs) + Bytes(ys)
  {
    if ys == [] {
      assert xs + ys == xs;
    } else {
      assert (xs + ys)[..|xs + ys| - 1] == xs + ys[..|ys| - 1];
      BytesSplit(xs, ys[..|ys| - 1]);
    }
  }

  lemma {:induction false} BytesOne(e: Entry)
    ensures Bytes([e]) == |e.data|
  {
    assert [e][..0] == [];
  }

  lemma {:induction false} RemoveAbsent(es: seq<Entry>, key: word64)
    requires Find(es, key).None?
    ensures Remove(es, key) == es
  {
    if es != [] {
      RemoveAbsent(es[1..], key);
    }
  }

  lemma {:induction false} DistinctTail(es: seq<Entry>)
    requires DistinctKeys(es) && es != []
    ensures DistinctKeys(es[1..]) && Find(es[1..], es[0].key).None?
    ensures forall i :: 1 <= i < |es| ==> es[i].key != es[0].key
  {
    hide Find;
    assert forall i :: 0 <= i < |es| - 1 ==> es[1..][i] == es[i + 1];
  }

  lemma {:induction false} Around(es: seq<Entry>, i: nat)
    requires 0 < i < |es|
    ensures [es[0]] + (es[1..][..i - 1] + es[1..][i..]) == es[..i] + es[i + 1..]
  {
  }

  /** Taking out the entry at `i` leaves the entries around it. */
  lemma {:induction false} RemoveAt(es: seq<Entry>, i: nat)
    requires i < |es| && DistinctKeys(es)
    ensures Remove(es, es[i].key) == es[..i] + es[i + 1..]
  {
    hide Remove, Find, DistinctKeys;
    RemoveHead(es, es[i].key);
    DistinctTail(es);
    if i == 0 {
      RemoveAbsent(es[1..], es[0].key);
    } else {
      assert es[1..][i - 1] == es[i];
      RemoveAt(es[1..], i - 1);
      Around(es, i);
    }
  }

  lemma {:induction false} RemoveHead(es: seq<Entry>, key: word64)
    requires es != []
    ensures Remove(es, key) == if es[0].key == key then Remove(es[1..], key) else [es[0]] + Remove(es[1..], key)
  {
  }

  lemma {:induction false} BytesAt(es: seq<Entry>, i: nat)
    requires i < |es|
    ensures Bytes(es) == Bytes(es[..i] + es[i + 1..]) + |es[i].data|
  {
    hide Bytes;
    var before, after := es[..i], es[i + 1..];
    assert es == before + ([es[i]] + after);
    BytesSplit(before, [es[i]] + after);
    BytesSplit([es[i]], after);
    BytesSplit(before, after);
    BytesOne(es[i]);
  }

  lemma {:induction false} FindAt(es: seq<Entry>, i: nat)
    requires i < |es| && DistinctKeys(es)
    ensures Find(es, es[i].key) == Some(es[i].data)
  {
    if i > 0 {
      FindAt(es[1..], i - 1);
    }
  }

  function StoredSize(es: seq<Entry>, key: word64): nat {
    var found := Find(es, key);
    if found.None? then 0 else |found.value|
  }

  lemma {:induction false} BytesWithout(es: seq<Entry>, key: word64)
    requires DistinctKeys(es)
    ensures Bytes(es) == Bytes(Remove(es, key)) + StoredSize(es, key)
    ensures DistinctKeys(Remove(es, key))
  {
    hide Bytes, Remove, Find;
    if Find(es, key).None? {
      RemoveAbsent(es, key);
    } else {
      var i :| 0 <= i < |es| && es[i].key == key;
      RemoveAt(es, i);
      BytesAt(es, i);
      FindAt(es, i);
    }
  }

  /** The invariant: distinct keys, an account that covers the entries and stays within capacity. */
  ghost predicate Inv(s: Lru) {
    DistinctKeys(s.entries) && Bytes(s.entries) <= s.size <= s.capacity
  }

  /** The account is the sum of the stored sizes. */
  predicate Exact(s: Lru) {
    s.size == Bytes(s.entries)
  }

  /** Eviction drops a suffix and no more than needed: with one more entry the room is exceeded. */
  lemma {:induction false} KeptIsLongest(es: seq<Entry>, room: nat, n: nat)
    requires |Kept(es, room)| < n <= |es|
    ensures Bytes(es[..n]) > room
  {
    if n < |es| {
      assert es[..|es| - 1][..n] == es[..n];
      KeptIsLongest(es[..|es| - 1], room, n);
    } else {
      assert es[..n] == es;
    }
  }

  /** What a put that stores leaves behind. */
  lemma {:induction false} PutStores(s: Lru, key: word64, data: seq<byte>)
    requires Inv(s) && |data| <= s.capacity
    ensures Unaccounted(s, key) == s.size - Bytes(s.entries) + StoredSize(s.entries, key)
    ensures Put(s, key, data).Some? <==> Unaccounted(s, key) + |data| <= s.capacity
    ensures Put(s, key, data).Some? ==>
      var r := Put(s, key, data).value;
      Inv(r) && r.size == Unaccounted(s, key) + Bytes(r.entries)
  {
    hide Bytes, Remove, Kept, Find, DistinctKeys;
    BytesWithout(s.entries, key);
    if Put(s, key, data).Some? {
      var rest := Remove(s.entries, key);
      var kept := Kept(rest, s.capacity - |data| - Unaccounted(s, key));
      BytesSplit([Entry(key, data)], kept);
      BytesOne(Entry(key, data));
      DistinctFront(Entry(key, data), rest, |kept|);
    }
  }

  lemma {:induction false} DistinctFront(e: Entry, rest: seq<Entry>, n: nat)
    requires n <= |rest| && DistinctKeys(rest) && forall r :: r in rest ==> r.key != e.key
    ensures DistinctKeys([e] + rest[..n])
  {
    assert forall i :: 0 <= i < n ==> rest[..n][i] in rest;
  }

  lemma {:induction false} PutKeepsInv(s: Lru, key: word64, data: seq<byte>)
    requires Inv(s)
    ensures Unaccounted(s, key) >= 0
    ensures var r := Put(s, key, data);
      r.Some? ==> Inv(r.value) && r.value.capacity == s.capacity
  {
    BytesWithout(s.entries, key);
    if |data| <= s.capacity {
      PutStores(s, key, data);
    }
  }

  lemma {:induction false} GetKeepsInv(s: Lru, key: word64)
    requires Inv(s) && Get(s, key).Some?
    ensures Inv(Get(s, key).value.0) && Get(s, key).value.0.capacity == s.capacity
    ensures Bytes(Get(s, key).value.0.entries) == Bytes(s.entries)
  {
    hide Bytes, Remove, Find;
    var found := Find(s.entries, key).value;
    BytesWithout(s.entries, key);
    BytesSplit([Entry(key, found)], Remove(s.entries, key));
    BytesOne(Entry(key, found));
    var rest := Remove(s.entries, key);
    DistinctFront(Entry(key, found), rest, |rest|);
    assert rest[..|rest|] == rest;
  }

  /** When storing keeps the account exact: never asking an empty list for its last entry and ending
      with the sum of the sizes happens for all puts except those that overwrite a non-empty entry. */
  lemma {:induction false} PutExactIff(s: Lru, key: word64, data: seq<byte>)
    requires Inv(s) && Exact(s)
    ensures Unaccounted(s, key) >= 0
    ensures var r := Put(s, key, data);
      r.Some? && Exact(r.value) <==> |data| > s.capacity || StoredSize(s.entries, key) == 0
  {
    hide Bytes, Remove, Kept, Find;
    BytesWithout(s.entries, key);
    if |data| <= s.capacity {
      PutStores(s, key, data);
    }
  }

  /** A concrete put that breaks: storing one full-size entry twice. */
  lemma {:induction false} OverwritingBreaks()
    ensures var s := Lru(1, [Entry(7, [0])], 1);
      Inv(s) && Exact(s) && Unaccounted(s, 7) >= 0 && Put(s, 7, [0]).None?
  {
    BytesOne(Entry(7, [0]));
    assert Remove([Entry(7, [0])], 7) == [];
  }

  // ----- Runs

  datatype Op = PutOp(key: word64, data: seq<byte>) | GetOp(key: word64)

  /** One call; a call that fails leaves no state to go on from. */
  function Apply(s: Lru, op: Op): Option<Lru> {
    match op
    case PutOp(key, data) => if Unaccounted(s, key) < 0 then None else Put(s, key, data)
    case GetOp(key) =>
      var r := Get(s, key);
      if r.None? then None else Some(r.value.0)
  }

  function Run(s: Lru, ops: seq<Op>): Option<Lru>
    decreases |ops|
  {
    if ops == [] then Some(s)
    else
      var s' := Apply(s, ops[0]);
      if s'.None? then None else Run(s'.value, ops[1..])
  }

  /** A put that does not overwrite stored bytes, or a get that finds its key. */
  predicate Benign(s: Lru, op: Op) {
    match op
    case PutOp(key, data) => |data| > s.capacity || StoredSize(s.entries, key) == 0
    case GetOp(key) => Find(s.entries, key).Some?
  }

  /** Every call of the run is benign at its moment. */
  predicate BenignCalls(s: Lru, ops: seq<Op>)
    decreases |ops|
  {
    ops == []
    || ( && Benign(s, ops[0])
         && var s' := Apply(s, ops[0]);
            s'.Some? ==> BenignCalls(s'.value, ops[1..]))
  }

  /** The bytes that the account holds beyond the entries. */
  function Drift(s: Lru): int {
    s.size - Bytes(s.entries)
  }

  /** Bytes once unaccounted for are never accounted for again. */
  lemma {:induction false} ApplyKeepsDrift(s: Lru, op: Op)
    requires Inv(s)
    ensures Apply(s, op).Some? ==>
      var s' := Apply(s, op).value;
      Inv(s') && s'.capacity == s.capacity && Drift(s') >= Drift(s)
  {
    hide Bytes, Remove, Kept, Find, StoredSize, DistinctKeys;
    match op
    case PutOp(key, data) =>
      PutKeepsInv(s, key, data);
      if |data| <= s.capacity {
        PutStores(s, key, data);
      }
    case GetOp(key) =>
      if Get(s, key).Some? {
        GetKeepsInv(s, key);
      }
  }

  lemma {:induction false} RunKeepsDrift(s: Lru, ops: seq<Op>)
    requires Inv(s) && Run(s, ops).Some?
    ensures Inv(Run(s, ops).value) && Drift(Run(s, ops).value) >= Drift(s)
    decreases |ops|
  {
    hide Bytes, Apply;
    if ops != [] {
      ApplyKeepsDrift(s, ops[0]);
      RunKeepsDrift(Apply(s, ops[0]).value, ops[1..]);
    }
  }

  /** From an exact account a single call succeeds and leaves an exact one exactly when it is benign. */
  lemma {:induction false} BenignIff(s: Lru, op: Op)
    requires Inv(s) && Exact(s)
    ensures Apply(s, op).Some? && Exact(Apply(s, op).value) <==> Benign(s, op)
  {
    hide Bytes, Remove, Kept, Find, StoredSize, DistinctKeys;
    match op
    case PutOp(key, data) =>
      PutExactIff(s, key, data);
    case GetOp(key) =>
      if Get(s, key).Some? {
        GetKeepsInv(s, key);
      }
  }

  /** Over any run from an exact account: it succeeds and ends exact if and only if every get is for a
      key that is present at its moment, and every put is too large to store or overwrites nothing. */
  lemma {:induction false} RunExactIff(s: Lru, ops: seq<Op>)
    requires Inv(s) && Exact(s)
    ensures Run(s, ops).Some? && Exact(Run(s, ops).value) <==> BenignCalls(s, ops)
    decreases |ops|
  {
    hide Bytes, Apply, Benign;
    if ops != [] && Apply(s, ops[0]).Some? {
      var s' := Apply(s, ops[0]).value;
      BenignIff(s, ops[0]);
      ApplyKeepsDrift(s, ops[0]);
      if Exact(s') {
        RunExactIff(s', ops[1..]);
      } else if Run(s', ops[1..]).Some? {
        RunKeepsDrift(s', ops[1..]);
      }
    } else if ops != [] {
      BenignIff(s, ops[0]);
    }
  }

  /** Every put is for a key that is absent at that moment, and every get for one that is present. */
  predicate GoodCalls(s: Lru, ops: seq<Op>)
    decreases |ops|
  {
    ops == []
    || ( && (match ops[0]
             case PutOp(key, _) => Find(s.entries, key).None?
             case GetOp(key) => Find(s.entries, key).Some?)
         && var s' := Apply(s, ops[0]);
            s'.Some? ==> GoodCalls(s'.value, ops[1..]))
  }

  lemma {:induction false} GoodCallsAreBenign(s: Lru, ops: seq<Op>)
    requires GoodCalls(s, ops)
    ensures BenignCalls(s, ops)
    decreases |ops|
  {
    hide Apply, Find;
    if ops != [] && Apply(s, ops[0]).Some? {
      GoodCallsAreBenign(Apply(s, ops[0]).value, ops[1..]);
    }
  }

  /** Over any such run the cache never fails, and its keys stay distinct, its account exact and within
      capacity. */
  lemma {:induction false} GoodRunsStayExact(s: Lru, ops: seq<Op>)
    requires Inv(s) && Exact(s) && GoodCalls(s, ops)
    ensures Run(s, ops).Some? && Inv(Run(s, ops).value) && Exact(Run(s, ops).value)
  {
    hide Bytes, Apply, GoodCalls, BenignCalls, Run, DistinctKeys;
    GoodCallsAreBenign(s, ops);
    RunExactIff(s, ops);
    RunKeepsDrift(s, ops);
  }

  /** What was last put under a key that the cache could hold. */
  function LastPut(capacity: nat, ops: seq<Op>, key: word64, before: Option<seq<byte>>): Option<seq<byte>> {
    if ops == [] then before
    else LastPut(capacity, ops[1..], key,
                 if ops[0].PutOp? && ops[0].key == key && |ops[0].data| <= capacity then Some(ops[0].data) else before)
  }

  lemma {:induction false} FindCons(e: Entry, rest: seq<Entry>, key: word64)
    ensures Find([e] + rest, key) == if e.key == key then Some(e.data) else Find(rest, key)
  {
    assert ([e] + rest)[1..] == rest;
  }

  lemma {:induction false} PutFinds(s: Lru, key: word64, data: seq<byte>, k: word64)
    requires Inv(s) && Unaccounted(s, key) >= 0 && Put(s, key, data).Some?
    ensures var found := Find(Put(s, key, data).value.entries, k);
      if |data| <= s.capacity && k == key then found == Some(data)
      else found.None? || found == Find(s.entries, k)
  {
    hide Bytes, Remove, Kept, Find, DistinctKeys, Unaccounted;
    var es := s.entries;
    if |data| <= s.capacity {
      var kept := Kept(Remove(es, key), s.capacity - |data| - Unaccounted(s, key));
      var es' := [Entry(key, data)] + kept;
      FindCons(Entry(key, data), kept, k);
      if k != key && Find(kept, k).Some? {
        var e := Entry(k, Find(kept, k).value);
        assert e in kept && e in Remove(es, key) && e in es;
        var i :| 0 <= i < |es| && es[i] == e;
        FindAt(es, i);
      }
    }
  }

  /** A run may forget what was put, but what it finds is what was last put under that key. */
  lemma {:induction false} FindsTheLastPut(s: Lru, ops: seq<Op>, key: word64)
    requires Inv(s) && Run(s, ops).Some?
    ensures var found := Find(Run(s, ops).value.entries, key);
      found.None? || found == LastPut(s.capacity, ops, key, Find(s.entries, key))
    decreases |ops|
  {
    FindsTheLastPutFrom(s, ops, key, Find(s.entries, key));
  }

  lemma {:induction false} FindsTheLastPutFrom(s: Lru, ops: seq<Op>, key: word64, before: Option<seq<byte>>)
    requires Inv(s) && Run(s, ops).Some?
    requires Find(s.entries, key).None? || Find(s.entries, key) == before
    ensures var found := Find(Run(s, ops).value.entries, key);
      found.None? || found == LastPut(s.capacity, ops, key, before)
    decreases |ops|
  {
    hide Bytes, Remove, Kept, Find, Put, Get;
    if ops != [] {
      var s' := Apply(s, ops[0]).value;
      match ops[0] {
        case PutOp(k, data) =>
          PutKeepsInv(s, k, data);
          PutFinds(s, k, data, key);
        case GetOp(k) =>
          GetKeepsInv(s, k);
          GetFinds(s, k, key);
      }
      FindsTheLastPutFrom(s', ops[1..], key,
        if ops[0].PutOp? && ops[0].key == key && |ops[0].data| <= s.capacity then Some(ops[0].data) else before);
    }
  }

  /** Getting changes the order and nothing else. */
  lemma {:induction false} GetFinds(s: Lru, key: word64, k: word64)
    requires Inv(s) && Get(s, key).Some?
    ensures Find(Get(s, key).value.0.entries, k) == Find(s.entries, k)
    ensures Get(s, key).value.1 == Find(s.entries, key).value
  {
    hide Bytes, Remove, DistinctKeys, Find;
    var es := s.entries;
    var rest := Remove(es, key);
    GetKeepsInv(s, key);
    FindCons(Entry(key, Find(es, key).value), rest, k);
    if k != key && Find(es, k).Some? {
      var e := Entry(k, Find(es, k).value);
      assert e in rest;
      var i :| 0 <= i < |rest| && rest[i] == e;
      BytesWithout(es, key);
      FindAt(rest, i);
    }
  }

  // ----- What the memory reader needs of one put and one get

  lemma {:induction false} PutAbsent(s: Lru, key: word64, data: seq<byte>)
    requires Inv(s) && Exact(s) && |data| <= s.capacity && Find(s.entries, key).None?
    ensures Unaccounted(s, key) >= 0 && Put(s, key, data).Some?
    ensures var r := Put(s, key, data).value;
      && Exact(r) && Find(r.entries, key) == Some(data)
      && forall e :: e in r.entries ==> e in s.entries || e == Entry(key, data)
  {
    hide Bytes, Remove, Kept, Inv, Exact;
    PutExactIff(s, key, data);
    PutFinds(s, key, data, key);
  }

  lemma {:induction false} GetPresent(s: Lru, key: word64)
    requires Inv(s) && Exact(s) && Find(s.entries, key).Some?
    ensures Get(s, key).Some?
    ensures var r := Get(s, key).value;
      && Exact(r.0) && r.1 == Find(s.entries, key).value
      && forall e :: e in r.0.entries ==> e in s.entries
  {
    hide Bytes, Remove;
    GetKeepsInv(s, key);
  }
}
