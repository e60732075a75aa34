/** Regrouping the threads of all interpreters by OS thread (sortThreadsByStackAnchor and
    normalizeThreads in bindings.cpp). */
module Normalize {
  import opened Basics
  import opened NativeFrames
  import opened Frames
  import opened Slice

  datatype NativeReportingMode = OFF | PYTHON | ALL | LAST

  // ----- Sorting one group

  /** Unsigned 64-bit negation. */
  function NegWord(w: word64): word64 {
    (TWO_64 - w) % TWO_64
  }

  /** The comparison of the pairs (anchor is zero, negated anchor). */
  predicate AnchorLess(a: PyThreadData, b: PyThreadData) {
    var zeroA, zeroB := if a.stackAnchor == 0 then 1 else 0, if b.stackAnchor == 0 then 1 else 0;
    zeroA < zeroB || (zeroA == zeroB && NegWord(a.stackAnchor) < NegWord(b.stackAnchor))
  }

  /** Negation reverses the order of non-zero words, so the comparison is just: larger anchors first. */
  lemma {:induction false} AnchorLessIsDescending(a: PyThreadData, b: PyThreadData)
    ensures AnchorLess(a, b) <==> a.stackAnchor > b.stackAnchor
  {
  }

  function Insert(t: PyThreadData, sorted: seq<PyThreadData>): (r: seq<PyThreadData>)
    ensures |r| == |sorted| + 1
  {
    if sorted == [] then [t]
    else if AnchorLess(sorted[0], t) then [sorted[0]] + Insert(t, sorted[1..])
    else [t] + sorted
  }

  /** The library's stable sort, as a function: ties stay in input order. */
  function SortThreadsByStackAnchor(data: seq<PyThreadData>): (r: seq<PyThreadData>)
    ensures |r| == |data|
  {
    if data == [] then [] else Insert(data[0], SortThreadsByStackAnchor(data[1..]))
  }

  // ----- Regrouping

  /** The thread ids in the order in which they are first seen. */
  function FirstSeen(threads: seq<PyThreadData>): (r: seq<int>)
    ensures forall t :: t in threads ==> t.tid in r
    ensures forall i, j :: 0 <= i < j < |r| ==> r[i] != r[j]
  {
    if threads == [] then []
    else
      var n := |threads| - 1;
      var before := FirstSeen(threads[..n]);
      if threads[n].tid in before then before else before + [threads[n].tid]
  }

  function OfTid(threads: seq<PyThreadData>, tid: int): (r: seq<PyThreadData>)
    ensures forall t :: t in r ==> t.tid == tid
  {
    if threads == [] then []
    else
      var n := |threads| - 1;
      OfTid(threads[..n], tid) + if threads[n].tid == tid then [threads[n]] else []
  }

  function NormalizedGroup(group: seq<PyThreadData>, mode: NativeReportingMode, kind: Classifier): seq<PyThreadData> {
    if |group| <= 1 then group
    else if mode == OFF then SortThreadsByStackAnchor(group)
    else Sliced(SortThreadsByStackAnchor(group), kind)
  }

  function NormalizedGroups(tids: seq<int>, threads: seq<PyThreadData>, mode: NativeReportingMode, kind: Classifier)
    : seq<PyThreadData>
  {
    if tids == [] then []
    else
      var n := |tids| - 1;
      NormalizedGroups(tids[..n], threads, mode, kind) + NormalizedGroup(OfTid(threads, tids[n]), mode, kind)
  }

  function Normalized(threads: seq<PyThreadData>, mode: NativeReportingMode, kind: Classifier): seq<PyThreadData> {
    NormalizedGroups(FirstSeen(threads), threads, mode, kind)
  }

  /** The groups in first-seen order, each with its threads in input order. */
  method GroupByTid(threads: seq<PyThreadData>) returns (groups: seq<seq<PyThreadData>>)
    ensures |groups| == |FirstSeen(threads)|
    ensures forall g :: 0 <= g < |groups| ==> groups[g] == OfTid(threads, FirstSeen(threads)[g])
  {
    hide OfTid, FirstSeen;
    var tidToGroup: map<int, nat> := map[];
    ghost var tids: seq<int> := [];
    groups := [];
    NoThreads(threads);
    for i := 0 to |threads|
      invariant tids == FirstSeen(threads[..i]) && |groups| == |tids|
      invariant forall g :: 0 <= g < |tids| ==> groups[g] == OfTid(threads[..i], tids[g])
      invariant forall tid :: tid in tidToGroup <==> tid in tids
      invariant forall g :: 0 <= g < |tids| ==> tidToGroup[tids[g]] == g
    {
      OneMoreThread(threads, i);
      var tid := threads[i].tid;
      if tid !in tidToGroup {
        tidToGroup := tidToGroup[tid := |groups|];
        groups := groups + [[]];
        tids := tids + [tid];
      }
      var g := tidToGroup[tid];
      groups := groups[g := groups[g] + [threads[i]]];
    }
  }

  method NormalizeThreads(threads: seq<PyThreadData>, mode: NativeReportingMode, version: Version)
    returns (ret: seq<PyThreadData>)
    ensures ret == Normalized(threads, mode, ClassifierFor(Some(version)))
  {
    hide ClassifierFor, NormalizedGroups, OfTid, FirstSeen, Sliced, SortThreadsByStackAnchor;
    ghost var kind := ClassifierFor(Some(version));
    ghost var tids := FirstSeen(threads);
    var groups := GroupByTid(threads);
    NoGroups(tids, threads, mode, kind);
    ret := [];
    for g := 0 to |groups|
      invariant ret == NormalizedGroups(tids[..g], threads, mode, kind)
    {
      OneMoreGroup(tids, threads, mode, kind, g);
      var group := groups[g];
      if |group| > 1 {
        group := SortThreadsByStackAnchor(group);
        if mode != OFF {
          group := SliceNativeStack(group, version);
        }
      }
      ret := ret + group;
    }
  }

  lemma {:induction false} NoGroups(tids: seq<int>, threads: seq<PyThreadData>, mode: NativeReportingMode,
                                    kind: Classifier)
    ensures tids[..|tids|] == tids && NormalizedGroups(tids[..0], threads, mode, kind) == []
  {
  }

  lemma {:induction false} NoThreads(threads: seq<PyThreadData>)
    ensures FirstSeen(threads[..0]) == [] && threads[..|threads|] == threads
  {
  }

  lemma {:induction false} OneMoreThread(threads: seq<PyThreadData>, i: nat)
    requires i < |threads|
    ensures var before, tid := FirstSeen(threads[..i]), threads[i].tid;
      && FirstSeen(threads[..i + 1]) == (if tid in before then before else before + [tid])
      && (tid !in before ==> OfTid(threads[..i], tid) == [])
    ensures forall tid :: OfTid(threads[..i + 1], tid)
                       == OfTid(threads[..i], tid) + if threads[i].tid == tid then [threads[i]] else []
  {
    assert threads[..i + 1][..i] == threads[..i];
    if threads[i].tid !in FirstSeen(threads[..i]) {
      NoneOfTid(threads[..i], threads[i].tid);
    }
  }

  lemma {:induction false} NoneOfTid(threads: seq<PyThreadData>, tid: int)
    requires forall t :: t in threads ==> t.tid != tid
    ensures OfTid(threads, tid) == []
  {
    if threads != [] {
      NoneOfTid(threads[..|threads| - 1], tid);
    }
  }

  lemma {:induction false} OneMoreGroup(tids: seq<int>, threads: seq<PyThreadData>, mode: NativeReportingMode,
                                        kind: Classifier, g: nat)
    requires g < |tids|
    ensures NormalizedGroups(tids[..g + 1], threads, mode, kind)
         == NormalizedGroups(tids[..g], threads, mode, kind) + NormalizedGroup(OfTid(threads, tids[g]), mode, kind)
  {
    assert tids[..g + 1][..g] == tids[..g];
  }

  // ----- The result is an ordered regrouping

  function Strip(t: PyThreadData): PyThreadData {
    t.(natives := [])
  }

  function TiedOne(t: PyThreadData, tid: int, anchor: word64): seq<PyThreadData> {
    if t.tid == tid && t.stackAnchor == anchor then [Strip(t)] else []
  }

  /** The threads with the given id and anchor, native frames aside, in order. */
  function Tied(threads: seq<PyThreadData>, tid: int, anchor: word64): seq<PyThreadData> {
    if threads == [] then []
    else TiedOne(threads[0], tid, anchor) + Tied(threads[1..], tid, anchor)
  }

  function Rank(tids: seq<int>, tid: int): (r: nat)
    ensures r <= |tids|
    ensures r < |tids| ==> tids[r] == tid
    ensures r == |tids| ==> tid !in tids
  {
    if tids == [] || tids[0] == tid then 0 else 1 + Rank(tids[1..], tid)
  }

  /** First-seen order between ids; within an id larger anchors first, zero last. */
  predicate InOrder(tids: seq<int>, a: PyThreadData, b: PyThreadData) {
    Rank(tids, a.tid) < Rank(tids, b.tid) || (a.tid == b.tid && a.stackAnchor >= b.stackAnchor)
  }

  ghost predicate Ordered(tids: seq<int>, threads: seq<PyThreadData>) {
    forall i, j :: 0 <= i < j < |threads| ==> InOrder(tids, threads[i], threads[j])
  }

  lemma {:induction false} TiedSplit(xs: seq<PyThreadData>, ys: seq<PyThreadData>, tid: int, anchor: word64)
    ensures Tied(xs + ys, tid, anchor) == Tied(xs, tid, anchor) + Tied(ys, tid, anchor)
  {
    if xs == [] {
      assert xs + ys == ys;
    } else {
      assert (xs + ys)[1..] == xs[1..] + ys;
      TiedSplit(xs[1..], ys, tid, anchor);
      AppendAssociates(TiedOne(xs[0], tid, anchor), Tied(xs[1..], tid, anchor), Tied(ys, tid, anchor));
    }
  }

  lemma {:induction false} TiedCons(t: PyThreadData, xs: seq<PyThreadData>, tid: int, anchor: word64)
    ensures Tied([t] + xs, tid, anchor) == TiedOne(t, tid, anchor) + Tied(xs, tid, anchor)
  {
    assert ([t] + xs)[1..] == xs;
  }

  /** Threads with different anchors are not under the same key. */
  lemma {:induction false} TiedApart(a: PyThreadData, b: PyThreadData, tid: int, anchor: word64,
                                     rest: seq<PyThreadData>)
    requires a.stackAnchor != b.stackAnchor
    ensures TiedOne(a, tid, anchor) + (TiedOne(b, tid, anchor) + rest)
         == TiedOne(b, tid, anchor) + (TiedOne(a, tid, anchor) + rest)
  {
  }

  lemma {:induction false} InsertStep(t: PyThreadData, xs: seq<PyThreadData>)
    ensures Insert(t, xs) == if xs != [] && AnchorLess(xs[0], t) then [xs[0]] + Insert(t, xs[1..]) else [t] + xs
  {
  }

  lemma {:induction false} TiedInsert(t: PyThreadData, xs: seq<PyThreadData>, tid: int, anchor: word64)
    ensures Tied(Insert(t, xs), tid, anchor) == Tied([t] + xs, tid, anchor)
  {
    hide Tied, TiedOne, Insert, AnchorLess;
    InsertStep(t, xs);
    if xs != [] && AnchorLess(xs[0], t) {
      AnchorLessIsDescending(xs[0], t);
      TiedInsert(t, xs[1..], tid, anchor);
      TiedCons(xs[0], Insert(t, xs[1..]), tid, anchor);
      TiedCons(t, xs[1..], tid, anchor);
      TiedCons(t, xs, tid, anchor);
      assert [xs[0]] + xs[1..] == xs;
      TiedCons(xs[0], xs[1..], tid, anchor);
      TiedApart(xs[0], t, tid, anchor, Tied(xs[1..], tid, anchor));
    }
  }

  lemma {:induction false} TiedSort(xs: seq<PyThreadData>, tid: int, anchor: word64)
    ensures Tied(SortThreadsByStackAnchor(xs), tid, anchor) == Tied(xs, tid, anchor)
  {
    hide Tied, TiedOne, Insert;
    if xs != [] {
      TiedSort(xs[1..], tid, anchor);
      TiedInsert(xs[0], SortThreadsByStackAnchor(xs[1..]), tid, anchor);
      TiedCons(xs[0], SortThreadsByStackAnchor(xs[1..]), tid, anchor);
      TiedCons(xs[0], xs[1..], tid, anchor);
      assert [xs[0]] + xs[1..] == xs;
    }
  }

  /** Slicing changes native frames only. */
  ghost predicate SameButNatives(xs: seq<PyThreadData>, ys: seq<PyThreadData>) {
    |xs| == |ys| && forall i :: 0 <= i < |xs| ==> Strip(xs[i]) == Strip(ys[i])
  }

  lemma {:induction false} SlicedSameButNatives(data: seq<PyThreadData>, kind: Classifier)
    ensures SameButNatives(Sliced(data, kind), data)
  {
    if CountsMatch(data, kind) && data[0].natives != [] {
      SlicePartition(data, kind);
    }
  }

  lemma {:induction false} TiedSameButNatives(xs: seq<PyThreadData>, ys: seq<PyThreadData>, tid: int, anchor: word64)
    requires SameButNatives(xs, ys)
    ensures Tied(xs, tid, anchor) == Tied(ys, tid, anchor)
  {
    if xs != [] {
      assert Strip(xs[0]) == Strip(ys[0]);
      assert forall i :: 0 <= i < |xs[1..]| ==> xs[1..][i] == xs[i + 1] && ys[1..][i] == ys[i + 1];
      TiedSameButNatives(xs[1..], ys[1..], tid, anchor);
    }
  }

  lemma {:induction false} TiedOfTid(threads: seq<PyThreadData>, g: int, tid: int, anchor: word64)
    ensures Tied(OfTid(threads, g), tid, anchor) == if g == tid then Tied(threads, tid, anchor) else []
  {
    hide Tied, OfTid;
    OfTidLast(threads, g);
    NoneTied([], tid, anchor);
    if threads != [] {
      var n := |threads| - 1;
      var t := threads[n];
      TiedOfTid(threads[..n], g, tid, anchor);
      assert threads == threads[..n] + [t];
      TiedSplit(threads[..n], [t], tid, anchor);
      TiedLast(t, tid, anchor);
      if t.tid == g {
        TiedSplit(OfTid(threads[..n], g), [t], tid, anchor);
      }
    }
  }

  lemma {:induction false} OfTidLast(threads: seq<PyThreadData>, g: int)
    ensures if threads == [] then OfTid(threads, g) == []
      else
        var n := |threads| - 1;
        OfTid(threads, g)
        == if threads[n].tid == g then OfTid(threads[..n], g) + [threads[n]] else OfTid(threads[..n], g)
  {
  }

  lemma {:induction false} TiedLast(t: PyThreadData, tid: int, anchor: word64)
    ensures Tied([t], tid, anchor) == TiedOne(t, tid, anchor)
  {
    assert [t][1..] == [];
  }

  lemma {:induction false} TiedGroup(group: seq<PyThreadData>, mode: NativeReportingMode, kind: Classifier, tid: int,
                                     anchor: word64)
    ensures Tied(NormalizedGroup(group, mode, kind), tid, anchor) == Tied(group, tid, anchor)
  {
    var sorted := SortThreadsByStackAnchor(group);
    TiedSort(group, tid, anchor);
    SlicedSameButNatives(sorted, kind);
    TiedSameButNatives(Sliced(sorted, kind), sorted, tid, anchor);
  }

  lemma {:induction false} TiedGroups(tids: seq<int>, threads: seq<PyThreadData>, mode: NativeReportingMode,
                                      kind: Classifier, tid: int, anchor: word64)
    requires forall i, j :: 0 <= i < j < |tids| ==> tids[i] != tids[j]
    ensures Tied(NormalizedGroups(tids, threads, mode, kind), tid, anchor)
         == if tid in tids then Tied(threads, tid, anchor) else []
  {
    hide Tied, OfTid, NormalizedGroup;
    if tids == [] {
      NoneTied([], tid, anchor);
    } else {
      var n := |tids| - 1;
      var group := OfTid(threads, tids[n]);
      TiedGroups(tids[..n], threads, mode, kind, tid, anchor);
      TiedSplit(NormalizedGroups(tids[..n], threads, mode, kind), NormalizedGroup(group, mode, kind), tid, anchor);
      TiedGroup(group, mode, kind, tid, anchor);
      TiedOfTid(threads, tids[n], tid, anchor);
      assert tid in tids <==> tid in tids[..n] || tid == tids[n];
    }
  }

  lemma {:induction false} NoneTied(threads: seq<PyThreadData>, tid: int, anchor: word64)
    requires forall t :: t in threads ==> t.tid != tid
    ensures Tied(threads, tid, anchor) == []
  {
    if threads != [] {
      NoneTied(threads[1..], tid, anchor);
    }
  }

  // Order inside a group, and of the groups

  ghost predicate Descending(threads: seq<PyThreadData>) {
    forall i, j :: 0 <= i < j < |threads| ==> threads[i].stackAnchor >= threads[j].stackAnchor
  }

  lemma {:induction false} InsertDescending(t: PyThreadData, xs: seq<PyThreadData>)
    requires Descending(xs)
    ensures Descending(Insert(t, xs))
    ensures forall x :: x in Insert(t, xs) <==> x == t || x in xs
  {
    if xs != [] && AnchorLess(xs[0], t) {
      AnchorLessIsDescending(xs[0], t);
      InsertDescending(t, xs[1..]);
      assert forall x :: x in xs <==> x == xs[0] || x in xs[1..];
      var r, tail := Insert(t, xs), Insert(t, xs[1..]);
      hide Insert;
      forall i, j | 0 <= i < j < |r| ensures r[i].stackAnchor >= r[j].stackAnchor {
        assert r[j] == tail[j - 1];
        if i == 0 {
          assert r[j] == t || r[j] in xs[1..];
        } else {
          assert r[i] == tail[i - 1];
        }
      }
    } else if xs != [] {
      AnchorLessIsDescending(xs[0], t);
      assert forall x :: x in [t] + xs <==> x == t || x in xs;
    }
  }

  lemma {:induction false} SortDescending(xs: seq<PyThreadData>)
    ensures Descending(SortThreadsByStackAnchor(xs))
    ensures forall x :: x in SortThreadsByStackAnchor(xs) <==> x in xs
  {
    if xs != [] {
      SortDescending(xs[1..]);
      InsertDescending(xs[0], SortThreadsByStackAnchor(xs[1..]));
      assert forall x :: x in xs <==> x == xs[0] || x in xs[1..];
    }
  }

  lemma {:induction false} GroupDescending(group: seq<PyThreadData>, mode: NativeReportingMode, kind: Classifier,
                                           tid: int)
    requires forall t :: t in group ==> t.tid == tid
    ensures Descending(NormalizedGroup(group, mode, kind))
    ensures forall t :: t in NormalizedGroup(group, mode, kind) ==> t.tid == tid
  {
    var sorted := SortThreadsByStackAnchor(group);
    SortDescending(group);
    SlicedSameButNatives(sorted, kind);
    var sliced := Sliced(sorted, kind);
    forall i | 0 <= i < |sliced|
      ensures sliced[i].tid == tid && sliced[i].stackAnchor == sorted[i].stackAnchor
    {
      assert Strip(sliced[i]) == Strip(sorted[i]) && sorted[i] in group;
    }
  }

  lemma {:induction false} RankAt(tids: seq<int>, i: nat)
    requires i < |tids|
    requires forall j, k :: 0 <= j < k < |tids| ==> tids[j] != tids[k]
    ensures Rank(tids, tids[i]) == i
  {
    if i > 0 {
      RankAt(tids[1..], i - 1);
    }
  }

  lemma {:induction false} GroupsOrdered(tids: seq<int>, m: nat, threads: seq<PyThreadData>, mode: NativeReportingMode,
                                         kind: Classifier)
    requires m <= |tids|
    requires forall j, k :: 0 <= j < k < |tids| ==> tids[j] != tids[k]
    ensures var out := NormalizedGroups(tids[..m], threads, mode, kind);
      Ordered(tids, out) && forall t :: t in out ==> Rank(tids, t.tid) < m
  {
    if m > 0 {
      var before := NormalizedGroups(tids[..m - 1], threads, mode, kind);
      var group := NormalizedGroup(OfTid(threads, tids[m - 1]), mode, kind);
      GroupsOrdered(tids, m - 1, threads, mode, kind);
      OneMoreGroup(tids, threads, mode, kind, m - 1);
      GroupDescending(OfTid(threads, tids[m - 1]), mode, kind, tids[m - 1]);
      RankAt(tids, m - 1);
      OrderedAppend(tids, before, group, m - 1);
    }
  }

  lemma {:induction false} OrderedAppend(tids: seq<int>, before: seq<PyThreadData>, group: seq<PyThreadData>, r: nat)
    requires Ordered(tids, before) && Descending(group)
    requires forall t :: t in before ==> Rank(tids, t.tid) < r
    requires r < |tids| && Rank(tids, tids[r]) == r && forall t :: t in group ==> t.tid == tids[r]
    ensures Ordered(tids, before + group) && forall t :: t in before + group ==> Rank(tids, t.tid) <= r
  {
    hide Rank;
    var out := before + group;
    forall i, j | 0 <= i < j < |out| ensures InOrder(tids, out[i], out[j]) {
      if j < |before| {
        assert InOrder(tids, before[i], before[j]);
      } else {
        assert out[j] in group;
        if i < |before| {
          assert out[i] in before;
        } else {
          assert out[i] in group && group[i - |before|].stackAnchor >= group[j - |before|].stackAnchor;
        }
      }
    }
  }

  /** The position of the first thread with an id. */
  function FirstAt(threads: seq<PyThreadData>, tid: int): (i: nat)
    ensures i <= |threads|
    ensures i < |threads| ==> threads[i].tid == tid
    ensures forall j :: 0 <= j < i ==> threads[j].tid != tid
  {
    if threads == [] || threads[0].tid == tid then 0 else 1 + FirstAt(threads[1..], tid)
  }

  lemma {:induction false} FirstAtIs(threads: seq<PyThreadData>, tid: int, i: nat)
    requires i < |threads| && threads[i].tid == tid && forall j :: 0 <= j < i ==> threads[j].tid != tid
    ensures FirstAt(threads, tid) == i
  {
    hide FirstAt;
    assert FirstAt(threads, tid) < |threads|;
  }

  lemma {:induction false} FirstAtStays(threads: seq<PyThreadData>, n: nat, tid: int)
    requires n <= |threads| && FirstAt(threads[..n], tid) < n
    ensures FirstAt(threads, tid) == FirstAt(threads[..n], tid)
  {
    hide FirstAt;
    FirstAtIs(threads, tid, FirstAt(threads[..n], tid));
  }

  ghost predicate InOrderOfFirst(threads: seq<PyThreadData>, tids: seq<int>) {
    && (forall i :: 0 <= i < |tids| ==> FirstAt(threads, tids[i]) < |threads|)
    && (forall i, j :: 0 <= i < j < |tids| ==> FirstAt(threads, tids[i]) < FirstAt(threads, tids[j]))
  }

  lemma {:induction false} OrderStays(threads: seq<PyThreadData>, n: nat, tids: seq<int>)
    requires n <= |threads| && InOrderOfFirst(threads[..n], tids)
    ensures InOrderOfFirst(threads, tids) && forall i :: 0 <= i < |tids| ==> FirstAt(threads, tids[i]) < n
  {
    hide FirstAt;
    forall i | 0 <= i < |tids| ensures FirstAt(threads, tids[i]) == FirstAt(threads[..n], tids[i]) {
      assert FirstAt(threads[..n], tids[i]) < n;
      FirstAtStays(threads, n, tids[i]);
    }
  }

  lemma {:induction false} OrderGrows(threads: seq<PyThreadData>, tids: seq<int>, tid: int)
    requires InOrderOfFirst(threads, tids) && FirstAt(threads, tid) < |threads|
    requires forall i :: 0 <= i < |tids| ==> FirstAt(threads, tids[i]) < FirstAt(threads, tid)
    ensures InOrderOfFirst(threads, tids + [tid])
  {
    hide FirstAt;
  }

  /** First-seen order is what it says: ids come in the order of their first threads. */
  lemma {:induction false} FirstSeenInOrder(threads: seq<PyThreadData>)
    ensures InOrderOfFirst(threads, FirstSeen(threads))
  {
    hide FirstAt, InOrderOfFirst;
    if threads == [] {
      NothingInOrder(threads);
    } else {
      var n := |threads| - 1;
      var before, t := FirstSeen(threads[..n]), threads[n];
      FirstSeenInOrder(threads[..n]);
      OrderStays(threads, n, before);
      if t.tid !in before {
        forall j | 0 <= j < n ensures threads[j].tid != t.tid {
          assert threads[j] == threads[..n][j] && threads[..n][j] in threads[..n];
        }
        FirstAtIs(threads, t.tid, n);
        OrderGrows(threads, before, t.tid);
      }
    }
  }

  lemma {:induction false} NothingInOrder(threads: seq<PyThreadData>)
    ensures InOrderOfFirst(threads, [])
  {
  }

  /** normalizeThreads regroups and reorders and, native frames aside, does nothing else: thread ids
      come in first-seen order, so equal ids are together; inside an id anchors descend with zero
      last; and threads equal in both keep their input order, none lost and none added. */
  lemma {:induction false} OrderedRegrouping(threads: seq<PyThreadData>, mode: NativeReportingMode, kind: Classifier)
    ensures var out := Normalized(threads, mode, kind);
      && Ordered(FirstSeen(threads), out)
      && forall tid, anchor :: Tied(out, tid, anchor) == Tied(threads, tid, anchor)
  {
    var tids := FirstSeen(threads);
    assert tids[..|tids|] == tids;
    GroupsOrdered(tids, |tids|, threads, mode, kind);
    forall tid, anchor ensures Tied(Normalized(threads, mode, kind), tid, anchor) == Tied(threads, tid, anchor) {
      TiedGroups(tids, threads, mode, kind, tid, anchor);
      if tid !in tids {
        NoneTied(threads, tid, anchor);
      }
    }
  }

  // ----- What the regrouping theorem pins down

  function StripAll(threads: seq<PyThreadData>): (r: seq<PyThreadData>)
    ensures |r| == |threads| && forall i :: 0 <= i < |r| ==> r[i] == Strip(threads[i])
  {
    if threads == [] then [] else [Strip(threads[0])] + StripAll(threads[1..])
  }

  lemma {:induction false} FirstTied(xs: seq<PyThreadData>, i: nat)
    requires i < |xs|
    ensures Strip(xs[i]) in Tied(xs, xs[i].tid, xs[i].stackAnchor)
  {
    if i > 0 {
      FirstTied(xs[1..], i - 1);
    }
  }

  lemma {:induction false} TiedHasKey(xs: seq<PyThreadData>, tid: int, anchor: word64)
    requires Tied(xs, tid, anchor) != []
    ensures exists i :: 0 <= i < |xs| && xs[i].tid == tid && xs[i].stackAnchor == anchor
  {
    if !(xs[0].tid == tid && xs[0].stackAnchor == anchor) {
      TiedHasKey(xs[1..], tid, anchor);
      var i :| 0 <= i < |xs[1..]| && xs[1..][i].tid == tid && xs[1..][i].stackAnchor == anchor;
      assert xs[i + 1].tid == tid && xs[i + 1].stackAnchor == anchor;
    }
  }

  /** Two ordered lists with the same threads under every key are the same list: the regrouping
      theorem determines the result completely, native frames aside. */
  lemma {:induction false} RegroupingIsUnique(tids: seq<int>, xs: seq<PyThreadData>, ys: seq<PyThreadData>)
    requires Ordered(tids, xs) && Ordered(tids, ys)
    requires forall t :: t in xs || t in ys ==> t.tid in tids
    requires forall tid, anchor :: Tied(xs, tid, anchor) == Tied(ys, tid, anchor)
    ensures StripAll(xs) == StripAll(ys)
    decreases |xs|
  {
    if xs == [] {
      NothingTied(ys);
    } else {
      FirstTied(xs, 0);
      TiedHasKey(ys, xs[0].tid, xs[0].stackAnchor);
      FirstTied(ys, 0);
      TiedHasKey(xs, ys[0].tid, ys[0].stackAnchor);
      SameFirstKey(tids, xs, ys);
      assert Strip(xs[0]) == Tied(xs, xs[0].tid, xs[0].stackAnchor)[0];
      assert Strip(ys[0]) == Tied(ys, xs[0].tid, xs[0].stackAnchor)[0];
      forall tid, anchor ensures Tied(xs[1..], tid, anchor) == Tied(ys[1..], tid, anchor) {
        assert Tied(xs, tid, anchor) == Tied(ys, tid, anchor);
        TiedTail(xs, tid, anchor);
        TiedTail(ys, tid, anchor);
      }
      RegroupingIsUnique(tids, xs[1..], ys[1..]);
    }
  }

  lemma {:induction false} NothingTied(ys: seq<PyThreadData>)
    requires forall tid, anchor :: Tied(ys, tid, anchor) == []
    ensures ys == []
  {
    assert ys != [] ==> Tied(ys, ys[0].tid, ys[0].stackAnchor) == [];
  }

  lemma {:induction false} TiedTail(xs: seq<PyThreadData>, tid: int, anchor: word64)
    requires xs != []
    ensures var whole := Tied(xs, tid, anchor);
      if xs[0].tid == tid && xs[0].stackAnchor == anchor
      then whole != [] && Tied(xs[1..], tid, anchor) == whole[1..]
      else Tied(xs[1..], tid, anchor) == whole
  {
  }

  lemma {:induction false} SameFirstKey(tids: seq<int>, xs: seq<PyThreadData>, ys: seq<PyThreadData>)
    requires xs != [] && ys != [] && Ordered(tids, xs) && Ordered(tids, ys)
    requires xs[0].tid in tids && ys[0].tid in tids
    requires exists i :: 0 <= i < |ys| && ys[i].tid == xs[0].tid && ys[i].stackAnchor == xs[0].stackAnchor
    requires exists i :: 0 <= i < |xs| && xs[i].tid == ys[0].tid && xs[i].stackAnchor == ys[0].stackAnchor
    ensures xs[0].tid == ys[0].tid && xs[0].stackAnchor == ys[0].stackAnchor
  {
    hide Rank;
    var i :| 0 <= i < |ys| && ys[i].tid == xs[0].tid && ys[i].stackAnchor == xs[0].stackAnchor;
    var j :| 0 <= j < |xs| && xs[j].tid == ys[0].tid && xs[j].stackAnchor == ys[0].stackAnchor;
    if i > 0 && j > 0 {
      assert InOrder(tids, ys[0], ys[i]) && InOrder(tids, xs[0], xs[j]);
    }
  }
}
