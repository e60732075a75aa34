/** Sharing one native stack between the interpreters that run on the same OS thread
    (sliceNativeStack in bindings.cpp), and why nothing is lost by it. */
module Slice {
  import opened Basics
  import opened NativeFrames
  import opened Frames
  import opened Merge

  function TotalEntries(data: seq<PyThreadData>): nat {
    if data == [] then 0 else EntryCount(data[0].frames) + TotalEntries(data[1..])
  }

  /** The positions of the evaluation frames, in order. */
  function EvalIndices(natives: seq<NativeFrame>, kind: Classifier): (r: seq<nat>)
    ensures |r| <= |natives|
    ensures forall k :: 0 <= k < |r| ==> r[k] < |natives| && kind(natives[r[k]]) == Eval
    ensures forall j, k :: 0 <= j < k < |r| ==> r[j] < r[k]
  {
    if natives == [] then []
    else
      var n := |natives| - 1;
      EvalIndices(natives[..n], kind) + if kind(natives[n]) == Eval then [n] else []
  }

  /** Where the slice that begins with evaluation frame `k` starts; slice 0 takes the frames before
      the first evaluation frame too, and past the last one there is only the end of the stack. */
  function Cut(natives: seq<NativeFrame>, kind: Classifier, k: nat): (c: nat)
    ensures c <= |natives|
  {
    if k == 0 then 0
    else if k < |EvalIndices(natives, kind)| then EvalIndices(natives, kind)[k]
    else |natives|
  }

  lemma {:induction false} CutMonotone(natives: seq<NativeFrame>, kind: Classifier, j: nat, k: nat)
    requires j <= k
    ensures Cut(natives, kind, j) <= Cut(natives, kind, k)
  {
  }

  /** The slice of a thread with `n` entry frames when `from` evaluation frames are already taken. */
  function SliceOf(natives: seq<NativeFrame>, kind: Classifier, from: nat, n: nat): seq<NativeFrame> {
    CutMonotone(natives, kind, from, from + n);
    if n == 0 then [] else natives[Cut(natives, kind, from)..Cut(natives, kind, from + n)]
  }

  function SliceFrom(data: seq<PyThreadData>, natives: seq<NativeFrame>, kind: Classifier,
                     from: nat): (r: seq<PyThreadData>)
    ensures |r| == |data|
  {
    if data == [] then []
    else
      var n := EntryCount(data[0].frames);
      [data[0].(natives := SliceOf(natives, kind, from, n))] + SliceFrom(data[1..], natives, kind, from + n)
  }

  predicate CountsMatch(data: seq<PyThreadData>, kind: Classifier) {
    data != [] && EvalCount(data[0].natives, kind) == TotalEntries(data)
  }

  function Sliced(data: seq<PyThreadData>, kind: Classifier): (r: seq<PyThreadData>)
    ensures |r| == |data|
  {
    if data == [] || data[0].natives == [] || !CountsMatch(data, kind) then data
    else SliceFrom(data, data[0].natives, kind, 0)
  }

  method EvalIndex(natives: seq<NativeFrame>, version: Version) returns (evalIndex: seq<nat>)
    ensures evalIndex == EvalIndices(natives, ClassifierFor(Some(version)))
  {
    hide ClassifierFor, IsEvalSymbol, EvalIndices;
    ghost var kind := ClassifierFor(Some(version));
    evalIndex := [];
    EvalIndicesEnds(natives, kind);
    for i := 0 to |natives|
      invariant evalIndex == EvalIndices(natives[..i], kind)
    {
      EvalKindIsEvalSymbol(natives[i], version);
      EvalIndicesStep(natives, kind, i);
      if IsEvalSymbol(natives[i].symbol, version) {
        evalIndex := evalIndex + [i];
      }
    }
  }

  method SliceNativeStack(group: seq<PyThreadData>, version: Version) returns (data: seq<PyThreadData>)
    ensures data == Sliced(group, ClassifierFor(Some(version)))
  {
    hide ClassifierFor, KindOf, IsEvalSymbol, EvalIndices, EvalCount, EntryCount, SliceFrom, TotalEntries, Cut, SliceOf;
    data := group;
    if |data| == 0 || |data[0].natives| == 0 {
      return;
    }
    ghost var kind := ClassifierFor(Some(version));
    var natives := data[0].natives;

    var evalIndex := EvalIndex(natives, version);
    EvalIndicesCount(natives, kind);
    if |evalIndex| != TotalEntries(data) {
      return;
    }

    var cursor: nat, nativeCursor: nat := 0, 0;
    SliceEnds(group, natives, kind);
    FirstCut(natives, kind);
    for t := 0 to |data|
      invariant |data| == |group| && data[t..] == group[t..]
      invariant nativeCursor == Cut(natives, kind, cursor)
      invariant data[..t] + SliceFrom(group[t..], natives, kind, cursor) == SliceFrom(group, natives, kind, 0)
    {
      assert data[t] == data[t..][0];
      SliceStep(data[..t], group[t..], natives, kind, cursor);
      assert group[t..][1..] == group[t + 1..];
      var entries := EntryCount(data[t].frames);
      if entries == 0 {
        EmptySlice(natives, kind, cursor);
        UpdateAt(data, t, data[t].(natives := []));
        data := data[t := data[t].(natives := [])];
        continue;
      }
      var nextCursor := cursor + entries;
      var nextNativeCursor := if nextCursor < |evalIndex| then evalIndex[nextCursor] else |natives|;
      NextCut(natives, kind, cursor, entries);
      var slice := natives[nativeCursor..nextNativeCursor];
      UpdateAt(data, t, data[t].(natives := slice));
      data := data[t := data[t].(natives := slice)];
      nativeCursor := nextNativeCursor;
      cursor := nextCursor;
    }
  }

  lemma {:induction false} FirstCut(natives: seq<NativeFrame>, kind: Classifier)
    ensures Cut(natives, kind, 0) == 0
  {
  }

  lemma {:induction false} NextCut(natives: seq<NativeFrame>, kind: Classifier, from: nat, n: nat)
    requires n > 0
    ensures var indices, a, b := EvalIndices(natives, kind), Cut(natives, kind, from), Cut(natives, kind, from + n);
      && b == (if from + n < |indices| then indices[from + n] else |natives|)
      && a <= b && SliceOf(natives, kind, from, n) == natives[a..b]
  {
    CutMonotone(natives, kind, from, from + n);
  }

  lemma {:induction false} EmptySlice(natives: seq<NativeFrame>, kind: Classifier, from: nat)
    ensures SliceOf(natives, kind, from, 0) == []
  {
  }

  lemma {:induction false} EvalIndicesEnds(natives: seq<NativeFrame>, kind: Classifier)
    ensures EvalIndices(natives[..0], kind) == []
    ensures natives[..|natives|] == natives
  {
  }

  lemma {:induction false} EvalIndicesStep(natives: seq<NativeFrame>, kind: Classifier, i: nat)
    requires i < |natives|
    ensures EvalIndices(natives[..i + 1], kind)
         == EvalIndices(natives[..i], kind) + if kind(natives[i]) == Eval then [i] else []
  {
    assert natives[..i + 1][..i] == natives[..i];
  }

  lemma {:induction false} SliceEnds(group: seq<PyThreadData>, natives: seq<NativeFrame>, kind: Classifier)
    ensures group[..0] == [] && group[0..] == group
    ensures forall from: nat :: SliceFrom(group[|group|..], natives, kind, from) == []
  {
  }

  lemma {:induction false} SliceStep(done: seq<PyThreadData>, rest: seq<PyThreadData>, natives: seq<NativeFrame>,
                                     kind: Classifier,
                                     from: nat)
    requires rest != []
    ensures var n := EntryCount(rest[0].frames);
      done + SliceFrom(rest, natives, kind, from)
      == (done + [rest[0].(natives := SliceOf(natives, kind, from, n))]) + SliceFrom(rest[1..], natives, kind, from + n)
  {
    hide SliceOf, EntryCount;
    var n := EntryCount(rest[0].frames);
    AppendAssociates(done, [rest[0].(natives := SliceOf(natives, kind, from, n))],
                     SliceFrom(rest[1..], natives, kind, from + n));
  }

  // ----- How many evaluation frames a slice holds

  lemma {:induction false} EvalIndicesCount(natives: seq<NativeFrame>, kind: Classifier)
    ensures |EvalIndices(natives, kind)| == EvalCount(natives, kind)
  {
    if natives != [] {
      var n := |natives| - 1;
      assert natives == natives[..n] + [natives[n]];
      EvalIndicesCount(natives[..n], kind);
      EvalCountSplit(natives[..n], [natives[n]], kind);
    }
  }

  lemma {:induction false} EvalsBeforeIndex(natives: seq<NativeFrame>, kind: Classifier, k: nat)
    requires k < |EvalIndices(natives, kind)|
    ensures EvalCount(natives[..EvalIndices(natives, kind)[k]], kind) == k
  {
    var n := |natives| - 1;
    var before := EvalIndices(natives[..n], kind);
    if k < |before| {
      EvalsBeforeIndex(natives[..n], kind, k);
      assert natives[..n][..before[k]] == natives[..before[k]];
    } else {
      EvalIndicesCount(natives[..n], kind);
    }
  }

  lemma {:induction false} EvalsBeforeCut(natives: seq<NativeFrame>, kind: Classifier, k: nat)
    requires k <= EvalCount(natives, kind)
    ensures EvalCount(natives[..Cut(natives, kind, k)], kind) == k
  {
    EvalIndicesCount(natives, kind);
    if k == EvalCount(natives, kind) {
      assert natives[..|natives|] == natives;
    }
    if 0 < k < EvalCount(natives, kind) {
      EvalsBeforeIndex(natives, kind, k);
    }
  }

  lemma {:induction false} CutAtEval(natives: seq<NativeFrame>, kind: Classifier, k: nat)
    requires 0 < k < EvalCount(natives, kind)
    ensures Cut(natives, kind, k) < |natives| && kind(natives[Cut(natives, kind, k)]) == Eval
    ensures forall n: nat :: n > k ==> Cut(natives, kind, n) > Cut(natives, kind, k)
  {
    hide EvalCount, EvalIndices;
    EvalIndicesCount(natives, kind);
  }

  lemma {:induction false} SliceOfEvals(natives: seq<NativeFrame>, kind: Classifier, from: nat, n: nat)
    requires from + n <= EvalCount(natives, kind)
    ensures var slice := SliceOf(natives, kind, from, n);
      && EvalCount(slice, kind) == n
      && (n == 0 ==> slice == [])
      && (n > 0 && from > 0 ==> slice != [] && kind(slice[0]) == Eval)
  {
    hide Cut, EvalCount;
    CutMonotone(natives, kind, from, from + n);
    if n == 0 {
      NoEvals([], kind);
    } else if from > 0 {
      CutAtEval(natives, kind, from);
    }
    EvalsBeforeCut(natives, kind, from);
    EvalsBeforeCut(natives, kind, from + n);
    var a, b := Cut(natives, kind, from), Cut(natives, kind, from + n);
    assert natives[..b] == natives[..a] + natives[a..b];
    EvalCountSplit(natives[..a], natives[a..b], kind);
  }

  lemma {:induction false} SliceOfJoins(natives: seq<NativeFrame>, kind: Classifier, from: nat, n: nat)
    ensures natives[Cut(natives, kind, from)..]
         == SliceOf(natives, kind, from, n) + natives[Cut(natives, kind, from + n)..]
  {
    CutMonotone(natives, kind, from, from + n);
    var a, b := Cut(natives, kind, from), Cut(natives, kind, from + n);
    hide Cut;
    assert natives[a..] == natives[a..b] + natives[b..];
  }

  // ----- The slices partition the native stack

  function NativesOf(data: seq<PyThreadData>): seq<NativeFrame> {
    if data == [] then [] else data[0].natives + NativesOf(data[1..])
  }

  /** A thread the formatter will agree to merge. */
  predicate Mergeable(t: PyThreadData, kind: Classifier) {
    EvalCount(t.natives, kind) == EntryCount(t.frames)
  }

  /** Thread `j` gets the slice that follows the entry frames of the threads before it. */
  lemma {:induction false} SliceAt(data: seq<PyThreadData>, natives: seq<NativeFrame>, kind: Classifier, from: nat,
                                   j: nat)
    requires j < |data|
    ensures SliceFrom(data, natives, kind, from)[j]
         == data[j].(natives := SliceOf(natives, kind, from + TotalEntries(data[..j]), EntryCount(data[j].frames)))
    ensures TotalEntries(data[..j]) + EntryCount(data[j].frames) <= TotalEntries(data)
  {
    hide SliceOf, EntryCount;
    if j > 0 {
      assert data[..j][1..] == data[1..][..j - 1];
      SliceAt(data[1..], natives, kind, from + EntryCount(data[0].frames), j - 1);
    }
  }

  lemma {:induction false} CutAtEnd(natives: seq<NativeFrame>, kind: Classifier, from: nat)
    requires from == EvalCount(natives, kind) > 0
    ensures Cut(natives, kind, from) == |natives|
  {
    EvalIndicesCount(natives, kind);
  }

  lemma {:induction false} SliceFromConserves(data: seq<PyThreadData>, natives: seq<NativeFrame>, kind: Classifier,
                                              from: nat)
    requires from + TotalEntries(data) == EvalCount(natives, kind) > 0
    ensures NativesOf(SliceFrom(data, natives, kind, from)) == natives[Cut(natives, kind, from)..]
  {
    hide Cut, SliceOf, EvalCount, EntryCount;
    if data == [] {
      CutAtEnd(natives, kind, from);
    } else {
      var n := EntryCount(data[0].frames);
      SliceOfJoins(natives, kind, from, n);
      SliceFromConserves(data[1..], natives, kind, from + n);
    }
  }

  /** On matching counts every thread keeps everything but its native frames and becomes mergeable;
      the slices join up to the original stack exactly when there is an entry frame at all; and every
      slice that takes evaluation frames, other than the first, starts at one. */
  lemma {:induction false} SlicePartition(data: seq<PyThreadData>, kind: Classifier)
    requires CountsMatch(data, kind) && data[0].natives != []
    ensures var r := Sliced(data, kind);
      && (forall j :: 0 <= j < |r| ==> r[j] == data[j].(natives := r[j].natives) && Mergeable(r[j], kind))
      && (NativesOf(r) == data[0].natives <==> TotalEntries(data) > 0)
      && (forall j :: 0 <= j < |r| && r[j].natives != [] && TotalEntries(data[..j]) > 0
            ==> kind(r[j].natives[0]) == Eval)
  {
    var natives := data[0].natives;
    var r := Sliced(data, kind);
    forall j | 0 <= j < |r|
      ensures r[j] == data[j].(natives := r[j].natives) && Mergeable(r[j], kind)
      ensures r[j].natives != [] && TotalEntries(data[..j]) > 0 ==> kind(r[j].natives[0]) == Eval
    {
      SlicedThread(data, kind, j);
    }
    if TotalEntries(data) == 0 {
      NoEntriesNothingLeft(data, natives, kind, 0);
    } else {
      SliceFromConserves(data, natives, kind, 0);
      assert natives[0..] == natives;
    }
  }

  lemma {:induction false} SlicedThread(data: seq<PyThreadData>, kind: Classifier, j: nat)
    requires CountsMatch(data, kind) && data[0].natives != [] && j < |data|
    ensures var t := Sliced(data, kind)[j];
      && t == data[j].(natives := t.natives)
      && Mergeable(t, kind)
      && (t.natives != [] && TotalEntries(data[..j]) > 0 ==> kind(t.natives[0]) == Eval)
  {
    hide SliceFrom, SliceOf, EvalCount, EntryCount, TotalEntries;
    var natives, from, n := data[0].natives, TotalEntries(data[..j]), EntryCount(data[j].frames);
    SliceAt(data, natives, kind, 0, j);
    SliceOfEvals(natives, kind, from, n);
  }

  // ----- Slicing preserves what is printed

  /** The Python frames of a whole group, outermost interpreter first. */
  function Chains(data: seq<PyThreadData>): seq<PyFrameData> {
    if data == [] then [] else Chain(data[0]) + Chains(data[1..])
  }

  /** What the formatter prints for a group, thread after thread. */
  function MergedEach(data: seq<PyThreadData>, kind: Classifier): seq<Line> {
    if data == [] then []
    else MergedWhole(data[0].natives, kind, Chain(data[0])) + MergedEach(data[1..], kind)
  }

  predicate EntryChains(data: seq<PyThreadData>) {
    forall t | t in data :: OutermostIsEntry(Chain(t))
  }

  lemma {:induction false} ChainsCount(data: seq<PyThreadData>)
    ensures EntryCount(Chains(data)) == TotalEntries(data)
  {
    hide EntryCount, Reverse;
    if data == [] {
      NoEntries([]);
    } else {
      ChainsCount(data[1..]);
      EntryCountSplit(Chain(data[0]), Chains(data[1..]));
      EntryCountReverse(data[0].frames);
    }
  }

  lemma {:induction false} ChainsFacts(data: seq<PyThreadData>)
    requires EntryChains(data)
    ensures OutermostIsEntry(Chains(data))
    ensures EntryCount(Chains(data)) == TotalEntries(data)
  {
    hide EntryCount, Reverse;
    ChainsCount(data);
    if data != [] {
      ChainsFacts(data[1..]);
    }
  }

  lemma {:induction false} SliceFromPreserves(data: seq<PyThreadData>, natives: seq<NativeFrame>, kind: Classifier,
                                              from: nat)
    requires from + TotalEntries(data) == EvalCount(natives, kind) > 0
    requires EntryChains(data)
    ensures MergedEach(SliceFrom(data, natives, kind, from), kind)
         == MergedWhole(natives[Cut(natives, kind, from)..], kind, Chains(data))
  {
    hide Cut, SliceOf, EvalCount, EntryCount, Merged, MergedWhole, OutermostIsEntry, SliceFrom, MergedEach, EntryChains;
    if data == [] {
      NoSlicesLeft(natives, kind, from);
    } else {
      var t, rest, n := data[0], data[1..], EntryCount(data[0].frames);
      var slice, after := SliceOf(natives, kind, from, n), natives[Cut(natives, kind, from + n)..];
      FirstChain(data);
      SliceFromPreserves(rest, natives, kind, from + n);
      SliceOfEvals(natives, kind, from, n);
      MergedEachStep(data, natives, kind, from);
      MergeSplit(slice, after, kind, Chain(t), Chains(rest));
      SliceOfJoins(natives, kind, from, n);
    }
  }

  lemma {:induction false} NoSlicesLeft(natives: seq<NativeFrame>, kind: Classifier, from: nat)
    requires from == EvalCount(natives, kind) > 0
    ensures MergedEach(SliceFrom([], natives, kind, from), kind)
         == MergedWhole(natives[Cut(natives, kind, from)..], kind, [])
  {
    EvalIndicesCount(natives, kind);
  }

  lemma {:induction false} MergedEachStep(data: seq<PyThreadData>, natives: seq<NativeFrame>, kind: Classifier,
                                          from: nat)
    requires data != []
    ensures var n := EntryCount(data[0].frames);
      MergedEach(SliceFrom(data, natives, kind, from), kind)
      == MergedWhole(SliceOf(natives, kind, from, n), kind, Chain(data[0]))
         + MergedEach(SliceFrom(data[1..], natives, kind, from + n), kind)
  {
    hide SliceOf, MergedWhole, Reverse, EntryCount;
  }

  lemma {:induction false} FirstChain(data: seq<PyThreadData>)
    requires data != [] && EntryChains(data)
    ensures EntryChains(data[1..]) && OutermostIsEntry(Chain(data[0])) && OutermostIsEntry(Chains(data[1..]))
    ensures EntryCount(Chain(data[0])) == EntryCount(data[0].frames)
  {
    ChainsFacts(data[1..]);
    EntryCountReverse(data[0].frames);
  }

  /** The main theorem on slicing: printing each interpreter's frames against its own slice gives
      exactly the lines of one merge of the whole native stack with all the group's Python frames,
      if and only if the group has an entry frame or the stack has nothing to show. */
  lemma {:induction false} SlicingPreservesMeaning(data: seq<PyThreadData>, kind: Classifier)
    requires CountsMatch(data, kind) && data[0].natives != [] && EntryChains(data)
    ensures MergedEach(Sliced(data, kind), kind) == MergedWhole(data[0].natives, kind, Chains(data))
       <==> TotalEntries(data) > 0 || Others(data[0].natives, kind) == []
  {
    var natives := data[0].natives;
    if TotalEntries(data) > 0 {
      SliceFromPreserves(data, natives, kind, 0);
      assert natives[0..] == natives;
    } else {
      ChainsFacts(data);
      assert Chains(data) == [];
      NoEntriesNothingLeft(data, natives, kind, 0);
      MergedWithoutEvals(natives, kind, []);
    }
  }

  /** A group that loses a frame: no Python frames, and a single native frame to show. */
  lemma {:induction false} SlicingCanLoseFrames(t: PyThreadData, kind: Classifier)
    requires t.frames == [] && |t.natives| == 1 && kind(t.natives[0]) == Other
    ensures var data := [t, t];
      && CountsMatch(data, kind)
      && MergedWhole(t.natives, kind, Chains(data)) == [C(t.natives[0])]
      && MergedEach(Sliced(data, kind), kind) == []
  {
    hide Merged;
    var data := [t, t];
    assert data[1..] == [t] && [t][1..] == [];
    assert TotalEntries([t]) == 0 && Chains([t]) == [];
    NoEntriesNothingLeft(data, t.natives, kind, 0);
    MergedWithoutEvals(t.natives, kind, []);
  }

  /** Neither the merge of a slice nor the merge of the whole stack hits the assertion. */
  lemma {:induction false} SlicingNeverFails(data: seq<PyThreadData>, kind: Classifier)
    requires CountsMatch(data, kind) && data[0].natives != [] && EntryChains(data)
    ensures !Merged(data[0].natives, kind, Chains(data), false, []).failed
    ensures forall t :: t in Sliced(data, kind) ==> !Merged(t.natives, kind, Chain(t), false, []).failed
  {
    ChainsFacts(data);
    MergeCompleteness(data[0].natives, kind, Chains(data), false);
    SlicePartition(data, kind);
    forall t | t in Sliced(data, kind) ensures !Merged(t.natives, kind, Chain(t), false, []).failed {
      EntryCountReverse(t.frames);
      MergeCompleteness(t.natives, kind, Chain(t), false);
    }
  }

  lemma {:induction false} NoEntriesNothingLeft(data: seq<PyThreadData>, natives: seq<NativeFrame>, kind: Classifier,
                                                from: nat)
    requires TotalEntries(data) == 0
    ensures NativesOf(SliceFrom(data, natives, kind, from)) == []
    ensures MergedEach(SliceFrom(data, natives, kind, from), kind) == []
  {
    hide EntryCount, EvalCount, SliceOf, MergedWhole, Reverse;
    if data != [] {
      NothingSliced(natives, kind, from, Chain(data[0]));
      NoEntriesNothingLeft(data[1..], natives, kind, from);
    }
  }

  lemma {:induction false} NothingSliced(natives: seq<NativeFrame>, kind: Classifier, from: nat,
                                         frames: seq<PyFrameData>)
    ensures SliceOf(natives, kind, from, 0) == [] && MergedWhole([], kind, frames) == []
  {
    EmptySlice(natives, kind, from);
  }

  /** Without evaluation frames no Python frame is printed. */
  lemma {:induction false} MergedWithoutEvals(natives: seq<NativeFrame>, kind: Classifier, frames: seq<PyFrameData>)
    requires EvalCount(natives, kind) == 0
    ensures MergedWhole(natives, kind, frames) == CLines(Others(natives, kind))
  {
    hide Merged, CLines, Others;
    MergedSkip(natives, kind, frames, false, []);
    OthersStep(natives, kind);
    if natives == [] {
      assert CLines([]) == [];
    } else {
      MergedWithoutEvals(natives[1..], kind, frames);
      CLinesCons(natives[0], Others(natives[1..], kind));
    }
  }
}
