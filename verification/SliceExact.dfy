/** When exactly slicing a shared native stack preserves what is printed: the theorem of module Slice
    without its condition that every chain's outermost frame is an entry. A chain loses that property
    when a caller's frame cannot be read. */
module SliceExact {
  import opened Basics
  import opened NativeFrames
  import opened Frames
  import opened Merge
  import opened Slice
  import FrameChain

  // ----- The Python frames that a merge on matching counts prints

  /** Where the last run starts: at the last entry frame, or at the outermost frame. */
  function LastRunStart(frames: seq<PyFrameData>): (p: nat)
    requires frames != []
    ensures p < |frames| && (p > 0 ==> frames[p].isEntry)
    ensures forall i :: p < i < |frames| ==> !frames[i].isEntry
  {
    var n := |frames| - 1;
    if n == 0 || frames[n].isEntry then n else LastRunStart(frames[..n])
  }

  /** A chain without its last run. */
  function WithoutLastRun(frames: seq<PyFrameData>): (r: seq<PyFrameData>)
    requires frames != []
  {
    frames[..LastRunStart(frames)]
  }

  /** All of a chain whose outermost frame is an entry; otherwise the last run finds no evaluation frame. */
  function PrintedFrames(frames: seq<PyFrameData>): (r: seq<PyFrameData>)
    ensures |r| <= |frames| && r == frames[..|r|]
    ensures |r| == |frames| <==> OutermostIsEntry(frames)
  {
    if OutermostIsEntry(frames) then frames else WithoutLastRun(frames)
  }

  lemma {:induction false} LastRunAfter(frames: seq<PyFrameData>)
    requires frames != []
    ensures var k := RunLength(frames);
      LastRunStart(frames) == if k == |frames| then 0 else k + LastRunStart(frames[k..])
  {
    hide RunLength, LastRunStart;
    var k, p := RunLength(frames), LastRunStart(frames);
    if k < |frames| {
      var rest, q := frames[k..], LastRunStart(frames[k..]);
      assert forall i :: 0 <= i < |rest| ==> rest[i] == frames[k + i];
      assert rest[0].isEntry && rest[q].isEntry;
      assert k <= p && (p > k ==> rest[p - k].isEntry);
    }
  }

  lemma {:induction false} RunsButLast(frames: seq<PyFrameData>)
    requires frames != []
    ensures Runs(frames) != [] && Concat(Runs(frames)[..|Runs(frames)| - 1]) == WithoutLastRun(frames)
    decreases |frames|
  {
    hide RunLength, LastRunStart, Runs, Concat;
    var k := RunLength(frames);
    LastRunAfter(frames);
    RunsFirst(frames);
    var rest := Runs(frames[k..]);
    if k == |frames| {
      assert Runs(frames)[..0] == [] && frames[..0] == [];
    } else {
      RunsButLast(frames[k..]);
      ButLastCons(frames[..k], rest);
      assert frames[..k + LastRunStart(frames[k..])] == frames[..k] + WithoutLastRun(frames[k..]);
    }
  }

  lemma {:induction false} RunsFirst(frames: seq<PyFrameData>)
    requires frames != []
    ensures var k := RunLength(frames);
      && Runs(frames) == [frames[..k]] + Runs(frames[k..])
      && (k == |frames| ==> Runs(frames[k..]) == [])
    ensures Concat<PyFrameData>([]) == []
  {
    hide RunLength;
  }

  lemma {:induction false} ButLastCons(first: seq<PyFrameData>, rest: seq<seq<PyFrameData>>)
    requires rest != []
    ensures Concat(([first] + rest)[..|rest|]) == first + Concat(rest[..|rest| - 1])
  {
    assert ([first] + rest)[..|rest|] == [first] + rest[..|rest| - 1];
    assert ([first] + rest[..|rest| - 1])[1..] == rest[..|rest| - 1];
  }

  lemma {:induction false} MergePrints(natives: seq<NativeFrame>, kind: Classifier, frames: seq<PyFrameData>)
    requires EvalCount(natives, kind) == EntryCount(frames)
    ensures PyPart(MergedWhole(natives, kind, frames)) == PrintedFrames(frames)
  {
    hide Merged, Runs, WithoutLastRun, EvalCount, EntryCount;
    RunsCoverTheChain(frames);
    MergedPython(natives, kind, frames, false, []);
    var runs := Runs(frames);
    if OutermostIsEntry(frames) {
      assert runs[..|runs|] == runs;
    } else {
      RunsButLast(frames);
    }
  }

  function PrintedEach(data: seq<PyThreadData>): seq<PyFrameData> {
    if data == [] then [] else PrintedFrames(Chain(data[0])) + PrintedEach(data[1..])
  }

  lemma {:induction false} MergedEachPrints(data: seq<PyThreadData>, kind: Classifier)
    requires forall t :: t in data ==> Mergeable(t, kind)
    ensures PyPart(MergedEach(data, kind)) == PrintedEach(data)
  {
    hide PrintedFrames, MergedWhole, EvalCount, EntryCount, Reverse;
    if data != [] {
      var t := data[0];
      assert t in data;
      EntryCountReverse(t.frames);
      MergePrints(t.natives, kind, Chain(t));
      MergedEachPrints(data[1..], kind);
      PyPartSplit(MergedWhole(t.natives, kind, Chain(t)), MergedEach(data[1..], kind));
    }
  }

  lemma {:induction false} PrintedEachSame(xs: seq<PyThreadData>, ys: seq<PyThreadData>)
    requires |xs| == |ys| && forall i :: 0 <= i < |xs| ==> xs[i].frames == ys[i].frames
    ensures PrintedEach(xs) == PrintedEach(ys)
  {
    hide PrintedFrames;
    if xs != [] {
      assert forall i :: 0 <= i < |xs[1..]| ==> xs[1..][i] == xs[i + 1] && ys[1..][i] == ys[i + 1];
      PrintedEachSame(xs[1..], ys[1..]);
    }
  }

  /** What the slices print, and what the whole merge prints, of the Python frames. */
  lemma {:induction false} PrintedPython(data: seq<PyThreadData>, kind: Classifier)
    requires CountsMatch(data, kind) && data[0].natives != []
    ensures PyPart(MergedEach(Sliced(data, kind), kind)) == PrintedEach(data)
    ensures PyPart(MergedWhole(data[0].natives, kind, Chains(data))) == PrintedFrames(Chains(data))
  {
    hide MergedEach, MergedWhole, PrintedEach, PrintedFrames, Sliced, EvalCount, EntryCount, TotalEntries, NativesOf;
    SlicePartition(data, kind);
    MergedEachPrints(Sliced(data, kind), kind);
    PrintedEachSame(Sliced(data, kind), data);
    ChainsCount(data);
    MergePrints(data[0].natives, kind, Chains(data));
  }

  // ----- Groups whose whole merge prints every frame

  lemma {:induction false} PrintedEachLength(data: seq<PyThreadData>)
    ensures |PrintedEach(data)| <= |Chains(data)|
    ensures |PrintedEach(data)| == |Chains(data)| <==> EntryChains(data)
  {
    hide PrintedFrames, OutermostIsEntry;
    if data != [] {
      PrintedEachLength(data[1..]);
      assert forall t :: t in data <==> t == data[0] || t in data[1..];
    }
  }

  /** If the group's outermost frame is an entry, so that the whole merge prints every frame, slicing
      preserves what is printed if and only if every chain's outermost frame is an entry, and the group
      has an entry frame or the stack has nothing to show. */
  lemma {:induction false} SlicingPreservesIffEntries(data: seq<PyThreadData>, kind: Classifier)
    requires CountsMatch(data, kind) && data[0].natives != [] && OutermostIsEntry(Chains(data))
    ensures MergedEach(Sliced(data, kind), kind) == MergedWhole(data[0].natives, kind, Chains(data))
       <==> EntryChains(data) && (TotalEntries(data) > 0 || Others(data[0].natives, kind) == [])
  {
    hide MergedEach, MergedWhole, PrintedEach, Sliced, TotalEntries, CountsMatch, EntryChains, Others;
    if EntryChains(data) {
      SlicingPreservesMeaning(data, kind);
    } else {
      PrintedPython(data, kind);
      PrintedEachLength(data);
    }
  }

  // ----- Groups whose whole merge loses its last run too

  /** All frames above the first thread that has any carry no entry: one interpreter runs. */
  predicate OneRunner(data: seq<PyThreadData>) {
    data != [] && if Chain(data[0]) == [] then OneRunner(data[1..]) else TotalEntries(data[1..]) == 0
  }

  lemma {:induction false} RunLengthInside(xs: seq<PyFrameData>, ys: seq<PyFrameData>)
    requires xs != [] && RunLength(xs) < |xs|
    ensures RunLength(xs + ys) == RunLength(xs)
  {
    assert (xs + ys)[1..] == xs[1..] + ys;
    if |xs| > 1 && !xs[1].isEntry {
      RunLengthInside(xs[1..], ys);
    }
  }

  /** Frames after a run that no evaluation frame reaches do not matter. */
  lemma {:induction false} MergeIgnoresTail(natives: seq<NativeFrame>, kind: Classifier,
                                            frames: seq<PyFrameData>, tail: seq<PyFrameData>)
    requires EvalCount(natives, kind) < |Runs(frames)|
    ensures MergedWhole(natives, kind, frames + tail) == MergedWhole(natives, kind, frames)
  {
    hide RunLength, PyLines;
    if natives != [] {
      if kind(natives[0]) == Eval {
        var k := RunLength(frames);
        assert Runs(frames)[1..] == Runs(frames[k..]);
        assert k < |frames|;
        RunLengthInside(frames, tail);
        assert (frames + tail)[..k] == frames[..k] && (frames + tail)[k..] == frames[k..] + tail;
        MergeIgnoresTail(natives[1..], kind, frames[k..], tail);
      } else {
        MergeIgnoresTail(natives[1..], kind, frames, tail);
      }
    }
  }

  lemma {:induction false} OneRunnerPreserves(data: seq<PyThreadData>, natives: seq<NativeFrame>, kind: Classifier,
                                              from: nat)
    requires from + TotalEntries(data) == EvalCount(natives, kind) > 0
    requires OneRunner(data) && !OutermostIsEntry(Chains(data))
    ensures MergedEach(SliceFrom(data, natives, kind, from), kind)
         == MergedWhole(natives[Cut(natives, kind, from)..], kind, Chains(data))
  {
    hide Cut, SliceOf, EvalCount, EntryCount, Merged, MergedWhole, SliceFrom, MergedEach, Reverse, Runs,
         OutermostIsEntry;
    var f, rest := Chain(data[0]), data[1..];
    var n := EntryCount(data[0].frames);
    EntryCountReverse(data[0].frames);
    MergedEachStep(data, natives, kind, from);
    if f == [] {
      EmptyChain(natives, kind, from);
      assert [] + Chains(rest) == Chains(rest);
      OneRunnerPreserves(rest, natives, kind, from);
    } else {
      NoEntriesNothingLeft(rest, natives, kind, from + n);
      var slice := SliceOf(natives, kind, from, n);
      SliceOfJoins(natives, kind, from, n);
      CutAtEnd(natives, kind, from + n);
      assert natives[Cut(natives, kind, from)..] == slice + [] == slice;
      SliceOfEvals(natives, kind, from, n);
      RunsCoverTheChain(f);
      HeadEntry(f, Chains(rest));
      MergeIgnoresTail(slice, kind, f, Chains(rest));
      assert MergedWhole(slice, kind, f) + [] == MergedWhole(slice, kind, f);
    }
  }

  lemma {:induction false} EmptyChain(natives: seq<NativeFrame>, kind: Classifier, from: nat)
    ensures EntryCount([]) == 0
    ensures MergedWhole(SliceOf(natives, kind, from, 0), kind, []) == []
  {
  }

  lemma {:induction false} HeadEntry(xs: seq<PyFrameData>, ys: seq<PyFrameData>)
    requires xs != []
    ensures OutermostIsEntry(xs + ys) <==> OutermostIsEntry(xs)
  {
  }

  /** No two frames of the group are alike, so that what is printed tells them apart. */
  ghost predicate DistinctFrames(frames: seq<PyFrameData>) {
    forall i, j :: 0 <= i < j < |frames| ==> frames[i] != frames[j]
  }

  lemma {:induction false} PrintedEachInside(data: seq<PyThreadData>)
    ensures forall f :: f in PrintedEach(data) ==> f in Chains(data)
  {
    hide PrintedFrames;
    if data != [] {
      PrintedEachInside(data[1..]);
    }
  }

  /** A merge prints everything that comes before an entry frame. */
  lemma {:induction false} PrintedBeforeEntry(xs: seq<PyFrameData>, ys: seq<PyFrameData>)
    requires EntryCount(ys) > 0
    ensures |PrintedFrames(xs + ys)| >= |xs|
  {
    var all := xs + ys;
    var p := |PrintedFrames(all)|;
    if p < |xs| {
      forall f | f in ys ensures !f.isEntry {
        var i :| 0 <= i < |ys| && ys[i] == f;
        assert all[|xs| + i] == f;
      }
      NoEntries(ys);
    }
  }

  lemma {:induction false} SlicesLoseAFrame(data: seq<PyThreadData>)
    requires TotalEntries(data) > 0 && !OutermostIsEntry(Chains(data)) && !OneRunner(data)
    requires DistinctFrames(Chains(data))
    ensures exists f :: f in PrintedFrames(Chains(data)) && f !in PrintedEach(data)
  {
    hide PrintedFrames, EntryCount, Reverse, OutermostIsEntry;
    var f, rest := Chain(data[0]), data[1..];
    if f == [] {
      EntryCountReverse(data[0].frames);
      NoEntries([]);
      assert [] + Chains(rest) == Chains(rest);
      PrintedNothing();
      assert [] + PrintedEach(rest) == PrintedEach(rest);
      SlicesLoseAFrame(rest);
    } else {
      var all, x := Chains(data), f[|f| - 1];
      ChainsCount(rest);
      HeadEntry(f, Chains(rest));
      PrintedBeforeEntry(f, Chains(rest));
      assert all[|f| - 1] == x && PrintedFrames(all)[|f| - 1] == x;
      LastIsLost(f, Chains(rest));
      PrintedEachInside(rest);
      assert x in PrintedFrames(all) && x !in PrintedEach(data);
    }
  }

  lemma {:induction false} PrintedNothing()
    ensures PrintedFrames([]) == []
  {
  }

  lemma {:induction false} LastIsLost(f: seq<PyFrameData>, others: seq<PyFrameData>)
    requires f != [] && !OutermostIsEntry(f) && DistinctFrames(f + others)
    ensures f[|f| - 1] !in PrintedFrames(f) && f[|f| - 1] !in others
  {
    var all, printed := f + others, PrintedFrames(f);
    assert forall i :: 0 <= i < |f| ==> all[i] == f[i];
    assert forall i :: 0 <= i < |others| ==> all[|f| + i] == others[i];
    assert forall i :: 0 <= i < |printed| ==> printed[i] == f[i];
  }

  ghost predicate Preserves(data: seq<PyThreadData>, kind: Classifier)
    requires data != []
  {
    MergedEach(Sliced(data, kind), kind) == MergedWhole(data[0].natives, kind, Chains(data))
  }

  /** One interpreter runs, or none does and the stack has nothing to show. */
  predicate OneOrNoneRuns(data: seq<PyThreadData>, kind: Classifier)
    requires data != []
  {
    if TotalEntries(data) > 0 then OneRunner(data) else Others(data[0].natives, kind) == []
  }

  /** The remaining groups. If the group's outermost frame is no entry, so that even the whole merge loses
      its last run, slicing preserves what is printed if one interpreter runs, or none does and the
      stack has nothing to show; and only then, if no two frames are alike. */
  lemma {:induction false} SlicingPreservesIffOneRunner(data: seq<PyThreadData>, kind: Classifier)
    requires CountsMatch(data, kind) && data[0].natives != [] && !OutermostIsEntry(Chains(data))
    ensures OneOrNoneRuns(data, kind) ==> Preserves(data, kind)
    ensures DistinctFrames(Chains(data)) ==> (Preserves(data, kind) <==> OneOrNoneRuns(data, kind))
  {
    hide MergedEach, MergedWhole, PrintedEach, PrintedFrames, Others, SliceFrom, OutermostIsEntry, DistinctFrames,
         OneRunner, EvalCount, TotalEntries, EntryCount;
    var natives := data[0].natives;
    if TotalEntries(data) == 0 {
      NoEntriesNothingLeft(data, natives, kind, 0);
      MergedWithoutEvals(natives, kind, Chains(data));
      if Others(natives, kind) == [] {
        assert CLines([]) == [];
      }
    } else if OneRunner(data) {
      OneRunnerPreserves(data, natives, kind, 0);
      assert natives[0..] == natives;
    } else if DistinctFrames(Chains(data)) {
      PrintedPython(data, kind);
      SlicesLoseAFrame(data);
    }
  }

  // ----- The shape of a group decides

  /** The condition in all cases: on entry flags, counts and native frames only. */
  predicate SlicesWell(data: seq<PyThreadData>, kind: Classifier)
    requires data != []
  {
    if OutermostIsEntry(Chains(data)) then
      EntryChains(data) && (TotalEntries(data) > 0 || Others(data[0].natives, kind) == [])
    else OneOrNoneRuns(data, kind)
  }

  ghost predicate SameFlags(xs: seq<PyFrameData>, ys: seq<PyFrameData>) {
    |xs| == |ys| && forall i :: 0 <= i < |xs| ==> xs[i].isEntry == ys[i].isEntry
  }

  /** The same native stacks, and as many Python frames with the same entry flags; what code the frames
      run is open. */
  ghost predicate SameShape(xs: seq<PyThreadData>, ys: seq<PyThreadData>) {
    |xs| == |ys|
    && forall i :: 0 <= i < |xs| ==> xs[i].natives == ys[i].natives && SameFlags(xs[i].frames, ys[i].frames)
  }

  lemma {:induction false} SameFlagsCount(xs: seq<PyFrameData>, ys: seq<PyFrameData>)
    requires SameFlags(xs, ys)
    ensures EntryCount(xs) == EntryCount(ys)
  {
    if xs != [] {
      assert forall i :: 0 <= i < |xs| - 1 ==> xs[1..][i] == xs[i + 1] && ys[1..][i] == ys[i + 1];
      SameFlagsCount(xs[1..], ys[1..]);
    }
  }

  lemma {:induction false} SameFlagsJoin(a: seq<PyFrameData>, b: seq<PyFrameData>,
                                         c: seq<PyFrameData>, d: seq<PyFrameData>)
    requires SameFlags(a, c) && SameFlags(b, d)
    ensures SameFlags(a + b, c + d)
  {
  }

  lemma {:induction false} SameFlagsOutermost(xs: seq<PyFrameData>, ys: seq<PyFrameData>)
    requires SameFlags(xs, ys)
    ensures SameFlags(Reverse(xs), Reverse(ys)) && (OutermostIsEntry(xs) <==> OutermostIsEntry(ys))
  {
  }

  lemma {:induction false} ShapeFacts(xs: seq<PyThreadData>, ys: seq<PyThreadData>)
    requires SameShape(xs, ys)
    ensures TotalEntries(xs) == TotalEntries(ys) && SameFlags(Chains(xs), Chains(ys))
    ensures EntryChains(xs) <==> EntryChains(ys)
    ensures OneRunner(xs) <==> OneRunner(ys)
  {
    hide EntryCount, Reverse, OutermostIsEntry, SameFlags;
    if xs == [] {
      NoFlags();
    } else {
      SameShapeTail(xs, ys);
      var x, y := xs[0], ys[0];
      SameFlagsCount(x.frames, y.frames);
      SameFlagsOutermost(x.frames, y.frames);
      SameFlagsOutermost(Chain(x), Chain(y));
      ShapeFacts(xs[1..], ys[1..]);
      SameFlagsJoin(Chain(x), Chains(xs[1..]), Chain(y), Chains(ys[1..]));
      SameFlagsLength(Chain(x), Chain(y));
      assert forall t :: t in xs <==> t == x || t in xs[1..];
      assert forall t :: t in ys <==> t == y || t in ys[1..];
    }
  }

  lemma {:induction false} NoFlags()
    ensures SameFlags([], [])
  {
  }

  lemma {:induction false} SameFlagsLength(xs: seq<PyFrameData>, ys: seq<PyFrameData>)
    requires SameFlags(xs, ys)
    ensures xs == [] <==> ys == []
  {
  }

  lemma {:induction false} SameShapeTail(xs: seq<PyThreadData>, ys: seq<PyThreadData>)
    requires SameShape(xs, ys) && xs != []
    ensures ys != [] && xs[0].natives == ys[0].natives && SameFlags(xs[0].frames, ys[0].frames)
    ensures SameShape(xs[1..], ys[1..])
  {
    hide SameFlags;
  }

  lemma {:induction false} ShapeDecides(xs: seq<PyThreadData>, ys: seq<PyThreadData>, kind: Classifier)
    requires SameShape(xs, ys) && xs != []
    ensures ys != [] && xs[0].natives == ys[0].natives
    ensures CountsMatch(xs, kind) <==> CountsMatch(ys, kind)
    ensures SlicesWell(xs, kind) <==> SlicesWell(ys, kind)
  {
    hide SameFlags, SameShape, TotalEntries, Chains, OutermostIsEntry, OneRunner, EntryChains, Others, EvalCount;
    SameShapeTail(xs, ys);
    ShapeFacts(xs, ys);
    SameFlagsOutermost(Chains(xs), Chains(ys));
  }

  // Frames told apart by numbering them

  function Numbered(frames: seq<PyFrameData>, from: int): (r: seq<PyFrameData>)
    ensures |r| == |frames|
    ensures forall i :: 0 <= i < |r| ==>
      r[i].code.location.lineno == from + i && r[i].isEntry == frames[i].isEntry
  {
    seq(|frames|, i requires 0 <= i < |frames| =>
      var f := frames[i];
      f.(code := f.code.(location := f.code.location.(lineno := from + i))))
  }

  function NumberedGroup(data: seq<PyThreadData>, from: int): (r: seq<PyThreadData>)
    ensures |r| == |data|
  {
    if data == [] then []
    else
      [data[0].(frames := Numbered(data[0].frames, from))] + NumberedGroup(data[1..], from + |data[0].frames|)
  }

  lemma {:induction false} NumberedShape(data: seq<PyThreadData>, from: int)
    ensures SameShape(data, NumberedGroup(data, from))
  {
    if data != [] {
      var r := NumberedGroup(data, from);
      NumberedShape(data[1..], from + |data[0].frames|);
      assert r[1..] == NumberedGroup(data[1..], from + |data[0].frames|);
      forall i | 0 <= i < |data|
        ensures data[i].natives == r[i].natives && SameFlags(data[i].frames, r[i].frames)
      {
        if i > 0 {
          assert data[i] == data[1..][i - 1] && r[i] == r[1..][i - 1];
        }
      }
    }
  }

  ghost predicate LinesFrom(frames: seq<PyFrameData>, from: int) {
    DistinctFrames(frames) && forall f :: f in frames ==> f.code.location.lineno >= from
  }

  lemma {:induction false} LinesJoin(xs: seq<PyFrameData>, ys: seq<PyFrameData>, from: int, middle: int)
    requires LinesFrom(xs, from) && LinesFrom(ys, middle) && from <= middle
    requires forall f :: f in xs ==> f.code.location.lineno < middle
    ensures LinesFrom(xs + ys, from)
  {
    var all := xs + ys;
    forall i, j | 0 <= i < j < |all| ensures all[i] != all[j] {
      if i < |xs| <= j {
        assert all[i] == xs[i] && xs[i] in xs && all[j] == ys[j - |xs|] && ys[j - |xs|] in ys;
      } else if j < |xs| {
        assert all[i] == xs[i] && all[j] == xs[j];
      } else {
        assert all[i] == ys[i - |xs|] && all[j] == ys[j - |xs|];
      }
    }
  }

  lemma {:induction false} NumberedChain(frames: seq<PyFrameData>, from: int)
    ensures LinesFrom(Reverse(Numbered(frames, from)), from)
    ensures forall f :: f in Reverse(Numbered(frames, from)) ==> f.code.location.lineno < from + |frames|
  {
    var r := Reverse(Numbered(frames, from));
    assert forall i :: 0 <= i < |r| ==> r[i].code.location.lineno == from + |frames| - 1 - i;
  }

  lemma {:induction false} NumberedIsDistinct(data: seq<PyThreadData>, from: int)
    ensures LinesFrom(Chains(NumberedGroup(data, from)), from)
  {
    hide LinesFrom, Numbered, Reverse;
    if data == [] {
      NoLines(from);
    } else {
      var n := |data[0].frames|;
      var r := NumberedGroup(data, from);
      assert r[1..] == NumberedGroup(data[1..], from + n);
      NumberedIsDistinct(data[1..], from + n);
      NumberedChain(data[0].frames, from);
      LinesJoin(Chain(r[0]), Chains(r[1..]), from, from + n);
    }
  }

  lemma {:induction false} NoLines(from: int)
    ensures LinesFrom([], from)
  {
  }

  /** The exact condition for every group: slicing preserves what is printed, whatever code the frames run,
      if and only if the group slices well. A particular group that does not may still print the same by
      accident, when frames are alike. */
  lemma {:induction false} SlicingPreservesIff(data: seq<PyThreadData>, kind: Classifier)
    requires CountsMatch(data, kind) && data[0].natives != []
    ensures (forall other :: SameShape(data, other) ==> other != [] && Preserves(other, kind))
       <==> SlicesWell(data, kind)
  {
    hide Preserves, SameShape, SlicesWell, EvalCount, TotalEntries;
    forall other | SameShape(data, other) && SlicesWell(data, kind)
      ensures other != [] && Preserves(other, kind)
    {
      ShapeDecides(data, other, kind);
      WellIsPreserved(other, kind);
    }
    var numbered := NumberedGroup(data, 0);
    NumberedShape(data, 0);
    ShapeDecides(data, numbered, kind);
    NumberedIsDistinct(data, 0);
    WellIsPreserved(numbered, kind);
  }

  lemma {:induction false} WellIsPreserved(data: seq<PyThreadData>, kind: Classifier)
    requires CountsMatch(data, kind) && data[0].natives != []
    ensures SlicesWell(data, kind) ==> Preserves(data, kind)
    ensures LinesFrom(Chains(data), 0) ==> (Preserves(data, kind) <==> SlicesWell(data, kind))
  {
    hide MergedEach, MergedWhole, Sliced, Chains, OneOrNoneRuns, EntryChains, TotalEntries, Others, OutermostIsEntry;
    if OutermostIsEntry(Chains(data)) {
      SlicingPreservesIffEntries(data, kind);
    } else {
      SlicingPreservesIffOneRunner(data, kind);
    }
  }

  /** The remote chain of an interpreter in its own frame `c`, entered through a shim. */
  function PlainChain(c: CodeData): seq<FrameChain.RawFrame> {
    [FrameChain.Raw(0, false, FrameChain.Code(c)), FrameChain.Raw(3, false, FrameChain.NullCode)]
  }

  /** One that runs `c`, entered through a shim from `caller`, whose own caller cannot be read any more. */
  function CutOffChain(c: CodeData, caller: CodeData): seq<FrameChain.RawFrame> {
    PlainChain(c) + [FrameChain.Raw(0, false, FrameChain.Code(caller)), FrameChain.Unreadable]
  }

  lemma {:induction false} PlainChainKept(v: Version, c: CodeData)
    requires v.AtLeast(Version(3, 12)) && c.filename != FrameChain.UNREADABLE
    ensures FrameChain.Kept(FrameChain.RemoteWalk(v, PlainChain(c))) == [PyFrameData(c, true, false)]
  {
    var chain := PlainChain(c);
    var shim := FrameChain.NewFrameObject(v, chain[1..], 1);
    var top := FrameChain.NewFrameObject(v, chain, 0);
    assert top.value.prev == shim && shim.value.prev == None;
    assert FrameChain.Walk(top) == [top.value] + FrameChain.Walk(shim);
    assert FrameChain.Walk(shim) == [shim.value];
    assert FrameChain.Kept([shim.value]) == [];
  }

  lemma {:induction false} CutOffChainKept(v: Version, c: CodeData, caller: CodeData)
    requires v.AtLeast(Version(3, 12))
    requires c.filename != FrameChain.UNREADABLE && caller.filename != FrameChain.UNREADABLE
    ensures FrameChain.Kept(FrameChain.RemoteWalk(v, CutOffChain(c, caller)))
         == [PyFrameData(c, true, false), PyFrameData(caller, false, false)]
  {
    var chain := CutOffChain(c, caller);
    var none := FrameChain.NewFrameObject(v, chain[3..], 2);
    var bottom := FrameChain.NewFrameObject(v, chain[2..], 1);
    var shim := FrameChain.NewFrameObject(v, chain[1..], 1);
    var top := FrameChain.NewFrameObject(v, chain, 0);
    assert chain[1..][1..] == chain[2..] && chain[2..][1..] == chain[3..];
    assert none == None && bottom.value.prev == none && shim.value.prev == bottom && top.value.prev == shim;
    assert FrameChain.Walk(bottom) == [bottom.value];
    assert FrameChain.Walk(shim) == [shim.value] + FrameChain.Walk(bottom);
    assert FrameChain.Walk(top) == [top.value] + FrameChain.Walk(shim);
    assert FrameChain.Kept(FrameChain.Walk(bottom)) == [PyFrameData(caller, false, false)];
    assert FrameChain.Kept(FrameChain.Walk(shim)) == FrameChain.Kept(FrameChain.Walk(bottom));
  }

  /** Two interpreters, the inner one cut off by an unreadable caller. The native stack lacks the
      evaluation frame of the caller's run, as it would have to: with all three evaluation frames the
      counts do not match and nothing is sliced. Then the whole merge prints the frames of both
      interpreters, and the slices lose the inner entry frame. */
  lemma {:induction false} SlicingCanLoseAnEntry(v: Version, c1: CodeData, caller: CodeData, c2: CodeData,
                                                 outer: PyThreadData, inner: PyThreadData,
                                                 eval: NativeFrame, kind: Classifier)
    requires v.AtLeast(Version(3, 12)) && FrameChain.UNREADABLE !in {c1.filename, caller.filename, c2.filename}
    requires outer.frames == FrameChain.Kept(FrameChain.RemoteWalk(v, PlainChain(c1)))
    requires inner.frames == FrameChain.Kept(FrameChain.RemoteWalk(v, CutOffChain(c2, caller)))
    requires kind(eval) == Eval && outer.natives == [eval, eval]
    ensures var data := [outer, inner];
      var e1, n, e2 := PyFrameData(c1, true, false), PyFrameData(caller, false, false), PyFrameData(c2, true, false);
      && CountsMatch(data, kind)
      && !CountsMatch([outer.(natives := [eval, eval, eval]), inner], kind)
      && PyPart(MergedWhole(outer.natives, kind, Chains(data))) == [e1, n, e2]
      && PyPart(MergedEach(Sliced(data, kind), kind)) == [e1, n]
  {
    hide MergedEach, MergedWhole, Sliced, Chains, PrintedEach, PrintedFrames, EntryCount, TotalEntries, EvalCount,
         Reverse, FrameChain.Kept, FrameChain.RemoteWalk;
    var data := [outer, inner];
    var e1, n, e2 := PyFrameData(c1, true, false), PyFrameData(caller, false, false), PyFrameData(c2, true, false);
    PlainChainKept(v, c1);
    CutOffChainKept(v, c2, caller);
    TwoThreads(outer, inner, e1, n, e2);
    TwoThreads(outer.(natives := [eval, eval, eval]), inner, e1, n, e2);
    TwoEvals(eval, kind);
    PrintedPython(data, kind);
  }

  lemma {:induction false} TwoEvals(eval: NativeFrame, kind: Classifier)
    requires kind(eval) == Eval
    ensures EvalCount([eval, eval], kind) == 2 && EvalCount([eval, eval, eval], kind) == 3
  {
    assert [eval, eval][1..] == [eval] && [eval, eval, eval][1..] == [eval, eval];
  }

  lemma {:induction false} TwoThreads(outer: PyThreadData, inner: PyThreadData, e1: PyFrameData, n: PyFrameData,
                                      e2: PyFrameData)
    requires e1.isEntry && !n.isEntry && e2.isEntry && outer.frames == [e1] && inner.frames == [e2, n]
    ensures TotalEntries([outer, inner]) == 2
    ensures Chains([outer, inner]) == [e1, n, e2] && PrintedFrames([e1, n, e2]) == [e1, n, e2]
    ensures PrintedEach([outer, inner]) == [e1, n]
  {
    hide PrintedFrames, EntryCount, Reverse;
    var data := [outer, inner];
    assert data[1..] == [inner] && [inner][1..] == [];
    SmallCounts(e1, n, e2);
    assert TotalEntries([inner]) == 1;
    assert Reverse([e1]) == [e1] && Reverse([e2, n]) == [n, e2];
    assert Chains([inner]) == [n, e2];
    assert PrintedFrames([e1]) == [e1] && PrintedFrames([e1, n, e2]) == [e1, n, e2];
    assert PrintedEach([inner]) == [n];
  }

  lemma {:induction false} SmallCounts(e1: PyFrameData, n: PyFrameData, e2: PyFrameData)
    requires e1.isEntry && !n.isEntry && e2.isEntry
    ensures EntryCount([e1]) == 1 && EntryCount([e2, n]) == 1
    ensures PrintedFrames([n, e2]) == [n]
  {
    assert [e2, n][1..] == [n] && [n, e2][1..] == [e2];
    assert LastRunStart([n, e2]) == 1 && [n, e2][..1] == [n];
  }
}
