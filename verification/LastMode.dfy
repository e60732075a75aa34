/** LAST mode: when the slices of a shared native stack print what one merge of the whole stack prints if
    only the innermost native frames are shown. */
module LastMode {
  import opened Basics
  import opened NativeFrames
  import opened Frames
  import opened Merge
  import opened Slice

  /** The native frames that LAST mode shows. */
  function Tail(natives: seq<NativeFrame>, kind: Classifier): seq<NativeFrame> {
    Others(AfterLastEval(natives, kind), kind)
  }

  function MergedInLast(natives: seq<NativeFrame>, kind: Classifier, frames: seq<PyFrameData>): seq<Line> {
    Merged(natives, kind, frames, true, []).lines
  }

  /** What the formatter prints for a group in LAST mode, thread after thread. */
  function LastEach(data: seq<PyThreadData>, kind: Classifier): seq<Line> {
    if data == [] then []
    else MergedInLast(data[0].natives, kind, Chain(data[0])) + LastEach(data[1..], kind)
  }

  /** On matching counts LAST mode prints the whole chain and then the tail. */
  lemma {:induction false} MergedInLastIs(natives: seq<NativeFrame>, kind: Classifier, frames: seq<PyFrameData>)
    requires EvalCount(natives, kind) == EntryCount(frames) && OutermostIsEntry(frames)
    ensures MergedInLast(natives, kind, frames) == PyLines(frames) + CLines(Tail(natives, kind))
  {
    hide Merged, Runs, EvalCount, EntryCount, PyLines, CLines, Others, AfterLastEval, OutermostIsEntry;
    var m, runs := EvalCount(natives, kind), Runs(frames);
    RunsCoverTheChain(frames);
    MergedLast(natives, kind, frames, []);
    assert runs[..m] == runs;
    if m == 0 {
      NoFrames(frames);
    }
  }

  lemma {:induction false} NoFrames(frames: seq<PyFrameData>)
    requires Runs(frames) == []
    ensures frames == [] && PyLines(frames) == []
  {
  }

  /** The tails of all the slices, one after the other. */
  function Tails(data: seq<PyThreadData>, kind: Classifier): seq<NativeFrame> {
    if data == [] then [] else Tail(data[0].natives, kind) + Tails(data[1..], kind)
  }

  /** No slice but the last that has an evaluation frame ends in a native frame to show: an interpreter is
      entered straight from the evaluation of the one outside it. */
  predicate NoInnerTails(data: seq<PyThreadData>, kind: Classifier) {
    data == []
    || ((TotalEntries(data[1..]) > 0 ==> Tail(data[0].natives, kind) == []) && NoInnerTails(data[1..], kind))
  }

  lemma {:induction false} AfterLastEvalOfSuffix(natives: seq<NativeFrame>, kind: Classifier, c: nat)
    requires c <= |natives| && EvalCount(natives[c..], kind) > 0
    ensures AfterLastEval(natives[c..], kind) == AfterLastEval(natives, kind)
  {
    hide EvalCount, LastEvalEnd;
    var rest := natives[c..];
    var e, d := LastEvalEnd(natives, kind), LastEvalEnd(rest, kind);
    NoEvals(rest, kind);
    assert d > 0;
    assert forall i :: 0 <= i < |rest| ==> rest[i] == natives[c + i];
    assert kind(natives[c + d - 1]) == Eval;
    assert e == c + d;
  }

  /** The slice of the first running thread: its chain, its tail, and the stack that remains. */
  lemma {:induction false} FirstSlice(data: seq<PyThreadData>, natives: seq<NativeFrame>, kind: Classifier, from: nat)
    requires data != [] && from + TotalEntries(data) == EvalCount(natives, kind) && TotalEntries(data) > 0
    requires OutermostIsEntry(Chain(data[0]))
    ensures var n := EntryCount(data[0].frames);
      var slice := SliceOf(natives, kind, from, n);
      && MergedInLast(slice, kind, Chain(data[0])) == PyLines(Chain(data[0])) + CLines(Tail(slice, kind))
      && (n == 0 ==> Chain(data[0]) == [] && Tail(slice, kind) == [])
      && (n > 0 && TotalEntries(data[1..]) == 0 ==> Tail(slice, kind) == Tail(natives, kind))
  {
    hide Cut, SliceOf, EvalCount, EntryCount, Reverse, OutermostIsEntry, MergedInLast, AfterLastEval, Others, CLines,
         PyLines;
    var t := data[0];
    var n := EntryCount(t.frames);
    var slice := SliceOf(natives, kind, from, n);
    EntryCountReverse(t.frames);
    SliceOfEvals(natives, kind, from, n);
    MergedInLastIs(slice, kind, Chain(t));
    if n == 0 {
      NoEntriesNoChain(Chain(t));
      NothingAfter(kind);
    } else if TotalEntries(data[1..]) == 0 {
      SliceOfJoins(natives, kind, from, n);
      CutAtEnd(natives, kind, from + n);
      assert slice + [] == slice == natives[Cut(natives, kind, from)..];
      AfterLastEvalOfSuffix(natives, kind, Cut(natives, kind, from));
    }
  }

  lemma {:induction false} NoEntriesNoChain(frames: seq<PyFrameData>)
    requires EntryCount(frames) == 0 && OutermostIsEntry(frames)
    ensures frames == []
  {
  }

  lemma {:induction false} NothingAfter(kind: Classifier)
    ensures Tail([], kind) == []
  {
  }

  lemma {:induction false} NothingMerged(kind: Classifier)
    ensures MergedInLast([], kind, []) == []
  {
  }

  lemma {:induction false} SameEntries(data: seq<PyThreadData>, natives: seq<NativeFrame>, kind: Classifier, from: nat)
    ensures TotalEntries(SliceFrom(data, natives, kind, from)) == TotalEntries(data)
  {
    hide EntryCount, SliceOf;
    if data != [] {
      SameEntries(data[1..], natives, kind, from + EntryCount(data[0].frames));
    }
  }

  /** Unfolding the slices of a group and what is said of them by one thread. */
  lemma {:induction false} SlicesStep(data: seq<PyThreadData>, natives: seq<NativeFrame>, kind: Classifier, from: nat)
    requires data != []
    ensures var n := EntryCount(data[0].frames);
      var slice, r, rest := SliceOf(natives, kind, from, n), SliceFrom(data, natives, kind, from),
                            SliceFrom(data[1..], natives, kind, from + n);
      && LastEach(r, kind) == MergedInLast(slice, kind, Chain(data[0])) + LastEach(rest, kind)
      && Tails(r, kind) == Tail(slice, kind) + Tails(rest, kind)
      && (NoInnerTails(r, kind) <==>
            (TotalEntries(data[1..]) > 0 ==> Tail(slice, kind) == []) && NoInnerTails(rest, kind))
  {
    hide SliceOf, EntryCount, MergedInLast, Tail, Reverse;
    var n := EntryCount(data[0].frames);
    SameEntries(data[1..], natives, kind, from + n);
    assert SliceFrom(data, natives, kind, from)[1..] == SliceFrom(data[1..], natives, kind, from + n);
  }

  lemma {:induction false} NothingLastEach(data: seq<PyThreadData>, natives: seq<NativeFrame>, kind: Classifier,
                                           from: nat)
    requires TotalEntries(data) == 0 && EntryChains(data)
    ensures var r := SliceFrom(data, natives, kind, from);
      LastEach(r, kind) == [] && Tails(r, kind) == [] && Chains(data) == [] && NoInnerTails(r, kind)
    ensures TotalEntries(SliceFrom(data, natives, kind, from)) == 0
  {
    hide EntryCount, EvalCount, Reverse, OutermostIsEntry, Tail, MergedInLast, SliceOf, SliceFrom, LastEach, Tails,
         NoInnerTails;
    SameEntries(data, natives, kind, from);
    if data == [] {
      NothingAtAll(natives, kind, from);
    } else {
      var t := data[0];
      assert t in data && forall u :: u in data[1..] ==> u in data;
      EntryCountReverse(t.frames);
      NoEntriesNoChain(Chain(t));
      EmptySlice(natives, kind, from);
      NothingAfter(kind);
      NothingMerged(kind);
      SlicesStep(data, natives, kind, from);
      NothingLastEach(data[1..], natives, kind, from);
    }
  }

  lemma {:induction false} NothingAtAll(natives: seq<NativeFrame>, kind: Classifier, from: nat)
    ensures var r := SliceFrom([], natives, kind, from);
      LastEach(r, kind) == [] && Tails(r, kind) == [] && NoInnerTails(r, kind)
  {
  }

  /** Without inner tails the slices print all chains and then the tail of the whole stack. */
  lemma {:induction false} LastEachWithoutInnerTails(data: seq<PyThreadData>, natives: seq<NativeFrame>,
                                                     kind: Classifier, from: nat)
    requires from + TotalEntries(data) == EvalCount(natives, kind) && TotalEntries(data) > 0
    requires EntryChains(data) && NoInnerTails(SliceFrom(data, natives, kind, from), kind)
    ensures LastEach(SliceFrom(data, natives, kind, from), kind) == PyLines(Chains(data)) + CLines(Tail(natives, kind))
  {
    hide SliceOf, EvalCount, EntryCount, Reverse, OutermostIsEntry, MergedInLast, LastEach, Tail, Tails, NoInnerTails,
         SliceFrom, PyLines, CLines;
    var t, rest := data[0], data[1..];
    assert t in data && forall u :: u in rest ==> u in data;
    FirstSlice(data, natives, kind, from);
    SlicesStep(data, natives, kind, from);
    var n := EntryCount(t.frames);
    var tail := CLines(Tail(natives, kind));
    if TotalEntries(rest) == 0 {
      NothingLastEach(rest, natives, kind, from + n);
      assert Chain(t) + [] == Chain(t);
      assert PyLines(Chain(t)) + tail + [] == PyLines(Chain(t)) + tail;
    } else {
      LastEachWithoutInnerTails(rest, natives, kind, from + n);
      NoLines();
      assert PyLines(Chain(t)) + [] == PyLines(Chain(t));
      PyLinesSplit(Chain(t), Chains(rest));
      AppendAssociates(PyLines(Chain(t)), PyLines(Chains(rest)), tail);
    }
  }

  lemma {:induction false} NoLines()
    ensures CLines([]) == []
  {
  }

  /** The slices show at least the native frames of the whole stack, and more with any inner tail. */
  lemma {:induction false} TailsLength(data: seq<PyThreadData>, natives: seq<NativeFrame>, kind: Classifier, from: nat)
    requires from + TotalEntries(data) == EvalCount(natives, kind) && TotalEntries(data) > 0
    requires EntryChains(data)
    ensures var r := SliceFrom(data, natives, kind, from);
      && |Tails(r, kind)| >= |Tail(natives, kind)|
      && (|Tails(r, kind)| == |Tail(natives, kind)| <==> NoInnerTails(r, kind))
  {
    hide SliceOf, EvalCount, EntryCount, Reverse, OutermostIsEntry, MergedInLast, LastEach, Tail, Tails, NoInnerTails,
         SliceFrom, PyLines, CLines;
    var t, rest := data[0], data[1..];
    assert t in data && forall u :: u in rest ==> u in data;
    FirstSlice(data, natives, kind, from);
    SlicesStep(data, natives, kind, from);
    var n := EntryCount(t.frames);
    if TotalEntries(rest) == 0 {
      NothingLastEach(rest, natives, kind, from + n);
    } else {
      TailsLength(rest, natives, kind, from + n);
    }
  }

  lemma {:induction false} LastEachShows(data: seq<PyThreadData>, kind: Classifier)
    requires EntryChains(data) && forall t :: t in data ==> Mergeable(t, kind)
    ensures CPart(LastEach(data, kind)) == Tails(data, kind)
  {
    hide EvalCount, EntryCount, Reverse, OutermostIsEntry, MergedInLast, Tail, PyLines, CLines;
    if data != [] {
      var t := data[0];
      assert t in data && forall u :: u in data[1..] ==> u in data;
      EntryCountReverse(t.frames);
      MergedInLastIs(t.natives, kind, Chain(t));
      ShownNatives(Chain(t), Tail(t.natives, kind));
      LastEachShows(data[1..], kind);
      CPartSplit(MergedInLast(t.natives, kind, Chain(t)), LastEach(data[1..], kind));
    }
  }

  lemma {:induction false} ShownNatives(frames: seq<PyFrameData>, natives: seq<NativeFrame>)
    ensures CPart(PyLines(frames) + CLines(natives)) == natives
  {
    hide PyLines, CLines, CPart;
    CPartSplit(PyLines(frames), CLines(natives));
    PartsOfPyLines(frames);
    PartsOfCLines(natives);
    assert [] + natives == natives;
  }

  /** The theorem on slicing for LAST mode: the slices print what one LAST merge of the whole stack prints if
      and only if no slice but the last one running ends in a native frame to show; or, without entry
      frames, the stack has nothing to show. */
  lemma {:induction false} SlicingInLastModeIff(data: seq<PyThreadData>, kind: Classifier)
    requires CountsMatch(data, kind) && data[0].natives != [] && EntryChains(data)
    ensures LastEach(Sliced(data, kind), kind) == MergedInLast(data[0].natives, kind, Chains(data))
       <==> if TotalEntries(data) > 0 then NoInnerTails(Sliced(data, kind), kind)
            else Tail(data[0].natives, kind) == []
  {
    hide EvalCount, EntryCount, Reverse, OutermostIsEntry, MergedInLast, LastEach, Tail, Tails, NoInnerTails, SliceFrom,
         PyLines, CLines, TotalEntries, Chains, EntryChains, NativesOf;
    var natives, sliced := data[0].natives, Sliced(data, kind);
    ChainsFacts(data);
    MergedInLastIs(natives, kind, Chains(data));
    ShownNatives(Chains(data), Tail(natives, kind));
    if TotalEntries(data) == 0 {
      NothingLastEach(data, natives, kind, 0);
      NoFramesShown();
    } else {
      SlicedStays(data, kind);
      LastEachShows(sliced, kind);
      TailsLength(data, natives, kind, 0);
      if NoInnerTails(sliced, kind) {
        LastEachWithoutInnerTails(data, natives, kind, 0);
      }
    }
  }

  lemma {:induction false} NoFramesShown()
    ensures CPart([]) == []
    ensures PyLines([]) + CLines([]) == []
  {
  }

  lemma {:induction false} SlicedStays(data: seq<PyThreadData>, kind: Classifier)
    requires CountsMatch(data, kind) && data[0].natives != [] && EntryChains(data)
    ensures EntryChains(Sliced(data, kind)) && forall t :: t in Sliced(data, kind) ==> Mergeable(t, kind)
  {
    hide EvalCount, EntryCount, Reverse, OutermostIsEntry, TotalEntries, NativesOf, Sliced;
    SlicePartition(data, kind);
    var r := Sliced(data, kind);
    forall t | t in r ensures Mergeable(t, kind) && OutermostIsEntry(Chain(t)) {
      var j :| 0 <= j < |r| && r[j] == t;
      assert data[j] in data && Chain(t) == Chain(data[j]);
    }
  }

  // ----- A group that prints more

  lemma {:induction false} TwoSlices(eval: NativeFrame, native: NativeFrame, kind: Classifier)
    requires kind(eval) == Eval && kind(native) == Other
    ensures var natives := [eval, native, eval];
      && EvalCount(natives, kind) == 2
      && SliceOf(natives, kind, 0, 1) == [eval, native] && SliceOf(natives, kind, 1, 1) == [eval]
  {
    var natives := [eval, native, eval];
    assert natives[..2] == [eval, native] && [eval, native][..1] == [eval] && [eval][..0] == [];
    assert EvalIndices([eval], kind) == [0] && EvalIndices([eval, native], kind) == [0];
    assert EvalIndices(natives, kind) == [0, 2];
    EvalIndicesCount(natives, kind);
  }

  lemma {:induction false} SmallTails(eval: NativeFrame, native: NativeFrame, kind: Classifier)
    requires kind(eval) == Eval && kind(native) == Other
    ensures Tail([eval, native], kind) == [native] && Tail([eval], kind) == Tail([eval, native, eval], kind) == []
    ensures EvalCount([eval, native], kind) == EvalCount([eval], kind) == 1
  {
    assert [eval, native][..1] == [eval];
    assert [eval, native][1..] == [native] && [native][1..] == [] && [eval][1..] == [];
    assert Others([native], kind) == [native];
    assert LastEvalEnd([eval], kind) == 1 && LastEvalEnd([eval, native], kind) == 1;
    assert [eval, native, eval][2] == eval && [eval, native, eval][3..] == [];
    assert LastEvalEnd([eval, native, eval], kind) == 3;
    assert EvalCount([native], kind) == 0;
  }

  lemma {:induction false} OneFrame(t: PyThreadData, e: PyFrameData)
    requires t.frames == [e] && e.isEntry
    ensures EntryCount(t.frames) == 1 && Chain(t) == [e] && OutermostIsEntry(Chain(t))
  {
    assert [e][1..] == [];
    assert EntryCount([]) == 0;
  }

  /** Two interpreters of one frame each, with a native frame between their evaluation frames: the slices
      show it at the end of the first, the merge of the whole stack not at all. */
  lemma {:induction false} SlicesShowAnInnerTail(outer: PyThreadData, inner: PyThreadData, e1: PyFrameData,
                                                 e2: PyFrameData, eval: NativeFrame, native: NativeFrame,
                                                 kind: Classifier)
    requires e1.isEntry && e2.isEntry && outer.frames == [e1] && inner.frames == [e2]
    requires kind(eval) == Eval && kind(native) == Other && outer.natives == [eval, native, eval]
    ensures var data := [outer, inner];
      && CountsMatch(data, kind) && EntryChains(data)
      && LastEach(Sliced(data, kind), kind) == [Py(e1), C(native), Py(e2)]
      && MergedInLast(outer.natives, kind, Chains(data)) == [Py(e1), Py(e2)]
  {
    hide EvalCount, EntryCount, MergedInLast, Tail, SliceOf, Chain, OutermostIsEntry;
    var data := [outer, inner];
    assert data[1..] == [inner] && [inner][1..] == [];
    TwoSlices(eval, native, kind);
    SmallTails(eval, native, kind);
    OneFrame(outer, e1);
    OneFrame(inner, e2);
    assert TotalEntries([inner]) == 1 && Chains([inner]) == [e2];
    assert Chains(data) == [e1, e2];
    ChainsFacts(data);
    MergedInLastIs(outer.natives, kind, [e1, e2]);
    var a, b := outer.(natives := [eval, native]), inner.(natives := [eval]);
    assert SliceFrom([inner], outer.natives, kind, 1) == [b];
    assert Sliced(data, kind) == [a, b];
    OneFrame(a, e1);
    OneFrame(b, e2);
    MergedInLastIs([eval, native], kind, [e1]);
    MergedInLastIs([eval], kind, [e2]);
    assert [a, b][1..] == [b] && [b][1..] == [];
    assert LastEach([b], kind) == [Py(e2)];
  }
}
