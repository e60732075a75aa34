/** What a report shows, counted: every Python frame, and the native frames of a shared stack. */
module Conservation {
  import opened Basics
  import opened NativeFrames
  import opened Frames
  import opened FrameChain
  import opened Merge
  import opened Slice
  import opened SliceExact
  import opened Normalize
  import opened Formatter
  import opened Pipeline

  /** The formatted frames among the lines printed. */
  function FrameLines(out: seq<Output>): seq<Line> {
    if out == [] then [] else (if out[0].Shown? then [out[0].line] else []) + FrameLines(out[1..])
  }

  function PythonShown(p: Printed): seq<PyFrameData> {
    PyPart(FrameLines(p.lines))
  }

  function NativesShown(p: Printed): seq<NativeFrame> {
    CPart(FrameLines(p.lines))
  }

  lemma {:induction false} FrameLinesSplit(xs: seq<Output>, ys: seq<Output>)
    ensures FrameLines(xs + ys) == FrameLines(xs) + FrameLines(ys)
  {
    if xs == [] {
      assert xs + ys == ys;
    } else {
      assert (xs + ys)[1..] == xs[1..] + ys;
      FrameLinesSplit(xs[1..], ys);
      AppendAssociates(if xs[0].Shown? then [xs[0].line] else [], FrameLines(xs[1..]), FrameLines(ys));
    }
  }

  lemma {:induction false} FrameLinesOfShown(lines: seq<Line>)
    ensures FrameLines(ShownAll(lines)) == lines
  {
    if lines != [] {
      assert ShownAll(lines)[1..] == ShownAll(lines[1..]);
      FrameLinesOfShown(lines[1..]);
    }
  }

  lemma {:induction false} FramesWithoutNatives(frames: seq<PyFrameData>)
    requires NoShims(frames)
    ensures FrameLines(ShownFrames(frames)) == PyLines(frames)
  {
    if frames != [] {
      assert frames[0] in frames && forall f :: f in frames[1..] ==> f in frames;
      FramesWithoutNatives(frames[1..]);
      var rest := ShownFrames(frames[1..]);
      assert ([Shown(Py(frames[0]))] + rest)[1..] == rest;
    }
  }

  /** Of frames with shims among them exactly the others are shown. */
  lemma {:induction false} ShimsAreNotShown(frames: seq<PyFrameData>, f: PyFrameData)
    ensures multiset(ShownFrames(frames))[Shown(Py(f))] == if f.isShim then 0 else multiset(frames)[f]
  {
    if frames != [] {
      var head := if frames[0].isShim then [] else [Shown(Py(frames[0]))];
      ShimsAreNotShown(frames[1..], f);
      assert frames == [frames[0]] + frames[1..];
      assert ShownFrames(frames) == head + ShownFrames(frames[1..]);
    }
  }

  lemma {:induction false} ShownOfJoined(a: Printed, b: Printed)
    ensures PythonShown(Joined(a, b)) == PythonShown(a) + PythonShown(b)
    ensures NativesShown(Joined(a, b)) == NativesShown(a) + NativesShown(b)
  {
    FrameLinesSplit(a.lines, b.lines);
    PyPartSplit(FrameLines(a.lines), FrameLines(b.lines));
    CPartSplit(FrameLines(a.lines), FrameLines(b.lines));
  }

  // ----- One thread

  /** The formatter agrees to merge a thread. */
  predicate Merges(t: PyThreadData, version: Option<Version>, mode: NativeReportingMode) {
    mode != OFF && Mergeable(t, ClassifierFor(version))
  }

  lemma {:induction false} BodyShows(t: PyThreadData, version: Option<Version>, mode: NativeReportingMode)
    requires NoShims(Chain(t))
    ensures var p, kind := Body(t.natives, version, Chain(t), mode), ClassifierFor(version);
      && !p.failed
      && PythonShown(p) <= Chain(t)
      && (PythonShown(p) == Chain(t) <==> Merges(t, version, mode) ==> OutermostIsEntry(Chain(t)))
      && NativesShown(p) == (if !Merges(t, version, mode) then []
                             else Others(if mode == LAST then AfterLastEval(t.natives, kind) else t.natives, kind))
  {
    hide ClassifierFor, Body, EvalCount, EntryCount, PythonShown, NativesShown, Others, AfterLastEval, NoShims,
         OutermostIsEntry, Chain;
    if Merges(t, version, mode) {
      MergedBodyShows(t, version, mode);
    } else {
      UnmergedBodyShows(t, version, mode);
    }
  }

  lemma {:induction false} MergedBodyShows(t: PyThreadData, version: Option<Version>, mode: NativeReportingMode)
    requires NoShims(Chain(t)) && Merges(t, version, mode)
    ensures var p, kind := Body(t.natives, version, Chain(t), mode), ClassifierFor(version);
      && !p.failed
      && PythonShown(p) <= Chain(t)
      && (PythonShown(p) == Chain(t) <==> OutermostIsEntry(Chain(t)))
      && NativesShown(p) == Others(if mode == LAST then AfterLastEval(t.natives, kind) else t.natives, kind)
  {
    hide ClassifierFor, Body, Merged, EvalCount, EntryCount, Reverse, FromFirst, ShownAll, FrameLines, PyPart, CPart,
         Others, AfterLastEval, NoShims, OutermostIsEntry;
    EntryCountReverse(t.frames);
    NoShimsToSkip(Chain(t));
    BodyMerged(t.natives, version, Chain(t), mode);
    MergeCompleteness(t.natives, ClassifierFor(version), Chain(t), mode == LAST);
    FrameLinesOfShown(Merged(t.natives, ClassifierFor(version), Chain(t), mode == LAST, []).lines);
  }

  lemma {:induction false} UnmergedBodyShows(t: PyThreadData, version: Option<Version>, mode: NativeReportingMode)
    requires NoShims(Chain(t)) && !Merges(t, version, mode)
    ensures var p := Body(t.natives, version, Chain(t), mode);
      !p.failed && PythonShown(p) == Chain(t) && NativesShown(p) == []
  {
    hide ClassifierFor, Body, EvalCount, EntryCount, Reverse, FromFirst, ShownFrames, FrameLines, PyPart, CPart,
         PyLines,
         NoShims;
    EntryCountReverse(t.frames);
    NoShimsToSkip(Chain(t));
    BodyUnmerged(t.natives, version, Chain(t), mode);
    var remark := if mode != OFF then [Text(UNABLE_TO_MERGE)] else [];
    FrameLinesSplit(remark, ShownFrames(Chain(t)));
    RemarkIsNoFrame(remark);
    FramesWithoutNatives(Chain(t));
    PartsOfPyLines(Chain(t));
    assert [] + PyLines(Chain(t)) == PyLines(Chain(t));
  }

  lemma {:induction false} RemarkIsNoFrame(out: seq<Output>)
    requires |out| <= 1 && forall o :: o in out ==> o.Text?
    ensures FrameLines(out) == []
  {
    assert out != [] ==> out[0] in out && out[1..] == [];
  }

  // ----- Python frames

  lemma {:induction false} NothingPrinted()
    ensures FrameLines([]) == [] && PyPart([]) == [] && CPart([]) == []
  {
  }

  /** For any list of threads, in any mode, whatever the counts: nobody fails, and every Python frame of
      every thread is printed, once and in order, if and only if no thread that is merged starts with a
      frame that is no entry. */
  lemma {:induction false} PythonFramesShownIff(data: seq<PyThreadData>, version: Option<Version>,
                                                mode: NativeReportingMode)
    requires NoShimsIn(data)
    ensures var p := PrintedBodies(data, version, mode);
      && !p.failed
      && |PythonShown(p)| <= |Chains(data)|
      && (PythonShown(p) == Chains(data)
          <==> forall t :: t in data && Merges(t, version, mode) ==> OutermostIsEntry(Chain(t)))
  {
    hide Body, PythonShown, NativesShown, Merges, OutermostIsEntry, NoShims, Chain;
    if data == [] {
      NoPythonShown();
    } else {
      var t, rest := data[0], data[1..];
      assert data == [t] + rest;
      BodyShows(t, version, mode);
      PythonFramesShownIff(rest, version, mode);
      var body, bodies := Body(t.natives, version, Chain(t), mode), PrintedBodies(rest, version, mode);
      ShownOfJoined(body, bodies);
      PrefixesAgree(PythonShown(body), Chain(t), PythonShown(bodies), Chains(rest));
      assert forall u :: u in data <==> u == t || u in rest;
    }
  }

  lemma {:induction false} NoPythonShown()
    ensures PythonShown(Printed([], false)) == [] && NativesShown(Printed([], false)) == []
  {
    NothingPrinted();
  }

  lemma {:induction false} PrefixesAgree<T>(a: seq<T>, x: seq<T>, b: seq<T>, y: seq<T>)
    requires a <= x && |b| <= |y|
    ensures |a + b| <= |x + y| && (a + b == x + y <==> a == x && b == y)
  {
    if a + b == x + y {
      assert |a| == |x|;
      assert b == (a + b)[|a|..] && y == (x + y)[|x|..];
    }
  }

  /** Normalising in different modes differs in native frames only. */
  lemma {:induction false} ModesDifferInNatives(tids: seq<int>, threads: seq<PyThreadData>, mode: NativeReportingMode,
                                                kind: Classifier)
    ensures SameButNatives(NormalizedGroups(tids, threads, mode, kind), NormalizedGroups(tids, threads, OFF, kind))
    ensures forall t :: t in NormalizedGroups(tids, threads, OFF, kind) ==> t in threads
  {
    hide OfTid, NormalizedGroup, SameButNatives;
    if tids == [] {
      NothingDiffers();
    } else {
      var n := |tids| - 1;
      var group := OfTid(threads, tids[n]);
      ModesDifferInNatives(tids[..n], threads, mode, kind);
      ModesDifferInGroup(group, mode, kind);
      OfTidInside(threads, tids[n]);
      SameButNativesJoin(NormalizedGroups(tids[..n], threads, mode, kind),
                         NormalizedGroups(tids[..n], threads, OFF, kind),
                         NormalizedGroup(group, mode, kind), NormalizedGroup(group, OFF, kind));
    }
  }

  lemma {:induction false} NothingDiffers()
    ensures SameButNatives([], [])
  {
  }

  lemma {:induction false} ModesDifferInGroup(group: seq<PyThreadData>, mode: NativeReportingMode, kind: Classifier)
    ensures SameButNatives(NormalizedGroup(group, mode, kind), NormalizedGroup(group, OFF, kind))
    ensures forall t :: t in NormalizedGroup(group, OFF, kind) ==> t in group
  {
    hide Sliced;
    SortDescending(group);
    SlicedSameButNatives(SortThreadsByStackAnchor(group), kind);
  }

  lemma {:induction false} SameButNativesJoin(xs1: seq<PyThreadData>, ys1: seq<PyThreadData>, xs2: seq<PyThreadData>,
                                              ys2: seq<PyThreadData>)
    requires SameButNatives(xs1, ys1) && SameButNatives(xs2, ys2)
    ensures SameButNatives(xs1 + xs2, ys1 + ys2)
  {
  }

  lemma {:induction false} SameChains(xs: seq<PyThreadData>, ys: seq<PyThreadData>)
    requires SameButNatives(xs, ys)
    ensures Chains(xs) == Chains(ys)
    ensures NoShimsIn(ys) ==> NoShimsIn(xs)
    ensures EntryChains(ys) ==> EntryChains(xs)
  {
    hide NoShims, OutermostIsEntry, Reverse;
    if xs != [] {
      assert Strip(xs[0]) == Strip(ys[0]);
      assert forall i :: 0 <= i < |xs[1..]| ==> xs[1..][i] == xs[i + 1] && ys[1..][i] == ys[i + 1];
      SameChains(xs[1..], ys[1..]);
      assert forall t :: t in xs <==> t == xs[0] || t in xs[1..];
      assert forall t :: t in ys <==> t == ys[0] || t in ys[1..];
    }
  }

  lemma {:induction false} NormalizedKeepsChains(threads: seq<PyThreadData>, mode: NativeReportingMode,
                                                 kind: Classifier)
    ensures Chains(Normalized(threads, mode, kind)) == Chains(Normalized(threads, OFF, kind))
    ensures NoShimsIn(threads) ==> NoShimsIn(Normalized(threads, mode, kind))
    ensures EntryChains(threads) ==> EntryChains(Normalized(threads, mode, kind))
  {
    hide NormalizedGroups, NoShims, OutermostIsEntry, Chain, Chains, SameButNatives;
    ModesDifferInNatives(FirstSeen(threads), threads, mode, kind);
    SameChains(Normalized(threads, mode, kind), Normalized(threads, OFF, kind));
  }

  /** The report of a process whose chains start with entries: every Python frame of every thread exactly
      once, in the same order in every mode, whether the counts match or not, and the formatter never
      fails. */
  lemma {:induction false} EveryPythonFrameOnce(threads: seq<PyThreadData>, version: Version,
                                                mode: NativeReportingMode)
    requires NoShimsIn(threads)
    ensures var kind := ClassifierFor(Some(version));
      var p := PrintedBodies(Normalized(threads, mode, kind), Some(version), mode);
      && !p.failed
      && (EntryChains(threads) ==> PythonShown(p) == Chains(Normalized(threads, OFF, kind)))
  {
    hide ClassifierFor, PrintedBodies, PythonShown, Normalized, Merges, NoShims, OutermostIsEntry, Chain, Chains;
    var kind := ClassifierFor(Some(version));
    NormalizedKeepsChains(threads, mode, kind);
    PythonFramesShownIff(Normalized(threads, mode, kind), Some(version), mode);
  }

  // ----- Native frames of a shared stack

  /** All threads of a group carry the native stack of their OS thread. */
  ghost predicate SharesNatives(group: seq<PyThreadData>, natives: seq<NativeFrame>) {
    forall t :: t in group ==> t.natives == natives
  }

  /** How many threads have as many entry frames as the stack has evaluation frames. */
  function MatchingAlone(group: seq<PyThreadData>, evals: nat): nat {
    if group == [] then 0
    else (if EntryCount(group[0].frames) == evals then 1 else 0) + MatchingAlone(group[1..], evals)
  }

  /** How often the native stack of a group is printed: once if it is shared out; not at all if there is
      nobody to share it out to; and otherwise once for each thread that takes the whole of it alone. */
  function Copies(group: seq<PyThreadData>, natives: seq<NativeFrame>, kind: Classifier): nat {
    var evals, entries := EvalCount(natives, kind), TotalEntries(group);
    if |group| > 1 && evals == entries then if entries > 0 then 1 else 0
    else MatchingAlone(group, evals)
  }

  function Repeated<T>(xs: seq<T>, n: nat): seq<T> {
    if n == 0 then [] else xs + Repeated(xs, n - 1)
  }

  lemma {:induction false} RepeatedLength<T>(xs: seq<T>, n: nat)
    ensures |Repeated(xs, n)| == n * |xs|
  {
    if n > 0 {
      RepeatedLength(xs, n - 1);
    }
  }

  lemma {:induction false} SortKeepsCounts(group: seq<PyThreadData>, evals: nat)
    ensures TotalEntries(SortThreadsByStackAnchor(group)) == TotalEntries(group)
    ensures MatchingAlone(SortThreadsByStackAnchor(group), evals) == MatchingAlone(group, evals)
  {
    hide EntryCount, Insert;
    if group != [] {
      SortKeepsCounts(group[1..], evals);
      InsertKeepsCounts(group[0], SortThreadsByStackAnchor(group[1..]), evals);
    }
  }

  lemma {:induction false} InsertKeepsCounts(t: PyThreadData, xs: seq<PyThreadData>, evals: nat)
    ensures TotalEntries(Insert(t, xs)) == EntryCount(t.frames) + TotalEntries(xs)
    ensures MatchingAlone(Insert(t, xs), evals)
         == (if EntryCount(t.frames) == evals then 1 else 0) + MatchingAlone(xs, evals)
  {
    hide EntryCount, AnchorLess;
    if xs != [] && AnchorLess(xs[0], t) {
      InsertKeepsCounts(t, xs[1..], evals);
      assert ([xs[0]] + Insert(t, xs[1..]))[1..] == Insert(t, xs[1..]);
    } else {
      assert ([t] + xs)[1..] == xs;
    }
  }

  lemma {:induction false} OthersSplit(xs: seq<NativeFrame>, ys: seq<NativeFrame>, kind: Classifier)
    ensures Others(xs + ys, kind) == Others(xs, kind) + Others(ys, kind)
  {
    if xs == [] {
      assert xs + ys == ys;
    } else {
      assert (xs + ys)[1..] == xs[1..] + ys;
      OthersSplit(xs[1..], ys, kind);
      AppendAssociates(if kind(xs[0]) == Other then [xs[0]] else [], Others(xs[1..], kind), Others(ys, kind));
    }
  }

  /** Threads that all merge show the shown frames of their stacks joined up. */
  lemma {:induction false} MergedShowAll(data: seq<PyThreadData>, version: Option<Version>, mode: NativeReportingMode)
    requires mode == PYTHON || mode == ALL
    requires NoShimsIn(data) && forall t :: t in data ==> Mergeable(t, ClassifierFor(version))
    ensures NativesShown(PrintedBodies(data, version, mode)) == Others(NativesOf(data), ClassifierFor(version))
  {
    hide Body, PythonShown, NativesShown, Mergeable, NoShims, Chain, ClassifierFor, Others;
    if data == [] {
      NoPythonShown();
      OthersStep([], ClassifierFor(version));
    } else {
      var t, rest := data[0], data[1..];
      assert data == [t] + rest;
      BodyShows(t, version, mode);
      MergedShowAll(rest, version, mode);
      ShownOfJoined(Body(t.natives, version, Chain(t), mode), PrintedBodies(rest, version, mode));
      OthersSplit(t.natives, NativesOf(rest), ClassifierFor(version));
    }
  }

  /** Threads that were not sliced print the whole stack once for each of them that merges. */
  lemma {:induction false} UnslicedShow(data: seq<PyThreadData>, natives: seq<NativeFrame>, version: Option<Version>,
                                        mode: NativeReportingMode)
    requires mode == PYTHON || mode == ALL
    requires NoShimsIn(data) && SharesNatives(data, natives)
    ensures var kind := ClassifierFor(version);
      NativesShown(PrintedBodies(data, version, mode))
      == Repeated(Others(natives, kind), MatchingAlone(data, EvalCount(natives, kind)))
  {
    hide Body, PythonShown, NativesShown, NoShims, Chain, ClassifierFor, Others, EvalCount, EntryCount;
    if data == [] {
      NoPythonShown();
    } else {
      var t, rest := data[0], data[1..];
      assert data == [t] + rest;
      BodyShows(t, version, mode);
      UnslicedShow(rest, natives, version, mode);
      ShownOfJoined(Body(t.natives, version, Chain(t), mode), PrintedBodies(rest, version, mode));
    }
  }

  /** For any group, matching counts or not: its shown native frames are printed as often as said. */
  lemma {:induction false} SharedStackShown(group: seq<PyThreadData>, natives: seq<NativeFrame>, version: Version,
                                            mode: NativeReportingMode)
    requires mode == PYTHON || mode == ALL
    requires NoShimsIn(group) && SharesNatives(group, natives)
    ensures var kind := ClassifierFor(Some(version));
      NativesShown(PrintedBodies(NormalizedGroup(group, mode, kind), Some(version), mode))
      == Repeated(Others(natives, kind), Copies(group, natives, kind))
  {
    hide ClassifierFor, PrintedBodies, NativesShown, Others, EvalCount, EntryCount, TotalEntries, MatchingAlone, Chain,
         NoShims, NativesOf, SliceFrom;
    var kind, sorted := ClassifierFor(Some(version)), SortThreadsByStackAnchor(group);
    SortKeepsCounts(group, EvalCount(natives, kind));
    SortDescending(group);
    if |group| <= 1 {
      UnslicedShow(group, natives, Some(version), mode);
    } else if natives == [] || !CountsMatch(sorted, kind) {
      assert sorted[0] in group;
      UnslicedShow(sorted, natives, Some(version), mode);
      if natives == [] {
        NothingRepeated(kind, MatchingAlone(group, EvalCount(natives, kind)));
        NothingRepeated(kind, Copies(group, natives, kind));
      }
    } else {
      assert sorted[0] in group;
      SlicedShow(sorted, Some(version), mode);
      assert Repeated(Others(natives, kind), 1) == Others(natives, kind) + Repeated(Others(natives, kind), 0);
    }
  }

  lemma {:induction false} NothingRepeated(kind: Classifier, n: nat)
    ensures Repeated(Others([], kind), n) == []
  {
    RepeatedLength(Others([], kind), n);
  }

  lemma {:induction false} SlicedShow(data: seq<PyThreadData>, version: Option<Version>, mode: NativeReportingMode)
    requires mode == PYTHON || mode == ALL
    requires NoShimsIn(data) && CountsMatch(data, ClassifierFor(version)) && data[0].natives != []
    ensures var kind := ClassifierFor(version);
      NativesShown(PrintedBodies(Sliced(data, kind), version, mode))
      == if TotalEntries(data) > 0 then Others(data[0].natives, kind) else []
  {
    hide ClassifierFor, PrintedBodies, NativesShown, Others, EvalCount, EntryCount, TotalEntries, NoShims, NativesOf,
         Mergeable, SliceFrom;
    var kind := ClassifierFor(version);
    SlicePartition(data, kind);
    SlicedSameButNatives(data, kind);
    SameChains(Sliced(data, kind), data);
    MergedShowAll(Sliced(data, kind), version, mode);
    if TotalEntries(data) == 0 {
      NoEntriesNothingLeft(data, data[0].natives, kind, 0);
      OthersStep([], kind);
    }
  }

  /** The native frames of an OS thread are printed exactly once if and only if there are none to show or
      the stack is printed by exactly one thread or by all together. */
  lemma {:induction false} PrintedOnceIff(group: seq<PyThreadData>, natives: seq<NativeFrame>, version: Version,
                                          mode: NativeReportingMode)
    requires mode == PYTHON || mode == ALL
    requires NoShimsIn(group) && SharesNatives(group, natives)
    ensures var kind := ClassifierFor(Some(version));
      NativesShown(PrintedBodies(NormalizedGroup(group, mode, kind), Some(version), mode)) == Others(natives, kind)
      <==> Others(natives, kind) == [] || Copies(group, natives, kind) == 1
  {
    hide ClassifierFor, PrintedBodies, NativesShown, Others, EvalCount, EntryCount, TotalEntries, MatchingAlone,
         NoShims,
         NormalizedGroup, Copies;
    var kind := ClassifierFor(Some(version));
    var others, n := Others(natives, kind), Copies(group, natives, kind);
    SharedStackShown(group, natives, version, mode);
    RepeatedLength(others, n);
    if others != [] && n != 1 {
      assert n == 0 || n * |others| >= 2 * |others|;
    }
    if n == 1 {
      assert Repeated(others, 1) == others + Repeated(others, 0);
    }
  }

  /** A stack printed twice: two interpreters of one frame each, and a native stack that shows the
      evaluation frame of one of them only. Each thread matches the whole of it alone. */
  lemma {:induction false} PrintedTwice(v: Version, c1: CodeData, c2: CodeData, outer: PyThreadData,
                                        inner: PyThreadData, eval: NativeFrame, native: NativeFrame,
                                        mode: NativeReportingMode)
    requires mode == PYTHON || mode == ALL
    requires v.AtLeast(Version(3, 12)) && UNREADABLE !in {c1.filename, c2.filename}
    requires outer.frames == Kept(RemoteWalk(v, PlainChain(c1))) && inner.frames == Kept(RemoteWalk(v, PlainChain(c2)))
    requires outer.natives == inner.natives == [eval, native]
    requires ClassifierFor(Some(v))(eval) == Eval && ClassifierFor(Some(v))(native) == Other
    ensures var kind := ClassifierFor(Some(v));
      NativesShown(PrintedBodies(NormalizedGroup([outer, inner], mode, kind), Some(v), mode)) == [native, native]
  {
    hide ClassifierFor, PrintedBodies, NativesShown, NormalizedGroup, Kept, RemoteWalk;
    var kind, group := ClassifierFor(Some(v)), [outer, inner];
    PlainChainKept(v, c1);
    PlainChainKept(v, c2);
    OneEntryEach(group, kind, eval, native);
    SharedStackShown(group, [eval, native], v, mode);
  }

  lemma {:induction false} OneEntryEach(group: seq<PyThreadData>, kind: Classifier, eval: NativeFrame,
                                        native: NativeFrame)
    requires |group| == 2 && kind(eval) == Eval && kind(native) == Other
    requires forall t :: t in group ==> |t.frames| == 1 && t.frames[0].isEntry && !t.frames[0].isShim
    ensures NoShimsIn(group) && Others([eval, native], kind) == [native] && Copies(group, [eval, native], kind) == 2
    ensures Repeated([native], 2) == [native, native]
  {
    var natives := [eval, native];
    assert group == [group[0], group[1]];
    assert natives[1..] == [native] && [native][1..] == [];
    assert EvalCount([native], kind) == 0 && EvalCount(natives, kind) == 1 && Others([native], kind) == [native];
    assert EntryCount(group[0].frames) == 1 && EntryCount(group[1].frames) == 1;
    assert group[1..] == [group[1]] && [group[1]][1..] == [];
    assert TotalEntries([]) == 0 && MatchingAlone([], 1) == 0;
    assert TotalEntries([group[1]]) == 1;
    assert MatchingAlone([group[1]], 1) == 1;
    assert MatchingAlone(group, 1) == 2;
    assert Repeated([native], 1) == [native] + Repeated([native], 0) == [native];
  }
}
