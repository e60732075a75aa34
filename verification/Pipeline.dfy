/** From remote frame chains to printed lines: the guarantees of the separate stages, put together. */
module Pipeline {
  import opened Basics
  import opened NativeFrames
  import opened Frames
  import opened FrameChain
  import opened Merge
  import opened Slice
  import opened LastMode
  import opened Normalize
  import opened Formatter

  /** The frame lines printed for a list of threads, headers aside. */
  function PrintedBodies(data: seq<PyThreadData>, version: Option<Version>, mode: NativeReportingMode): Printed {
    if data == [] then Printed([], false)
    else
      Joined(Body(data[0].natives, version, Chain(data[0]), mode), PrintedBodies(data[1..], version, mode))
  }

  function Joined(a: Printed, b: Printed): Printed {
    Printed(a.lines + b.lines, a.failed || b.failed)
  }

  predicate NoShimsIn(data: seq<PyThreadData>) {
    forall t | t in data :: NoShims(Chain(t))
  }

  lemma {:induction false} NoShimsToSkip(frames: seq<PyFrameData>)
    requires NoShims(frames)
    ensures FromFirst(frames) == frames
  {
    assert frames != [] ==> frames[0] in frames;
  }

  lemma {:induction false} NeverFails(natives: seq<NativeFrame>, kind: Classifier, frames: seq<PyFrameData>)
    requires EvalCount(natives, kind) == EntryCount(frames)
    ensures Merged(natives, kind, frames, false, []) == Emitted(MergedWhole(natives, kind, frames), false)
  {
    MergeCompleteness(natives, kind, frames, false);
  }

  lemma {:induction false} BodyOfMergeable(t: PyThreadData, version: Option<Version>, mode: NativeReportingMode)
    requires mode == PYTHON || mode == ALL
    requires Mergeable(t, ClassifierFor(version)) && NoShims(Chain(t)) && OutermostIsEntry(Chain(t))
    ensures Body(t.natives, version, Chain(t), mode)
         == Printed(ShownAll(MergedWhole(t.natives, ClassifierFor(version), Chain(t))), false)
  {
    hide ClassifierFor, Merged, EvalCount, EntryCount, Reverse, FromFirst, ShownAll, ShownFrames;
    EntryCountReverse(t.frames);
    NeverFails(t.natives, ClassifierFor(version), Chain(t));
    NoShimsToSkip(Chain(t));
  }

  lemma {:induction false} BodiesOfMergeable(data: seq<PyThreadData>, version: Option<Version>,
                                             mode: NativeReportingMode)
    requires mode == PYTHON || mode == ALL
    requires forall t :: t in data ==> Mergeable(t, ClassifierFor(version))
    requires NoShimsIn(data) && EntryChains(data)
    ensures PrintedBodies(data, version, mode) == Printed(ShownAll(MergedEach(data, ClassifierFor(version))), false)
  {
    hide ClassifierFor, Body, Mergeable, MergedWhole, NoShims, OutermostIsEntry, Chain;
    if data != [] {
      BodyOfMergeable(data[0], version, mode);
      BodiesOfMergeable(data[1..], version, mode);
      ShownAllSplit(MergedWhole(data[0].natives, ClassifierFor(version), Chain(data[0])),
                    MergedEach(data[1..], ClassifierFor(version)));
    }
  }

  lemma {:induction false} ShownAllSplit(xs: seq<Line>, ys: seq<Line>)
    ensures ShownAll(xs + ys) == ShownAll(xs) + ShownAll(ys)
  {
  }

  lemma {:induction false} SameShown(xs: seq<Line>, ys: seq<Line>)
    ensures ShownAll(xs) == ShownAll(ys) <==> xs == ys
  {
    if ShownAll(xs) == ShownAll(ys) {
      forall i | 0 <= i < |xs| ensures xs[i] == ys[i] {
        assert ShownAll(xs)[i] == ShownAll(ys)[i];
      }
    }
  }

  /** The sorted and sliced threads of a group, ready for the formatter. */
  lemma {:induction false} SlicedGroup(group: seq<PyThreadData>, kind: Classifier)
    requires |group| > 1 && NoShimsIn(group) && EntryChains(group)
    requires var sorted := SortThreadsByStackAnchor(group); CountsMatch(sorted, kind) && sorted[0].natives != []
    ensures var sorted := SortThreadsByStackAnchor(group);
      && EntryChains(sorted) && NoShimsIn(Sliced(sorted, kind)) && EntryChains(Sliced(sorted, kind))
      && forall t :: t in Sliced(sorted, kind) ==> Mergeable(t, kind)
  {
    hide Sliced, CountsMatch, Mergeable, NoShims, OutermostIsEntry, Chain;
    var sorted := SortThreadsByStackAnchor(group);
    SortDescending(group);
    forall t | t in Sliced(sorted, kind)
      ensures Mergeable(t, kind) && NoShims(Chain(t)) && OutermostIsEntry(Chain(t))
    {
      SlicedKeepsChain(sorted, kind, t);
    }
  }

  /** Interpreters sharing an OS thread print as one thread would. Take any group of two or more
      threads whose shared native stack has as many evaluation frames as the group has entry frames.
      What the formatter prints for the regrouped, sliced threads, one after the other, is one merge
      of the whole native stack with all their Python frames, outermost interpreter first, if and only
      if the group has an entry frame or the stack has nothing to show. */
  lemma {:induction false} GroupPrintsAsOneStack(group: seq<PyThreadData>, version: Version, mode: NativeReportingMode)
    requires |group| > 1 && (mode == PYTHON || mode == ALL)
    requires NoShimsIn(group) && EntryChains(group)
    requires var sorted := SortThreadsByStackAnchor(group);
      CountsMatch(sorted, ClassifierFor(Some(version))) && sorted[0].natives != []
    ensures var kind := ClassifierFor(Some(version));
      var sorted := SortThreadsByStackAnchor(group);
      PrintedBodies(NormalizedGroup(group, mode, kind), Some(version), mode)
      == Printed(ShownAll(MergedWhole(sorted[0].natives, kind, Chains(sorted))), false)
      <==> TotalEntries(sorted) > 0 || Others(sorted[0].natives, kind) == []
  {
    hide ClassifierFor, Body, MergedWhole, MergedEach, PrintedBodies, Sliced, CountsMatch, Mergeable, NoShimsIn,
         EntryChains, ShownAll;
    var kind, sorted := ClassifierFor(Some(version)), SortThreadsByStackAnchor(group);
    var sliced := Sliced(sorted, kind);
    SlicedGroup(group, kind);
    SlicingPreservesMeaning(sorted, kind);
    BodiesOfMergeable(sliced, Some(version), mode);
    SameShown(MergedEach(sliced, kind), MergedWhole(sorted[0].natives, kind, Chains(sorted)));
  }

  // ----- LAST mode

  lemma {:induction false} LastBodyOfMergeable(t: PyThreadData, version: Option<Version>)
    requires Mergeable(t, ClassifierFor(version)) && NoShims(Chain(t))
    ensures Body(t.natives, version, Chain(t), LAST)
         == Printed(ShownAll(MergedInLast(t.natives, ClassifierFor(version), Chain(t))), false)
  {
    hide ClassifierFor, Merged, EvalCount, EntryCount, Reverse, FromFirst, ShownAll, ShownFrames;
    EntryCountReverse(t.frames);
    MergeCompleteness(t.natives, ClassifierFor(version), Chain(t), true);
    NoShimsToSkip(Chain(t));
  }

  lemma {:induction false} LastBodiesOfMergeable(data: seq<PyThreadData>, version: Option<Version>)
    requires forall t :: t in data ==> Mergeable(t, ClassifierFor(version))
    requires NoShimsIn(data)
    ensures PrintedBodies(data, version, LAST) == Printed(ShownAll(LastEach(data, ClassifierFor(version))), false)
  {
    hide ClassifierFor, Body, Mergeable, MergedInLast, NoShims, Chain;
    if data != [] {
      LastBodyOfMergeable(data[0], version);
      LastBodiesOfMergeable(data[1..], version);
      ShownAllSplit(MergedInLast(data[0].natives, ClassifierFor(version), Chain(data[0])),
                    LastEach(data[1..], ClassifierFor(version)));
    }
  }

  /** The same for LAST mode, where more is needed: the threads of a group print as one LAST merge of the
      whole native stack if and only if no slice but the last one running ends in a native frame to show;
      or, without entry frames, the stack has nothing to show. */
  lemma {:induction false} GroupPrintsAsOneLastStackIff(group: seq<PyThreadData>, version: Version)
    requires |group| > 1 && NoShimsIn(group) && EntryChains(group)
    requires var sorted := SortThreadsByStackAnchor(group);
      CountsMatch(sorted, ClassifierFor(Some(version))) && sorted[0].natives != []
    ensures var kind := ClassifierFor(Some(version));
      var sorted := SortThreadsByStackAnchor(group);
      PrintedBodies(NormalizedGroup(group, LAST, kind), Some(version), LAST)
      == Printed(ShownAll(MergedInLast(sorted[0].natives, kind, Chains(sorted))), false)
      <==> if TotalEntries(sorted) > 0 then NoInnerTails(Sliced(sorted, kind), kind)
           else Tail(sorted[0].natives, kind) == []
  {
    hide ClassifierFor, Body, MergedInLast, LastEach, PrintedBodies, Sliced, CountsMatch, Mergeable, NoShimsIn,
         EntryChains, ShownAll, NoInnerTails, Tail, TotalEntries;
    var kind, sorted := ClassifierFor(Some(version)), SortThreadsByStackAnchor(group);
    var sliced := Sliced(sorted, kind);
    SlicedGroup(group, kind);
    SlicingInLastModeIff(sorted, kind);
    LastBodiesOfMergeable(sliced, Some(version));
    SameShown(LastEach(sliced, kind), MergedInLast(sorted[0].natives, kind, Chains(sorted)));
  }

  // ----- Whole reports

  /** A group of threads under one id to which the theorem above applies, or a single thread. */
  ghost predicate Shareable(group: seq<PyThreadData>, version: Version) {
    |group| > 1 ==>
      var sorted := SortThreadsByStackAnchor(group);
      && NoShimsIn(group) && EntryChains(group)
      && CountsMatch(sorted, ClassifierFor(Some(version)))
      && sorted[0].natives != [] && TotalEntries(sorted) > 0
  }

  /** A single thread as the formatter prints it; several as one stack. */
  function AsOneStack(group: seq<PyThreadData>, version: Version, mode: NativeReportingMode): Printed {
    if |group| <= 1 then PrintedBodies(group, Some(version), mode)
    else
      var sorted := SortThreadsByStackAnchor(group);
      Printed(ShownAll(MergedWhole(sorted[0].natives, ClassifierFor(Some(version)), Chains(sorted))), false)
  }

  function OneStackEach(tids: seq<int>, threads: seq<PyThreadData>, version: Version,
                        mode: NativeReportingMode): Printed
  {
    if tids == [] then Printed([], false)
    else
      var n := |tids| - 1;
      Joined(OneStackEach(tids[..n], threads, version, mode), AsOneStack(OfTid(threads, tids[n]), version, mode))
  }

  lemma {:induction false} PrintedBodiesSplit(xs: seq<PyThreadData>, ys: seq<PyThreadData>, version: Option<Version>,
                                              mode: NativeReportingMode)
    ensures PrintedBodies(xs + ys, version, mode)
         == Joined(PrintedBodies(xs, version, mode), PrintedBodies(ys, version, mode))
  {
    hide Body;
    if xs == [] {
      assert xs + ys == ys;
    } else {
      assert (xs + ys)[1..] == xs[1..] + ys;
      PrintedBodiesSplit(xs[1..], ys, version, mode);
      AppendAssociates(Body(xs[0].natives, version, Chain(xs[0]), mode).lines,
                       PrintedBodies(xs[1..], version, mode).lines, PrintedBodies(ys, version, mode).lines);
    }
  }

  lemma {:induction false} GroupPrints(group: seq<PyThreadData>, version: Version, mode: NativeReportingMode)
    requires (mode == PYTHON || mode == ALL) && Shareable(group, version)
    ensures PrintedBodies(NormalizedGroup(group, mode, ClassifierFor(Some(version))), Some(version), mode)
         == AsOneStack(group, version, mode)
  {
    hide PrintedBodies, MergedWhole, Sliced, NoShimsIn, EntryChains, CountsMatch, TotalEntries;
    if |group| > 1 {
      GroupPrintsAsOneStack(group, version, mode);
    }
  }

  lemma {:induction false} GroupsPrint(tids: seq<int>, threads: seq<PyThreadData>, version: Version,
                                       mode: NativeReportingMode)
    requires mode == PYTHON || mode == ALL
    requires forall tid :: tid in tids ==> Shareable(OfTid(threads, tid), version)
    ensures PrintedBodies(NormalizedGroups(tids, threads, mode, ClassifierFor(Some(version))), Some(version), mode)
         == OneStackEach(tids, threads, version, mode)
  {
    hide Body, NormalizedGroup, AsOneStack, Shareable, OfTid, ClassifierFor;
    if tids != [] {
      var n, kind := |tids| - 1, ClassifierFor(Some(version));
      assert tids[n] in tids;
      GroupPrints(OfTid(threads, tids[n]), version, mode);
      GroupsPrint(tids[..n], threads, version, mode);
      PrintedBodiesSplit(NormalizedGroups(tids[..n], threads, mode, kind),
                         NormalizedGroup(OfTid(threads, tids[n]), mode, kind), Some(version), mode);
    }
  }

  /** The whole report. Whatever threads were read, in whatever order: the normalised list prints as one
      stack per OS thread, ids in the order first seen, provided the interpreters that share a thread
      meet the conditions of the group theorem. */
  lemma {:induction false} ProcessPrintsOneStackPerThread(threads: seq<PyThreadData>, version: Version,
                                                          mode: NativeReportingMode)
    requires mode == PYTHON || mode == ALL
    requires forall tid :: tid in FirstSeen(threads) ==> Shareable(OfTid(threads, tid), version)
    ensures PrintedBodies(Normalized(threads, mode, ClassifierFor(Some(version))), Some(version), mode)
         == OneStackEach(FirstSeen(threads), threads, version, mode)
  {
    hide PrintedBodies, NormalizedGroups, OneStackEach, Shareable, OfTid, FirstSeen, ClassifierFor;
    GroupsPrint(FirstSeen(threads), threads, version, mode);
  }

  lemma {:induction false} SlicedKeepsChain(sorted: seq<PyThreadData>, kind: Classifier, t: PyThreadData)
    requires CountsMatch(sorted, kind) && sorted[0].natives != [] && t in Sliced(sorted, kind)
    ensures Mergeable(t, kind) && exists s :: s in sorted && Chain(t) == Chain(s)
  {
    SlicePartition(sorted, kind);
    var j :| 0 <= j < |sorted| && Sliced(sorted, kind)[j] == t;
    assert Chain(sorted[j]) == Chain(t);
  }

  // ----- Groups read from remote chains

  /** The threads' frames are those reported for the remote chains. */
  ghost predicate ReadFrom(group: seq<PyThreadData>, v: Version, chains: seq<seq<RawFrame>>) {
    |chains| == |group| && forall i :: 0 <= i < |group| ==> group[i].frames == Kept(RemoteWalk(v, chains[i]))
  }

  function TotalCalledShims(v: Version, chains: seq<seq<RawFrame>>): nat {
    if chains == [] then 0 else CalledShims(RemoteWalk(v, chains[0])) + TotalCalledShims(v, chains[1..])
  }

  /** On every version: no shim is reported, and the outermost frames of a group are entries if and only
      if all its chains are ready. */
  lemma {:induction false} RemoteGroups(group: seq<PyThreadData>, v: Version, chains: seq<seq<RawFrame>>)
    requires ReadFrom(group, v, chains)
    ensures NoShimsIn(group)
    ensures EntryChains(group) <==> forall i :: 0 <= i < |chains| ==> ReadyChain(v, chains[i])
  {
    hide RemoteWalk, Kept, ReadyChain, NoShims, OutermostIsEntry;
    forall i | 0 <= i < |group|
      ensures NoShims(Chain(group[i])) && (OutermostIsEntry(Chain(group[i])) <==> ReadyChain(v, chains[i]))
    {
      ReadyChainIff(v, chains[i]);
      NoShimsReverse(group[i].frames);
    }
    forall i | 0 <= i < |chains|
      ensures group[i] in group
    {
    }
  }

  lemma {:induction false} NoShimsReverse(frames: seq<PyFrameData>)
    requires NoShims(frames)
    ensures NoShims(Reverse(frames))
  {
    forall f | f in Reverse(frames) ensures !f.isShim {
      var k :| 0 <= k < |frames| && Reverse(frames)[k] == f;
      assert f == frames[|frames| - 1 - k];
    }
  }

  /** On 3.12 and later the entry frames of a group are the shims called from reported frames. */
  lemma {:induction false} RemoteEntries(group: seq<PyThreadData>, v: Version, chains: seq<seq<RawFrame>>)
    requires v.AtLeast(Version(3, 12)) && ReadFrom(group, v, chains)
    ensures TotalEntries(group) == TotalCalledShims(v, chains)
  {
    hide RemoteWalk, Kept;
    if group != [] {
      ReportedEntries(v, chains[0]);
      RemoteEntries(group[1..], v, chains[1..]);
    }
  }

  /** Before 3.11 a group meets the conditions on chains whatever its chains look like, and all its
      frames are entries. */
  lemma {:induction false} OldGroups(group: seq<PyThreadData>, v: Version, chains: seq<seq<RawFrame>>)
    requires !v.AtLeast(Version(3, 11)) && ReadFrom(group, v, chains)
    ensures NoShimsIn(group) && EntryChains(group)
    ensures forall t :: t in group ==> EntryCount(t.frames) == |t.frames|
  {
    hide RemoteWalk, Kept, NoShims, OutermostIsEntry, EntryCount;
    RemoteGroups(group, v, chains);
    forall i | 0 <= i < |group|
      ensures EntryCount(group[i].frames) == |group[i].frames|
    {
      if chains[i] == [] {
        EmptyWalk(v);
        AllEntries([]);
      } else {
        OldVersionsAllEntries(v, chains[i], 0);
        WalkOfChain(v, chains[i]);
        AllEntries(group[i].frames);
      }
    }
  }

  lemma {:induction false} EmptyWalk(v: Version)
    ensures Kept(RemoteWalk(v, [])) == []
  {
  }

  lemma {:induction false} WalkOfChain(v: Version, chain: seq<RawFrame>)
    requires chain != []
    ensures RemoteWalk(v, chain) == Walk(NewFrameObject(v, chain, 0))
  {
  }

  lemma {:induction false} AllEntries(frames: seq<PyFrameData>)
    requires forall f :: f in frames ==> f.isEntry
    ensures EntryCount(frames) == |frames|
  {
    if frames != [] {
      AllEntries(frames[1..]);
    }
  }

  function TotalShims(v: Version, chains: seq<seq<RawFrame>>, bases: seq<nat>): nat
    requires |bases| == |chains|
    requires forall i :: 0 <= i < |chains| ==> bases[i] <= |RemoteWalk(v, chains[i])|
  {
    if chains == [] then 0
    else ShimCount(RemoteWalk(v, chains[0])[..bases[0]]) + TotalShims(v, chains[1..], bases[1..])
  }

  /** Threads read from healthy chains on 3.12 or later, 3.14 and its sentinel frames included, meet the
      conditions on chains above, and their entry frames are exactly the shims of the healthy parts. */
  lemma {:induction false} HealthyGroups(group: seq<PyThreadData>, v: Version, chains: seq<seq<RawFrame>>,
                                         bases: seq<nat>)
    requires v.AtLeast(Version(3, 12)) && ReadFrom(group, v, chains) && |bases| == |chains|
    requires forall i :: 0 <= i < |group| ==> Healthy(RemoteWalk(v, chains[i]), bases[i])
    ensures NoShimsIn(group) && EntryChains(group)
    ensures forall i :: 0 <= i < |chains| ==> bases[i] <= |RemoteWalk(v, chains[i])|
    ensures TotalEntries(group) == TotalShims(v, chains, bases)
  {
    hide RemoteWalk, Kept, ShimCount, NoShims, OutermostIsEntry;
    if group != [] {
      HealthyChainsAreMergeable(v, chains[0], bases[0]);
      NoShimsReverse(group[0].frames);
      HealthyGroups(group[1..], v, chains[1..], bases[1..]);
    }
  }

  lemma {:induction false} OfTidInside(threads: seq<PyThreadData>, tid: int)
    ensures forall t :: t in OfTid(threads, tid) ==> t in threads
  {
    if threads != [] {
      OfTidInside(threads[..|threads| - 1], tid);
    }
  }

  /** The whole way: for threads read from ready remote chains, of any version, the report is one stack
      per OS thread as soon as the counts of the interpreters sharing a thread agree. */
  lemma {:induction false} RemoteThreadsPrintOneStackEach(threads: seq<PyThreadData>, v: Version,
                                                          chains: seq<seq<RawFrame>>,
                                                          mode: NativeReportingMode)
    requires mode == PYTHON || mode == ALL
    requires ReadFrom(threads, v, chains) && forall i :: 0 <= i < |chains| ==> ReadyChain(v, chains[i])
    requires forall tid :: tid in FirstSeen(threads) && |OfTid(threads, tid)| > 1 ==>
      var sorted := SortThreadsByStackAnchor(OfTid(threads, tid));
      && CountsMatch(sorted, ClassifierFor(Some(v)))
      && sorted[0].natives != [] && TotalEntries(sorted) > 0
    ensures PrintedBodies(Normalized(threads, mode, ClassifierFor(Some(v))), Some(v), mode)
         == OneStackEach(FirstSeen(threads), threads, v, mode)
  {
    hide PrintedBodies, Normalized, OneStackEach, OfTid, FirstSeen, ClassifierFor, CountsMatch, TotalEntries,
         SortThreadsByStackAnchor, ReadFrom, ReadyChain, NoShims, OutermostIsEntry;
    RemoteGroups(threads, v, chains);
    forall tid | tid in FirstSeen(threads)
      ensures Shareable(OfTid(threads, tid), v)
    {
      OfTidInside(threads, tid);
    }
    ProcessPrintsOneStackPerThread(threads, v, mode);
  }
}
