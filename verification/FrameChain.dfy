/** Walking a remote interpreter frame chain: which frames are shims, which are entries, and which
    frames survive into the reported stack (pyframe.cpp, thread_builder.cpp). */
module FrameChain {
  import opened Basics
  import opened NativeFrames
  import opened Frames

  const FRAME_OWNED_BY_CSTACK_3_12: int := 3
  const FRAME_OWNED_BY_INTERPRETER_3_14: int := 3
  const FRAME_OWNED_BY_CSTACK_3_14: int := 4

  const UNREADABLE: string := "???"

  /** What a frame's code pointer leads to: nothing, a code object, or memory that is not one. */
  datatype CodeRef = NullCode | Code(code: CodeData) | Trashed

  /** A frame in the remote process; reading an unreadable one raises a memory-copy error. */
  datatype RawFrame = Unreadable | Raw(owner: int, entryFlag: bool, code: CodeRef)

  /** `prev` is the caller's frame. */
  datatype FrameObject = FrameObject(
    frameNo: nat,
    isShim: bool,
    isEntry: bool,
    code: Option<CodeData>,
    prev: Option<FrameObject>)

  predicate GetIsShim(v: Version, owner: int) {
    if v.AtLeast(Version(3, 14)) then
      owner == FRAME_OWNED_BY_CSTACK_3_14 || owner == FRAME_OWNED_BY_INTERPRETER_3_14
    else
      v.AtLeast(Version(3, 12)) && owner == FRAME_OWNED_BY_CSTACK_3_12
  }

  function GetCode(code: CodeRef): Option<CodeData> {
    match code
    case NullCode => None
    case Code(c) => Some(c)
    case Trashed => Some(CodeData(UNREADABLE, UNREADABLE, LocationInfo(0, 0, 0, 0)))
  }

  predicate IsEntry(v: Version, frameNo: nat, isShim: bool, prev: Option<FrameObject>, entryFlag: bool) {
    if v.AtLeast(Version(3, 12)) then
      (prev.Some? && prev.value.isShim) || (frameNo == 0 && isShim)
    else if v.AtLeast(Version(3, 11)) then entryFlag
    else true
  }

  /** The FrameObject constructor on the chain that starts at the frame being read; None is the
      memory-copy error. An error on a caller's frame ends the chain instead of spreading. */
  function NewFrameObject(v: Version, chain: seq<RawFrame>, frameNo: nat): Option<FrameObject>
    requires chain != []
  {
    if chain[0].Unreadable? then None
    else
      var raw := chain[0];
      var isShim := GetIsShim(v, raw.owner);
      var code := if isShim then None else GetCode(raw.code);
      var prev := if |chain| == 1 then None else NewFrameObject(v, chain[1..], if isShim then frameNo else frameNo + 1);
      Some(FrameObject(frameNo, isShim, IsEntry(v, frameNo, isShim, prev, raw.entryFlag), code, prev))
  }

  /** All frames reachable through `prev`, innermost first. */
  function Walk(f: Option<FrameObject>): (r: seq<FrameObject>)
    ensures f.None? <==> r == []
    ensures f.Some? ==> r[0] == f.value && r[1..] == Walk(f.value.prev)
  {
    if f.None? then [] else [f.value] + Walk(f.value.prev)
  }

  /** The walk of a thread whose newest frame is the head of `chain`, if it has any. */
  function RemoteWalk(v: Version, chain: seq<RawFrame>): seq<FrameObject> {
    if chain == [] then [] else Walk(NewFrameObject(v, chain, 0))
  }

  function ShimCount(fs: seq<FrameObject>): nat {
    if fs == [] then 0 else (if fs[0].isShim then 1 else 0) + ShimCount(fs[1..])
  }

  function EntryObjects(fs: seq<FrameObject>): nat {
    if fs == [] then 0 else (if fs[0].isEntry then 1 else 0) + EntryObjects(fs[1..])
  }

  // ----- buildFrameStack

  /** Frames without code, or with code that could not be read, are not reported. */
  predicate IsKept(f: FrameObject) {
    f.code.Some? && f.code.value.filename != UNREADABLE
  }

  function FrameData(f: FrameObject): PyFrameData
    requires f.code.Some?
  {
    PyFrameData(f.code.value, f.isEntry, f.isShim)
  }

  function Kept(fs: seq<FrameObject>): seq<PyFrameData> {
    if fs == [] then [] else (if IsKept(fs[0]) then [FrameData(fs[0])] else []) + Kept(fs[1..])
  }

  lemma {:induction false} KeptStep(f: FrameObject, frames: seq<PyFrameData>)
    ensures frames + Kept(Walk(Some(f)))
         == (if IsKept(f) then frames + [FrameData(f)] else frames) + Kept(Walk(f.prev))
  {
    var kept := if IsKept(f) then [FrameData(f)] else [];
    hide IsKept, FrameData;
    AppendAssociates(frames, kept, Kept(Walk(f.prev)));
  }

  method BuildFrameStack(first: Option<FrameObject>) returns (frames: seq<PyFrameData>)
    ensures frames == Kept(Walk(first))
  {
    frames := [];
    var current := first;
    while current.Some?
      invariant frames + Kept(Walk(current)) == Kept(Walk(first))
      decreases current
    {
      KeptStep(current.value, frames);
      var code := current.value.code;
      if code.None? || code.value.filename == UNREADABLE {
        current := current.value.prev;
        continue;
      }
      var data := PyFrameData(code.value, current.value.isEntry, current.value.isShim);
      frames := frames + [data];
      current := current.value.prev;
    }
  }

  // ----- Entry flags count runs of the interpreter

  /** On 3.12 and later there are as many entry frames as shims, whatever the chain looks like. */
  lemma {:induction false} EntriesAreShims(v: Version, chain: seq<RawFrame>)
    requires v.AtLeast(Version(3, 12))
    ensures EntryObjects(RemoteWalk(v, chain)) == ShimCount(RemoteWalk(v, chain))
  {
    if chain != [] {
      EntriesAreShimsFrom(v, chain, 0);
    }
  }

  lemma {:induction false} EntriesAreShimsFrom(v: Version, chain: seq<RawFrame>, frameNo: nat)
    requires v.AtLeast(Version(3, 12)) && chain != []
    ensures var fs := Walk(NewFrameObject(v, chain, frameNo));
      EntryObjects(fs) == if fs == [] then 0
        else ShimCount(fs[1..]) + if fs[0].isShim && frameNo == 0 then 1 else 0
  {
    if chain[0].Raw? && |chain| > 1 {
      EntriesAreShimsFrom(v, chain[1..], if GetIsShim(v, chain[0].owner) then frameNo else frameNo + 1);
    }
  }

  /** What the constructor guarantees about a whole walk on 3.12 and later. */
  ghost predicate WalkFlags(fs: seq<FrameObject>) {
    fs == []
    || ( && (if fs[0].isShim then fs[0].code.None? else fs[0].isEntry <==> |fs| > 1 && fs[1].isShim)
         && WalkFlags(fs[1..]))
  }

  lemma {:induction false} ConstructorSetsFlags(v: Version, chain: seq<RawFrame>, frameNo: nat)
    requires v.AtLeast(Version(3, 12)) && chain != []
    ensures WalkFlags(Walk(NewFrameObject(v, chain, frameNo)))
  {
    if chain[0].Raw? && |chain| > 1 {
      ConstructorSetsFlags(v, chain[1..], if GetIsShim(v, chain[0].owner) then frameNo else frameNo + 1);
    }
  }

  lemma {:induction false} RemoteWalkFlags(v: Version, chain: seq<RawFrame>)
    requires v.AtLeast(Version(3, 12))
    ensures WalkFlags(RemoteWalk(v, chain))
  {
    if chain != [] {
      ConstructorSetsFlags(v, chain, 0);
    }
  }

  /** The shims that were entered straight from a reported frame. */
  function CalledShims(fs: seq<FrameObject>): nat {
    if |fs| < 2 then 0
    else (if IsKept(fs[0]) && fs[1].isShim then 1 else 0) + CalledShims(fs[1..])
  }

  ghost predicate EveryShimHasReportedCallee(fs: seq<FrameObject>) {
    forall j :: 0 <= j < |fs| && fs[j].isShim ==> 0 < j && IsKept(fs[j - 1])
  }

  lemma {:induction false} KeptEntries(fs: seq<FrameObject>)
    requires WalkFlags(fs)
    ensures EntryCount(Kept(fs)) == CalledShims(fs)
    ensures NoShims(Kept(fs))
  {
    if fs != [] {
      KeptEntries(fs[1..]);
      EntryCountSplit(if IsKept(fs[0]) then [FrameData(fs[0])] else [], Kept(fs[1..]));
    }
  }

  lemma {:induction false} CalledShimsBound(fs: seq<FrameObject>)
    requires fs != []
    ensures CalledShims(fs) <= ShimCount(fs[1..])
    ensures CalledShims(fs) == ShimCount(fs[1..])
        <==> forall j :: 1 <= j < |fs| && fs[j].isShim ==> IsKept(fs[j - 1])
  {
    if |fs| > 1 {
      CalledShimsBound(fs[1..]);
      var tail := fs[1..];
      assert forall j :: 1 <= j < |tail| ==> tail[j] == fs[j + 1] && tail[j - 1] == fs[j];
      if CalledShims(fs) == ShimCount(fs[1..]) {
        forall j | 1 <= j < |fs| && fs[j].isShim ensures IsKept(fs[j - 1]) {
          if j > 1 { assert tail[j - 1].isShim; }
        }
      }
    }
  }

  /** The reported stack carries no shims; its entry frames are the shims called from reported frames,
      and no entry is lost by dropping frames if and only if every shim has a reported callee. */
  lemma {:induction false} ReportedEntries(v: Version, chain: seq<RawFrame>)
    requires v.AtLeast(Version(3, 12))
    ensures var fs := RemoteWalk(v, chain);
      && NoShims(Kept(fs))
      && EntryCount(Kept(fs)) == CalledShims(fs) <= ShimCount(fs)
      && (EntryCount(Kept(fs)) == ShimCount(fs) <==> EveryShimHasReportedCallee(fs))
  {
    RemoteWalkFlags(v, chain);
    CountedEntries(RemoteWalk(v, chain));
  }

  lemma {:induction false} CountedEntries(fs: seq<FrameObject>)
    requires WalkFlags(fs)
    ensures NoShims(Kept(fs))
    ensures EntryCount(Kept(fs)) == CalledShims(fs) <= ShimCount(fs)
    ensures EntryCount(Kept(fs)) == ShimCount(fs) <==> EveryShimHasReportedCallee(fs)
  {
    KeptEntries(fs);
    if fs != [] {
      CalledShimsBound(fs);
    }
  }

  // ----- When the outermost reported frame is an entry

  /** The oldest reported frame, if there is one. */
  ghost predicate IsOldestKept(fs: seq<FrameObject>, k: int) {
    0 <= k < |fs| && IsKept(fs[k]) && forall j :: k < j < |fs| ==> !IsKept(fs[j])
  }

  ghost predicate OldestKeptIsEntry(fs: seq<FrameObject>) {
    forall k :: IsOldestKept(fs, k) ==> fs[k].isEntry
  }

  ghost predicate OldestKeptCalledByShim(fs: seq<FrameObject>) {
    forall k :: IsOldestKept(fs, k) ==> k + 1 < |fs| && fs[k + 1].isShim
  }

  lemma {:induction false} NoneKept(fs: seq<FrameObject>)
    requires forall j :: 0 <= j < |fs| ==> !IsKept(fs[j])
    ensures Kept(fs) == []
  {
    hide IsKept;
    if fs != [] {
      NoneKept(fs[1..]);
    }
  }

  /** Frames older than the oldest reported one leave no trace in the report. */
  lemma {:induction false} KeptPrefix(fs: seq<FrameObject>, n: nat)
    requires n <= |fs| && forall j :: n <= j < |fs| ==> !IsKept(fs[j])
    ensures Kept(fs) == Kept(fs[..n])
  {
    hide IsKept;
    if n == 0 {
      NoneKept(fs);
    } else {
      assert fs[..n][1..] == fs[1..][..n - 1] && fs[..n][0] == fs[0];
      KeptPrefix(fs[1..], n - 1);
    }
  }

  lemma {:induction false} LastIsKept(fs: seq<FrameObject>)
    requires fs != [] && IsKept(fs[|fs| - 1])
    ensures Kept(fs) != [] && Kept(fs)[|Kept(fs)| - 1] == FrameData(fs[|fs| - 1])
  {
    hide IsKept;
    if |fs| == 1 {
      NothingKept();
      assert fs[1..] == [];
    } else {
      LastIsKept(fs[1..]);
    }
  }

  /** On every version: the outermost reported frame is an entry, or nothing is reported, if and only
      if the oldest frame that is reported is flagged as one. */
  lemma {:induction false} OutermostIsOldestKept(fs: seq<FrameObject>)
    ensures OutermostIsEntry(Reverse(Kept(fs))) <==> OldestKeptIsEntry(fs)
  {
    hide IsKept, Kept;
    if k :| IsOldestKept(fs, k) {
      KeptPrefix(fs, k + 1);
      LastIsKept(fs[..k + 1]);
      forall j | IsOldestKept(fs, j)
        ensures j == k
      {
      }
    } else {
      SomeOldestKept(fs);
      NoneKept(fs);
    }
  }

  lemma {:induction false} SomeOldestKept(fs: seq<FrameObject>)
    ensures (exists k :: IsOldestKept(fs, k)) || forall j :: 0 <= j < |fs| ==> !IsKept(fs[j])
  {
    hide IsKept;
    if fs != [] {
      var n := |fs| - 1;
      if IsKept(fs[n]) {
        assert IsOldestKept(fs, n);
      } else {
        SomeOldestKept(fs[..n]);
        if k :| IsOldestKept(fs[..n], k) {
          assert IsOldestKept(fs, k);
        }
      }
    }
  }

  /** What makes a reported frame an entry: being called by a shim (3.12 and later) or carrying the entry
      flag (3.11); earlier versions ask nothing. `fs` is the walk of `chain`. */
  predicate MarkedEntry(v: Version, chain: seq<RawFrame>, fs: seq<FrameObject>, k: int)
    requires 0 <= k < |fs|
  {
    if v.AtLeast(Version(3, 12)) then k + 1 < |fs| && fs[k + 1].isShim
    else if v.AtLeast(Version(3, 11)) then k < |chain| && chain[k].Raw? && chain[k].entryFlag
    else true
  }

  lemma {:induction false} KeptFrameFlags(v: Version, chain: seq<RawFrame>, frameNo: nat, k: nat)
    requires chain != [] && k < |Walk(NewFrameObject(v, chain, frameNo))|
    requires IsKept(Walk(NewFrameObject(v, chain, frameNo))[k])
    ensures var fs := Walk(NewFrameObject(v, chain, frameNo));
      !fs[k].isShim && (fs[k].isEntry <==> MarkedEntry(v, chain, fs, k))
  {
    if k > 0 {
      KeptFrameFlags(v, chain[1..], if GetIsShim(v, chain[0].owner) then frameNo else frameNo + 1, k - 1);
    }
  }

  lemma {:induction false} KeptWithoutShims(fs: seq<FrameObject>)
    requires forall j :: 0 <= j < |fs| && IsKept(fs[j]) ==> !fs[j].isShim
    ensures NoShims(Kept(fs))
  {
    hide IsKept;
    if fs != [] {
      KeptWithoutShims(fs[1..]);
    }
  }

  ghost predicate ReadyChain(v: Version, chain: seq<RawFrame>) {
    var fs := RemoteWalk(v, chain);
    forall k :: IsOldestKept(fs, k) ==> MarkedEntry(v, chain, fs, k)
  }

  /** What the formatter needs of a reported chain, for every version: there never is a shim in it, and
      its outermost frame is an entry exactly for ready chains. */
  lemma {:induction false} ReadyChainIff(v: Version, chain: seq<RawFrame>)
    ensures NoShims(Kept(RemoteWalk(v, chain)))
    ensures OutermostIsEntry(Reverse(Kept(RemoteWalk(v, chain)))) <==> ReadyChain(v, chain)
  {
    hide IsKept, Kept, Walk, NewFrameObject, MarkedEntry;
    var fs := RemoteWalk(v, chain);
    forall k | 0 <= k < |fs| && IsKept(fs[k])
      ensures !fs[k].isShim && (fs[k].isEntry <==> MarkedEntry(v, chain, fs, k))
    {
      KeptFrameFlags(v, chain, 0, k);
    }
    KeptWithoutShims(fs);
    OutermostIsOldestKept(fs);
  }

  // ----- Healthy chains

  /** The shape of a healthy chain on 3.12 and later, down to frame `base`: it starts in Python code,
      every run of the interpreter sits on one shim, the last frame is a shim, and all code is
      readable. Below it there may be frames without code, shims or not, such as the sentinel at the
      bottom of every thread from 3.14 on. */
  ghost predicate Healthy(fs: seq<FrameObject>, base: nat) {
    && base <= |fs|
    && (base > 0 ==> !fs[0].isShim && fs[base - 1].isShim)
    && (forall j :: 1 <= j < base && fs[j].isShim ==> !fs[j - 1].isShim)
    && (forall i :: 0 <= i < base && !fs[i].isShim ==> IsKept(fs[i]))
    && (forall i :: base <= i < |fs| ==> !IsKept(fs[i]))
  }

  lemma {:induction false} WalkFlagsPrefix(fs: seq<FrameObject>, n: nat)
    requires WalkFlags(fs) && n <= |fs| && (n > 0 ==> fs[n - 1].isShim)
    ensures WalkFlags(fs[..n])
  {
    if n > 0 {
      assert fs[..n][1..] == fs[1..][..n - 1];
      WalkFlagsPrefix(fs[1..], n - 1);
    }
  }

  lemma {:induction false} HealthyCallees(fs: seq<FrameObject>, base: nat)
    requires Healthy(fs, base)
    ensures EveryShimHasReportedCallee(fs[..base])
  {
    hide IsKept;
    forall j | 0 <= j < base && fs[j].isShim
      ensures 0 < j && IsKept(fs[j - 1])
    {
      assert 0 < j;
    }
  }

  lemma {:induction false} HealthyOldest(fs: seq<FrameObject>, base: nat)
    requires Healthy(fs, base) && WalkFlags(fs)
    ensures OldestKeptCalledByShim(fs)
  {
    hide IsKept;
    forall k | IsOldestKept(fs, k)
      ensures k + 1 < |fs| && fs[k + 1].isShim
    {
      assert k < base;
      ShimHasNoCode(fs, base - 1);
    }
  }

  lemma {:induction false} ShimHasNoCode(fs: seq<FrameObject>, k: nat)
    requires WalkFlags(fs) && k < |fs| && fs[k].isShim
    ensures !IsKept(fs[k])
  {
    if k > 0 {
      ShimHasNoCode(fs[1..], k - 1);
    }
  }

  /** A healthy chain reaches the formatter ready to be merged: no shims, an outermost frame that is
      an entry, and exactly one entry for every shim of the healthy part. */
  lemma {:induction false} HealthyChainsAreMergeable(v: Version, chain: seq<RawFrame>, base: nat)
    requires v.AtLeast(Version(3, 12)) && Healthy(RemoteWalk(v, chain), base)
    ensures var fs := RemoteWalk(v, chain);
      && EntryCount(Kept(fs)) == ShimCount(fs[..base])
      && NoShims(Kept(fs))
      && OutermostIsEntry(Reverse(Kept(fs)))
  {
    hide IsKept, Kept, RemoteWalk;
    var fs := RemoteWalk(v, chain);
    RemoteWalkFlags(v, chain);
    ReadyChainIff(v, chain);
    HealthyOldest(fs, base);
    HealthyCallees(fs, base);
    WalkFlagsPrefix(fs, base);
    KeptPrefix(fs, base);
    CountedEntries(fs[..base]);
  }

  /** The chains of 3.14: a frame, the shim it was entered through, and the sentinel, which has no code
      and may or may not count as a shim itself. */
  lemma {:induction false} SentinelChainsAreHealthy(code: CodeData, owner: int)
    requires code.filename != UNREADABLE
    ensures var chain := [Raw(0, false, Code(code)), Raw(FRAME_OWNED_BY_INTERPRETER_3_14, false, NullCode),
                          Raw(owner, false, NullCode)];
      Healthy(RemoteWalk(Version(3, 14), chain), 2)
  {
    var v := Version(3, 14);
    var sentinel := Raw(owner, false, NullCode);
    var shim := Raw(FRAME_OWNED_BY_INTERPRETER_3_14, false, NullCode);
    var chain := [Raw(0, false, Code(code)), shim, sentinel];
    assert chain[1..] == [shim, sentinel] && [shim, sentinel][1..] == [sentinel];
    var bottom := NewFrameObject(v, [sentinel], 1);
    var middle := NewFrameObject(v, [shim, sentinel], 1);
    assert middle.value.prev == bottom;
    var fs := RemoteWalk(v, chain);
    assert fs[1..] == Walk(middle) && fs[1..][1..] == Walk(bottom) && Walk(bottom) == [bottom.value];
    assert fs[1] == middle.value && fs[2] == bottom.value;
  }

  /** Before 3.11 every frame is its own run of the evaluation loop. */
  lemma {:induction false} OldVersionsAllEntries(v: Version, chain: seq<RawFrame>, frameNo: nat)
    requires !v.AtLeast(Version(3, 11)) && chain != []
    ensures var frames := Kept(Walk(NewFrameObject(v, chain, frameNo)));
      forall f :: f in frames ==> f.isEntry && !f.isShim
  {
    hide Kept, IsKept, GetCode;
    var first := NewFrameObject(v, chain, frameNo);
    NothingKept();
    if first.Some? {
      KeptStep(first.value, []);
      assert [] + Kept(Walk(first)) == Kept(Walk(first));
      if |chain| > 1 {
        OldVersionsAllEntries(v, chain[1..], frameNo + 1);
      } else {
        assert Walk(first.value.prev) == [];
      }
    }
  }

  lemma {:induction false} NothingKept()
    ensures Kept([]) == []
  {
  }
}
