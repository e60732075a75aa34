/** Which frames of a remote chain are reported and how, in terms of CPython's frame owners: what the
    constructor and the frame stack builder (pyframe.cpp, thread_builder.cpp) amount to. */
module FrameOwners {
  import opened Basics
  import opened NativeFrames
  import opened Frames
  import opened FrameChain

  /** Who owns an interpreter frame. The interpreter itself owns frames from 3.14 on, the C stack those that
      mark the entry of the interpreter. */
  datatype Owner = Thread | Generator | FrameObj | Interpreter | CStack

  /** The owner as CPython stores it; no version before 3.12 is asked for it. */
  function OwnerCode(v: Version, owner: Owner): Option<int> {
    match owner
    case Thread => Some(0)
    case Generator => Some(1)
    case FrameObj => Some(2)
    case Interpreter => if v.AtLeast(Version(3, 14)) then Some(3) else None
    case CStack => if v.AtLeast(Version(3, 14)) then Some(4) else if v.AtLeast(Version(3, 12)) then Some(3) else None
  }

  /** A frame in the process, or memory that cannot be read. */
  datatype Frame = Gone | Frame(owner: Owner, entryFlag: bool, code: CodeRef)

  ghost predicate Exists(v: Version, chain: seq<Frame>) {
    forall f :: f in chain && f.Frame? ==> OwnerCode(v, f.owner).Some?
  }

  function InMemory(v: Version, chain: seq<Frame>): (r: seq<RawFrame>)
    requires Exists(v, chain)
    ensures |r| == |chain|
  {
    if chain == [] then []
    else
      var f := chain[0];
      assert f in chain;
      assert forall f :: f in chain[1..] ==> f in chain;
      [if f.Gone? then Unreadable else Raw(OwnerCode(v, f.owner).value, f.entryFlag, f.code)] + InMemory(v, chain[1..])
  }

  /** Frames that carry no Python code of the program. */
  predicate IsMarker(v: Version, f: Frame) {
    v.AtLeast(Version(3, 12)) && f.Frame? && (f.owner == CStack || f.owner == Interpreter)
  }

  predicate HasReadableCode(f: Frame) {
    f.Frame? && f.code.Code? && f.code.code.filename != UNREADABLE
  }

  /** Readers stop at the first frame that cannot be read. */
  function ReadableLength(chain: seq<Frame>): (n: nat)
    ensures n <= |chain|
    ensures forall i :: 0 <= i < n ==> chain[i].Frame?
    ensures n < |chain| ==> chain[n].Gone?
  {
    if chain == [] || chain[0].Gone? then 0 else 1 + ReadableLength(chain[1..])
  }

  /** The frame at `i` is reported. */
  predicate IsReported(v: Version, chain: seq<Frame>, i: int) {
    0 <= i < ReadableLength(chain) && !IsMarker(v, chain[i]) && HasReadableCode(chain[i])
  }

  /** It is the first of a run of the interpreter: its caller is a marker, from 3.12 on; its flag says so, on
      3.11; before that every frame is. */
  predicate StartsRun(v: Version, chain: seq<Frame>, i: int)
    requires 0 <= i < ReadableLength(chain)
  {
    if v.AtLeast(Version(3, 12)) then i + 1 < ReadableLength(chain) && IsMarker(v, chain[i + 1])
    else if v.AtLeast(Version(3, 11)) then chain[i].entryFlag
    else true
  }

  /** The positions of the frames reported, in order. */
  function ReportedFrom(v: Version, chain: seq<Frame>, from: nat): (r: seq<nat>)
    requires from <= ReadableLength(chain)
    ensures forall i :: i in r <==> from <= i && IsReported(v, chain, i)
    ensures forall k :: 0 <= k < |r| ==> from <= r[k]
    ensures forall j, k :: 0 <= j < k < |r| ==> r[j] < r[k]
    decreases ReadableLength(chain) - from
  {
    if from == ReadableLength(chain) then []
    else (if IsReported(v, chain, from) then [from] else []) + ReportedFrom(v, chain, from + 1)
  }

  function ReportAt(v: Version, chain: seq<Frame>, i: nat): PyFrameData
    requires IsReported(v, chain, i)
  {
    PyFrameData(chain[i].code.code, StartsRun(v, chain, i), false)
  }

  /** The report of the frames from a position on. */
  function ReportFrom(v: Version, chain: seq<Frame>, from: nat): seq<PyFrameData>
    requires from <= ReadableLength(chain)
    decreases ReadableLength(chain) - from
  {
    if from == ReadableLength(chain) then []
    else (if IsReported(v, chain, from) then [ReportAt(v, chain, from)] else []) + ReportFrom(v, chain, from + 1)
  }

  function Report(v: Version, chain: seq<Frame>): seq<PyFrameData> {
    ReportFrom(v, chain, 0)
  }

  /** The report, position by position. */
  lemma {:induction false} ReportPositions(v: Version, chain: seq<Frame>, from: nat)
    requires from <= ReadableLength(chain)
    ensures var at, r := ReportedFrom(v, chain, from), ReportFrom(v, chain, from);
      |r| == |at| && forall k :: 0 <= k < |r| ==> r[k] == ReportAt(v, chain, at[k])
    decreases ReadableLength(chain) - from
  {
    hide IsReported, ReportAt;
    if from < ReadableLength(chain) {
      ReportPositions(v, chain, from + 1);
    }
  }

  /** Without its first frame a chain reports the same frames, one position earlier. */
  lemma {:induction false} ReportTail(v: Version, chain: seq<Frame>, from: nat)
    requires chain != [] && chain[0].Frame? && from <= ReadableLength(chain[1..])
    ensures ReportFrom(v, chain, from + 1) == ReportFrom(v, chain[1..], from)
    decreases ReadableLength(chain[1..]) - from
  {
    hide IsMarker, HasReadableCode, StartsRun, IsReported;
    if from < ReadableLength(chain[1..]) {
      assert chain[1..][from] == chain[from + 1];
      SameAtTail(v, chain, from);
      ReportTail(v, chain, from + 1);
    }
  }

  lemma {:induction false} SameAtTail(v: Version, chain: seq<Frame>, i: nat)
    requires chain != [] && chain[0].Frame? && i < ReadableLength(chain[1..])
    ensures IsReported(v, chain, i + 1) <==> IsReported(v, chain[1..], i)
    ensures StartsRun(v, chain, i + 1) <==> StartsRun(v, chain[1..], i)
  {
    hide IsMarker, HasReadableCode;
    assert chain[1..][i] == chain[i + 1];
    if i + 1 < ReadableLength(chain[1..]) {
      assert chain[1..][i + 1] == chain[i + 2];
    }
  }

  lemma {:induction false} ReportCons(v: Version, chain: seq<Frame>)
    requires chain != [] && chain[0].Frame?
    ensures Report(v, chain)
         == (if IsReported(v, chain, 0) then [ReportAt(v, chain, 0)] else []) + Report(v, chain[1..])
  {
    hide IsReported, ReportAt;
    ReportTail(v, chain, 0);
  }

  lemma {:induction false} NothingReported(v: Version, chain: seq<Frame>)
    requires chain == [] || chain[0].Gone?
    ensures Report(v, chain) == []
  {
  }

  lemma {:induction false} RestExists(v: Version, chain: seq<Frame>)
    requires Exists(v, chain) && chain != []
    ensures Exists(v, chain[1..]) && InMemory(v, chain)[1..] == InMemory(v, chain[1..])
    ensures InMemory(v, chain)[0].Unreadable? <==> chain[0].Gone?
    ensures chain[0].Frame? ==>
      InMemory(v, chain)[0] == Raw(OwnerCode(v, chain[0].owner).value, chain[0].entryFlag, chain[0].code)
  {
    assert forall f :: f in chain[1..] ==> f in chain;
  }

  /** The shim test recognises exactly the markers. */
  lemma {:induction false} ShimsAreMarkers(v: Version, f: Frame)
    requires f.Frame? && OwnerCode(v, f.owner).Some?
    ensures GetIsShim(v, OwnerCode(v, f.owner).value) <==> IsMarker(v, f)
  {
  }

  lemma {:induction false} KeptIsReport(v: Version, chain: seq<Frame>, frameNo: nat)
    requires Exists(v, chain) && chain != []
    ensures Kept(Walk(NewFrameObject(v, InMemory(v, chain), frameNo))) == Report(v, chain)
  {
    hide IsMarker, OwnerCode, Report, GetIsShim, IsReported, InMemory;
    RestExists(v, chain);
    var first := NewFrameObject(v, InMemory(v, chain), frameNo);
    if chain[0].Gone? {
      NothingReported(v, chain);
    } else {
      ShimsAreMarkers(v, chain[0]);
      ReportCons(v, chain);
      FirstReported(v, chain, frameNo);
      if |chain| > 1 {
        KeptIsReport(v, chain[1..], if IsMarker(v, chain[0]) then frameNo else frameNo + 1);
      } else {
        NothingReported(v, chain[1..]);
      }
    }
  }

  /** The newest frame: whether it is reported, and how. */
  lemma {:induction false} FirstReported(v: Version, chain: seq<Frame>, frameNo: nat)
    requires Exists(v, chain) && chain != [] && chain[0].Frame?
    ensures var first := NewFrameObject(v, InMemory(v, chain), frameNo).value;
      && (IsKept(first) <==> IsReported(v, chain, 0))
      && (IsKept(first) ==> FrameData(first) == ReportAt(v, chain, 0))
  {
    hide OwnerCode, GetIsShim, InMemory;
    RestExists(v, chain);
    ShimsAreMarkers(v, chain[0]);
    if |chain| > 1 {
      RestExists(v, chain[1..]);
      if chain[1].Frame? {
        ShimsAreMarkers(v, chain[1]);
      }
    }
  }

  /** The reported stack in terms of the process: exactly the frames before the first unreadable one that run
      readable code and are not markers of the interpreter, whoever else owns them, in order; each an
      entry exactly if it starts a run of the interpreter. */
  lemma {:induction false} ReportedFrames(v: Version, chain: seq<Frame>)
    requires Exists(v, chain)
    ensures Kept(RemoteWalk(v, InMemory(v, chain))) == Report(v, chain)
    ensures var at, r := ReportedFrom(v, chain, 0), Report(v, chain);
      |r| == |at| && forall k :: 0 <= k < |r| ==> r[k] == ReportAt(v, chain, at[k])
  {
    hide ReportFrom, InMemory, NewFrameObject, ReportedFrom, ReportAt, IsReported;
    ReportPositions(v, chain, 0);
    if chain == [] {
      NothingReported(v, chain);
      assert Kept([]) == [];
    } else {
      KeptIsReport(v, chain, 0);
    }
  }

  /** A generator called from `m`, on 3.12 and on 3.14: both are reported, and `m` is the entry. */
  lemma {:induction false} GeneratorsAreReported(v: Version, g: CodeData, m: CodeData)
    requires v == Version(3, 12) || v == Version(3, 14)
    requires g.filename != UNREADABLE && m.filename != UNREADABLE
    ensures var base := if v == Version(3, 12) then 3 else 4;
      Kept(RemoteWalk(v, [Raw(1, false, Code(g)), Raw(0, false, Code(m)), Raw(base, false, NullCode)]))
      == [PyFrameData(g, false, false), PyFrameData(m, true, false)]
  {
    var marker := Raw(if v == Version(3, 12) then 3 else 4, false, NullCode);
    var raw := [Raw(1, false, Code(g)), Raw(0, false, Code(m)), marker];
    var base, caller, top := NewFrameObject(v, raw[2..], 2), NewFrameObject(v, raw[1..], 1), NewFrameObject(v, raw, 0);
    assert raw[1..][1..] == raw[2..];
    assert base.value.prev == None && caller.value.prev == base && top.value.prev == caller;
    assert Walk(base) == [base.value];
    assert Walk(caller) == [caller.value] + Walk(base);
    assert Walk(top) == [top.value] + Walk(caller);
    assert Kept(Walk(base)) == [];
    assert Kept(Walk(caller)) == [PyFrameData(m, true, false)];
  }
}
