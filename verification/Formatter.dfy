/** The Python-side frame objects and the formatter that walks them: buildFrameChain in
    bindings.cpp, PyThread in types.py, and traceback_formatter.py. */
module Formatter {
  import opened Basics
  import opened NativeFrames
  import opened Frames
  import opened Merge
  import opened Normalize
  import opened ThreadStatus

  class PyFrame {
    const data: PyFrameData
    var prev: PyFrame?
    var next: PyFrame?

    constructor (prev: PyFrame?, next: PyFrame?, data: PyFrameData)
      ensures this.prev == prev && this.next == next && this.data == data
    {
      this.prev := prev;
      this.next := next;
      this.data := data;
    }
  }

  /** `nodes` is the whole doubly linked list that starts at `first`: the links are mutually inverse,
      end in null at both sides, and pass no frame twice. */
  ghost predicate IsChain(first: PyFrame?, nodes: seq<PyFrame>)
    reads nodes
  {
    && (first == null <==> nodes == [])
    && (nodes != [] ==> first == nodes[0] && nodes[0].prev == null && nodes[|nodes| - 1].next == null)
    && (forall i :: 0 <= i < |nodes| - 1 ==> nodes[i].next == nodes[i + 1])
    && (forall i :: 1 <= i < |nodes| ==> nodes[i].prev == nodes[i - 1])
    && (forall i, j :: 0 <= i < j < |nodes| ==> nodes[i] != nodes[j])
  }

  function Datas(nodes: seq<PyFrame>): (r: seq<PyFrameData>)
    ensures |r| == |nodes| && forall i :: 0 <= i < |r| ==> r[i] == nodes[i].data
  {
    seq(|nodes|, i requires 0 <= i < |nodes| => nodes[i].data)
  }

  /** Frames arrive innermost first; the list runs from the outermost frame through `next`. */
  method BuildFrameChain(frames: seq<PyFrameData>) returns (first: PyFrame?, ghost nodes: seq<PyFrame>)
    ensures IsChain(first, nodes) && Datas(nodes) == Reverse(frames)
    ensures fresh(nodes)
  {
    first := null;
    nodes := [];
    var prev: PyFrame? := null;
    for i := |frames| downto 0
      invariant IsChain(first, nodes) && fresh(nodes)
      invariant |nodes| == |frames| - i
      invariant forall k :: 0 <= k < |nodes| ==> nodes[k].data == frames[|frames| - 1 - k]
      invariant prev == if nodes == [] then null else nodes[|nodes| - 1]
    {
      var frame := new PyFrame(prev, null, frames[i]);
      if prev != null {
        prev.next := frame;
      }
      if first == null {
        first := frame;
      }
      prev := frame;
      nodes := nodes + [frame];
    }
  }

  /** Walking `next` visits every frame of the list once, in order, and stops. */
  method AllFrames(first: PyFrame?, ghost nodes: seq<PyFrame>) returns (frames: seq<PyFrame>)
    requires IsChain(first, nodes)
    ensures frames == nodes
  {
    frames := [];
    var current := first;
    while current != null
      invariant |frames| <= |nodes| && frames == nodes[..|frames|]
      invariant current == NodeAt(nodes, |frames|)
      decreases |nodes| - |frames|
    {
      frames := frames + [current];
      current := current.next;
    }
  }

  /** The chain without the shims it starts with. */
  function FromFirst(frames: seq<PyFrameData>): (r: seq<PyFrameData>)
    ensures |r| <= |frames| && r == frames[|frames| - |r|..]
    ensures r != [] ==> !r[0].isShim
    ensures forall i :: 0 <= i < |frames| - |r| ==> frames[i].isShim
  {
    if frames == [] then [] else if frames[0].isShim then FromFirst(frames[1..]) else frames
  }

  /** The frame at a position of the list, null just past its end. */
  ghost function NodeAt(nodes: seq<PyFrame>, k: nat): PyFrame? {
    if k < |nodes| then nodes[k] else null
  }

  /** The first frame that is not a shim. */
  method FirstFrame(first: PyFrame?, ghost nodes: seq<PyFrame>) returns (frame: PyFrame?)
    requires IsChain(first, nodes)
    ensures frame == NodeAt(nodes, |nodes| - |FromFirst(Datas(nodes))|)
  {
    hide Datas, FromFirst;
    frame := first;
    ghost var k: nat := 0;
    ghost var datas := Datas(nodes);
    while frame != null && frame.data.isShim
      invariant k <= |nodes| && frame == NodeAt(nodes, k)
      invariant forall j :: 0 <= j < k ==> datas[j].isShim
      decreases |nodes| - k
    {
      frame := frame.next;
      k := k + 1;
    }
    FromFirstStarts(datas, k);
  }

  lemma {:induction false} FromFirstStarts(frames: seq<PyFrameData>, k: nat)
    requires k <= |frames| && forall j :: 0 <= j < k ==> frames[j].isShim
    requires k < |frames| ==> !frames[k].isShim
    ensures |FromFirst(frames)| == |frames| - k
  {
    hide FromFirst;
    var n := |FromFirst(frames)|;
    assert n > 0 ==> FromFirst(frames)[0] == frames[|frames| - n];
  }

  method AreTheStacksMergeable(natives: seq<NativeFrame>, version: Option<Version>, first: PyFrame?,
                               ghost nodes: seq<PyFrame>) returns (mergeable: bool)
    requires IsChain(first, nodes)
    ensures mergeable <==> EvalCount(natives, ClassifierFor(version)) == EntryCount(Datas(nodes))
  {
    var frames := AllFrames(first, nodes);
    mergeable := EvalCount(natives, ClassifierFor(version)) == EntryCount(Datas(frames));
  }

  /** The lines for one evaluation frame: the current Python frame and those up to the next entry. */
  method FormatRun(start: PyFrame, ghost first: PyFrame?, ghost nodes: seq<PyFrame>, ghost k0: nat)
    returns (lines: seq<Line>, current: PyFrame?)
    requires IsChain(first, nodes)
    requires k0 < |nodes| && start == nodes[k0]
    ensures var rest := Datas(nodes)[k0..];
      lines == PyLines(rest[..RunLength(rest)]) && current == NodeAt(nodes, k0 + RunLength(rest))
  {
    hide RunLength, Datas, PyLines;
    ghost var datas := Datas(nodes);
    lines := [Py(start.data)];
    current := start.next;
    ghost var k := k0 + 1;
    while current != null && !current.data.isEntry
      invariant k0 < k <= |nodes| && current == NodeAt(nodes, k)
      invariant forall j :: k0 < j < k ==> !datas[j].isEntry
      invariant lines == PyLines(datas[k0..k])
      decreases |nodes| - k
    {
      lines := lines + [Py(current.data)];
      current := current.next;
      k := k + 1;
    }
    RunLengthIs(datas, k0, k);
  }

  /** The interleaving walk. `failed` says that the assertion stopped it after `lines`. */
  method FormatMergedStacks(natives: seq<NativeFrame>, version: Option<Version>, start: PyFrame?, last: bool,
                            ghost first: PyFrame?, ghost nodes: seq<PyFrame>, ghost k0: nat)
    returns (lines: seq<Line>, failed: bool)
    requires IsChain(first, nodes)
    requires k0 <= |nodes| && start == NodeAt(nodes, k0)
    ensures Emitted(lines, failed) == Merged(natives, ClassifierFor(version), Datas(nodes)[k0..], last, [])
  {
    hide KindOf, Merged, RunLength, PyLines, Prepend, Datas, IsChain;
    ghost var kind := ClassifierFor(version);
    ghost var datas := Datas(nodes);
    lines, failed := [], false;
    var cFrames: seq<Line> := [];
    var current := start;
    ghost var k: nat := k0;
    ghost var goal := Merged(natives, kind, datas[k0..], last, []);
    MergedAtEnd(kind, datas[k0..], last);
    for i := 0 to |natives|
      invariant k <= |nodes| && current == NodeAt(nodes, k)
      invariant !failed
      invariant Prepend(lines, Merged(natives[i..], kind, datas[k..], last, cFrames)) == goal
    {
      assert natives[i..][0] == natives[i] && natives[i..][1..] == natives[i + 1..];
      MergedStep(natives[i..], kind, datas[k..], last, cFrames, lines);
      match KindOf(natives[i], version)
      case Eval =>
        if current == null {
          failed := true;
          return;
        }
        cFrames := [];
        var run;
        run, current := FormatRun(current, first, nodes, k);
        lines := lines + run;
        RunEndsInside(datas, k);
        k := k + RunLength(datas[k..]);
      case Ignore =>
      case Other =>
        if last {
          cFrames := cFrames + [C(natives[i])];
        } else {
          lines := lines + [C(natives[i])];
        }
    }
    assert natives[|natives|..] == [];
    lines := lines + cFrames;
  }

  lemma {:induction false} MergedAtEnd(kind: Classifier, frames: seq<PyFrameData>, last: bool)
    ensures forall frames, pending :: Merged([], kind, frames, last, pending) == Emitted(pending, false)
    ensures forall e: Emitted :: Prepend([], e) == e
    ensures forall lines, pending :: Prepend(lines, Emitted(pending, false)) == Emitted(lines + pending, false)
  {
  }

  lemma {:induction false} RunEndsInside(frames: seq<PyFrameData>, k: nat)
    requires k < |frames|
    ensures k + RunLength(frames[k..]) <= |frames|
    ensures frames[k + RunLength(frames[k..])..] == frames[k..][RunLength(frames[k..])..]
  {
  }

  lemma {:induction false} RunLengthIs(frames: seq<PyFrameData>, from: nat, k: nat)
    requires from < k <= |frames|
    requires forall i :: from < i < k ==> !frames[i].isEntry
    requires k < |frames| ==> frames[k].isEntry
    ensures RunLength(frames[from..]) == k - from
    ensures frames[from..][..k - from] == frames[from..k] && frames[from..][k - from..] == frames[k..]
  {
    var rest := frames[from..];
    assert forall i :: 0 <= i < |rest| ==> rest[i] == frames[from + i];
  }

  /** One turn of the walk, with the lines printed so far in front. */
  lemma {:induction false} MergedStep(natives: seq<NativeFrame>, kind: Classifier, frames: seq<PyFrameData>, last: bool,
                                      pending: seq<Line>, lines: seq<Line>)
    requires natives != []
    ensures Prepend(lines, Merged(natives, kind, frames, last, pending)) ==
      match kind(natives[0])
      case Eval =>
        if frames == [] then Emitted(lines, true)
        else
          var k := RunLength(frames);
          Prepend(lines + PyLines(frames[..k]), Merged(natives[1..], kind, frames[k..], last, []))
      case Ignore => Prepend(lines, Merged(natives[1..], kind, frames, last, pending))
      case Other =>
        if last then Prepend(lines, Merged(natives[1..], kind, frames, last, pending + [C(natives[0])]))
        else Prepend(lines + [C(natives[0])], Merged(natives[1..], kind, frames, last, pending))
  {
    if kind(natives[0]) == Eval && frames != [] {
      var k := RunLength(frames);
      AppendAssociates(lines, PyLines(frames[..k]), Merged(natives[1..], kind, frames[k..], last, []).lines);
    } else if kind(natives[0]) == Other {
      AppendAssociates(lines, [C(natives[0])], Merged(natives[1..], kind, frames, last, pending).lines);
    }
  }

  // ----- One thread

  const UNABLE_TO_MERGE: string :=
    "* - Unable to merge native stack " + "due to insufficient native information - *"

  /** A line of text, or a formatted frame. */
  datatype Output = Text(text: string) | Shown(line: Line)

  /** What was printed, and whether the formatter then died on its assertion. */
  datatype Printed = Printed(lines: seq<Output>, failed: bool)

  function ShownAll(lines: seq<Line>): (r: seq<Output>)
    ensures |r| == |lines| && forall i :: 0 <= i < |r| ==> r[i] == Shown(lines[i])
  {
    seq(|lines|, i requires 0 <= i < |lines| => Shown(lines[i]))
  }

  /** The Python frames alone, without the shims. */
  function ShownFrames(frames: seq<PyFrameData>): seq<Output> {
    if frames == [] then []
    else (if frames[0].isShim then [] else [Shown(Py(frames[0]))]) + ShownFrames(frames[1..])
  }

  function Header(t: ThreadInfo, natives: seq<NativeFrame>, showThreadHeader: bool,
                  showInterpreter: bool): seq<Output>
  {
    (if showThreadHeader then [Text(ThreadLine(t, natives, showInterpreter))] else [])
    + (if showInterpreter then [Text(InterpreterLine(t, natives))] else [])
  }

  /** The frames of a thread as printed below its header: merged when native frames are wanted and
      the counts agree, otherwise the Python frames alone, with a remark if natives were wanted. */
  function Body(natives: seq<NativeFrame>, version: Option<Version>, frames: seq<PyFrameData>,
                mode: NativeReportingMode): Printed
  {
    var kind := ClassifierFor(version);
    if mode != OFF && EvalCount(natives, kind) == EntryCount(frames) then
      var e := Merged(natives, kind, FromFirst(frames), mode == LAST, []);
      Printed(ShownAll(e.lines), e.failed)
    else
      Printed((if mode != OFF then [Text(UNABLE_TO_MERGE)] else []) + ShownFrames(FromFirst(frames)), false)
  }

  function ThreadOutput(t: ThreadInfo, natives: seq<NativeFrame>, version: Option<Version>, frames: seq<PyFrameData>,
                        mode: NativeReportingMode, showThreadHeader: bool, showInterpreter: bool): Printed
  {
    if FromFirst(frames) == [] && mode == OFF && !showInterpreter then Printed([Text(EmptyStack(t))], false)
    else
      var body := Body(natives, version, frames, mode);
      Printed(Header(t, natives, showThreadHeader, showInterpreter) + body.lines, body.failed)
  }

  /** The loop that prints the Python frames alone, from frame `k0` on. */
  method FormatPythonFrames(start: PyFrame?, ghost first: PyFrame?, ghost nodes: seq<PyFrame>, ghost k0: nat)
    returns (out: seq<Output>)
    requires IsChain(first, nodes)
    requires k0 <= |nodes| && start == NodeAt(nodes, k0)
    ensures out == ShownFrames(Datas(nodes)[k0..])
  {
    hide ShownFrames;
    NothingShown();
    ghost var datas := Datas(nodes);
    ghost var k := k0;
    var current := start;
    out := [];
    while current != null
      invariant k <= |nodes| && current == NodeAt(nodes, k)
      invariant out + ShownFrames(datas[k..]) == ShownFrames(datas[k0..])
      decreases |nodes| - k
    {
      ShownStep(datas[k..], out);
      assert datas[k..][1..] == datas[k + 1..];
      if !current.data.isShim {
        out := out + [Shown(Py(current.data))];
      }
      current := current.next;
      k := k + 1;
    }
    assert datas[k..] == [];
  }

  method FormatThread(t: ThreadInfo, first: PyFrame?, natives: seq<NativeFrame>, version: Option<Version>,
                      mode: NativeReportingMode, showThreadHeader: bool, showInterpreter: bool,
                      ghost nodes: seq<PyFrame>)
    returns (out: seq<Output>, failed: bool)
    requires IsChain(first, nodes)
    ensures Printed(out, failed)
         == ThreadOutput(t, natives, version, Datas(nodes), mode, showThreadHeader, showInterpreter)
  {
    hide ClassifierFor, EvalCount, EntryCount, Merged, FromFirst, ShownFrames, ShownAll, Body, ThreadLine,
         InterpreterLine, EmptyStack,
         IsChain, Datas;
    ghost var datas := Datas(nodes);
    var native := mode != OFF;
    failed := false;
    var current := FirstFrame(first, nodes);
    ghost var k: nat := |nodes| - |FromFirst(datas)|;
    assert current == null <==> FromFirst(datas) == [];
    if current == null && !native && !showInterpreter {
      return [Text(EmptyStack(t))], false;
    }
    out := [];
    if showThreadHeader {
      out := out + [Text(ThreadLine(t, natives, showInterpreter))];
    }
    if showInterpreter {
      out := out + [Text(InterpreterLine(t, natives))];
    }
    assert out == Header(t, natives, showThreadHeader, showInterpreter);
    var mergeable := AreTheStacksMergeable(natives, version, first, nodes);
    if !(native && mergeable) {
      var frames := FormatPythonFrames(current, first, nodes, k);
      BodyUnmerged(natives, version, datas, mode);
      out := out + ((if native then [Text(UNABLE_TO_MERGE)] else []) + frames);
    } else {
      var lines;
      lines, failed := FormatMergedStacks(natives, version, current, mode == LAST, first, nodes, k);
      BodyMerged(natives, version, datas, mode);
      out := out + ShownAll(lines);
    }
  }

  lemma {:induction false} BodyMerged(natives: seq<NativeFrame>, version: Option<Version>, frames: seq<PyFrameData>,
                                      mode: NativeReportingMode)
    requires mode != OFF && EvalCount(natives, ClassifierFor(version)) == EntryCount(frames)
    ensures var e := Merged(natives, ClassifierFor(version), FromFirst(frames), mode == LAST, []);
      Body(natives, version, frames, mode) == Printed(ShownAll(e.lines), e.failed)
  {
  }

  lemma {:induction false} BodyUnmerged(natives: seq<NativeFrame>, version: Option<Version>, frames: seq<PyFrameData>,
                                        mode: NativeReportingMode)
    requires mode == OFF || EvalCount(natives, ClassifierFor(version)) != EntryCount(frames)
    ensures Body(natives, version, frames, mode)
         == Printed((if mode != OFF then [Text(UNABLE_TO_MERGE)] else []) + ShownFrames(FromFirst(frames)), false)
  {
  }

  lemma {:induction false} NothingShown()
    ensures ShownFrames([]) == []
  {
  }

  lemma {:induction false} ShownStep(frames: seq<PyFrameData>, out: seq<Output>)
    requires frames != []
    ensures out + ShownFrames(frames)
         == (if frames[0].isShim then out else out + [Shown(Py(frames[0]))]) + ShownFrames(frames[1..])
  {
  }
}
