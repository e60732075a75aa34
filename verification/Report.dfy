/** The whole report: print_threads of traceback_formatter.py on the threads that bindings.cpp hands over. */
module Report {
  import opened Basics
  import opened NativeFrames
  import opened Frames
  import opened FrameChain
  import opened Merge
  import opened Slice
  import opened SliceExact
  import opened Normalize
  import opened ThreadStatus
  import opened Formatter
  import opened Pipeline
  import opened Conservation

  datatype PyThread = PyThread(info: ThreadInfo, frame: PyFrame?, natives: seq<NativeFrame>, version: Option<Version>)

  /** A thread with its linked frames laid out as a list. */
  datatype Thread = Thread(info: ThreadInfo, frames: seq<PyFrameData>, natives: seq<NativeFrame>,
                           version: Option<Version>)

  function LaidOut(t: PyThread, nodes: seq<PyFrame>): Thread {
    Thread(t.info, Datas(nodes), t.natives, t.version)
  }

  function Laid(threads: seq<PyThread>, nodes: seq<seq<PyFrame>>): (r: seq<Thread>)
    requires |nodes| == |threads|
    ensures |r| == |threads|
    ensures forall i :: 0 <= i < |r| ==> r[i] == LaidOut(threads[i], nodes[i])
  {
    seq(|threads|, i requires 0 <= i < |threads| => LaidOut(threads[i], nodes[i]))
  }

  function InterpreterIds(threads: seq<Thread>): set<int> {
    set t | t in threads && t.info.interpreterId.Some? :: t.info.interpreterId.value
  }

  /** One text after another; a failed assertion ends the report. */
  function Then(a: Printed, b: Printed): Printed {
    if a.failed then a else Joined(a, b)
  }

  function Member(t: Thread, showHeader: bool, mode: NativeReportingMode, several: bool): Printed {
    ThreadOutput(t.info, t.natives, t.version, t.frames, mode, showHeader, several)
  }

  const NOTHING := Printed([], false)
  const SEPARATOR := Printed([Text("")], false)

  /** The last thread of a list, after those before it. */
  function LastOne(threads: seq<Thread>, mode: NativeReportingMode, several: bool): Printed
    requires threads != []
  {
    var n := |threads| - 1;
    if n == 0 then Member(threads[0], true, mode, several)
    else if threads[n].info.tid == threads[n - 1].info.tid then Member(threads[n], false, mode, several)
    else Joined(SEPARATOR, Member(threads[n], true, mode, several))
  }

  function ReportOf(threads: seq<Thread>, mode: NativeReportingMode, several: bool): Printed {
    if threads == [] then NOTHING
    else Then(ReportOf(threads[..|threads| - 1], mode, several), LastOne(threads, mode, several))
  }

  function WholeReport(threads: seq<Thread>, mode: NativeReportingMode): Printed {
    ReportOf(threads, mode, |InterpreterIds(threads)| > 1)
  }

  method PrintThreads(threads: seq<PyThread>, mode: NativeReportingMode, ghost nodes: seq<seq<PyFrame>>)
    returns (out: seq<Output>, failed: bool)
    requires |nodes| == |threads| && forall i :: 0 <= i < |threads| ==> IsChain(threads[i].frame, nodes[i])
    ensures Printed(out, failed) == WholeReport(Laid(threads, nodes), mode)
  {
    hide ThreadOutput, Datas, ReportOf, IsChain, InterpreterIds;
    ghost var laid := Laid(threads, nodes);
    var ids := set t | t in threads && t.info.interpreterId.Some? :: t.info.interpreterId.value;
    SameIds(threads, nodes);
    var several := |ids| > 1;
    out, failed := [], false;
    NoReport(mode, several);
    assert laid[..0] == [];
    for i := 0 to |threads|
      invariant !failed && Printed(out, failed) == ReportOf(laid[..i], mode, several)
    {
      OneMore(laid, i, mode, several, out);
      var thread := threads[i];
      var sameTidAsPrev := i > 0 && thread.info.tid == threads[i - 1].info.tid;
      if i > 0 && !sameTidAsPrev {
        out := out + [Text("")];
      }
      var lines;
      lines, failed := FormatThread(thread.info, thread.frame, thread.natives, thread.version, mode, !sameTidAsPrev,
                                    several, nodes[i]);
      out := out + lines;
      if failed {
        NothingAfterFailure(laid, i + 1, mode, several);
        return;
      }
    }
    assert laid[..|threads|] == laid;
  }

  lemma {:induction false} NoReport(mode: NativeReportingMode, several: bool)
    ensures ReportOf([], mode, several) == Printed([], false)
  {
  }

  lemma {:induction false} SameIds(threads: seq<PyThread>, nodes: seq<seq<PyFrame>>)
    requires |nodes| == |threads|
    ensures (set t | t in threads && t.info.interpreterId.Some? :: t.info.interpreterId.value)
         == InterpreterIds(Laid(threads, nodes))
  {
    var laid := Laid(threads, nodes);
    forall id | id in InterpreterIds(laid)
      ensures exists t :: t in threads && t.info.interpreterId == Some(id)
    {
      var i :| 0 <= i < |laid| && laid[i].info.interpreterId == Some(id);
      assert threads[i] in threads;
    }
    forall t | t in threads && t.info.interpreterId.Some?
      ensures t.info.interpreterId.value in InterpreterIds(laid)
    {
      var i :| 0 <= i < |threads| && threads[i] == t;
      assert laid[i] in laid;
    }
  }

  lemma {:induction false} OneMore(threads: seq<Thread>, i: nat, mode: NativeReportingMode, several: bool,
                                   out: seq<Output>)
    requires i < |threads| && ReportOf(threads[..i], mode, several) == Printed(out, false)
    ensures var sameTid := i > 0 && threads[i].info.tid == threads[i - 1].info.tid;
      var member := Member(threads[i], !sameTid, mode, several);
      ReportOf(threads[..i + 1], mode, several)
      == Printed(out + (if i > 0 && !sameTid then [Text("")] else []) + member.lines, member.failed)
  {
    hide Member;
    var sameTid := i > 0 && threads[i].info.tid == threads[i - 1].info.tid;
    assert threads[..i + 1][..i] == threads[..i];
    AppendAssociates(out, if i > 0 && !sameTid then [Text("")] else [],
                     Member(threads[i], !sameTid, mode, several).lines);
  }

  lemma {:induction false} NothingAfterFailure(threads: seq<Thread>, i: nat, mode: NativeReportingMode, several: bool)
    requires i <= |threads| && ReportOf(threads[..i], mode, several).failed
    ensures ReportOf(threads, mode, several) == ReportOf(threads[..i], mode, several)
    decreases |threads|
  {
    hide LastOne;
    if i == |threads| {
      assert threads[..i] == threads;
    } else {
      var n := |threads| - 1;
      assert threads[..n][..i] == threads[..i];
      NothingAfterFailure(threads[..n], i, mode, several);
    }
  }

  // ----- One block for each OS thread

  /** The threads of one OS thread: a header, if at all, for the first of them only. */
  function Block(group: seq<Thread>, mode: NativeReportingMode, several: bool): Printed {
    if group == [] then NOTHING
    else
      var n := |group| - 1;
      Then(Block(group[..n], mode, several), Member(group[n], n == 0, mode, several))
  }

  /** Blocks with a blank line between them. */
  function Blocks(groups: seq<seq<Thread>>, mode: NativeReportingMode, several: bool): Printed {
    if groups == [] then NOTHING
    else
      var n := |groups| - 1;
      var last := Block(groups[n], mode, several);
      if n == 0 then last else Then(Then(Blocks(groups[..n], mode, several), SEPARATOR), last)
  }

  /** Every group is one OS thread, and neighbours are different ones. */
  ghost predicate ByThread(groups: seq<seq<Thread>>) {
    && (forall g :: 0 <= g < |groups| ==> groups[g] != [])
    && (forall g, i :: 0 <= g < |groups| && 0 <= i < |groups[g]| ==> groups[g][i].info.tid == groups[g][0].info.tid)
    && (forall g :: 0 < g < |groups| ==> groups[g - 1][0].info.tid != groups[g][0].info.tid)
  }

  lemma {:induction false} ThenAssociates(a: Printed, b: Printed, c: Printed)
    ensures Then(Then(a, b), c) == Then(a, Then(b, c))
    ensures Then(NOTHING, a) == Then(a, NOTHING) == a
  {
    AppendAssociates(a.lines, b.lines, c.lines);
    assert [] + a.lines == a.lines == a.lines + [];
  }

  lemma {:induction false} ReportAppend(before: seq<Thread>, t: Thread, mode: NativeReportingMode, several: bool)
    ensures ReportOf(before + [t], mode, several) ==
      if before == [] then Member(t, true, mode, several)
      else if t.info.tid == before[|before| - 1].info.tid
      then Then(ReportOf(before, mode, several), Member(t, false, mode, several))
      else Then(Then(ReportOf(before, mode, several), SEPARATOR), Member(t, true, mode, several))
  {
    hide Member;
    assert (before + [t])[..|before|] == before;
    ThenAssociates(ReportOf(before, mode, several), SEPARATOR, Member(t, true, mode, several));
    ThenAssociates(Member(t, true, mode, several), NOTHING, NOTHING);
    SeparatorFirst(Member(t, true, mode, several));
  }

  lemma {:induction false} BlockAppend(before: seq<Thread>, t: Thread, mode: NativeReportingMode, several: bool)
    ensures Block(before + [t], mode, several) ==
      if before == [] then Member(t, true, mode, several)
      else Then(Block(before, mode, several), Member(t, false, mode, several))
  {
    hide Member;
    assert (before + [t])[..|before|] == before;
    ThenAssociates(Member(t, true, mode, several), NOTHING, NOTHING);
  }

  /** A block printed after other threads. */
  lemma {:induction false} BlockAfter(before: seq<Thread>, group: seq<Thread>, mode: NativeReportingMode, several: bool)
    requires group != [] && forall i :: 0 <= i < |group| ==> group[i].info.tid == group[0].info.tid
    requires before == [] || before[|before| - 1].info.tid != group[0].info.tid
    ensures ReportOf(before + group, mode, several)
         == if before == [] then Block(group, mode, several)
            else Then(Then(ReportOf(before, mode, several), SEPARATOR), Block(group, mode, several))
  {
    hide Member, Then, ReportOf, Block;
    var n := |group| - 1;
    var rest, t := group[..n], group[n];
    assert group == rest + [t] && before + group == (before + rest) + [t];
    ReportAppend(before + rest, t, mode, several);
    BlockAppend(rest, t, mode, several);
    if n == 0 {
      assert before + rest == before;
    } else {
      BlockAfter(before, rest, mode, several);
      ThenAssociates(Then(ReportOf(before, mode, several), SEPARATOR), Block(rest, mode, several),
                     Member(t, false, mode, several));
    }
  }

  lemma {:induction false} SeparatorFirst(p: Printed)
    ensures Then(SEPARATOR, p) == Joined(SEPARATOR, p)
  {
  }

  /** The report of a list that is grouped by OS thread: one block each, blank lines between. */
  lemma {:induction false} ReportIsBlocks(groups: seq<seq<Thread>>, mode: NativeReportingMode, several: bool)
    requires ByThread(groups)
    ensures ReportOf(Concat(groups), mode, several) == Blocks(groups, mode, several)
  {
    hide Block, LastOne, Then;
    if groups != [] {
      var n := |groups| - 1;
      var before := Concat(groups[..n]);
      ReportIsBlocks(groups[..n], mode, several);
      assert groups == groups[..n] + [groups[n]];
      ConcatSplit(groups[..n], [groups[n]]);
      assert Concat([groups[n]]) == groups[n];
      if n > 0 {
        LastOfConcat(groups[..n]);
      }
      BlockAfter(before, groups[n], mode, several);
    }
  }

  lemma {:induction false} LastOfConcat(groups: seq<seq<Thread>>)
    requires groups != [] && groups[|groups| - 1] != []
    ensures var threads, last := Concat(groups), groups[|groups| - 1];
      threads != [] && threads[|threads| - 1] == last[|last| - 1]
  {
    var n := |groups| - 1;
    assert groups == groups[..n] + [groups[n]];
    ConcatSplit(groups[..n], [groups[n]]);
    assert Concat([groups[n]]) == groups[n];
  }

  // ----- Headers, blank lines and frames

  function Texts(out: seq<Output>, wanted: string -> bool): seq<string> {
    if out == [] then []
    else (if out[0].Text? && wanted(out[0].text) then [out[0].text] else []) + Texts(out[1..], wanted)
  }

  predicate IsHeader(text: string) {
    "Traceback for thread " <= text
  }

  predicate IsBlank(text: string) {
    text == ""
  }

  /** A thread for which only the remark about its empty stack is printed. */
  predicate Silent(t: Thread, mode: NativeReportingMode, several: bool) {
    FromFirst(t.frames) == [] && mode == OFF && !several
  }

  function BodyOf(t: Thread, mode: NativeReportingMode): Printed {
    Body(t.natives, t.version, t.frames, mode)
  }

  lemma {:induction false} TextsSplit(xs: seq<Output>, ys: seq<Output>, wanted: string -> bool)
    ensures Texts(xs + ys, wanted) == Texts(xs, wanted) + Texts(ys, wanted)
  {
    if xs == [] {
      assert xs + ys == ys;
    } else {
      assert (xs + ys)[1..] == xs[1..] + ys;
      TextsSplit(xs[1..], ys, wanted);
      AppendAssociates(if xs[0].Text? && wanted(xs[0].text) then [xs[0].text] else [], Texts(xs[1..], wanted),
                       Texts(ys, wanted));
    }
  }

  lemma {:induction false} OneText(text: string, wanted: string -> bool)
    ensures Texts([Text(text)], wanted) == if wanted(text) then [text] else []
    ensures FrameLines([Text(text)]) == []
  {
    assert [Text(text)][1..] == [];
  }

  lemma {:induction false} NoTexts(out: seq<Output>, wanted: string -> bool)
    requires forall o :: o in out ==> o.Shown?
    ensures Texts(out, wanted) == []
  {
    if out != [] {
      assert out[0] in out && forall o :: o in out[1..] ==> o in out;
      NoTexts(out[1..], wanted);
    }
  }

  lemma {:induction false} FramesAreNoTexts(frames: seq<PyFrameData>)
    ensures forall o :: o in ShownFrames(frames) ==> o.Shown?
  {
    if frames != [] {
      FramesAreNoTexts(frames[1..]);
    }
  }

  /** A thread that is refused a merge. */
  predicate Refused(t: Thread, mode: NativeReportingMode) {
    mode != OFF && EvalCount(t.natives, ClassifierFor(t.version)) != EntryCount(t.frames)
  }

  function One(text: string, wanted: string -> bool): seq<string> {
    if wanted(text) then [text] else []
  }

  lemma {:induction false} BodyTexts(t: Thread, mode: NativeReportingMode, wanted: string -> bool)
    ensures Texts(BodyOf(t, mode).lines, wanted) == if Refused(t, mode) then One(UNABLE_TO_MERGE, wanted) else []
  {
    hide ClassifierFor, Body, Merged, FromFirst, ShownFrames, Texts, EvalCount, EntryCount;
    var shown := ShownFrames(FromFirst(t.frames));
    FramesAreNoTexts(FromFirst(t.frames));
    NoTexts(shown, wanted);
    if mode != OFF && !Refused(t, mode) {
      BodyMerged(t.natives, t.version, t.frames, mode);
      var e := Merged(t.natives, ClassifierFor(t.version), FromFirst(t.frames), mode == LAST, []);
      NoTexts(ShownAll(e.lines), wanted);
    } else {
      BodyUnmerged(t.natives, t.version, t.frames, mode);
      OneText(UNABLE_TO_MERGE, wanted);
      TextsSplit([Text(UNABLE_TO_MERGE)], shown, wanted);
      assert [] + shown == shown;
    }
  }

  function HeaderOf(t: Thread, mode: NativeReportingMode, several: bool): seq<string> {
    if Silent(t, mode, several) then [] else [ThreadLine(t.info, t.natives, several)]
  }

  lemma {:induction false} HeaderTexts(t: Thread, showHeader: bool, several: bool, wanted: string -> bool)
    ensures Texts(Header(t.info, t.natives, showHeader, several), wanted)
         == (if showHeader then One(ThreadLine(t.info, t.natives, several), wanted) else [])
            + (if several then One(InterpreterLine(t.info, t.natives), wanted) else [])
    ensures FrameLines(Header(t.info, t.natives, showHeader, several)) == []
  {
    hide ThreadLine, InterpreterLine, Texts, FrameLines;
    var a := if showHeader then [Text(ThreadLine(t.info, t.natives, several))] else [];
    var b := if several then [Text(InterpreterLine(t.info, t.natives))] else [];
    NothingToPick();
    TextsSplit(a, b, wanted);
    FrameLinesSplit(a, b);
    OneText(ThreadLine(t.info, t.natives, several), wanted);
    OneText(InterpreterLine(t.info, t.natives), wanted);
  }

  lemma {:induction false} NothingToPick()
    ensures forall wanted :: Texts([], wanted) == []
    ensures FrameLines([]) == []
  {
  }

  /** The texts printed for one thread. */
  lemma {:induction false} MemberTexts(t: Thread, showHeader: bool, mode: NativeReportingMode, several: bool,
                                       wanted: string -> bool)
    ensures Texts(Member(t, showHeader, mode, several).lines, wanted) ==
      if Silent(t, mode, several) then One(EmptyStack(t.info), wanted)
      else
        (if showHeader then One(ThreadLine(t.info, t.natives, several), wanted) else [])
        + (if several then One(InterpreterLine(t.info, t.natives), wanted) else [])
        + (if Refused(t, mode) then One(UNABLE_TO_MERGE, wanted) else [])
  {
    hide ClassifierFor, Body, FromFirst, ThreadLine, InterpreterLine, EmptyStack, Texts, Header, Refused, One;
    if Silent(t, mode, several) {
      OneText(EmptyStack(t.info), wanted);
      OneIs(EmptyStack(t.info), wanted);
    } else {
      HeaderTexts(t, showHeader, several, wanted);
      BodyTexts(t, mode, wanted);
      TextsSplit(Header(t.info, t.natives, showHeader, several), BodyOf(t, mode).lines, wanted);
    }
  }

  lemma {:induction false} OneIs(text: string, wanted: string -> bool)
    ensures One(text, wanted) == if wanted(text) then [text] else []
  {
  }

  /** And the frames. */
  lemma {:induction false} MemberFrames(t: Thread, showHeader: bool, mode: NativeReportingMode, several: bool)
    ensures var p := Member(t, showHeader, mode, several);
      p.failed == BodyOf(t, mode).failed && FrameLines(p.lines) == FrameLines(BodyOf(t, mode).lines)
  {
    hide ClassifierFor, Body, FromFirst, ThreadLine, InterpreterLine, EmptyStack, FrameLines, Header;
    if Silent(t, mode, several) {
      OneText(EmptyStack(t.info), IsBlank);
      EmptyBody(t);
      NothingToPick();
    } else {
      HeaderTexts(t, showHeader, several, IsBlank);
      FrameLinesSplit(Header(t.info, t.natives, showHeader, several), BodyOf(t, mode).lines);
      assert [] + FrameLines(BodyOf(t, mode).lines) == FrameLines(BodyOf(t, mode).lines);
    }
  }

  predicate IsInterpreterLine(text: string) {
    "  " <= text
  }

  predicate IsRemark(text: string) {
    text == UNABLE_TO_MERGE
  }

  predicate IsEmptyStack(text: string) {
    "The frame stack for thread " <= text
  }

  /** The kinds of text are told apart by how they start. */
  lemma {:induction false} Kinds(t: ThreadInfo, natives: seq<NativeFrame>, several: bool)
    ensures var header := ThreadLine(t, natives, several);
      IsHeader(header) && !IsBlank(header) && !IsInterpreterLine(header) && !IsRemark(header) && !IsEmptyStack(header)
    ensures var line := InterpreterLine(t, natives);
      !IsHeader(line) && !IsBlank(line) && IsInterpreterLine(line) && !IsRemark(line) && !IsEmptyStack(line)
    ensures var empty := EmptyStack(t);
      !IsHeader(empty) && !IsBlank(empty) && !IsInterpreterLine(empty) && !IsRemark(empty) && IsEmptyStack(empty)
  {
    hide Decimal, Status;
    Starts();
    var header, line, empty := ThreadLine(t, natives, several), InterpreterLine(t, natives), EmptyStack(t);
    assert header[0] == 'T' && header[1] == 'r';
    assert line[0] == ' ' && "  " <= line;
    assert empty[0] == 'T' && empty[1] == 'h';
  }

  lemma {:induction false} RemarkKind()
    ensures var remark := UNABLE_TO_MERGE;
      !IsHeader(remark) && !IsBlank(remark) && !IsInterpreterLine(remark) && IsRemark(remark) && !IsEmptyStack(remark)
    ensures !IsHeader("") && IsBlank("") && !IsInterpreterLine("") && !IsRemark("") && !IsEmptyStack("")
  {
    Starts();
  }

  lemma {:induction false} Starts()
    ensures "Traceback for thread "[0] == 'T' && "Traceback for thread "[1] == 'r'
    ensures "The frame stack for thread "[0] == 'T' && "The frame stack for thread "[1] == 'h'
    ensures UNABLE_TO_MERGE[0] == '*' && "  "[0] == ' '
  {
  }

  lemma {:induction false} EmptyBody(t: Thread)
    requires FromFirst(t.frames) == []
    ensures BodyOf(t, OFF) == NOTHING
  {
  }

  /** The frames of a list of threads, as each thread alone prints them. */
  function FramesOf(threads: seq<Thread>, mode: NativeReportingMode): seq<Line> {
    if threads == [] then []
    else FramesOf(threads[..|threads| - 1], mode) + FrameLines(BodyOf(threads[|threads| - 1], mode).lines)
  }

  ghost predicate NobodyFails(threads: seq<Thread>, mode: NativeReportingMode) {
    forall t :: t in threads ==> !BodyOf(t, mode).failed
  }

  lemma {:induction false} ReportFrames(threads: seq<Thread>, mode: NativeReportingMode, several: bool)
    requires NobodyFails(threads, mode)
    ensures var r := ReportOf(threads, mode, several);
      !r.failed && FrameLines(r.lines) == FramesOf(threads, mode)
  {
    hide BodyOf, Member, FrameLines, ReportOf, NobodyFails;
    NothingToPick();
    if threads == [] {
      NoReport(mode, several);
    } else {
      var n := |threads| - 1;
      var before, t := threads[..n], threads[n];
      var showHeader := n == 0 || t.info.tid != threads[n - 1].info.tid;
      assert threads == before + [t];
      NobodyFailsStep(before, t, mode);
      ReportAppend(before, t, mode, several);
      ReportFrames(before, mode, several);
      MemberFrames(t, showHeader, mode, several);
      OneText("", IsBlank);
      var lines, member := ReportOf(before, mode, several).lines, Member(t, showHeader, mode, several).lines;
      FrameLinesSplit(lines, [Text("")]);
      FrameLinesSplit(lines + [Text("")], member);
      FrameLinesSplit(lines, member);
      assert FrameLines(lines) + [] == FrameLines(lines) && [] + FrameLines(member) == FrameLines(member);
    }
  }

  lemma {:induction false} BlockTexts(group: seq<Thread>, mode: NativeReportingMode, several: bool)
    requires group != [] && NobodyFails(group, mode)
    ensures var p := Block(group, mode, several);
      && !p.failed
      && Texts(p.lines, IsHeader) == HeaderOf(group[0], mode, several)
      && Texts(p.lines, IsBlank) == []
  {
    hide BodyOf, Member, Texts, Block, NobodyFails, Refused, ThreadLine, InterpreterLine, EmptyStack, IsHeader, IsBlank,
         Silent, IsInterpreterLine, IsRemark, IsEmptyStack;
    var n := |group| - 1;
    var rest, t := group[..n], group[n];
    assert group == rest + [t];
    NobodyFailsStep(rest, t, mode);
    BlockAppend(rest, t, mode, several);
    MemberFrames(t, n == 0, mode, several);
    MemberTexts(t, n == 0, mode, several, IsHeader);
    MemberTexts(t, n == 0, mode, several, IsBlank);
    Kinds(t.info, t.natives, several);
    RemarkKind();
    if n > 0 {
      BlockTexts(rest, mode, several);
      TextsSplit(Block(rest, mode, several).lines, Member(t, false, mode, several).lines, IsHeader);
      TextsSplit(Block(rest, mode, several).lines, Member(t, false, mode, several).lines, IsBlank);
    }
  }

  lemma {:induction false} NobodyFailsStep(rest: seq<Thread>, t: Thread, mode: NativeReportingMode)
    ensures NobodyFails(rest + [t], mode) <==> NobodyFails(rest, mode) && !BodyOf(t, mode).failed
  {
    hide BodyOf;
    assert forall u :: u in rest + [t] <==> u in rest || u == t;
  }

  /** A block without a header. */
  predicate StartsSilent(group: seq<Thread>, mode: NativeReportingMode, several: bool) {
    group == [] || Silent(group[0], mode, several)
  }

  function HeadersOf(groups: seq<seq<Thread>>, mode: NativeReportingMode, several: bool): seq<string> {
    if groups == [] then []
    else
      var n := |groups| - 1;
      HeadersOf(groups[..n], mode, several) + if groups[n] == [] then [] else HeaderOf(groups[n][0], mode, several)
  }

  /** One blank line fewer than blocks, and one header for every block that does not start with a silent
      thread, in order. */
  lemma {:induction false} BlocksTexts(groups: seq<seq<Thread>>, mode: NativeReportingMode, several: bool)
    requires forall g :: 0 <= g < |groups| ==> groups[g] != [] && NobodyFails(groups[g], mode)
    ensures var p := Blocks(groups, mode, several);
      && !p.failed
      && Texts(p.lines, IsHeader) == HeadersOf(groups, mode, several)
      && |Texts(p.lines, IsBlank)| == if groups == [] then 0 else |groups| - 1
  {
    hide Block, Texts, HeaderOf, NobodyFails, IsHeader, IsBlank;
    NothingToPick();
    if groups != [] {
      var n := |groups| - 1;
      var last := Block(groups[n], mode, several);
      BlockTexts(groups[n], mode, several);
      BlocksTexts(groups[..n], mode, several);
      var before := Blocks(groups[..n], mode, several);
      hide Blocks;
      BlocksStep(groups, mode, several);
      NoHeader();
      ThreeTexts(before.lines, [Text("")], last.lines, IsHeader);
      ThreeTexts(before.lines, [Text("")], last.lines, IsBlank);
    }
  }

  lemma {:induction false} BlocksStep(groups: seq<seq<Thread>>, mode: NativeReportingMode, several: bool)
    requires groups != []
    ensures var n := |groups| - 1;
      var last := Block(groups[n], mode, several);
      Blocks(groups, mode, several)
      == if n == 0 then last else Then(Then(Blocks(groups[..n], mode, several), SEPARATOR), last)
  {
  }

  lemma {:induction false} ThreeTexts(a: seq<Output>, b: seq<Output>, c: seq<Output>, wanted: string -> bool)
    ensures Texts(a + b + c, wanted) == Texts(a, wanted) + Texts(b, wanted) + Texts(c, wanted)
  {
    TextsSplit(a + b, c, wanted);
    TextsSplit(a, b, wanted);
  }

  lemma {:induction false} NoHeader()
    ensures Texts([Text("")], IsHeader) == [] && |Texts([Text("")], IsBlank)| == 1
  {
    OneText("", IsHeader);
    OneText("", IsBlank);
    RemarkKind();
  }

  lemma {:induction false} AllHeaders(groups: seq<seq<Thread>>, mode: NativeReportingMode, several: bool)
    ensures |HeadersOf(groups, mode, several)| <= |groups|
    ensures |HeadersOf(groups, mode, several)| == |groups|
       <==> forall g :: 0 <= g < |groups| ==> !StartsSilent(groups[g], mode, several)
  {
    hide Silent, ThreadLine;
    if groups != [] {
      AllHeaders(groups[..|groups| - 1], mode, several);
    }
  }

  // ----- The other texts

  /** One line about its interpreter for every thread, if there are several interpreters. */
  function InterpreterLines(threads: seq<Thread>, several: bool): seq<string> {
    if threads == [] || !several then []
    else
      var n := |threads| - 1;
      InterpreterLines(threads[..n], several) + [InterpreterLine(threads[n].info, threads[n].natives)]
  }

  function EmptyStacks(threads: seq<Thread>, mode: NativeReportingMode, several: bool): seq<string> {
    if threads == [] then []
    else
      var n := |threads| - 1;
      EmptyStacks(threads[..n], mode, several)
      + if Silent(threads[n], mode, several) then [EmptyStack(threads[n].info)] else []
  }

  function RefusedCount(threads: seq<Thread>, mode: NativeReportingMode): nat {
    if threads == [] then 0
    else RefusedCount(threads[..|threads| - 1], mode) + if Refused(threads[|threads| - 1], mode) then 1 else 0
  }

  /** The texts of a kind in a report: those of all but the last thread, and its own; blank lines aside. */
  lemma {:induction false} LastTexts(threads: seq<Thread>, mode: NativeReportingMode, several: bool,
                                     wanted: string -> bool, showHeader: bool)
    requires threads != [] && NobodyFails(threads, mode) && !wanted("")
    requires showHeader == (|threads| == 1
                            || threads[|threads| - 1].info.tid != threads[|threads| - 2].info.tid)
    ensures Texts(ReportOf(threads, mode, several).lines, wanted)
         == Texts(ReportOf(threads[..|threads| - 1], mode, several).lines, wanted)
            + Texts(Member(threads[|threads| - 1], showHeader, mode, several).lines, wanted)
    ensures NobodyFails(threads[..|threads| - 1], mode)
  {
    hide BodyOf, Member, Texts, NobodyFails, ReportOf, FrameLines;
    var n := |threads| - 1;
    var before, t := threads[..n], threads[n];
    assert threads == before + [t];
    NobodyFailsStep(before, t, mode);
    ReportAppend(before, t, mode, several);
    ReportFrames(before, mode, several);
    NoReport(mode, several);
    NothingToPick();
    OneText("", wanted);
    var lines, member := ReportOf(before, mode, several).lines, Member(t, showHeader, mode, several).lines;
    ThreeTexts(lines, [Text("")], member, wanted);
    TextsSplit(lines, member, wanted);
    assert Texts(lines, wanted) + [] == Texts(lines, wanted);
  }

  /** Threads are reported with their interpreters if and only if there are several. */
  lemma {:induction false} InterpreterTexts(threads: seq<Thread>, mode: NativeReportingMode, several: bool)
    requires NobodyFails(threads, mode)
    ensures Texts(ReportOf(threads, mode, several).lines, IsInterpreterLine) == InterpreterLines(threads, several)
  {
    hide BodyOf, Member, Texts, NobodyFails, Refused, ThreadLine, InterpreterLine, EmptyStack, IsInterpreterLine,
         ReportOf;
    if threads == [] {
      NoReport(mode, several);
      NothingToPick();
    } else {
      var n := |threads| - 1;
      var t, showHeader := threads[n], n == 0 || threads[n].info.tid != threads[n - 1].info.tid;
      RemarkKind();
      Kinds(t.info, t.natives, several);
      LastTexts(threads, mode, several, IsInterpreterLine, showHeader);
      MemberTexts(t, showHeader, mode, several, IsInterpreterLine);
      SilentIsNotRefused(t, mode, several);
      InterpreterTexts(threads[..n], mode, several);
    }
  }

  /** Of every silent thread, and of no other, it is said that its stack is empty. */
  lemma {:induction false} EmptyStackTexts(threads: seq<Thread>, mode: NativeReportingMode, several: bool)
    requires NobodyFails(threads, mode)
    ensures Texts(ReportOf(threads, mode, several).lines, IsEmptyStack) == EmptyStacks(threads, mode, several)
  {
    hide BodyOf, Member, Texts, NobodyFails, Refused, ThreadLine, InterpreterLine, EmptyStack, IsEmptyStack, ReportOf;
    if threads == [] {
      NoReport(mode, several);
      NothingToPick();
    } else {
      var n := |threads| - 1;
      var t, showHeader := threads[n], n == 0 || threads[n].info.tid != threads[n - 1].info.tid;
      RemarkKind();
      Kinds(t.info, t.natives, several);
      LastTexts(threads, mode, several, IsEmptyStack, showHeader);
      MemberTexts(t, showHeader, mode, several, IsEmptyStack);
      SilentIsNotRefused(t, mode, several);
      EmptyStackTexts(threads[..n], mode, several);
    }
  }

  /** A remark stands for every thread that is refused a merge, and for no other. */
  lemma {:induction false} RemarkTexts(threads: seq<Thread>, mode: NativeReportingMode, several: bool)
    requires NobodyFails(threads, mode)
    ensures |Texts(ReportOf(threads, mode, several).lines, IsRemark)| == RefusedCount(threads, mode)
  {
    hide BodyOf, Member, Texts, NobodyFails, Refused, ThreadLine, InterpreterLine, EmptyStack, IsRemark, ReportOf;
    if threads == [] {
      NoReport(mode, several);
      NothingToPick();
    } else {
      var n := |threads| - 1;
      var t, showHeader := threads[n], n == 0 || threads[n].info.tid != threads[n - 1].info.tid;
      RemarkKind();
      Kinds(t.info, t.natives, several);
      LastTexts(threads, mode, several, IsRemark, showHeader);
      MemberTexts(t, showHeader, mode, several, IsRemark);
      SilentIsNotRefused(t, mode, several);
      RemarkTexts(threads[..n], mode, several);
    }
  }

  lemma {:induction false} SilentIsNotRefused(t: Thread, mode: NativeReportingMode, several: bool)
    ensures Silent(t, mode, several) ==> !Refused(t, mode) && !several
  {
  }

  // ----- The report of a process

  /** A thread that runs Python, as handed to the formatter. */
  function PythonThread(t: PyThreadData, version: Version): Thread {
    var info := ThreadInfo(t.tid, t.name, Some(t.interpreterId), t.gilStatus, t.gcStatus);
    Thread(info, Chain(t), t.natives, Some(version))
  }

  /** A thread that runs no Python, and so belongs to no interpreter. */
  function NativeThread(t: PyThreadData): Thread {
    Thread(ThreadInfo(t.tid, t.name, None, 0, 0), [], t.natives, None)
  }

  function PythonThreads(data: seq<PyThreadData>, version: Version): (r: seq<Thread>)
    ensures |r| == |data| && forall i :: 0 <= i < |r| ==> r[i] == PythonThread(data[i], version)
  {
    seq(|data|, i requires 0 <= i < |data| => PythonThread(data[i], version))
  }

  function NativeThreads(data: seq<PyThreadData>): (r: seq<Thread>)
    ensures |r| == |data| && forall i :: 0 <= i < |r| ==> r[i] == NativeThread(data[i])
  {
    seq(|data|, i requires 0 <= i < |data| => NativeThread(data[i]))
  }

  /** What the formatter says about a thread is what was read of it; of a thread without Python it says neither
      that it has the GIL nor an interpreter. */
  lemma {:induction false} ThreadsKeepTheirStatus(t: PyThreadData, version: Version)
    ensures var info := PythonThread(t, version).info;
      && ("Has the GIL" in Remarks(info, t.natives) <==> t.gilStatus > 0)
      && ("Thread terminated" in Remarks(info, t.natives) <==> t.tid == 0)
      && (t.natives == [] ==>
            ("Garbage collecting" in Remarks(info, []) <==> t.gcStatus == 1 && t.gilStatus != 0))
      && info.name == t.name && info.interpreterId == Some(t.interpreterId)
    ensures var info := NativeThread(t).info;
      && "Has the GIL" !in Remarks(info, t.natives) && info.interpreterId == None && info.name == t.name
      && ("Thread terminated" in Remarks(info, t.natives) <==> t.tid == 0)
  {
    hide Remarks, Calls, Contains;
    RemarksIff(PythonThread(t, version).info, t.natives);
    RemarksIff(NativeThread(t).info, t.natives);
  }

  /** The normalised Python threads, and after them the threads that run no Python. */
  function ProcessThreads(threads: seq<PyThreadData>, alone: seq<PyThreadData>, version: Version,
                          mode: NativeReportingMode): seq<Thread>
  {
    PythonThreads(Normalized(threads, mode, ClassifierFor(Some(version))), version) + NativeThreads(alone)
  }

  /** Threads without Python are listed in ALL mode only, once each, and have ids of their own. */
  ghost predicate Apart(threads: seq<PyThreadData>, alone: seq<PyThreadData>, mode: NativeReportingMode) {
    && (mode != ALL ==> alone == [])
    && (forall i, j :: 0 <= i < j < |alone| ==> alone[i].tid != alone[j].tid)
    && (forall t :: t in alone ==> t.tid !in FirstSeen(threads))
  }

  function PythonGroups(tids: seq<int>, threads: seq<PyThreadData>, version: Version, mode: NativeReportingMode)
    : (r: seq<seq<Thread>>)
    ensures |r| == |tids|
  {
    if tids == [] then []
    else
      var n := |tids| - 1;
      var group := NormalizedGroup(OfTid(threads, tids[n]), mode, ClassifierFor(Some(version)));
      PythonGroups(tids[..n], threads, version, mode) + [PythonThreads(group, version)]
  }

  function NativeGroups(alone: seq<PyThreadData>): (r: seq<seq<Thread>>)
    ensures |r| == |alone|
  {
    if alone == [] then [] else NativeGroups(alone[..|alone| - 1]) + [[NativeThread(alone[|alone| - 1])]]
  }

  /** The threads of each OS thread: those that run Python in first-seen order, then the others. */
  function ThreadGroups(threads: seq<PyThreadData>, alone: seq<PyThreadData>, version: Version,
                        mode: NativeReportingMode): (r: seq<seq<Thread>>)
    ensures |r| == |FirstSeen(threads)| + |alone|
  {
    PythonGroups(FirstSeen(threads), threads, version, mode) + NativeGroups(alone)
  }

  lemma {:induction false} PythonThreadsSplit(xs: seq<PyThreadData>, ys: seq<PyThreadData>, version: Version)
    ensures PythonThreads(xs + ys, version) == PythonThreads(xs, version) + PythonThreads(ys, version)
  {
  }

  lemma {:induction false} ConcatLast<T>(xss: seq<seq<T>>, xs: seq<T>)
    ensures Concat(xss + [xs]) == Concat(xss) + xs
  {
    ConcatSplit(xss, [xs]);
    assert Concat([xs]) == xs;
  }

  lemma {:induction false} GroupsJoin(tids: seq<int>, threads: seq<PyThreadData>, version: Version,
                                      mode: NativeReportingMode)
    ensures Concat(PythonGroups(tids, threads, version, mode))
         == PythonThreads(NormalizedGroups(tids, threads, mode, ClassifierFor(Some(version))), version)
  {
    hide ClassifierFor, NormalizedGroup, OfTid;
    if tids != [] {
      var n, kind := |tids| - 1, ClassifierFor(Some(version));
      var group := NormalizedGroup(OfTid(threads, tids[n]), mode, kind);
      GroupsJoin(tids[..n], threads, version, mode);
      PythonThreadsSplit(NormalizedGroups(tids[..n], threads, mode, kind), group, version);
      ConcatLast(PythonGroups(tids[..n], threads, version, mode), PythonThreads(group, version));
    }
  }

  lemma {:induction false} NativesJoin(alone: seq<PyThreadData>)
    ensures Concat(NativeGroups(alone)) == NativeThreads(alone)
  {
    if alone != [] {
      var n := |alone| - 1;
      NativesJoin(alone[..n]);
      ConcatLast(NativeGroups(alone[..n]), [NativeThread(alone[n])]);
      assert NativeThreads(alone) == NativeThreads(alone[..n]) + [NativeThread(alone[n])];
    }
  }

  /** The group of an id holds threads of that id, at least one. */
  lemma {:induction false} PythonGroupAt(tids: seq<int>, threads: seq<PyThreadData>, version: Version,
                                         mode: NativeReportingMode, g: nat)
    requires g < |tids| && exists t :: t in threads && t.tid == tids[g]
    ensures var group := PythonGroups(tids, threads, version, mode)[g];
      group != [] && forall i :: 0 <= i < |group| ==> group[i].info.tid == tids[g]
  {
    hide NormalizedGroup, OfTid, ClassifierFor, Sliced, Reverse;
    var n := |tids| - 1;
    if g < n {
      PythonGroupAt(tids[..n], threads, version, mode, g);
    } else {
      var kind := ClassifierFor(Some(version));
      SomeOfTid(threads, tids[g]);
      GroupDescending(OfTid(threads, tids[g]), mode, kind, tids[g]);
      GroupSize(OfTid(threads, tids[g]), mode, kind);
    }
  }

  lemma {:induction false} GroupSize(group: seq<PyThreadData>, mode: NativeReportingMode, kind: Classifier)
    ensures |NormalizedGroup(group, mode, kind)| == |group|
  {
  }

  lemma {:induction false} SomeOfTid(threads: seq<PyThreadData>, tid: int)
    requires exists t :: t in threads && t.tid == tid
    ensures OfTid(threads, tid) != []
  {
    var n := |threads| - 1;
    if threads[n].tid != tid {
      SomeOfTid(threads[..n], tid);
    }
  }

  lemma {:induction false} SeenIsThere(threads: seq<PyThreadData>, tid: int)
    requires tid in FirstSeen(threads)
    ensures exists t :: t in threads && t.tid == tid
  {
    var n := |threads| - 1;
    if tid in FirstSeen(threads[..n]) {
      SeenIsThere(threads[..n], tid);
      var t :| t in threads[..n] && t.tid == tid;
      assert t in threads;
    } else {
      assert threads[n] in threads;
    }
  }

  lemma {:induction false} NativeGroupAt(alone: seq<PyThreadData>, g: nat)
    requires g < |alone|
    ensures NativeGroups(alone)[g] == [NativeThread(alone[g])]
  {
    if g < |alone| - 1 {
      NativeGroupAt(alone[..|alone| - 1], g);
    }
  }

  /** Where each block comes from. */
  lemma {:induction false} GroupTid(threads: seq<PyThreadData>, alone: seq<PyThreadData>, version: Version,
                                    mode: NativeReportingMode, g: nat)
    requires g < |FirstSeen(threads)| + |alone|
    ensures var tids, group := FirstSeen(threads), ThreadGroups(threads, alone, version, mode)[g];
      var tid := if g < |tids| then tids[g] else alone[g - |tids|].tid;
      group != [] && forall i :: 0 <= i < |group| ==> group[i].info.tid == tid
  {
    hide FirstSeen, PythonGroups, NativeGroups;
    var tids := FirstSeen(threads);
    if g < |tids| {
      assert tids[g] in tids;
      SeenIsThere(threads, tids[g]);
      PythonGroupAt(tids, threads, version, mode, g);
    } else {
      NativeGroupAt(alone, g - |tids|);
    }
  }

  lemma {:induction false} GroupsByThread(threads: seq<PyThreadData>, alone: seq<PyThreadData>, version: Version,
                                          mode: NativeReportingMode)
    requires Apart(threads, alone, mode)
    ensures ByThread(ThreadGroups(threads, alone, version, mode))
  {
    hide FirstSeen, ThreadGroups;
    var tids: seq<int> := FirstSeen(threads);
    var groups: seq<seq<Thread>> := ThreadGroups(threads, alone, version, mode);
    forall g | 0 <= g < |groups|
      ensures groups[g] != []
      ensures forall i :: 0 <= i < |groups[g]| ==> groups[g][i].info.tid == groups[g][0].info.tid
    {
      GroupTid(threads, alone, version, mode, g);
    }
    forall g | 0 < g < |groups| ensures groups[g - 1][0].info.tid != groups[g][0].info.tid {
      GroupTid(threads, alone, version, mode, g - 1);
      GroupTid(threads, alone, version, mode, g);
      if g == |tids| {
        assert tids[g - 1] in tids && alone[0] in alone;
      }
    }
  }

  lemma {:induction false} GroupsJoinUp(threads: seq<PyThreadData>, alone: seq<PyThreadData>, version: Version,
                                        mode: NativeReportingMode)
    ensures Concat(ThreadGroups(threads, alone, version, mode)) == ProcessThreads(threads, alone, version, mode)
  {
    hide FirstSeen, PythonGroups, NativeGroups, ClassifierFor, NormalizedGroups;
    GroupsJoin(FirstSeen(threads), threads, version, mode);
    NativesJoin(alone);
    ConcatSplit(PythonGroups(FirstSeen(threads), threads, version, mode), NativeGroups(alone));
  }

  /** Whatever threads were read: the report is one block for each OS thread, those that run Python in the
      order first seen and then the others, with blank lines between. */
  lemma {:induction false} OneBlockPerThread(threads: seq<PyThreadData>, alone: seq<PyThreadData>, version: Version,
                                             mode: NativeReportingMode)
    requires Apart(threads, alone, mode)
    ensures var all := ProcessThreads(threads, alone, version, mode);
      WholeReport(all, mode)
      == Blocks(ThreadGroups(threads, alone, version, mode), mode, |InterpreterIds(all)| > 1)
  {
    hide ReportOf, Blocks, ThreadGroups, ProcessThreads, InterpreterIds, ByThread, Apart;
    var several := |InterpreterIds(ProcessThreads(threads, alone, version, mode))| > 1;
    GroupsByThread(threads, alone, version, mode);
    GroupsJoinUp(threads, alone, version, mode);
    ReportIsBlocks(ThreadGroups(threads, alone, version, mode), mode, several);
  }

  lemma {:induction false} FramesOfSplit(xs: seq<Thread>, ys: seq<Thread>, mode: NativeReportingMode)
    ensures FramesOf(xs + ys, mode) == FramesOf(xs, mode) + FramesOf(ys, mode)
  {
    hide BodyOf, FrameLines;
    if ys == [] {
      assert xs + ys == xs;
    } else {
      var n := |ys| - 1;
      assert (xs + ys)[..|xs + ys| - 1] == xs + ys[..n];
      FramesOfSplit(xs, ys[..n], mode);
      AppendAssociates(FramesOf(xs, mode), FramesOf(ys[..n], mode), FrameLines(BodyOf(ys[n], mode).lines));
    }
  }

  lemma {:induction false} NoFrames(mode: NativeReportingMode)
    ensures FramesOf([], mode) == [] && CLines([]) == []
  {
  }

  lemma {:induction false} OneThreadFrames(t: Thread, rest: seq<Thread>, mode: NativeReportingMode)
    ensures FramesOf([t] + rest, mode) == FrameLines(BodyOf(t, mode).lines) + FramesOf(rest, mode)
  {
    hide BodyOf, FrameLines;
    FramesOfSplit([t], rest, mode);
    assert [t][..0] == [];
  }

  lemma {:induction false} PythonBody(t: PyThreadData, version: Version, mode: NativeReportingMode)
    requires NoShims(Chain(t))
    ensures BodyOf(PythonThread(t, version), mode) == Body(t.natives, Some(version), Chain(t), mode)
    ensures !BodyOf(PythonThread(t, version), mode).failed
  {
    hide Body, NoShims, Chain;
    BodyShows(t, Some(version), mode);
  }

  lemma {:induction false} FramesOfPython(data: seq<PyThreadData>, version: Version, mode: NativeReportingMode)
    requires NoShimsIn(data)
    ensures NobodyFails(PythonThreads(data, version), mode)
    ensures FramesOf(PythonThreads(data, version), mode)
         == FrameLines(PrintedBodies(data, Some(version), mode).lines)
  {
    hide BodyOf, Body, PythonThread, PythonThreads, NobodyFails, FrameLines, NoShims, Chain, FramesOf, ClassifierFor;
    if data == [] {
      NothingPrinted();
      NoThreadsAtAll(version, mode);
    } else {
      var t, rest := data[0], data[1..];
      assert data == [t] + rest;
      PythonBody(t, version, mode);
      FramesOfPython(rest, version, mode);
      OneMorePython(t, rest, version, mode);
      OneThreadFrames(PythonThread(t, version), PythonThreads(rest, version), mode);
      FrameLinesSplit(Body(t.natives, Some(version), Chain(t), mode).lines,
                      PrintedBodies(rest, Some(version), mode).lines);
    }
  }

  lemma {:induction false} NoThreadsAtAll(version: Version, mode: NativeReportingMode)
    ensures PythonThreads([], version) == [] && NobodyFails([], mode) && FramesOf([], mode) == []
  {
  }

  lemma {:induction false} OneMorePython(t: PyThreadData, rest: seq<PyThreadData>, version: Version,
                                         mode: NativeReportingMode)
    ensures PythonThreads([t] + rest, version) == [PythonThread(t, version)] + PythonThreads(rest, version)
    ensures !BodyOf(PythonThread(t, version), mode).failed && NobodyFails(PythonThreads(rest, version), mode)
        ==> NobodyFails(PythonThreads([t] + rest, version), mode)
  {
    hide BodyOf, PythonThread;
    PythonThreadsSplit([t], rest, version);
    assert PythonThreads([t], version) == [PythonThread(t, version)];
  }

  /** A thread without a version has no evaluation frames; all it prints are the native frames to show. */
  lemma {:induction false} NativeBody(t: PyThreadData)
    ensures BodyOf(NativeThread(t), ALL) == Printed(ShownAll(CLines(Others(t.natives, ClassifierFor(None)))), false)
  {
    hide Body, Merged, Others, EvalCount, EntryCount, CLines, ShownAll, ClassifierFor;
    NoEvalsWithoutVersion(t.natives);
    MergedWithoutEvals(t.natives, ClassifierFor(None), []);
    MergeCompleteness(t.natives, ClassifierFor(None), [], false);
    BodyMerged(t.natives, None, [], ALL);
  }

  lemma {:induction false} NoEvalsWithoutVersion(natives: seq<NativeFrame>)
    ensures EvalCount(natives, ClassifierFor(None)) == EntryCount([]) == 0
  {
    hide EvalCount;
    NoEvals(natives, ClassifierFor(None));
  }

  lemma {:induction false} FramesOfNative(alone: seq<PyThreadData>)
    ensures NobodyFails(NativeThreads(alone), ALL)
    ensures FramesOf(NativeThreads(alone), ALL) == CLines(Others(NativesOf(alone), ClassifierFor(None)))
  {
    hide BodyOf, FrameLines, FramesOf, ClassifierFor, Others, CLines;
    var kind := ClassifierFor(None);
    if alone == [] {
      OthersStep([], kind);
      NoFrames(ALL);
    } else {
      var t, rest := alone[0], alone[1..];
      NativeBody(t);
      FramesOfNative(rest);
      FrameLinesOfShown(CLines(Others(t.natives, kind)));
      assert NativeThreads(alone) == [NativeThread(t)] + NativeThreads(rest);
      OneThreadFrames(NativeThread(t), NativeThreads(rest), ALL);
      OthersSplit(t.natives, NativesOf(rest), kind);
      CLinesSplit(Others(t.natives, kind), Others(NativesOf(rest), kind));
    }
  }

  lemma {:induction false} CLinesSplit(xs: seq<NativeFrame>, ys: seq<NativeFrame>)
    ensures CLines(xs + ys) == CLines(xs) + CLines(ys)
  {
  }

  lemma {:induction false} ProcessFrames(threads: seq<PyThreadData>, alone: seq<PyThreadData>, version: Version,
                                         mode: NativeReportingMode)
    requires NoShimsIn(threads) && (mode != ALL ==> alone == [])
    ensures var kind, all := ClassifierFor(Some(version)), ProcessThreads(threads, alone, version, mode);
      && NobodyFails(all, mode)
      && FramesOf(all, mode)
         == FrameLines(PrintedBodies(Normalized(threads, mode, kind), Some(version), mode).lines)
            + CLines(Others(NativesOf(alone), ClassifierFor(None)))
  {
    hide BodyOf, FrameLines, FramesOf, ClassifierFor, Others, CLines, NoShimsIn, Normalized, PrintedBodies;
    var kind := ClassifierFor(Some(version));
    var data := Normalized(threads, mode, kind);
    NormalizedKeepsChains(threads, mode, kind);
    FramesOfPython(data, version, mode);
    FramesOfSplit(PythonThreads(data, version), NativeThreads(alone), mode);
    if mode == ALL {
      FramesOfNative(alone);
    } else {
      OthersStep([], ClassifierFor(None));
      NoFrames(mode);
    }
  }

  lemma {:induction false} MembersOfGroups(groups: seq<seq<Thread>>, g: nat)
    requires g < |groups|
    ensures forall t :: t in groups[g] ==> t in Concat(groups)
  {
    if g > 0 {
      MembersOfGroups(groups[1..], g - 1);
    }
  }

  /** The report of any process: it never fails; it has one header for every OS thread, in order, except
      for those whose first thread has no frames while native frames are off and there is one interpreter;
      one blank line fewer than OS threads; a line about its interpreter for every thread exactly if there
      are several; a remark for each thread that is silent or refused a merge; and its frames are those of
      the normalised threads, followed by the native frames of the threads that run no Python. */
  lemma {:induction false} ReportShape(threads: seq<PyThreadData>, alone: seq<PyThreadData>, version: Version,
                                       mode: NativeReportingMode)
    requires NoShimsIn(threads) && Apart(threads, alone, mode)
    ensures var kind := ClassifierFor(Some(version));
      var all, groups := ProcessThreads(threads, alone, version, mode), ThreadGroups(threads, alone, version, mode);
      var several, r := |InterpreterIds(all)| > 1, WholeReport(all, mode);
      && !r.failed
      && Texts(r.lines, IsHeader) == HeadersOf(groups, mode, several)
      && (|Texts(r.lines, IsHeader)| == |FirstSeen(threads)| + |alone|
          <==> forall g :: 0 <= g < |groups| ==> !StartsSilent(groups[g], mode, several))
      && |Texts(r.lines, IsBlank)| == (if groups == [] then 0 else |groups| - 1)
      && Texts(r.lines, IsInterpreterLine) == InterpreterLines(all, several)
      && Texts(r.lines, IsEmptyStack) == EmptyStacks(all, mode, several)
      && |Texts(r.lines, IsRemark)| == RefusedCount(all, mode)
      && FrameLines(r.lines)
         == FrameLines(PrintedBodies(Normalized(threads, mode, kind), Some(version), mode).lines)
            + CLines(Others(NativesOf(alone), ClassifierFor(None)))
  {
    hide Texts, HeadersOf, StartsSilent, ProcessThreads, ThreadGroups, PrintedBodies, Others, NativesOf, Normalized,
         ClassifierFor, ReportOf, BodyOf, FrameLines, FramesOf, NoShimsIn, FirstSeen, Blocks, CLines, InterpreterIds,
         Concat, InterpreterLines, EmptyStacks, RefusedCount;
    var all, groups := ProcessThreads(threads, alone, version, mode), ThreadGroups(threads, alone, version, mode);
    var several := |InterpreterIds(all)| > 1;
    ProcessFrames(threads, alone, version, mode);
    ReportFrames(all, mode, several);
    OneBlockPerThread(threads, alone, version, mode);
    GroupsByThread(threads, alone, version, mode);
    GroupsJoinUp(threads, alone, version, mode);
    forall g | 0 <= g < |groups| ensures NobodyFails(groups[g], mode) {
      MembersOfGroups(groups, g);
    }
    BlocksTexts(groups, mode, several);
    AllHeaders(groups, mode, several);
    InterpreterTexts(all, mode, several);
    EmptyStackTexts(all, mode, several);
    RemarkTexts(all, mode, several);
  }

  /** The whole way from remote memory to the printed report, for threads read from ready chains of any
      version: nobody fails, and the frames printed are one stack for each OS thread and then the native
      frames of the threads without Python; with native frames every OS thread has its header. */
  lemma {:induction false} RemoteReport(threads: seq<PyThreadData>, alone: seq<PyThreadData>, v: Version,
                                        chains: seq<seq<RawFrame>>, mode: NativeReportingMode)
    requires (mode == PYTHON || mode == ALL) && Apart(threads, alone, mode)
    requires ReadFrom(threads, v, chains) && forall i :: 0 <= i < |chains| ==> ReadyChain(v, chains[i])
    requires forall tid :: tid in FirstSeen(threads) && |OfTid(threads, tid)| > 1 ==>
      var sorted := SortThreadsByStackAnchor(OfTid(threads, tid));
      && CountsMatch(sorted, ClassifierFor(Some(v)))
      && sorted[0].natives != [] && TotalEntries(sorted) > 0
    ensures var r := WholeReport(ProcessThreads(threads, alone, v, mode), mode);
      && !r.failed
      && |Texts(r.lines, IsHeader)| == |FirstSeen(threads)| + |alone|
      && FrameLines(r.lines) == FrameLines(OneStackEach(FirstSeen(threads), threads, v, mode).lines)
                                + CLines(Others(NativesOf(alone), ClassifierFor(None)))
  {
    hide PrintedBodies, Normalized, OneStackEach, OfTid, FirstSeen, ClassifierFor, CountsMatch, TotalEntries,
         SortThreadsByStackAnchor, ReadFrom, ReadyChain, NoShimsIn, Texts, HeadersOf, WholeReport, ProcessThreads,
         ThreadGroups, FrameLines, Others, CLines, NativesOf, InterpreterIds, Apart;
    RemoteGroups(threads, v, chains);
    RemoteThreadsPrintOneStackEach(threads, v, chains, mode);
    ReportShape(threads, alone, v, mode);
    var groups := ThreadGroups(threads, alone, v, mode);
    GroupsByThread(threads, alone, v, mode);
  }

  // ----- A stack without a header

  lemma {:induction false} BadChainKept(v: Version, bad: CodeData)
    requires v.AtLeast(Version(3, 12)) && bad.filename == UNREADABLE
    ensures Kept(RemoteWalk(v, PlainChain(bad))) == []
  {
    var chain := PlainChain(bad);
    var shim := NewFrameObject(v, chain[1..], 1);
    var top := NewFrameObject(v, chain, 0);
    assert top.value.prev == shim && shim.value.prev == None;
    assert Walk(top) == [top.value] + Walk(shim);
    assert Walk(shim) == [shim.value];
    assert Kept([shim.value]) == [];
  }

  lemma {:induction false} TwoSeen(first: PyThreadData, second: PyThreadData)
    requires first.tid == second.tid
    ensures FirstSeen([first, second]) == [first.tid] && OfTid([first, second], first.tid) == [first, second]
  {
    var threads := [first, second];
    assert threads[..1] == [first] && [first][..0] == [];
    assert FirstSeen([first]) == [first.tid] && OfTid([first], first.tid) == [first];
  }

  lemma {:induction false} TwoSorted(first: PyThreadData, second: PyThreadData)
    requires first.stackAnchor >= second.stackAnchor
    ensures SortThreadsByStackAnchor([first, second]) == [first, second]
  {
    hide AnchorLess;
    AnchorLessIsDescending(second, first);
    assert [first, second][1..] == [second] && [second][1..] == [];
    assert SortThreadsByStackAnchor([second]) == [second];
  }

  lemma {:induction false} TwoNormalized(first: PyThreadData, second: PyThreadData, version: Version)
    requires first.tid == second.tid && first.stackAnchor >= second.stackAnchor
    ensures ProcessThreads([first, second], [], version, OFF)
         == [PythonThread(first, version), PythonThread(second, version)]
  {
    hide PythonThread, FirstSeen, OfTid, SortThreadsByStackAnchor, ClassifierFor;
    var threads, kind := [first, second], ClassifierFor(Some(version));
    TwoSeen(first, second);
    TwoSorted(first, second);
    assert [first.tid][..0] == [];
    assert NormalizedGroups([first.tid], threads, OFF, kind) == [] + threads;
  }

  lemma {:induction false} TwoMembers(a: Thread, b: Thread, mode: NativeReportingMode)
    requires a.info.tid == b.info.tid && a.info.interpreterId == b.info.interpreterId
    requires !Member(a, true, mode, false).failed
    ensures WholeReport([a, b], mode) == Joined(Member(a, true, mode, false), Member(b, false, mode, false))
  {
    hide Member;
    assert InterpreterIds([a, b]) <= match a.info.interpreterId case None => {} case Some(id) => {id};
    SmallSet(InterpreterIds([a, b]), if a.info.interpreterId.Some? then a.info.interpreterId.value else 0);
    assert [a, b][..1] == [a] && [a][..0] == [];
    assert ReportOf([a], mode, false).lines == Member(a, true, mode, false).lines;
  }

  lemma {:induction false} SmallSet(s: set<int>, x: int)
    requires s <= {x}
    ensures |s| <= 1
  {
    if s != {} {
      assert s == {x};
    }
  }

  /** Two terminated threads, both with id 0, of which the first has only frames that cannot be read, in a
      process with one interpreter and native frames off: the second thread's frames have no header. */
  lemma {:induction false} FramesWithoutHeader(v: Version, c: CodeData, bad: CodeData, first: PyThreadData,
                                               second: PyThreadData)
    requires v.AtLeast(Version(3, 12)) && c.filename != UNREADABLE && bad.filename == UNREADABLE
    requires first.frames == Kept(RemoteWalk(v, PlainChain(bad)))
    requires second.frames == Kept(RemoteWalk(v, PlainChain(c)))
    requires first.tid == second.tid == 0 && first.interpreterId == second.interpreterId
    requires first.stackAnchor >= second.stackAnchor
    ensures var r := WholeReport(ProcessThreads([first, second], [], v, OFF), OFF);
      r.lines == [Text(EmptyStack(PythonThread(first, v).info)), Shown(Py(PyFrameData(c, true, false)))]
  {
    hide Kept, RemoteWalk, WholeReport, ProcessThreads, Member;
    var a, b, f := PythonThread(first, v), PythonThread(second, v), PyFrameData(c, true, false);
    BadChainKept(v, bad);
    PlainChainKept(v, c);
    TwoNormalized(first, second, v);
    assert a.frames == [] && b.frames == [f];
    SilentMember(a);
    OneFrameMember(b, f);
    TwoMembers(a, b, OFF);
  }

  lemma {:induction false} SilentMember(t: Thread)
    requires t.frames == []
    ensures Member(t, true, OFF, false) == Printed([Text(EmptyStack(t.info))], false)
  {
  }

  lemma {:induction false} OneFrameMember(t: Thread, f: PyFrameData)
    requires t.frames == [f] && !f.isShim
    ensures Member(t, false, OFF, false) == Printed([Shown(Py(f))], false)
  {
    hide ClassifierFor, Merged, EvalCount, EntryCount, Body, ThreadLine, InterpreterLine, EmptyStack;
    assert [f][1..] == [];
    assert ShownFrames([f]) == [Shown(Py(f))];
    assert FromFirst([f]) == [f];
    BodyUnmerged(t.natives, t.version, [f], OFF);
    assert Header(t.info, t.natives, false, false) == [];
  }
}
