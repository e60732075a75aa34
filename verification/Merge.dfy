/** What interleaving a native stack with a Python stack means (traceback_formatter.py). */
module Merge {
  import opened Basics
  import opened NativeFrames
  import opened Frames

  /** One formatted frame; a formatted Python frame is kept as the frame it came from. */
  datatype Line = Py(frame: PyFrameData) | C(native: NativeFrame)

  /** What a generator yielded, and whether it then died on its assertion. */
  datatype Emitted = Emitted(lines: seq<Line>, failed: bool)

  function Prepend(lines: seq<Line>, e: Emitted): Emitted {
    Emitted(lines + e.lines, e.failed)
  }

  function PyLines(frames: seq<PyFrameData>): (r: seq<Line>)
    ensures |r| == |frames| && forall i :: 0 <= i < |r| ==> r[i] == Py(frames[i])
  {
    seq(|frames|, i requires 0 <= i < |frames| => Py(frames[i]))
  }

  function CLines(natives: seq<NativeFrame>): (r: seq<Line>)
    ensures |r| == |natives| && forall i :: 0 <= i < |r| ==> r[i] == C(natives[i])
  {
    seq(|natives|, i requires 0 <= i < |natives| => C(natives[i]))
  }

  function PyPart(lines: seq<Line>): seq<PyFrameData> {
    if lines == [] then [] else (if lines[0].Py? then [lines[0].frame] else []) + PyPart(lines[1..])
  }

  function CPart(lines: seq<Line>): seq<NativeFrame> {
    if lines == [] then [] else (if lines[0].C? then [lines[0].native] else []) + CPart(lines[1..])
  }

  /** The leading run of frames that one run of the evaluation loop accounts for: the first frame
      and the frames after it up to the next entry frame. */
  function RunLength(frames: seq<PyFrameData>): (k: nat)
    requires frames != []
    ensures 1 <= k <= |frames|
    ensures forall i :: 1 <= i < k ==> !frames[i].isEntry
    ensures k < |frames| ==> frames[k].isEntry
  {
    if |frames| == 1 || frames[1].isEntry then 1 else RunLength(frames[1..]) + 1
  }

  /** The whole chain cut into such runs. */
  function Runs(frames: seq<PyFrameData>): seq<seq<PyFrameData>>
    decreases |frames|
  {
    if frames == [] then [] else [frames[..RunLength(frames)]] + Runs(frames[RunLength(frames)..])
  }

  /** The generator, step by step: `pending` is its buffer of C lines, used in LAST mode only. */
  function Merged(natives: seq<NativeFrame>, kind: Classifier, frames: seq<PyFrameData>,
                  last: bool, pending: seq<Line>): Emitted
  {
    if natives == [] then Emitted(pending, false)
    else
      match kind(natives[0])
      case Eval =>
        if frames == [] then Emitted([], true)
        else
          var k := RunLength(frames);
          Prepend(PyLines(frames[..k]), Merged(natives[1..], kind, frames[k..], last, []))
      case Ignore => Merged(natives[1..], kind, frames, last, pending)
      case Other =>
        if last then Merged(natives[1..], kind, frames, last, pending + [C(natives[0])])
        else Prepend([C(natives[0])], Merged(natives[1..], kind, frames, last, pending))
  }

  function MergedWhole(natives: seq<NativeFrame>, kind: Classifier, frames: seq<PyFrameData>): seq<Line> {
    Merged(natives, kind, frames, false, []).lines
  }

  // ----- Splitting lines and runs

  lemma {:induction false} PyPartSplit(xs: seq<Line>, ys: seq<Line>)
    ensures PyPart(xs + ys) == PyPart(xs) + PyPart(ys)
  {
    if xs == [] {
      assert xs + ys == ys;
    } else {
      var head := if xs[0].Py? then [xs[0].frame] else [];
      assert (xs + ys)[1..] == xs[1..] + ys;
      PyPartSplit(xs[1..], ys);
      assert head + (PyPart(xs[1..]) + PyPart(ys)) == (head + PyPart(xs[1..])) + PyPart(ys);
    }
  }

  lemma {:induction false} CPartSplit(xs: seq<Line>, ys: seq<Line>)
    ensures CPart(xs + ys) == CPart(xs) + CPart(ys)
  {
    if xs == [] {
      assert xs + ys == ys;
    } else {
      var head := if xs[0].C? then [xs[0].native] else [];
      assert (xs + ys)[1..] == xs[1..] + ys;
      CPartSplit(xs[1..], ys);
      assert head + (CPart(xs[1..]) + CPart(ys)) == (head + CPart(xs[1..])) + CPart(ys);
    }
  }

  lemma {:induction false} PartsOfPyLines(frames: seq<PyFrameData>)
    ensures PyPart(PyLines(frames)) == frames
    ensures CPart(PyLines(frames)) == []
  {
    if frames != [] {
      assert PyLines(frames)[1..] == PyLines(frames[1..]);
      PartsOfPyLines(frames[1..]);
    }
  }

  lemma {:induction false} RunLengthPrefix(xs: seq<PyFrameData>, ys: seq<PyFrameData>)
    requires xs != [] && OutermostIsEntry(ys)
    ensures RunLength(xs + ys) == RunLength(xs)
  {
    assert (xs + ys)[1..] == xs[1..] + ys;
    if |xs| > 1 {
      RunLengthPrefix(xs[1..], ys);
    }
  }

  lemma {:induction false} EntriesOfRun(frames: seq<PyFrameData>)
    requires frames != []
    ensures EntryCount(frames[..RunLength(frames)]) == if frames[0].isEntry then 1 else 0
    ensures EntryCount(frames[RunLength(frames)..]) == EntryCount(frames) - if frames[0].isEntry then 1 else 0
  {
    var k := RunLength(frames);
    assert frames == frames[..k] + frames[k..];
    EntryCountSplit(frames[..k], frames[k..]);
    NoEntries(frames[..k][1..]);
  }

  lemma {:induction false} NoEntries(frames: seq<PyFrameData>)
    requires forall f | f in frames :: !f.isEntry
    ensures EntryCount(frames) == 0
  {
    if frames != [] {
      NoEntries(frames[1..]);
    }
  }

  lemma {:induction false} RunsCoverTheChain(frames: seq<PyFrameData>)
    ensures Concat(Runs(frames)) == frames
    ensures |Runs(frames)| == EntryCount(frames) + if OutermostIsEntry(frames) then 0 else 1
    ensures forall i :: 0 <= i < |Runs(frames)| ==> Runs(frames)[i] != []
    decreases |frames|
  {
    if frames != [] {
      var k := RunLength(frames);
      assert frames == frames[..k] + frames[k..];
      RunsCoverTheChain(frames[k..]);
      EntriesOfRun(frames);
      assert Runs(frames)[1..] == Runs(frames[k..]);
    }
  }

  // ----- When the assertion fails, and what is emitted otherwise

  /** In either mode the assertion fails exactly when there are more evaluation frames than runs. */
  lemma {:induction false} FailsIffTooFewRuns(natives: seq<NativeFrame>, kind: Classifier,
                                              frames: seq<PyFrameData>, last: bool, pending: seq<Line>)
    ensures Merged(natives, kind, frames, last, pending).failed <==> EvalCount(natives, kind) > |Runs(frames)|
  {
    if natives != [] {
      match kind(natives[0])
      case Eval =>
        if frames != [] {
          FailsIffTooFewRuns(natives[1..], kind, frames[RunLength(frames)..], last, []);
        }
      case Ignore => FailsIffTooFewRuns(natives[1..], kind, frames, last, pending);
      case Other =>
        FailsIffTooFewRuns(natives[1..], kind, frames, last, if last then pending + [C(natives[0])] else pending);
    }
  }

  /** The line or lines that stand where native frame `i` stood. */
  function Piece(natives: seq<NativeFrame>, kind: Classifier, runs: seq<seq<PyFrameData>>, i: nat): seq<Line>
    requires i < |natives| && EvalCount(natives, kind) <= |runs|
  {
    match kind(natives[i])
    case Ignore => []
    case Other => [C(natives[i])]
    case Eval =>
      EvalCountSplit(natives[..i], natives[i..], kind);
      assert natives == natives[..i] + natives[i..];
      PyLines(runs[EvalCount(natives[..i], kind)])
  }

  /** The merged output described by position, without a walk: every evaluation frame is replaced
      by the run with the same ordinal, and every other kept frame by itself. */
  function Interleaving(natives: seq<NativeFrame>, kind: Classifier, runs: seq<seq<PyFrameData>>): seq<Line>
    requires EvalCount(natives, kind) <= |runs|
  {
    Concat(Pieces(natives, kind, runs))
  }

  function Pieces(natives: seq<NativeFrame>, kind: Classifier, runs: seq<seq<PyFrameData>>): (r: seq<seq<Line>>)
    requires EvalCount(natives, kind) <= |runs|
    ensures |r| == |natives|
    ensures forall i :: 0 <= i < |r| ==> r[i] == Piece(natives, kind, runs, i)
  {
    seq(|natives|, i requires 0 <= i < |natives| => Piece(natives, kind, runs, i))
  }

  lemma {:induction false} OrdinalShift(natives: seq<NativeFrame>, kind: Classifier, i: nat)
    requires i < |natives| - 1
    ensures EvalCount(natives[..i + 1], kind)
         == EvalCount(natives[1..][..i], kind) + if kind(natives[0]) == Eval then 1 else 0
    ensures kind(natives[1..][i]) == Eval ==> EvalCount(natives[1..][..i], kind) < EvalCount(natives[1..], kind)
  {
    var rest := natives[1..];
    assert natives[..i + 1][1..] == rest[..i];
    EvalCountSplit(rest[..i], rest[i..], kind);
    assert rest == rest[..i] + rest[i..];
  }

  lemma {:induction false} EvalCountStep(natives: seq<NativeFrame>, kind: Classifier)
    requires natives != []
    ensures EvalCount(natives, kind) == EvalCount(natives[1..], kind) + if kind(natives[0]) == Eval then 1 else 0
  {
  }

  lemma {:induction false} PiecesShift(natives: seq<NativeFrame>, kind: Classifier, runs: seq<seq<PyFrameData>>)
    requires natives != [] && EvalCount(natives, kind) <= |runs|
    ensures Pieces(natives, kind, runs)[1..]
         == Pieces(natives[1..], kind, if kind(natives[0]) == Eval then runs[1..] else runs)
  {
    hide EvalCount, PyLines;
    EvalCountStep(natives, kind);
    var runs' := if kind(natives[0]) == Eval then runs[1..] else runs;
    forall i | 0 <= i < |natives| - 1
      ensures Piece(natives, kind, runs, i + 1) == Piece(natives[1..], kind, runs', i)
    {
      OrdinalShift(natives, kind, i);
    }
  }

  lemma {:induction false} MergedIsInterleaving(natives: seq<NativeFrame>, kind: Classifier, frames: seq<PyFrameData>)
    requires EvalCount(natives, kind) <= |Runs(frames)|
    ensures MergedWhole(natives, kind, frames) == Interleaving(natives, kind, Runs(frames))
  {
    var runs := Runs(frames);
    if natives != [] {
      PiecesShift(natives, kind, runs);
      assert natives[..0] == [];
      if kind(natives[0]) == Eval {
        var k := RunLength(frames);
        assert runs[1..] == Runs(frames[k..]);
        MergedIsInterleaving(natives[1..], kind, frames[k..]);
      } else {
        MergedIsInterleaving(natives[1..], kind, frames);
      }
    }
  }

  // ----- Completeness

  /** The native frames that the formatter shows when it shows them all. */
  function Others(natives: seq<NativeFrame>, kind: Classifier): seq<NativeFrame> {
    if natives == [] then []
    else (if kind(natives[0]) == Other then [natives[0]] else []) + Others(natives[1..], kind)
  }

  /** The number of native frames up to and including the innermost evaluation frame. */
  function LastEvalEnd(natives: seq<NativeFrame>, kind: Classifier): (k: nat)
    ensures k <= |natives| && (k > 0 ==> kind(natives[k - 1]) == Eval)
    ensures forall i :: k <= i < |natives| ==> kind(natives[i]) != Eval
  {
    if natives == [] then 0
    else
      var n := |natives| - 1;
      if kind(natives[n]) == Eval then n + 1 else LastEvalEnd(natives[..n], kind)
  }

  /** The part of a native stack after its innermost evaluation frame. */
  function AfterLastEval(natives: seq<NativeFrame>, kind: Classifier): seq<NativeFrame> {
    natives[LastEvalEnd(natives, kind)..]
  }

  lemma {:induction false} NoEvals(natives: seq<NativeFrame>, kind: Classifier)
    ensures EvalCount(natives, kind) == 0 <==> forall i :: 0 <= i < |natives| ==> kind(natives[i]) != Eval
  {
    if natives != [] {
      NoEvals(natives[1..], kind);
      assert forall i :: 0 <= i < |natives| - 1 ==> natives[1..][i] == natives[i + 1];
    }
  }

  lemma {:induction false} AfterLastEvalTail(natives: seq<NativeFrame>, kind: Classifier)
    requires natives != []
    ensures AfterLastEval(natives, kind)
         == if EvalCount(natives, kind) == 0 then natives else AfterLastEval(natives[1..], kind)
  {
    hide EvalCount, LastEvalEnd;
    var tail, k, t := natives[1..], LastEvalEnd(natives, kind), LastEvalEnd(natives[1..], kind);
    assert forall i :: 0 <= i < |tail| ==> tail[i] == natives[i + 1];
    NoEvals(natives, kind);
    if EvalCount(natives, kind) == 0 {
      assert k == 0;
    } else {
      assert k == t + 1 by {
        if t > 0 { assert kind(natives[t]) == Eval; }
      }
    }
  }

  lemma {:induction false} MergedPython(natives: seq<NativeFrame>, kind: Classifier, frames: seq<PyFrameData>,
                                        last: bool, pending: seq<Line>)
    requires EvalCount(natives, kind) <= |Runs(frames)|
    requires PyPart(pending) == []
    ensures PyPart(Merged(natives, kind, frames, last, pending).lines)
         == Concat(Runs(frames)[..EvalCount(natives, kind)])
  {
    hide RunLength, PyLines;
    if natives == [] {
      assert Runs(frames)[..0] == [];
    } else {
      var n := natives[0];
      match kind(n)
      case Eval =>
        var k := RunLength(frames);
        var m := EvalCount(natives, kind);
        MergedPython(natives[1..], kind, frames[k..], last, []);
        PyPartSplit(PyLines(frames[..k]), Merged(natives[1..], kind, frames[k..], last, []).lines);
        PartsOfPyLines(frames[..k]);
        FirstRun(frames, m);
      case Ignore =>
        MergedPython(natives[1..], kind, frames, last, pending);
      case Other =>
        PyPartSplit(pending, [C(n)]);
        MergedPython(natives[1..], kind, frames, last, if last then pending + [C(n)] else pending);
        PyPartSplit([C(n)], Merged(natives[1..], kind, frames, last, pending).lines);
    }
  }

  lemma {:induction false} MergedNative(natives: seq<NativeFrame>, kind: Classifier, frames: seq<PyFrameData>)
    requires EvalCount(natives, kind) <= |Runs(frames)|
    ensures CPart(Merged(natives, kind, frames, false, []).lines) == Others(natives, kind)
  {
    if natives != [] {
      var n := natives[0];
      if kind(n) == Eval {
        var k := RunLength(frames);
        MergedNative(natives[1..], kind, frames[k..]);
        CPartSplit(PyLines(frames[..k]), Merged(natives[1..], kind, frames[k..], false, []).lines);
        PartsOfPyLines(frames[..k]);
      } else {
        MergedNative(natives[1..], kind, frames);
        CPartSplit([C(n)], Merged(natives[1..], kind, frames, false, []).lines);
      }
    }
  }

  lemma {:induction false} MergedTail(natives: seq<NativeFrame>, kind: Classifier, frames: seq<PyFrameData>,
                                      pending: seq<Line>)
    requires EvalCount(natives, kind) == 0
    ensures Merged(natives, kind, frames, true, pending).lines == pending + CLines(Others(natives, kind))
  {
    hide Merged, CLines, Others;
    MergedSkip(natives, kind, frames, true, pending);
    OthersStep(natives, kind);
    if natives == [] {
      assert pending + CLines([]) == pending;
    } else if kind(natives[0]) == Other {
      var line, others := C(natives[0]), Others(natives[1..], kind);
      MergedTail(natives[1..], kind, frames, pending + [line]);
      CLinesCons(natives[0], others);
      AppendAssociates(pending, [line], CLines(others));
    } else {
      MergedTail(natives[1..], kind, frames, pending);
    }
  }

  /** One turn of the walk without an evaluation frame. */
  lemma {:induction false} MergedSkip(natives: seq<NativeFrame>, kind: Classifier, frames: seq<PyFrameData>, last: bool,
                                      pending: seq<Line>)
    requires natives == [] || kind(natives[0]) != Eval
    ensures Merged(natives, kind, frames, last, pending) ==
      if natives == [] then Emitted(pending, false)
      else if kind(natives[0]) == Ignore then Merged(natives[1..], kind, frames, last, pending)
      else if last then Merged(natives[1..], kind, frames, last, pending + [C(natives[0])])
      else Prepend([C(natives[0])], Merged(natives[1..], kind, frames, last, pending))
  {
  }

  lemma {:induction false} OthersStep(natives: seq<NativeFrame>, kind: Classifier)
    ensures Others(natives, kind) ==
      if natives == [] then []
      else if kind(natives[0]) == Other then [natives[0]] + Others(natives[1..], kind)
      else Others(natives[1..], kind)
  {
  }

  lemma {:induction false} CLinesCons(n: NativeFrame, rest: seq<NativeFrame>)
    ensures CLines([n] + rest) == [C(n)] + CLines(rest)
  {
  }

  function LastLines(natives: seq<NativeFrame>, kind: Classifier, frames: seq<PyFrameData>,
                     pending: seq<Line>): seq<Line>
    requires EvalCount(natives, kind) <= |Runs(frames)|
  {
    var m := EvalCount(natives, kind);
    (if m == 0 then pending else PyLines(Concat(Runs(frames)[..m])))
    + CLines(Others(AfterLastEval(natives, kind), kind))
  }

  lemma {:induction false} MergedLastEval(natives: seq<NativeFrame>, kind: Classifier, frames: seq<PyFrameData>,
                                          pending: seq<Line>)
    requires natives != [] && kind(natives[0]) == Eval
    requires EvalCount(natives, kind) <= |Runs(frames)|
    ensures var k := RunLength(frames);
      LastLines(natives, kind, frames, pending) == PyLines(frames[..k]) + LastLines(natives[1..], kind, frames[k..], [])
  {
    hide AfterLastEval, RunLength, PyLines, CLines, Runs, Concat, Others;
    RunsTail(frames);
    var k, m, tail := RunLength(frames), EvalCount(natives, kind), natives[1..];
    AfterLastEvalTail(natives, kind);
    FirstRun(frames, m);
    var shown := CLines(Others(AfterLastEval(tail, kind), kind));
    if m == 1 {
      NoRuns(Runs(frames[k..]));
      assert [] + shown == shown;
    }
    AppendAssociates(PyLines(frames[..k]), PyLines(Concat(Runs(frames[k..])[..m - 1])), shown);
  }

  lemma {:induction false} RunsTail(frames: seq<PyFrameData>)
    requires Runs(frames) != []
    ensures frames != [] && |Runs(frames[RunLength(frames)..])| == |Runs(frames)| - 1
  {
    hide RunLength;
  }

  lemma {:induction false} NoRuns(runs: seq<seq<PyFrameData>>)
    ensures PyLines(Concat(runs[..0])) == []
  {
    assert runs[..0] == [];
  }

  lemma {:induction false} FirstRun(frames: seq<PyFrameData>, m: nat)
    requires frames != [] && 1 <= m <= |Runs(frames)|
    ensures var k := RunLength(frames);
      Concat(Runs(frames)[..m]) == frames[..k] + Concat(Runs(frames[k..])[..m - 1])
    ensures var k := RunLength(frames);
      PyLines(Concat(Runs(frames)[..m])) == PyLines(frames[..k]) + PyLines(Concat(Runs(frames[k..])[..m - 1]))
  {
    var k := RunLength(frames);
    var run, tail := frames[..k], Runs(frames[k..])[..m - 1];
    assert Runs(frames)[..m] == [run] + tail;
    assert ([run] + tail)[1..] == tail;
    PyLinesSplit(run, Concat(tail));
  }

  /** LAST mode: the Python lines of all the runs reached, then the shown native frames after the
      innermost evaluation frame, and nothing else. */
  lemma {:induction false} MergedLast(natives: seq<NativeFrame>, kind: Classifier, frames: seq<PyFrameData>,
                                      pending: seq<Line>)
    requires EvalCount(natives, kind) <= |Runs(frames)|
    ensures Merged(natives, kind, frames, true, pending).lines == LastLines(natives, kind, frames, pending)
  {
    hide LastLines, RunLength, PyLines;
    if EvalCount(natives, kind) == 0 {
      MergedTail(natives, kind, frames, pending);
      LastLinesTail(natives, kind, frames, pending);
    } else if kind(natives[0]) == Eval {
      MergedLastEval(natives, kind, frames, pending);
      MergedLast(natives[1..], kind, frames[RunLength(frames)..], []);
    } else {
      var pending' := if kind(natives[0]) == Other then pending + [C(natives[0])] else pending;
      MergedLastOther(natives, kind, frames, pending, pending');
      MergedLast(natives[1..], kind, frames, pending');
    }
  }

  lemma {:induction false} LastLinesTail(natives: seq<NativeFrame>, kind: Classifier, frames: seq<PyFrameData>,
                                         pending: seq<Line>)
    requires EvalCount(natives, kind) == 0
    ensures LastLines(natives, kind, frames, pending) == pending + CLines(Others(natives, kind))
  {
    hide EvalCount, Others;
    AfterLastEvalWhole(natives, kind);
  }

  lemma {:induction false} MergedLastOther(natives: seq<NativeFrame>, kind: Classifier, frames: seq<PyFrameData>,
                                           pending: seq<Line>, pending': seq<Line>)
    requires natives != [] && kind(natives[0]) != Eval
    requires 0 < EvalCount(natives, kind) <= |Runs(frames)|
    ensures LastLines(natives, kind, frames, pending) == LastLines(natives[1..], kind, frames, pending')
  {
    hide AfterLastEval;
    AfterLastEvalTail(natives, kind);
  }

  lemma {:induction false} PyLinesSplit(xs: seq<PyFrameData>, ys: seq<PyFrameData>)
    ensures PyLines(xs + ys) == PyLines(xs) + PyLines(ys)
  {
  }

  lemma {:induction false} PartsOfCLines(natives: seq<NativeFrame>)
    ensures CPart(CLines(natives)) == natives
    ensures PyPart(CLines(natives)) == []
  {
    if natives != [] {
      assert CLines(natives)[1..] == CLines(natives[1..]);
      PartsOfCLines(natives[1..]);
    }
  }

  lemma {:induction false} AfterLastEvalWhole(natives: seq<NativeFrame>, kind: Classifier)
    requires EvalCount(natives, kind) == 0
    ensures AfterLastEval(natives, kind) == natives
  {
    if natives == [] {
    } else {
      AfterLastEvalTail(natives, kind);
    }
  }

  lemma {:induction false} NoPyPart()
    ensures PyPart([]) == []
  {
  }

  /** Merge completeness. When the counts agree the assertion cannot fail and the C lines are exactly
      the shown native frames; the Python lines are exactly the chain if and only if the chain's
      outermost frame is an entry. */
  lemma {:induction false} MergeCompleteness(natives: seq<NativeFrame>, kind: Classifier, frames: seq<PyFrameData>,
                                             last: bool)
    requires EvalCount(natives, kind) == EntryCount(frames)
    ensures var out := Merged(natives, kind, frames, last, []);
      && !out.failed
      && (PyPart(out.lines) == frames <==> OutermostIsEntry(frames))
      && PyPart(out.lines) <= frames
      && CPart(out.lines) == Others(if last then AfterLastEval(natives, kind) else natives, kind)
  {
    hide Merged, Runs, EvalCount, EntryCount, Others, AfterLastEval, PyPart, CPart, PyLines, CLines, OutermostIsEntry;
    var m := EvalCount(natives, kind);
    var runs := Runs(frames);
    RunsCoverTheChain(frames);
    NoPyPart();
    FailsIffTooFewRuns(natives, kind, frames, last, []);
    MergedPython(natives, kind, frames, last, []);
    if last {
      MergedLast(natives, kind, frames, []);
      var py, c := Concat(runs[..m]), Others(AfterLastEval(natives, kind), kind);
      PartsOfPyLines(py);
      PartsOfCLines(c);
      CPartSplit(PyLines(py), CLines(c));
    } else {
      MergedNative(natives, kind, frames);
    }
    assert runs == runs[..m] + runs[m..];
    ConcatSplit(runs[..m], runs[m..]);
    if OutermostIsEntry(frames) {
      assert runs[..m] == runs;
    } else {
      assert runs[m..] == [runs[m]];
      assert Concat(runs[m..]) == runs[m] + [];
    }
  }

  // ----- Splitting a merge

  /** Two stacks merged side by side are the merge of the joined stacks, provided the first native
      part accounts for exactly the first chain. */
  lemma {:induction false} MergeSplit(n1: seq<NativeFrame>, n2: seq<NativeFrame>, kind: Classifier,
                                      f1: seq<PyFrameData>, f2: seq<PyFrameData>)
    requires EvalCount(n1, kind) == EntryCount(f1)
    requires OutermostIsEntry(f1) && OutermostIsEntry(f2)
    ensures MergedWhole(n1 + n2, kind, f1 + f2) == MergedWhole(n1, kind, f1) + MergedWhole(n2, kind, f2)
  {
    hide RunLength, PyLines;
    if n1 == [] {
      assert f1 == [];
      assert n1 + n2 == n2 && f1 + f2 == f2;
    } else {
      assert (n1 + n2)[1..] == n1[1..] + n2;
      if kind(n1[0]) == Eval {
        var k := RunLength(f1);
        RunLengthPrefix(f1, f2);
        EntriesOfRun(f1);
        assert (f1 + f2)[..k] == f1[..k] && (f1 + f2)[k..] == f1[k..] + f2;
        MergeSplit(n1[1..], n2, kind, f1[k..], f2);
        AppendAssociates(PyLines(f1[..k]), MergedWhole(n1[1..], kind, f1[k..]), MergedWhole(n2, kind, f2));
      } else {
        MergeSplit(n1[1..], n2, kind, f1, f2);
        AppendAssociates([C(n1[0])], MergedWhole(n1[1..], kind, f1), MergedWhole(n2, kind, f2));
      }
    }
  }
}
