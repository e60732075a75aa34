/** Native frames, interpreter versions and the classification of a native symbol
    (native_frame.cpp and the head of types.py). */
module NativeFrames {
  import opened Basics

  datatype Version = Version(major: nat, minor: nat) {
    predicate AtLeast(o: Version) {
      major > o.major || (major == o.major && minor >= o.minor)
    }
  }

  datatype NativeFrame = NativeFrame(
    address: word64,
    symbol: string,
    path: string,
    linenumber: int,
    colnumber: int,
    library: string)

  datatype FrameKind = Ignore | Eval | Other

  predicate StartsWith(s: string, prefix: string) {
    prefix <= s
  }

  predicate Contains(s: string, part: string) {
    exists i | 0 <= i <= |s| :: part <= s[i..]
  }

  function Lower(s: string): string {
    seq(|s|, i requires 0 <= i < |s| => if 'A' <= s[i] <= 'Z' then s[i] - 'A' + 'a' else s[i])
  }

  /** The symbol test of the C++ side, which Python calls too. */
  predicate IsEvalSymbol(symbol: string, v: Version) {
    if !v.AtLeast(Version(3, 6)) then
      Contains(symbol, "PyEval_EvalFrameEx")
    else
      || Contains(symbol, "_PyEval_EvalFrameDefault")
      || (StartsWith(symbol, "_TAIL_CALL_") && Contains(symbol, ".llvm."))
      || (v.AtLeast(Version(3, 15)) && StartsWith(symbol, "_TAIL_CALL_"))
  }

  const SYMBOL_IGNORELIST: seq<string> := [
    "PyObject_Call", "call_function", "classmethoddescr_call", "cmpwrapper_call", "fast_function",
    "function_call", "instance_call", "instancemethod_call", "methoddescr_call", "proxy_call",
    "slot_tp_call", "type_call", "weakref_call", "wrap_call", "wrapper_call", "wrapperdescr_call",
    "do_call_core"]

  /** A thread that runs no Python carries no version. */
  function KindOf(frame: NativeFrame, version: Option<Version>): FrameKind {
    var symbol := frame.symbol;
    if version.Some? && IsEvalSymbol(symbol, version.value) then Eval
    else if StartsWith(symbol, "PyEval") || StartsWith(symbol, "_PyEval") then Ignore
    else if StartsWith(symbol, "_Py") then Ignore
    else if StartsWith(symbol, "_TAIL_CALL_") then Ignore
    else if version.Some? && version.value.AtLeast(Version(3, 8)) && Contains(Lower(symbol), "vectorcall") then Ignore
    else if exists p | p in SYMBOL_IGNORELIST :: StartsWith(symbol, p) then Ignore
    else Other
  }

  /** How a native stack is read; everything about stacks below holds for any such reading. */
  type Classifier = NativeFrame -> FrameKind

  function ClassifierFor(version: Option<Version>): Classifier {
    (frame: NativeFrame) => KindOf(frame, version)
  }

  /** How many native frames of a stack are runs of the interpreter's evaluation loop. */
  function EvalCount(natives: seq<NativeFrame>, kind: Classifier): (n: nat)
    ensures n <= |natives|
  {
    if natives == [] then 0
    else (if kind(natives[0]) == Eval then 1 else 0) + EvalCount(natives[1..], kind)
  }

  lemma {:induction false} EvalCountSplit(xs: seq<NativeFrame>, ys: seq<NativeFrame>, kind: Classifier)
    ensures EvalCount(xs + ys, kind) == EvalCount(xs, kind) + EvalCount(ys, kind)
  {
    if xs == [] {
      assert xs + ys == ys;
    } else {
      assert (xs + ys)[1..] == xs[1..] + ys;
      EvalCountSplit(xs[1..], ys, kind);
    }
  }

  /** The C++ slicer and the Python formatter agree on which frames are evaluation frames. */
  lemma {:induction false} EvalKindIsEvalSymbol(frame: NativeFrame, version: Version)
    ensures ClassifierFor(Some(version))(frame) == Eval <==> IsEvalSymbol(frame.symbol, version)
  {
  }
}
