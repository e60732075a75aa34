/** The data handed from the C++ side to the formatter: Python frames and threads
    (thread_builder.h, pycode.h). */
module Frames {
  import opened Basics
  import opened NativeFrames

  datatype LocationInfo = LocationInfo(lineno: int, endLineno: int, column: int, endColumn: int)

  datatype CodeData = CodeData(filename: string, scope: string, location: LocationInfo)

  datatype PyFrameData = PyFrameData(code: CodeData, isEntry: bool, isShim: bool)

  /** `frames` runs from the innermost call outwards, `natives` from the outermost inwards. */
  datatype PyThreadData = PyThreadData(
    tid: int,
    name: Option<string>,
    frames: seq<PyFrameData>,
    natives: seq<NativeFrame>,
    gilStatus: int,
    gcStatus: int,
    interpreterId: int,
    stackAnchor: word64)

  function EntryCount(frames: seq<PyFrameData>): (n: nat)
    ensures n <= |frames|
  {
    if frames == [] then 0 else (if frames[0].isEntry then 1 else 0) + EntryCount(frames[1..])
  }

  predicate NoShims(frames: seq<PyFrameData>) {
    forall f | f in frames :: !f.isShim
  }

  /** The formatter needs the oldest call to be one that the interpreter was entered for. */
  predicate OutermostIsEntry(chain: seq<PyFrameData>) {
    chain == [] || chain[0].isEntry
  }

  /** The order in which a thread's frames are printed: outermost call first. */
  function Chain(t: PyThreadData): seq<PyFrameData> {
    Reverse(t.frames)
  }

  lemma {:induction false} EntryCountSplit(xs: seq<PyFrameData>, ys: seq<PyFrameData>)
    ensures EntryCount(xs + ys) == EntryCount(xs) + EntryCount(ys)
  {
    if xs == [] {
      assert xs + ys == ys;
    } else {
      assert (xs + ys)[1..] == xs[1..] + ys;
      EntryCountSplit(xs[1..], ys);
    }
  }

  lemma {:induction false} EntryCountReverse(xs: seq<PyFrameData>)
    ensures EntryCount(Reverse(xs)) == EntryCount(xs)
  {
    if xs != [] {
      EntryCountSplit(Reverse(xs[1..]), [xs[0]]);
      EntryCountReverse(xs[1..]);
    }
  }
}
