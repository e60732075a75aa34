/** Reading fields of a remote structure out of one lazily made local copy (structure.h). */
module StructureReader {
  import opened Basics
  import opened Mappings
  import opened LruModel
  import opened CachedMemory
  import opened DebugOffsets

  /** The local copy. The buffer is chosen before the remote read, so a failed read leaves it behind. */
  datatype Buffer = NotCopied | Copied(bytes: seq<byte>) | CopyFailed

  /** `Undefined` is a copy from beyond a cached mapping, or more bytes than the local buffer holds. */
  datatype FieldResult =
    | Value(bytes: seq<byte>)
    | NotReadable
    | SystemError(errno: nat)
    | Leftover
    | Aborted
    | Undefined

  /** The buffer for structures of small size, negative ones included. */
  const FOOTPRINT: nat := 512

  /** How the copy of a structure fails, if the kernel refuses nothing. The size is passed on as an
      unsigned word, so a negative one asks for more than half the address space. */
  ghost function CopyFailure(maps: seq<VirtualMap>, mem: Memory, capacity: nat, addr: word64,
                             size: ssize): Option<FieldResult>
  {
    if RunsPastMapping(maps, mem, capacity, addr, ToWord(size)) then Some(Undefined)
    else if Readable(mem, addr, ToWord(size)) then None
    else if size < 0 && Readable(mem, addr, FOOTPRINT + 1) then Some(Undefined)
    else Some(NotReadable)
  }

  lemma {:induction false} NegativeIsUnreadable(mem: Memory, addr: word64, size: ssize)
    requires UserSpace(mem) && size < 0
    ensures !Readable(mem, addr, ToWord(size))
  {
    assert addr + ToWord(size) - 1 !in mem;
  }

  lemma {:induction false} NegativeCannotBeRead(manager: ProcessMemoryManager, addr: word64, size: ssize)
    requires manager.Valid() && size < 0
    ensures !Readable(manager.mem, addr, ToWord(size))
  {
    NegativeIsUnreadable(manager.mem, addr, size);
  }

  lemma {:induction false} SignOfSize(size: ssize)
    ensures ToWord(size) >= TWO_63 <==> size < 0
    ensures 0 <= size ==> ToWord(size) == size
  {
  }

  ghost function CopiedOnce(b: Buffer, failure: Option<FieldResult>, mem: Memory, addr: word64, size: ssize): Buffer {
    if !b.NotCopied? then b
    else if failure.Some? || size < 0 then CopyFailed
    else match Read(mem, addr, size)
      case Some(bytes) => Copied(bytes)
      case None => CopyFailed
  }

  /** What asking for a field means, in terms of the remote memory rather than of the copy. */
  ghost function FieldOf(b: Buffer, failure: Option<FieldResult>, mem: Memory, addr: word64, size: ssize,
                         offset: word64, width: nat): FieldResult
  {
    if b.NotCopied? && failure.Some? then failure.value
    else if Aborts(size, offset, width) then Aborted
    else if b.CopyFailed? then Leftover
    else match Read(mem, addr + offset, width)
      case Some(bytes) => Value(bytes)
      case None => NotReadable
  }

  predicate IsSystemError(r: Option<FieldResult>) {
    r.Some? && r.value.SystemError?
  }

  class Structure {
    const manager: ProcessMemoryManager
    const addr: word64
    const size: ssize
    var buffer: Buffer

    constructor (manager: ProcessMemoryManager, addr: word64, size: ssize)
      requires manager.Valid()
      ensures Valid() && buffer.NotCopied?
      ensures this.manager == manager && this.addr == addr && this.size == size
    {
      this.manager := manager;
      this.addr := addr;
      this.size := size;
      this.buffer := NotCopied;
    }

    ghost predicate Valid()
      reads this, manager, manager.cache
    {
      && manager.Valid()
      && (buffer.Copied? ==> 0 <= size && Read(manager.mem, addr, size) == Some(buffer.bytes))
    }

    /** How a copy made now would fail, if the kernel refuses nothing. */
    ghost function Failure(): Option<FieldResult>
      reads this, manager, manager.cache
    {
      CopyFailure(manager.maps, manager.mem, manager.cache.View().capacity, addr, size)
    }

    /** A system error is one that a system call gave for this copy, or is due to the size or to the memory
        file; without one no system call has failed. */
    twostate predicate RefusedAsCaused(r: Option<FieldResult>)
      reads this, manager, manager.cache
    {
      if IsSystemError(r) then
        manager.RefusedFor(r.value.errno, size < 0 || manager.cache.View().capacity >= TWO_63)
      else manager.NothingFailed()
    }

    /** Copies the structure at the first call only; the result is what that copy throws, if anything. */
    method CopyFromRemote() returns (failure: Option<FieldResult>)
      requires Valid()
      modifies this`buffer, manager, manager.cache
      ensures Valid() && Failure() == old(Failure())
      ensures failure.Some? ==> old(buffer).NotCopied? && buffer.CopyFailed?
      ensures failure.None? ==> if old(buffer).NotCopied? then buffer.Copied? else buffer == old(buffer)
      ensures RefusedAsCaused(failure)
      ensures old(manager.Willing()) ==>
        manager.Willing() && (0 <= size && manager.cache.View().capacity < TWO_63 ==> !IsSystemError(failure))
      ensures Ordinary(addr, ToWord(size)) && !IsSystemError(failure) ==>
        && failure == (if old(buffer).NotCopied? then Failure() else None)
        && buffer == CopiedOnce(old(buffer), Failure(), manager.mem, addr, size)
    {
      hide Read, RunsPastMapping, ProcessMemoryManager.Valid, FindMap, GoesOn, Used, AnyFails, ToWord;
      SignOfSize(size);
      if !buffer.NotCopied? {
        manager.Unused();
        return None;
      }
      buffer := CopyFailed;
      if size < 0 {
        NegativeCannotBeRead(manager, addr, size);
      }
      var copied := manager.CopyMemoryFromProcess(addr, ToWord(size));
      match copied
      case Refused(errno) => return Some(SystemError(errno));
      case OutOfBounds => return Some(Undefined);
      case InvalidAddress =>
        var overflows := size < 0 && Readable(manager.mem, addr, FOOTPRINT + 1);
        return Some(if overflows then Undefined else NotReadable);
      case Bytes(bytes) =>
        if size < 0 {
          return Some(NotReadable);
        }
        buffer := Copied(bytes);
        return None;
    }

    method GetField(offset: word64, width: nat) returns (r: FieldResult)
      requires Valid()
      modifies this`buffer, manager, manager.cache
      ensures Valid() && Failure() == old(Failure())
      ensures RefusedAsCaused(Some(r))
      ensures old(manager.Willing()) ==>
        manager.Willing() && (0 <= size && manager.cache.View().capacity < TWO_63 ==> !r.SystemError?)
      ensures r.SystemError? ==> old(buffer).NotCopied? && buffer.CopyFailed?
      ensures Ordinary(addr, ToWord(size)) && !r.SystemError? ==>
        && buffer == CopiedOnce(old(buffer), Failure(), manager.mem, addr, size)
        && r == FieldOf(old(buffer), Failure(), manager.mem, addr, size, offset, width)
    {
      hide Aborts, Read, RunsPastMapping, CopyFailure, ProcessMemoryManager.Valid, ProcessMemoryManager.RefusedFor,
           ProcessMemoryManager.NothingFailed, ProcessMemoryManager.Willing;
      var failure := CopyFromRemote();
      if failure.Some? {
        return failure.value;
      }
      if Aborts(size, offset, width) {
        return Aborted;
      }
      if !buffer.Copied? {
        return Leftover;
      }
      AbortsIff(size, offset, width);
      ReadInside(manager.mem, addr, size, offset, width);
      return Value(buffer.bytes[offset..offset + width]);
    }
  }

  // ----- Series of requests

  /** The answers to a series of requests on one structure, if the kernel refuses nothing. */
  ghost function Answers(requests: seq<Field>, b: Buffer, failure: Option<FieldResult>, mem: Memory, addr: word64,
                         size: ssize,
                         s: StructName, offsets: Offsets): (r: seq<FieldResult>)
    ensures |r| == |requests|
  {
    if requests == [] then []
    else
      [FieldOf(b, failure, mem, addr, size, offsets(s, requests[0]), requests[0].width)]
      + Answers(requests[1..], CopiedOnce(b, failure, mem, addr, size), failure, mem, addr, size, s, offsets)
  }

  /** The remote memory is copied once: every request but the first sees the buffer that one left. */
  lemma {:induction false} AnswersAt(requests: seq<Field>, b: Buffer, failure: Option<FieldResult>, mem: Memory,
                                     addr: word64, size: ssize, s: StructName, offsets: Offsets, i: nat)
    requires i < |requests|
    ensures Answers(requests, b, failure, mem, addr, size, s, offsets)[i]
         == FieldOf(if i == 0 then b else CopiedOnce(b, failure, mem, addr, size), failure, mem, addr, size,
                    offsets(s, requests[i]), requests[i].width)
  {
    hide FieldOf;
    if i > 0 {
      assert requests[1..][i - 1] == requests[i];
      AnswersAt(requests[1..], CopiedOnce(b, failure, mem, addr, size), failure, mem, addr, size, s, offsets, i - 1);
    }
  }

  /** What a checked field should read as: the remote bytes of the field, or the failure of the copy and
      leftovers ever after. */
  ghost predicate Faithful(r: FieldResult, first: bool, failure: Option<FieldResult>, mem: Memory, addr: word64,
                           offset: word64, width: nat)
  {
    if failure.None? then
      Readable(mem, addr + offset, width) && r == Value(Read(mem, addr + offset, width).value)
    else r == if first then failure.value else Leftover
  }

  lemma {:induction false} FieldIsFaithful(first: bool, failure: Option<FieldResult>, mem: Memory, addr: word64,
                                           size: ssize,
                                           offset: word64, width: nat)
    requires 0 <= size && !Aborts(size, offset, width)
    requires failure.None? ==> Readable(mem, addr, size)
    ensures var b := if first then NotCopied else CopiedOnce(NotCopied, failure, mem, addr, size);
      Faithful(FieldOf(b, failure, mem, addr, size, offset, width), first, failure, mem, addr, offset, width)
  {
    hide Aborts;
    AbortsIff(size, offset, width);
    if failure.None? {
      ReadInside(mem, addr, size, offset, width);
    }
  }

  ghost predicate AllFaithful(requests: seq<Field>, failure: Option<FieldResult>, mem: Memory, addr: word64,
                              size: ssize,
                              s: StructName, offsets: Offsets)
  {
    var answers := Answers(requests, NotCopied, failure, mem, addr, size, s, offsets);
    forall i :: 0 <= i < |requests| ==>
      Faithful(answers[i], i == 0, failure, mem, addr, offsets(s, requests[i]), requests[i].width)
  }

  /** Behind the gate, any series of requests for checked fields is answered with the remote bytes of
      those fields if the clamped structure can be read; if it cannot, the first request fails and every
      later one is answered from a buffer that was never filled. None aborts. */
  lemma {:induction false} CheckedFieldsReadFaithfully(requests: seq<Field>, sizes: Sizes, offsets: Offsets,
                                                       s: StructName,
                                                       maps: seq<VirtualMap>, mem: Memory, capacity: nat,
                                                       addr: word64, size: ssize)
    requires AllStructs(sizes) && s in STRUCTS && Validates(sizes, offsets)
    requires forall f :: f in requests ==> f in CheckedFields(s)
    requires size == ClampedSize(s, offsets) && UserSpace(mem)
    ensures 0 <= size <= sizes[s]
    ensures CopyFailure(maps, mem, capacity, addr, size)
         == if Readable(mem, addr, size) then None else Some(NotReadable)
    ensures AllFaithful(requests, CopyFailure(maps, mem, capacity, addr, size), mem, addr, size, s, offsets)
  {
    hide Aborts, Read, ClampedSize, CheckedFields, Validates, Faithful, FieldOf, Answers, RunsPastMapping;
    ValidatedOffsetsNeverAbort(sizes, offsets, s);
    if RunsPastMapping(maps, mem, capacity, addr, ToWord(size)) {
      OnlyHugeLengthsRunPast(maps, mem, capacity, addr, ToWord(size));
    }
    var failure := CopyFailure(maps, mem, capacity, addr, size);
    var after := CopiedOnce(NotCopied, failure, mem, addr, size);
    forall i | 0 <= i < |requests|
      ensures Faithful(Answers(requests, NotCopied, failure, mem, addr, size, s, offsets)[i], i == 0, failure, mem,
                       addr,
                       offsets(s, requests[i]), requests[i].width)
    {
      var f := requests[i];
      assert f in requests;
      AnswersAt(requests, NotCopied, failure, mem, addr, size, s, offsets, i);
      FieldIsFaithful(i == 0, failure, mem, addr, size, offsets(s, f), f.width);
    }
  }

  /** One field asked for twice in a process with no readable memory: an error, then leftovers. */
  lemma {:induction false} FailedCopyIsReadBack(s: StructName)
    ensures var f := Field("o_ob_type", 8);
      var failure := CopyFailure([], map[], 0, 0, 8);
      Answers([f, f], NotCopied, failure, map[], 0, 8, s, (s: StructName, f: Field) => 0) == [NotReadable, Leftover]
  {
    var f := Field("o_ob_type", 8);
    var offsets: Offsets := (s: StructName, f: Field) => 0;
    var mem: Memory := map[];
    var failure := CopyFailure([], mem, 0, 0, 8);
    assert !Readable(mem, 0, 8) by { assert 0 !in mem; }
    AbortsIff(8, 0, 8);
    AnswersAt([f, f], NotCopied, failure, mem, 0, 8, s, offsets, 0);
    AnswersAt([f, f], NotCopied, failure, mem, 0, 8, s, offsets, 1);
  }

  /** A structure of negative size never yields a value: the copy is undefined or fails, and afterwards
      every request aborts. */
  lemma {:induction false} NegativeSizeNeverReads(b: Buffer, maps: seq<VirtualMap>, mem: Memory, capacity: nat,
                                                  addr: word64, size: ssize,
                                                  offset: word64, width: nat)
    requires size < 0 && UserSpace(mem)
    ensures var failure := CopyFailure(maps, mem, capacity, addr, size);
      var r := FieldOf(b, failure, mem, addr, size, offset, width);
      if b.NotCopied? then r == Undefined || r == NotReadable else r == Aborted
  {
    hide Aborts, RunsPastMapping;
    NegativeIsUnreadable(mem, addr, size);
    AbortsIff(size, offset, width);
  }

  // ----- What the readers ask for

  /** The fields that are read, structure by structure, on versions that publish their offsets: from
      interpreter.cpp, process.cpp, pythread.cpp, pyframe.cpp, pycode.cpp and pytypes.cpp. The GIL state and the
      published table itself are structures of their own. */
  function FieldsRead(s: StructName): seq<Field> {
    match s
    case PyRuntime => [Field("o_interp_head", 8), Field("o_finalizing", 8)]
    case PyIs => [Field("o_next", 8), INTERPRETER_ID, Field("o_tstate_head", 8), Field("o_modules", 8),
                  Field("o_sysdict", 8), Field("o_builtins", 8), Field("o_gil_runtime_state", 8)]
    case PyThread => [Field("o_next", 8), Field("o_interp", 8), Field("o_frame", 8), Field("o_thread_id", 8),
                      Field("o_native_thread_id", 8)]
    case PyFrame => [Field("o_back", 8), Field("o_owner", 1), Field("o_code", 8), Field("o_prev_instr", 8)]
    case PyCode => [Field("o_firstlineno", 4), Field("o_lnotab", 8), Field("o_filename", 8), Field("o_name", 8),
                    Field("o_argcount", 4), Field("o_varnames", 8)]
    case PyObject => [Field("o_ob_type", 8)]
    case PyType => [Field("o_tp_flags", 8), Field("o_tp_name", 8), Field("o_tp_repr", 8)]
    case PyTuple => [Field("o_ob_size", 8)]
    case PyUnicode => [Field("o_state", 4), Field("o_length", 8)]
    case PyGc => [Field("o_collecting", 8)]
    case PyList => [Field("o_ob_size", 8)]
    case PyDictKeys => [Field("o_dk_nentries", 8), Field("o_dk_size", 8), Field("o_dk_kind", 1)]
    case PyDictValues => []
    case PyDict => [Field("o_ma_keys", 8), Field("o_ma_values", 8)]
    case PyFloat => [Field("o_ob_fval", 8)]
    case PyLong => [Field("o_ob_size", 8)]
    case PyBytes => [Field("o_ob_size", 8)]
    case PyCframe => []
  }

  lemma {:induction false} ReadFieldsAreChecked(s: StructName, f: Field)
    requires f in FieldsRead(s)
    ensures f in CheckedFields(s) || (s == PyIs && f == INTERPRETER_ID)
  {
  }

  /** Behind the gate the interpreter id is the only field any reader asks for that can abort, and it does
      exactly if it ends after every checked field. */
  lemma {:induction false} OnlyTheIdAborts(sizes: Sizes, offsets: Offsets, s: StructName, f: Field)
    requires AllStructs(sizes) && s in STRUCTS && Validates(sizes, offsets) && f in FieldsRead(s)
    ensures Aborts(ClampedSize(s, offsets), offsets(s, f), f.width)
       <==> s == PyIs && f == INTERPRETER_ID
            && forall g :: g in CheckedFields(PyIs) ==> offsets(PyIs, g) + g.width < offsets(PyIs, f) + f.width
  {
    hide Aborts, ClampedSize, CheckedFields, Validates, FieldsRead;
    ReadFieldsAreChecked(s, f);
    ValidatedOffsetsNeverAbort(sizes, offsets, s);
    if s == PyIs && f == INTERPRETER_ID {
      InterpreterIdAbortsIff(sizes, offsets);
    }
  }

  // ----- The GIL state, read behind no gate

  /** How a request on the GIL state is answered, first and later, whatever offsets were published. A size
      that is negative never reaches the abort test with the first request. Otherwise, if the state can
      be read, the answer is the field's bytes exactly when the field passes the test and an abort
      exactly when it does not; and if it cannot, the first request fails. */
  lemma {:induction false} GilReads(start: word64, locked: word64, lastHolder: word64, offset: word64, width: nat,
                                    maps: seq<VirtualMap>, mem: Memory, capacity: nat, addr: word64)
    requires UserSpace(mem)
    ensures var g := CopyGilState(start, locked, lastHolder);
      var failure := CopyFailure(maps, mem, capacity, addr, g.size);
      var first := FieldOf(NotCopied, failure, mem, addr, g.size, offset, width);
      var copied := CopiedOnce(NotCopied, failure, mem, addr, g.size);
      var later := FieldOf(copied, failure, mem, addr, g.size, offset, width);
      if g.size < 0 then (first == Undefined || first == NotReadable) && later == Aborted
      else if !Readable(mem, addr, g.size) then
        first == NotReadable && later == if Aborts(g.size, offset, width) then Aborted else Leftover
      else if Aborts(g.size, offset, width) then first == later == Aborted
      else Readable(mem, addr + offset, width) && first == later == Value(Read(mem, addr + offset, width).value)
  {
    hide Aborts, RunsPastMapping, CopyGilState, Read;
    var g := CopyGilState(start, locked, lastHolder);
    var failure := CopyFailure(maps, mem, capacity, addr, g.size);
    if g.size < 0 {
      NegativeSizeNeverReads(NotCopied, maps, mem, capacity, addr, g.size, offset, width);
      NegativeSizeNeverReads(CopyFailed, maps, mem, capacity, addr, g.size, offset, width);
    } else {
      if RunsPastMapping(maps, mem, capacity, addr, ToWord(g.size)) {
        OnlyHugeLengthsRunPast(maps, mem, capacity, addr, ToWord(g.size));
      }
      AbortsIff(g.size, offset, width);
      if Readable(mem, addr, g.size) && !Aborts(g.size, offset, width) {
        ReadInside(mem, addr, g.size, offset, width);
      }
    }
  }

  /** The lock flag aborts with the first request, on readable memory, while the holder reads fine. */
  lemma {:induction false} GilReadCanAbort(maps: seq<VirtualMap>, mem: Memory, capacity: nat, addr: word64)
    requires UserSpace(mem) && Readable(mem, addr, 8)
    ensures var g := CopyGilState(64, 60, 64);
      var failure := CopyFailure(maps, mem, capacity, addr, g.size);
      && FieldOf(NotCopied, failure, mem, addr, g.size, g.locked, LOCKED_WIDTH) == Aborted
      && FieldOf(NotCopied, failure, mem, addr, g.size, g.lastHolder, LAST_HOLDER_WIDTH).Value?
  {
    hide Aborts, RunsPastMapping, CopyGilState, Read, CopyFailure, FieldOf;
    var g := CopyGilState(64, 60, 64);
    GilStateCanAbort();
    GilReads(64, 60, 64, g.locked, LOCKED_WIDTH, maps, mem, capacity, addr);
    GilReads(64, 60, 64, g.lastHolder, LAST_HOLDER_WIDTH, maps, mem, capacity, addr);
  }

  /** The negative size asks for exactly a range that wraps around into its own mapping: if the GIL state lies
      in a cached page, its first read copies from beyond it. */
  lemma {:induction false} NegativeGilRunsPast()
    ensures var g := CopyGilState(64, 56, 64);
      var failure := CopyFailure([OnePage()], PageMemory(), 4096, 5000, g.size);
      FieldOf(NotCopied, failure, PageMemory(), 5000, g.size, g.locked, LOCKED_WIDTH) == Undefined
  {
    hide Aborts, RunsPastMapping, CopyGilState;
    GilStateCanBeNegative();
    WrappingCopyRunsPast();
  }
}
