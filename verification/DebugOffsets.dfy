/** Trusting the offsets a Python process publishes about itself: validateDebugOffsets and clampSizes
    in process.cpp, and the structure reader they protect (structure.h). */
module DebugOffsets {
  import opened Basics

  datatype StructName =
    | PyRuntime | PyIs | PyThread | PyFrame | PyCode | PyObject | PyType | PyTuple | PyUnicode | PyGc
    | PyList | PyDictKeys | PyDictValues | PyDict | PyFloat | PyLong | PyBytes | PyCframe

  /** A field and the size of its type in bytes. */
  datatype Field = Field(name: string, width: nat)

  const MAX_STRUCT_SIZE: int := 1024 * 1024

  const STRUCTS: seq<StructName> := [
    PyRuntime, PyIs, PyThread, PyFrame, PyCode, PyObject, PyType, PyTuple, PyUnicode, PyGc,
    PyList, PyDictKeys, PyDictValues, PyDict, PyFloat, PyLong, PyBytes, PyCframe]

  /** The fields that are validated, and the same ones in the same order that clamping covers. */
  function CheckedFields(s: StructName): seq<Field> {
    match s
    case PyRuntime => [Field("o_finalizing", 8), Field("o_interp_head", 8)]
    case PyIs => [Field("o_next", 8), Field("o_tstate_head", 8), Field("o_gc", 1), Field("o_modules", 8),
                  Field("o_sysdict", 8), Field("o_builtins", 8), Field("o_gil_runtime_state", 8)]
    case PyThread => [Field("o_prev", 8), Field("o_next", 8), Field("o_interp", 8), Field("o_frame", 8),
                      Field("o_thread_id", 8), Field("o_native_thread_id", 8)]
    case PyFrame => [Field("o_back", 8), Field("o_code", 8), Field("o_prev_instr", 8), Field("o_localsplus", 8),
                     Field("o_owner", 1)]
    case PyCode => [Field("o_filename", 8), Field("o_name", 8), Field("o_lnotab", 8), Field("o_firstlineno", 4),
                    Field("o_argcount", 4), Field("o_varnames", 8), Field("o_code_adaptive", 1)]
    case PyObject => [Field("o_ob_type", 8)]
    case PyType => [Field("o_tp_name", 8), Field("o_tp_repr", 8), Field("o_tp_flags", 8)]
    case PyTuple => [Field("o_ob_size", 8), Field("o_ob_item", 8)]
    case PyUnicode => [Field("o_state", 4), Field("o_length", 8), Field("o_ascii", 8)]
    case PyGc => [Field("o_collecting", 8)]
    case PyList => [Field("o_ob_size", 8), Field("o_ob_item", 8)]
    case PyDictKeys => [Field("o_dk_size", 8), Field("o_dk_kind", 1), Field("o_dk_nentries", 8), Field("o_dk_indices",
                                                                                                       1)]
    case PyDictValues => [Field("o_values", 8)]
    case PyDict => [Field("o_ma_keys", 8), Field("o_ma_values", 8)]
    case PyFloat => [Field("o_ob_fval", 8)]
    case PyLong => [Field("o_ob_size", 8), Field("o_ob_digit", 4)]
    case PyBytes => [Field("o_ob_size", 8), Field("o_ob_sval", 1)]
    case PyCframe => [Field("current_frame", 8)]
  }

  predicate SizeIsChecked(s: StructName) {
    s in {PyRuntime, PyIs, PyThread, PyFrame, PyCode, PyObject, PyType, PyTuple, PyUnicode, PyGc}
  }

  /** A copied field whose offset is neither validated nor clamped; the two fields of the GIL state,
      further below, are the others. */
  const INTERPRETER_ID: Field := Field("o_id", 8)

  type ssize = n: int | -TWO_63 <= n < TWO_63

  /** Reported sizes and offsets, as copied from the remote process. */
  type Sizes = map<StructName, ssize>
  type Offsets = (StructName, Field) -> word64

  function ToSsize(w: word64): ssize {
    if w < TWO_63 then w else w - TWO_64
  }

  function ToWord(n: ssize): word64 {
    n % TWO_64
  }

  // ----- Validation

  /** The bounds test as written: comparisons and subtraction on unsigned words. */
  predicate FieldInBounds(size: ssize, offset: word64, width: nat) {
    !(size < 0 || ToWord(size) < offset || (ToWord(size) - offset) % TWO_64 < width)
  }

  predicate AllStructs(sizes: Sizes) {
    forall s | s in STRUCTS :: s in sizes
  }

  predicate Validates(sizes: Sizes, offsets: Offsets)
    requires AllStructs(sizes)
  {
    forall s | s in STRUCTS ::
      && (SizeIsChecked(s) ==> sizes[s] <= MAX_STRUCT_SIZE)
      && forall f | f in CheckedFields(s) :: FieldInBounds(sizes[s], offsets(s, f), f.width)
  }

  /** The unsigned test means what it should: the field ends within the size, without wrapping. */
  lemma {:induction false} FieldInBoundsIff(size: ssize, offset: word64, width: nat)
    ensures FieldInBounds(size, offset, width) <==> 0 <= size && offset + width <= size
  {
  }

  /** What is accepted, on whole numbers: every checked field of every structure ends within the reported
      size, and the sizes that are checked are no larger than a megabyte. */
  lemma {:induction false} ValidatesIff(sizes: Sizes, offsets: Offsets)
    requires AllStructs(sizes)
    ensures Validates(sizes, offsets) <==>
      forall s :: s in STRUCTS ==>
        && (SizeIsChecked(s) ==> sizes[s] <= 0x10_0000)
        && forall f :: f in CheckedFields(s) ==> 0 <= sizes[s] && offsets(s, f) + f.width <= sizes[s]
  {
    hide FieldInBounds, CheckedFields, SizeIsChecked;
    forall s, f | s in STRUCTS && f in CheckedFields(s)
      ensures FieldInBounds(sizes[s], offsets(s, f), f.width)
         <==> 0 <= sizes[s] && offsets(s, f) + f.width <= sizes[s]
    {
      FieldInBoundsIff(sizes[s], offsets(s, f), f.width);
    }
  }

  // ----- Clamping

  /** One update of a size: the maximum of two unsigned words, stored in a signed field. */
  function UpdatedSize(size: ssize, offset: word64, width: nat): ssize {
    var end := (offset + width) % TWO_64;
    ToSsize(if ToWord(size) < end then end else ToWord(size))
  }

  function ClampedFrom(fields: seq<Field>, s: StructName, offsets: Offsets, size: ssize): ssize {
    if fields == [] then size
    else ClampedFrom(fields[1..], s, offsets, UpdatedSize(size, offsets(s, fields[0]), fields[0].width))
  }

  function ClampedSize(s: StructName, offsets: Offsets): ssize {
    ClampedFrom(CheckedFields(s), s, offsets, 0)
  }

  class PythonOffsets {
    const offsets: Offsets
    var sizes: Sizes

    constructor (sizes: Sizes, offsets: Offsets)
      ensures this.sizes == sizes && this.offsets == offsets
    {
      this.sizes := sizes;
      this.offsets := offsets;
    }

    /** Every structure shrinks to what its checked fields need; no other size changes. */
    method ClampSizes()
      modifies this`sizes
      ensures forall s :: s in sizes <==> s in old(sizes) || s in STRUCTS
      ensures forall s :: s in STRUCTS ==> sizes[s] == ClampedSize(s, offsets)
      ensures forall s :: s in old(sizes) && s !in STRUCTS ==> sizes[s] == old(sizes[s])
    {
      hide CheckedFields;
      for i := 0 to |STRUCTS|
        invariant forall s :: s in sizes <==> s in old(sizes) || s in STRUCTS[..i]
        invariant forall s :: s in STRUCTS[..i] ==> sizes[s] == ClampedSize(s, offsets)
        invariant forall s :: s in old(sizes) && s !in STRUCTS[..i] ==> sizes[s] == old(sizes[s])
      {
        var s := STRUCTS[i];
        ClampStruct(s);
        assert STRUCTS[..i + 1] == STRUCTS[..i] + [s];
      }
      assert STRUCTS[..|STRUCTS|] == STRUCTS;
    }

    method ClampStruct(s: StructName)
      modifies this`sizes
      ensures sizes == old(sizes)[s := ClampedSize(s, offsets)]
    {
      hide CheckedFields;
      var fields := CheckedFields(s);
      sizes := sizes[s := 0];
      assert fields[0..] == fields;
      for i := 0 to |fields|
        invariant s in sizes && sizes == old(sizes)[s := sizes[s]]
        invariant ClampedFrom(fields[i..], s, offsets, sizes[s]) == ClampedSize(s, offsets)
      {
        assert fields[i..][0] == fields[i] && fields[i..][1..] == fields[i + 1..];
        sizes := sizes[s := UpdatedSize(sizes[s], offsets(s, fields[i]), fields[i].width)];
      }
      assert fields[|fields|..] == [];
    }
  }

  /** Clamped sizes of in-bounds fields: no wrap-around, every field covered, nothing beyond the
      reported size, and no smaller size would do. */
  lemma {:induction false} ClampedIsLeastCover(fields: seq<Field>, s: StructName, offsets: Offsets, start: ssize,
                                               size: ssize)
    requires 0 <= start <= size
    requires forall f :: f in fields ==> offsets(s, f) + f.width <= size
    ensures var r := ClampedFrom(fields, s, offsets, start);
      && start <= r <= size
      && (forall f :: f in fields ==> offsets(s, f) + f.width <= r)
      && (r == start || exists f :: f in fields && r == offsets(s, f) + f.width)
  {
    if fields != [] {
      var f := fields[0];
      var next := UpdatedSize(start, offsets(s, f), f.width);
      assert f in fields && forall g :: g in fields <==> g == f || g in fields[1..];
      UpdateIsMax(start, offsets(s, f), f.width, size);
      ClampedIsLeastCover(fields[1..], s, offsets, next, size);
    }
  }

  lemma {:induction false} UpdateIsMax(size: ssize, offset: word64, width: nat, bound: ssize)
    requires 0 <= size <= bound && offset + width <= bound
    ensures UpdatedSize(size, offset, width) == if size < offset + width then offset + width else size
  {
  }

  // ----- The structure reader

  /** The test on which getField aborts, as written, on unsigned words. It comes after the structure has
      been copied; what a read does in the end is in module StructureReader. */
  predicate Aborts(size: ssize, offset: word64, width: nat) {
    size < 0 || ToWord(size) < width || (ToWord(size) - width) % TWO_64 < offset
  }

  lemma {:induction false} AbortsIff(size: ssize, offset: word64, width: nat)
    ensures Aborts(size, offset, width) <==> size < 0 || offset + width > size
  {
  }

  /** The structure is large enough for all its checked fields. */
  predicate Covers(s: StructName, offsets: Offsets, size: ssize) {
    forall f | f in CheckedFields(s) :: offsets(s, f) + f.width <= size
  }

  /** The gate: if the reported offsets validate, every checked field lies inside its structure without
      wrap-around; the clamped size is the least that covers the checked fields and no larger than the
      reported one; and with it no read of a checked field aborts. */
  lemma {:induction false} ValidatedOffsetsNeverAbort(sizes: Sizes, offsets: Offsets, s: StructName)
    requires AllStructs(sizes) && s in STRUCTS && Validates(sizes, offsets)
    ensures var clamped := ClampedSize(s, offsets);
      && 0 <= clamped <= sizes[s]
      && Covers(s, offsets, clamped)
      && (forall n: ssize :: 0 <= n && Covers(s, offsets, n) ==> clamped <= n)
      && (forall f :: f in CheckedFields(s) ==> !Aborts(clamped, offsets(s, f), f.width))
  {
    hide FieldInBounds, Aborts, ClampedFrom, CheckedFields;
    var fields := CheckedFields(s);
    CheckedFieldsAreSmall(s);
    assert fields[0] in fields;
    forall f | f in fields
      ensures 0 <= sizes[s] && offsets(s, f) + f.width <= sizes[s]
    {
      FieldInBoundsIff(sizes[s], offsets(s, f), f.width);
    }
    ClampedIsLeastCover(fields, s, offsets, 0, sizes[s]);
    forall f | f in fields
      ensures !Aborts(ClampedSize(s, offsets), offsets(s, f), f.width)
    {
      AbortsIff(ClampedSize(s, offsets), offsets(s, f), f.width);
    }
  }

  /** The interpreter id is outside the gate: after validation and clamping, reading it aborts if and only
      if it ends after every checked field of its structure. */
  lemma {:induction false} InterpreterIdAbortsIff(sizes: Sizes, offsets: Offsets)
    requires AllStructs(sizes) && Validates(sizes, offsets)
    ensures Aborts(ClampedSize(PyIs, offsets), offsets(PyIs, INTERPRETER_ID), INTERPRETER_ID.width)
       <==> forall f :: f in CheckedFields(PyIs) ==>
              offsets(PyIs, f) + f.width < offsets(PyIs, INTERPRETER_ID) + INTERPRETER_ID.width
  {
    hide Aborts, ClampedFrom, FieldInBounds, CheckedFields;
    var fields := CheckedFields(PyIs);
    CheckedFieldsAreSmall(PyIs);
    ValidatedOffsetsNeverAbort(sizes, offsets, PyIs);
    AbortsIff(ClampedSize(PyIs, offsets), offsets(PyIs, INTERPRETER_ID), INTERPRETER_ID.width);
    forall f | f in fields
      ensures 0 <= sizes[PyIs] && offsets(PyIs, f) + f.width <= sizes[PyIs]
    {
      FieldInBoundsIff(sizes[PyIs], offsets(PyIs, f), f.width);
    }
    ClampedIsLeastCover(fields, PyIs, offsets, 0, sizes[PyIs]);
    assert fields[0] in fields;
  }

  function RoomySizes(): Sizes {
    map s | s in STRUCTS :: 4096
  }

  /** All fields at offset zero, except that the interpreter id comes late. */
  function LateIdOffsets(): Offsets {
    (s: StructName, f: Field) => if f == INTERPRETER_ID then 2048 else 0
  }

  lemma {:induction false} CheckedFieldsAreSmall(s: StructName)
    ensures CheckedFields(s) != []
    ensures forall f :: f in CheckedFields(s) ==> f.width <= 8
  {
  }

  lemma {:induction false} InterpreterIdIsUnchecked()
    ensures INTERPRETER_ID !in CheckedFields(PyIs)
  {
    assert "o_gc"[2] != "o_id"[2];
  }

  /** Offsets that validate and still abort. */
  lemma {:induction false} InterpreterIdCanAbort()
    ensures AllStructs(RoomySizes()) && Validates(RoomySizes(), LateIdOffsets())
    ensures Aborts(ClampedSize(PyIs, LateIdOffsets()), LateIdOffsets()(PyIs, INTERPRETER_ID), INTERPRETER_ID.width)
  {
    hide Aborts, FieldInBounds, CheckedFields;
    var offsets := LateIdOffsets();
    forall s, f | s in STRUCTS && f in CheckedFields(s)
      ensures FieldInBounds(4096, offsets(s, f), f.width)
    {
      CheckedFieldsAreSmall(s);
      FieldInBoundsIff(4096, offsets(s, f), f.width);
    }
    CheckedFieldsAreSmall(PyIs);
    InterpreterIdIsUnchecked();
    InterpreterIdAbortsIff(RoomySizes(), offsets);
  }

  // ----- The GIL state, whose layout is computed and never checked

  /** The size, and the offsets of the two fields that are read. */
  datatype GilState = GilState(size: ssize, locked: word64, lastHolder: word64)

  const LOCKED_WIDTH: nat := 4
  const LAST_HOLDER_WIDTH: nat := 8

  /** The published values are offsets into the interpreter state. They are made relative to the start
      of the GIL state, and the size is the larger end; all of this on unsigned words, with the size
      stored in a signed field. */
  function CopyGilState(start: word64, locked: word64, lastHolder: word64): GilState {
    var lockedOffset, holderOffset := (locked - start) % TWO_64, (lastHolder - start) % TWO_64;
    var lockedEnd, holderEnd := (lockedOffset + LOCKED_WIDTH) % TWO_64, (holderOffset + LAST_HOLDER_WIDTH) % TWO_64;
    GilState(ToSsize(if lockedEnd < holderEnd then holderEnd else lockedEnd), lockedOffset, holderOffset)
  }

  predicate EndsInsideSsize(offset: word64, width: nat) {
    offset + width < TWO_63
  }

  /** The published value is not below the start, and the field ends within the range of a size. */
  predicate InGilState(start: word64, published: word64, width: nat) {
    start <= published && published - start + width < TWO_63
  }

  lemma {:induction false} WrapOnce(x: nat)
    requires x < 2 * TWO_64
    ensures x % TWO_64 == if x < TWO_64 then x else x - TWO_64
  {
  }

  lemma {:induction false} SignedWhenSmall(w: word64)
    ensures if w < TWO_63 then ToSsize(w) == w else ToSsize(w) < 0
  {
  }

  /** A field of the GIL state passes the abort test if and only if that field ends below 2^63 and the
      end of the other one, wrapped at 2^64, is below 2^63 as well. */
  lemma {:induction false} GilFieldAbortsIff(start: word64, locked: word64, lastHolder: word64)
    ensures var g := CopyGilState(start, locked, lastHolder);
      && (!Aborts(g.size, g.locked, LOCKED_WIDTH) <==>
            EndsInsideSsize(g.locked, LOCKED_WIDTH) && (g.lastHolder + LAST_HOLDER_WIDTH) % TWO_64 < TWO_63)
      && (!Aborts(g.size, g.lastHolder, LAST_HOLDER_WIDTH) <==>
            EndsInsideSsize(g.lastHolder, LAST_HOLDER_WIDTH) && (g.locked + LOCKED_WIDTH) % TWO_64 < TWO_63)
  {
    hide Aborts, ToSsize;
    var g := CopyGilState(start, locked, lastHolder);
    WrapOnce(g.locked + LOCKED_WIDTH);
    WrapOnce(g.lastHolder + LAST_HOLDER_WIDTH);
    SignedWhenSmall(Max((g.locked + LOCKED_WIDTH) % TWO_64, (g.lastHolder + LAST_HOLDER_WIDTH) % TWO_64));
    AbortsIff(g.size, g.locked, LOCKED_WIDTH);
    AbortsIff(g.size, g.lastHolder, LAST_HOLDER_WIDTH);
  }

  /** Both fields pass the test if and only if both end below 2^63: then the size is the larger end, the
      least that covers them. */
  lemma {:induction false} GilStateReadableIff(start: word64, locked: word64, lastHolder: word64)
    ensures var g := CopyGilState(start, locked, lastHolder);
      (!Aborts(g.size, g.locked, LOCKED_WIDTH) && !Aborts(g.size, g.lastHolder, LAST_HOLDER_WIDTH))
      <==> EndsInsideSsize(g.locked, LOCKED_WIDTH) && EndsInsideSsize(g.lastHolder, LAST_HOLDER_WIDTH)
    ensures var g := CopyGilState(start, locked, lastHolder);
      EndsInsideSsize(g.locked, LOCKED_WIDTH) && EndsInsideSsize(g.lastHolder, LAST_HOLDER_WIDTH) ==>
        g.size == Max(g.locked + LOCKED_WIDTH, g.lastHolder + LAST_HOLDER_WIDTH)
  {
    hide Aborts, ToSsize;
    var g := CopyGilState(start, locked, lastHolder);
    WrapOnce(g.locked + LOCKED_WIDTH);
    WrapOnce(g.lastHolder + LAST_HOLDER_WIDTH);
    SignedWhenSmall(Max((g.locked + LOCKED_WIDTH) % TWO_64, (g.lastHolder + LAST_HOLDER_WIDTH) % TWO_64));
    GilFieldAbortsIff(start, locked, lastHolder);
  }

  /** In terms of what was published: offsets at or after the start, by less than 2^63, are fine, and
      so is nothing else but an offset so far below the start that the difference wraps to a small one. */
  lemma {:induction false} PublishedGilOffset(start: word64, published: word64, width: nat)
    requires width <= 8
    ensures EndsInsideSsize((published - start) % TWO_64, width)
       <==> InGilState(start, published, width) || published + TWO_64 - start + width < TWO_63
  {
  }

  function Max(a: int, b: int): int {
    if a < b then b else a
  }

  /** The computed size is negative if and only if the end of one of the fields, wrapped at 2^64, is at or
      above 2^63. */
  lemma {:induction false} GilSizeNegativeIff(start: word64, locked: word64, lastHolder: word64)
    ensures var g := CopyGilState(start, locked, lastHolder);
      g.size < 0 <==>
        (g.locked + LOCKED_WIDTH) % TWO_64 >= TWO_63 || (g.lastHolder + LAST_HOLDER_WIDTH) % TWO_64 >= TWO_63
  {
    hide ToSsize;
    var g := CopyGilState(start, locked, lastHolder);
    SignedWhenSmall(Max((g.locked + LOCKED_WIDTH) % TWO_64, (g.lastHolder + LAST_HOLDER_WIDTH) % TWO_64));
  }

  /** A lock flag published four bytes before the start of the GIL state: its end wraps to zero, the size is
      that of the other field, and the test stops the flag but not the holder. */
  lemma {:induction false} GilStateCanAbort()
    ensures var g := CopyGilState(64, 60, 64);
      && g == GilState(8, TWO_64 - 4, 0)
      && Aborts(g.size, g.locked, LOCKED_WIDTH)
      && !Aborts(g.size, g.lastHolder, LAST_HOLDER_WIDTH)
  {
  }

  /** Eight bytes before the start, and the size is negative. */
  lemma {:induction false} GilStateCanBeNegative()
    ensures CopyGilState(64, 56, 64) == GilState(-4, TWO_64 - 8, 0)
  {
  }
}
