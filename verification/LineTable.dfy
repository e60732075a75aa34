/** The location table of a code object since CPython 3.11 (PEP 657): parse_linetable in pycode.cpp,
    the format it reads, and the proof that it inverts the format. */
module LineTable {
  import opened Basics
  import opened Frames

  // ----- The C++ integer conversions involved

  function ToInt32(x: int): int {
    var w := x % TWO_32;
    if w < TWO_32 / 2 then w else w - TWO_32
  }

  // ----- Reading bytes

  /** The byte at `ptr` of a NUL-terminated buffer; None is a read past the terminator. */
  function ByteAt(table: seq<byte>, ptr: nat): Option<byte> {
    if ptr < |table| then Some(table[ptr]) else if ptr == |table| then Some(0) else None
  }

  /** A number read from the table and the position after it. */
  datatype Scanned = Scanned(value: int, ptr: nat)

  /** `val |= chunk << shift` on 32-bit words, where `val` has no bits at or above `shift`; a shift by
      32 or more is undefined. */
  function OrShifted(val: nat, chunk: nat, shift: nat): Option<nat> {
    if shift >= 32 then None else Some((val + chunk * Pow2(shift)) % TWO_32)
  }

  /** The rest of a varint whose earlier bytes gave `val`; None if it runs off the table or shifts too
      far. */
  function VarintRest(table: seq<byte>, ptr: nat, val: nat, shift: nat): (r: Option<Scanned>)
    ensures r.Some? ==> ptr < r.value.ptr <= |table| + 1
    decreases |table| + 1 - ptr
  {
    var b := ByteAt(table, ptr);
    if b.None? then None
    else
      var val' := OrShifted(val, b.value % 64, shift);
      if val'.None? then None
      else if b.value / 64 % 2 == 0 then Some(Scanned(val'.value, ptr + 1))
      else VarintRest(table, ptr + 1, val'.value, shift + 6)
  }

  function Varint(table: seq<byte>, ptr: nat): Option<Scanned> {
    VarintRest(table, ptr, 0, 0)
  }

  method ScanVarint(table: seq<byte>, ptr0: nat) returns (r: Option<Scanned>)
    ensures r == Varint(table, ptr0)
  {
    var ptr := ptr0;
    var read := ByteAt(table, ptr);
    if read.None? {
      return None;
    }
    ptr := ptr + 1;
    var val: nat, shift: nat := read.value % 64, 0;
    FirstChunk(read.value);
    while read.value / 64 % 2 != 0
      invariant read.Some?
      invariant Varint(table, ptr0)
             == if read.value / 64 % 2 == 0 then Some(Scanned(val, ptr)) else VarintRest(table, ptr, val, shift + 6)
      decreases |table| + 1 - ptr, read.value / 64 % 2
    {
      read := ByteAt(table, ptr);
      if read.None? {
        return None;
      }
      ptr := ptr + 1;
      shift := shift + 6;
      var val' := OrShifted(val, read.value % 64, shift);
      if val'.None? {
        return None;
      }
      val := val'.value;
    }
    return Some(Scanned(val, ptr));
  }

  lemma {:induction false} FirstChunk(b: byte)
    ensures OrShifted(0, b % 64, 0) == Some(b % 64)
  {
  }

  function SignedVarint(table: seq<byte>, ptr: nat): Option<Scanned> {
    var u := Varint(table, ptr);
    if u.None? then None
    else Some(Scanned(if u.value.value % 2 == 1 then -(u.value.value / 2) else u.value.value / 2, u.value.ptr))
  }

  method ScanSignedVarint(table: seq<byte>, ptr: nat) returns (r: Option<Scanned>)
    ensures r == SignedVarint(table, ptr)
  {
    var u := ScanVarint(table, ptr);
    if u.None? {
      return None;
    }
    var sval := u.value.value / 2;
    var sign := if u.value.value % 2 == 1 then -1 else 1;
    return Some(Scanned(sign * sval, u.value.ptr));
  }

  // ----- Reading entries

  /** `Undefined` covers what the source leaves undefined: reading past the table's terminator,
      shifting a varint too far, and the failing assertion on a short entry. */
  datatype Parsed = Found(info: LocationInfo) | NotFound(info: LocationInfo) | Undefined

  datatype Decoded = Decoded(info: LocationInfo, ptr: nat)

  /** One entry with the given code, its first byte already read. Fields it does not mention keep
      their earlier value. */
  function DecodeEntry(table: seq<byte>, ptr: nat, code: nat, info: LocationInfo): (r: Option<Decoded>)
    ensures r.Some? ==> ptr <= r.value.ptr
  {
    if code == 15 then
      Some(Decoded(info, ptr))
    else if code == 14 then
      DecodeLong(table, ptr, info)
    else if code == 13 then
      var delta := SignedVarint(table, ptr);
      if delta.None? then None
      else
        var lineno := info.lineno + delta.value.value;
        Some(Decoded(info.(lineno := lineno, column := -1, endColumn := -1), delta.value.ptr))
    else if 10 <= code <= 12 then
      var column, endColumn := ByteAt(table, ptr), ByteAt(table, ptr + 1);
      if column.None? || endColumn.None? then None
      else
        var line := info.lineno + code - 10;
        Some(Decoded(LocationInfo(line, line, column.value, endColumn.value), ptr + 2))
    else
      var second := ByteAt(table, ptr);
      if second.None? || second.value >= 128 then None
      else
        var column := code * 8 + second.value / 16;
        Some(Decoded(info.(column := column, endColumn := column + second.value % 16), ptr + 1))
  }

  function DecodeLong(table: seq<byte>, ptr: nat, info: LocationInfo): (r: Option<Decoded>)
    ensures r.Some? ==> ptr <= r.value.ptr
  {
    var delta := SignedVarint(table, ptr);
    if delta.None? then None
    else
      var endDelta := Varint(table, delta.value.ptr);
      if endDelta.None? then None
      else
        var column := Varint(table, endDelta.value.ptr);
        if column.None? then None
        else
          var endColumn := Varint(table, column.value.ptr);
          if endColumn.None? then None
          else
            var line := info.lineno + delta.value.value;
            Some(Decoded(LocationInfo(line, ToInt32(line + endDelta.value.value),
                                      ToInt32(column.value.value - 1), ToInt32(endColumn.value.value - 1)),
                         endColumn.value.ptr))
  }

  /** The table walk from byte `ptr`, at instruction address `addr`. */
  function ParseFrom(table: seq<byte>, ptr: nat, addr: nat, addrq: word64, info: LocationInfo): Parsed
    decreases |table| + 1 - ptr
  {
    var first := ByteAt(table, ptr);
    if first.None? then Undefined
    else if first.value == 0 then NotFound(info)
    else
      var decoded := DecodeEntry(table, ptr + 1, first.value / 8 % 16, info);
      if decoded.None? then Undefined
      else
        var endAddr := addr + first.value % 8 + 1;
        if addr <= addrq < endAddr then Found(decoded.value.info)
        else ParseFrom(table, decoded.value.ptr, endAddr, addrq, decoded.value.info)
  }

  /** The fields that an entry with this code does not mention are as before. */
  predicate KeepsOthers(code: nat, before: LocationInfo, after: LocationInfo) {
    && (code == 15 ==> after == before)
    && (code == 13 || code < 10 ==> after.endLineno == before.endLineno)
    && (code < 10 ==> after.lineno == before.lineno)
  }

  lemma {:induction false} UnmentionedFieldsStay(table: seq<byte>, ptr: nat, code: nat, info: LocationInfo)
    requires code < 16
    ensures var r := DecodeEntry(table, ptr, code, info);
      r.Some? ==>
        && KeepsOthers(code, info, r.value.info)
        && (r.value.ptr == ptr <==> code == 15)
        && (code < 10 ==>
              && 8 * code <= r.value.info.column < 8 * (code + 1)
              && r.value.info.column <= r.value.info.endColumn)
        && (10 <= code <= 12 ==> r.value.info.lineno == r.value.info.endLineno == info.lineno + code - 10)
        && (code == 13 ==> r.value.info.column == -1 == r.value.info.endColumn)
  {
    hide VarintRest;
  }

  /** The byte that ends a varint has its seventh bit clear, as the terminator has. */
  predicate EndsVarint(table: seq<byte>, ptr: nat) {
    ptr <= |table| && ByteAt(table, ptr).value / 64 % 2 == 0
  }

  /** A varint is defined exactly if a byte ends it before the chunks run out of a 32-bit word, which is
      after six of them. */
  lemma {:induction false} VarintDefinedIff(table: seq<byte>, ptr: nat, val: nat, shift: nat)
    ensures VarintRest(table, ptr, val, shift).Some?
       <==> exists end: nat :: ptr <= end && shift + 6 * (end - ptr) < 32 && EndsVarint(table, end)
    decreases |table| + 1 - ptr
  {
    hide OrShifted, EndsVarint;
    ShiftDefined(shift);
    RestUnfolds(table, ptr, val, shift);
    var b := ByteAt(table, ptr);
    if b.None? || shift >= 32 {
      NothingEnds(table, ptr);
    } else if EndsVarint(table, ptr) {
      assert ptr <= ptr && EndsVarint(table, ptr);
    } else {
      VarintDefinedIff(table, ptr + 1, OrShifted(val, b.value % 64, shift).value, shift + 6);
    }
  }

  lemma {:induction false} ShiftDefined(shift: nat)
    ensures forall val, chunk :: OrShifted(val, chunk, shift).Some? <==> shift < 32
  {
  }

  lemma {:induction false} RestUnfolds(table: seq<byte>, ptr: nat, val: nat, shift: nat)
    ensures var b := ByteAt(table, ptr);
      VarintRest(table, ptr, val, shift).Some? <==>
        && b.Some? && OrShifted(val, b.value % 64, shift).Some?
        && (EndsVarint(table, ptr)
            || VarintRest(table, ptr + 1, OrShifted(val, b.value % 64, shift).value, shift + 6).Some?)
  {
    hide OrShifted;
  }

  lemma {:induction false} NothingEnds(table: seq<byte>, ptr: nat)
    ensures ptr > |table| ==> forall end: nat :: ptr <= end ==> !EndsVarint(table, end)
    ensures ByteAt(table, ptr).None? <==> ptr > |table|
  {
  }

  /** When reading an entry is defined: the bytes it takes are there, and the byte of a short entry has its
      highest bit clear. */
  lemma {:induction false} EntryDefinedIff(table: seq<byte>, ptr: nat, code: nat, info: LocationInfo)
    requires code < 16
    ensures var r := DecodeEntry(table, ptr, code, info);
      r.Some? <==>
        if code < 10 then ptr == |table| || (ptr < |table| && table[ptr] < 128)
        else if code < 13 then ptr + 1 <= |table|
        else if code == 13 then SignedVarint(table, ptr).Some?
        else if code == 14 then LongDefined(table, ptr)
        else true
  {
    hide VarintRest;
  }

  /** Four varints follow one another. */
  predicate LongDefined(table: seq<byte>, ptr: nat) {
    var first := SignedVarint(table, ptr);
    && first.Some?
    && var second := Varint(table, first.value.ptr);
       && second.Some?
       && var third := Varint(table, second.value.ptr);
          third.Some? && Varint(table, third.value.ptr).Some?
  }

  method DecodeOne(table: seq<byte>, ptr: nat, code: nat, info: LocationInfo) returns (r: Option<Decoded>)
    ensures r == DecodeEntry(table, ptr, code, info)
    ensures r.Some? ==> KeepsOthers(code, info, r.value.info)
  {
    hide VarintRest;
    if code == 15 {
      return Some(Decoded(info, ptr));
    } else if code == 14 {
      var delta := ScanSignedVarint(table, ptr);
      if delta.None? { return None; }
      var endDelta := ScanVarint(table, delta.value.ptr);
      if endDelta.None? { return None; }
      var column := ScanVarint(table, endDelta.value.ptr);
      if column.None? { return None; }
      var endColumn := ScanVarint(table, column.value.ptr);
      if endColumn.None? { return None; }
      var line := info.lineno + delta.value.value;
      return Some(Decoded(LocationInfo(line, ToInt32(line + endDelta.value.value),
                                       ToInt32(column.value.value - 1), ToInt32(endColumn.value.value - 1)),
                          endColumn.value.ptr));
    } else if code == 13 {
      var delta := ScanSignedVarint(table, ptr);
      if delta.None? { return None; }
      var lineno := info.lineno + delta.value.value;
      return Some(Decoded(info.(lineno := lineno, column := -1, endColumn := -1), delta.value.ptr));
    } else if 10 <= code <= 12 {
      var column, endColumn := ByteAt(table, ptr), ByteAt(table, ptr + 1);
      if column.None? || endColumn.None? { return None; }
      var line := info.lineno + code - 10;
      return Some(Decoded(LocationInfo(line, line, column.value, endColumn.value), ptr + 2));
    } else {
      var second := ByteAt(table, ptr);
      if second.None? || second.value >= 128 { return None; }
      var column := code * 8 + second.value / 16;
      return Some(Decoded(info.(column := column, endColumn := column + second.value % 16), ptr + 1));
    }
  }

  method ParseLinetable(addrq: word64, table: seq<byte>, firstlineno: int, info0: LocationInfo) returns (r: Parsed)
    ensures r == ParseFrom(table, 0, 0, addrq, info0.(lineno := firstlineno))
  {
    hide SignedVarint, Varint;
    var ptr: nat, addr: nat := 0, 0;
    var info := info0.(lineno := firstlineno);
    while true
      invariant ParseFrom(table, ptr, addr, addrq, info) == ParseFrom(table, 0, 0, addrq, info0.(lineno := firstlineno))
      decreases |table| + 1 - ptr
    {
      var first := ByteAt(table, ptr);
      if first.None? {
        return Undefined;
      }
      if first.value == 0 {
        return NotFound(info);
      }
      var code, length := first.value / 8 % 16, first.value % 8 + 1;
      var endAddr := addr + length;
      var decoded := DecodeOne(table, ptr + 1, code, info);
      if decoded.None? {
        return Undefined;
      }
      info := decoded.value.info;
      if addr <= addrq && endAddr > addrq {
        return Found(info);
      }
      ptr, addr := decoded.value.ptr, endAddr;
    }
  }

  // ----- The format (PEP 657; Objects/locations.md in CPython)

  /** One entry covers `length` code units. Columns of `Long` are -1 when unknown. */
  datatype Entry =
    | Short(length: nat, column: nat, endColumn: nat)
    | OneLine(length: nat, delta: nat, column: nat, endColumn: nat)
    | NoColumns(length: nat, lineDelta: int)
    | Long(length: nat, lineDelta: int, endDelta: nat, longColumn: int, longEndColumn: int)
    | NoLocation(length: nat)

  const MAX_INT: int := 0x7fff_ffff

  predicate Encodable(e: Entry) {
    1 <= e.length <= 8
    && match e
       case Short(_, column, endColumn) => column < 80 && column <= endColumn <= column + 15
       case OneLine(_, delta, column, endColumn) => delta <= 2 && column < 256 && endColumn < 256
       case NoColumns(_, delta) => -MAX_INT <= delta <= MAX_INT
       case Long(_, delta, endDelta, column, endColumn) =>
         && -MAX_INT <= delta <= MAX_INT && endDelta < TWO_32
         && -1 <= column <= MAX_INT && -1 <= endColumn <= MAX_INT
       case NoLocation(_) => true
  }

  function LineDelta(e: Entry): int {
    match e
    case Short(_, _, _) => 0
    case OneLine(_, delta, _, _) => delta
    case NoColumns(_, delta) => delta
    case Long(_, delta, _, _, _) => delta
    case NoLocation(_) => 0
  }

  function EncodeVarint(v: nat): seq<byte> {
    if v < 64 then [v] else [64 + v % 64] + EncodeVarint(v / 64)
  }

  /** The sign goes into the lowest bit. */
  function Unsigned(s: int): nat {
    if s < 0 then 2 * -s + 1 else 2 * s
  }

  function EncodeSignedVarint(s: int): seq<byte> {
    EncodeVarint(Unsigned(s))
  }

  function EntryCode(e: Entry): (code: nat)
    requires Encodable(e)
    ensures code < 16
  {
    match e
    case Short(_, column, _) => column / 8
    case OneLine(_, delta, _, _) => 10 + delta
    case NoColumns(_, _) => 13
    case Long(_, _, _, _, _) => 14
    case NoLocation(_) => 15
  }

  function EncodePayload(e: Entry): seq<byte>
    requires Encodable(e)
  {
    match e
    case Short(_, column, endColumn) => [column % 8 * 16 + (endColumn - column)]
    case OneLine(_, _, column, endColumn) => [column, endColumn]
    case NoColumns(_, delta) => EncodeSignedVarint(delta)
    case Long(_, delta, endDelta, column, endColumn) =>
      EncodeSignedVarint(delta) + EncodeVarint(endDelta) + EncodeVarint(column + 1) + EncodeVarint(endColumn + 1)
    case NoLocation(_) => []
  }

  function FirstByte(e: Entry): byte
    requires Encodable(e)
  {
    128 + EntryCode(e) * 8 + (e.length - 1)
  }

  predicate AllEncodable(entries: seq<Entry>) {
    forall e | e in entries :: Encodable(e)
  }

  function Encode(entries: seq<Entry>): seq<byte>
    requires AllEncodable(entries)
  {
    if entries == [] then []
    else [FirstByte(entries[0])] + EncodePayload(entries[0]) + Encode(entries[1..])
  }

  // ----- What an encoded table says

  /** The fields after one more entry, as the reader leaves them. */
  function Step(info: LocationInfo, e: Entry): LocationInfo {
    match e
    case Short(_, column, endColumn) => info.(column := column, endColumn := endColumn)
    case OneLine(_, delta, column, endColumn) =>
      LocationInfo(info.lineno + delta, info.lineno + delta, column, endColumn)
    case NoColumns(_, delta) => info.(lineno := info.lineno + delta, column := -1, endColumn := -1)
    case Long(_, delta, endDelta, column, endColumn) =>
      LocationInfo(info.lineno + delta, info.lineno + delta + endDelta, column, endColumn)
    case NoLocation(_) => info
  }

  function After(entries: seq<Entry>, info: LocationInfo): LocationInfo {
    if entries == [] then info else After(entries[1..], Step(info, entries[0]))
  }

  /** Lines stay in the range of a C int. */
  predicate LinesFit(entries: seq<Entry>, lineno: int)
    decreases |entries|
  {
    && -MAX_INT <= lineno <= MAX_INT
    && (entries == []
        || var e := entries[0];
           && (e.Long? ==> lineno + e.lineDelta + e.endDelta <= MAX_INT)
           && LinesFit(entries[1..], lineno + LineDelta(e)))
  }

  function Total(entries: seq<Entry>): nat {
    if entries == [] then 0 else entries[0].length + Total(entries[1..])
  }

  /** The index of the entry that covers a given offset from the start of the first one. */
  function Covering(entries: seq<Entry>, offset: nat): (k: nat)
    requires offset < Total(entries)
    ensures k < |entries|
  {
    if offset < entries[0].length then 0 else 1 + Covering(entries[1..], offset - entries[0].length)
  }

  // ----- Round trip of the numbers

  lemma {:induction false} Pow2Plus6(n: nat)
    ensures Pow2(n + 6) == 64 * Pow2(n)
  {
    assert Pow2(n + 6) == 2 * Pow2(n + 5) == 4 * Pow2(n + 4) == 8 * Pow2(n + 3);
    assert Pow2(n + 3) == 2 * Pow2(n + 2) == 4 * Pow2(n + 1) == 8 * Pow2(n);
  }

  lemma {:induction false} Pow2AtLeast32(n: nat)
    requires n >= 32
    ensures Pow2(n) >= TWO_32
  {
    if n == 32 {
      assert Pow2(32) == 64 * Pow2(26) by { Pow2Plus6(26); }
      Pow2Plus6(20);
      Pow2Plus6(14);
      Pow2Plus6(8);
      Pow2Plus6(2);
      assert Pow2(2) == 4;
    } else {
      Pow2AtLeast32(n - 1);
    }
  }

  lemma {:induction false} ShiftIsSmall(v: nat, shift: nat)
    requires v > 0 && v * Pow2(shift) < TWO_32
    ensures shift < 32
  {
    if shift >= 32 {
      Pow2AtLeast32(shift);
      TimesAtLeast(v, Pow2(shift));
    }
  }

  lemma {:induction false} TimesAtLeast(v: nat, p: nat)
    requires v > 0
    ensures v * p >= p
  {
  }

  /** The chunk of a number that a varint stores first, and what remains. */
  function Low(v: nat): (r: nat)
    ensures r <= v && r < 64
  {
    v % 64
  }

  function High(v: nat): (r: nat)
    ensures v < 64 <==> r == 0
    ensures v >= 64 ==> r < v
  {
    v / 64
  }

  lemma {:induction false} Distribute(a: nat, b: nat, p: nat)
    ensures (a + b) * p == a * p + b * p
  {
  }

  lemma {:induction false} LowHigh(v: nat, p: nat)
    ensures v * p == Low(v) * p + High(v) * (64 * p)
  {
    var low, high := Low(v), High(v);
    assert v == low + 64 * high;
    hide Low, High;
    Distribute(low, 64 * high, p);
    assert 64 * high * p == high * (64 * p);
  }

  lemma {:induction false} SmallerTimes(a: nat, b: nat, p: nat)
    requires a <= b
    ensures a * p <= b * p
  {
  }

  /** `v`, to be added in at `shift`, is what a varint still has to add to `val` to reach `total`. */
  predicate Pending(total: nat, val: nat, v: nat, shift: nat) {
    val + v * Pow2(shift) == total < TWO_32 && (v > 0 || shift == 0)
  }

  /** The next chunk lands inside 32 bits, and leaves the rest pending. */
  lemma {:induction false} PendingStep(total: nat, val: nat, v: nat, shift: nat)
    requires Pending(total, val, v, shift)
    ensures OrShifted(val, Low(v), shift).Some?
    ensures v < 64 ==> OrShifted(val, Low(v), shift).value == total
    ensures v >= 64 ==> Pending(total, OrShifted(val, Low(v), shift).value, High(v), shift + 6)
  {
    hide Pow2, Low, High;
    var p := Pow2(shift);
    Pow2Plus6(shift);
    LowHigh(v, p);
    SmallerTimes(Low(v), v, p);
    if v > 0 {
      ShiftIsSmall(v, shift);
    }
    ChunkAdded(val, Low(v), shift);
  }

  lemma {:induction false} ChunkAdded(val: nat, chunk: nat, shift: nat)
    requires shift < 32 && val + chunk * Pow2(shift) < TWO_32
    ensures OrShifted(val, chunk, shift) == Some(val + chunk * Pow2(shift))
  {
    hide Pow2;
    WordOf(val + chunk * Pow2(shift));
  }

  lemma {:induction false} WordOf(x: nat)
    requires x < TWO_32
    ensures x % TWO_32 == x
  {
  }

  /** The first byte of a varint, and its rest. */
  lemma {:induction false} VarintFirst(table: seq<byte>, ptr: nat, v: nat)
    requires At(table, ptr, EncodeVarint(v))
    ensures var b := if v < 64 then v else 64 + Low(v);
      && ByteAt(table, ptr) == Some(b) && b % 64 == Low(v) && (b / 64 % 2 == 0 <==> v < 64)
    ensures v < 64 ==> |EncodeVarint(v)| == 1
    ensures v >= 64 ==> |EncodeVarint(v)| == 1 + |EncodeVarint(High(v))| && At(table, ptr + 1, EncodeVarint(High(v)))
  {
    hide At;
    if v < 64 {
      AtOne(table, ptr, v);
    } else {
      AtSplit(table, ptr, [64 + Low(v)], EncodeVarint(High(v)));
      AtOne(table, ptr, 64 + Low(v));
    }
  }

  lemma {:induction false} VarintUnfold(table: seq<byte>, ptr: nat, val: nat, shift: nat, b: byte)
    requires ByteAt(table, ptr) == Some(b) && OrShifted(val, b % 64, shift).Some?
    ensures var val' := OrShifted(val, b % 64, shift).value;
      VarintRest(table, ptr, val, shift)
      == if b / 64 % 2 == 0 then Some(Scanned(val', ptr + 1)) else VarintRest(table, ptr + 1, val', shift + 6)
  {
    hide OrShifted, ByteAt;
  }

  /** Reading back what was written, from any point of a value on: `v` is what is still to come. */
  lemma {:induction false} VarintRestInverts(table: seq<byte>, ptr: nat, total: nat, val: nat, v: nat, shift: nat)
    requires Pending(total, val, v, shift) && At(table, ptr, EncodeVarint(v))
    ensures VarintRest(table, ptr, val, shift) == Some(Scanned(total, ptr + |EncodeVarint(v)|))
    decreases v
  {
    hide OrShifted, VarintRest, Pending, At, EncodeVarint, ByteAt, Low, High;
    var b := if v < 64 then v else 64 + Low(v);
    PendingStep(total, val, v, shift);
    VarintFirst(table, ptr, v);
    VarintUnfold(table, ptr, val, shift, b);
    if v >= 64 {
      VarintRestInverts(table, ptr + 1, total, OrShifted(val, Low(v), shift).value, High(v), shift + 6);
    }
  }

  lemma {:induction false} VarintInverts(pre: seq<byte>, post: seq<byte>, v: nat)
    requires v < TWO_32
    ensures Varint(pre + EncodeVarint(v) + post, |pre|) == Some(Scanned(v, |pre| + |EncodeVarint(v)|))
  {
    hide VarintRest, At, EncodeVarint;
    AtMiddle(pre, EncodeVarint(v), post);
    assert Pow2(0) == 1;
    VarintRestInverts(pre + EncodeVarint(v) + post, |pre|, v, 0, v, 0);
  }

  lemma {:induction false} SignedParts(s: int)
    requires -MAX_INT <= s <= MAX_INT
    ensures var u := Unsigned(s);
      u < TWO_32 && s == if u % 2 == 1 then -(u / 2) else u / 2
  {
  }

  lemma {:induction false} SignedVarintInverts(pre: seq<byte>, post: seq<byte>, s: int)
    requires -MAX_INT <= s <= MAX_INT
    ensures SignedVarint(pre + EncodeSignedVarint(s) + post, |pre|) == Some(Scanned(s, |pre| + |EncodeSignedVarint(s)|))
  {
    hide Varint, EncodeVarint;
    SignedParts(s);
    VarintInverts(pre, post, Unsigned(s));
  }

  // ----- Round trip of one entry

  lemma {:induction false} ShortByte(column: nat, width: nat)
    requires column < 80 && width < 16
    ensures var b := column % 8 * 16 + width;
      b < 128 && column / 8 * 8 + b / 16 == column && b % 16 == width
  {
  }

  lemma {:induction false} DecodeShort(table: seq<byte>, ptr: nat, code: nat, second: nat, info: LocationInfo)
    requires code < 10 && second < 128 && ByteAt(table, ptr) == Some(second)
    ensures var column := code * 8 + second / 16;
      DecodeEntry(table, ptr, code, info)
      == Some(Decoded(info.(column := column, endColumn := column + second % 16), ptr + 1))
  {
  }

  lemma {:induction false} ShortInverts(pre: seq<byte>, post: seq<byte>, e: Entry, info: LocationInfo)
    requires Encodable(e) && e.Short?
    ensures DecodeEntry(pre + EncodePayload(e) + post, |pre|, EntryCode(e), info)
         == Some(Decoded(Step(info, e), |pre| + |EncodePayload(e)|))
  {
    hide DecodeEntry;
    var table := pre + EncodePayload(e) + post;
    var second := e.column % 8 * 16 + (e.endColumn - e.column);
    ShortByte(e.column, e.endColumn - e.column);
    assert ByteAt(table, |pre|) == Some(second);
    DecodeShort(table, |pre|, EntryCode(e), second, info);
  }

  lemma {:induction false} OneLineInverts(pre: seq<byte>, post: seq<byte>, e: Entry, info: LocationInfo)
    requires Encodable(e) && e.OneLine?
    ensures DecodeEntry(pre + EncodePayload(e) + post, |pre|, EntryCode(e), info)
         == Some(Decoded(Step(info, e), |pre| + |EncodePayload(e)|))
  {
    hide SignedVarint, Varint, DecodeLong;
    var table := pre + EncodePayload(e) + post;
    assert table[|pre|] == e.column && table[|pre| + 1] == e.endColumn;
  }

  lemma {:induction false} NoColumnsInverts(pre: seq<byte>, post: seq<byte>, e: Entry, info: LocationInfo)
    requires Encodable(e) && e.NoColumns?
    ensures DecodeEntry(pre + EncodePayload(e) + post, |pre|, EntryCode(e), info)
         == Some(Decoded(Step(info, e), |pre| + |EncodePayload(e)|))
  {
    hide SignedVarint, Varint, DecodeLong;
    SignedVarintInverts(pre, post, e.lineDelta);
  }

  lemma {:induction false} Int32Of(x: int)
    requires -MAX_INT - 1 <= x <= MAX_INT
    ensures ToInt32(x) == x
  {
  }

  lemma {:induction false} FourParts(pre: seq<byte>, a: seq<byte>, b: seq<byte>, c: seq<byte>, d: seq<byte>,
                                     post: seq<byte>)
    ensures pre + (a + b + c + d) + post == pre + a + (b + c + d + post) == (pre + a) + b + (c + d + post)
         == (pre + a + b) + c + (d + post) == (pre + a + b + c) + d + post
  {
  }

  lemma {:induction false} LongInverts(pre: seq<byte>, post: seq<byte>, e: Entry, info: LocationInfo)
    requires Encodable(e) && e.Long? && LinesFit([e], info.lineno)
    ensures DecodeEntry(pre + EncodePayload(e) + post, |pre|, EntryCode(e), info)
         == Some(Decoded(Step(info, e), |pre| + |EncodePayload(e)|))
  {
    hide SignedVarint, Varint, ToInt32, EncodeVarint, EncodeSignedVarint;
    var table := pre + EncodePayload(e) + post;
    var a, b := EncodeSignedVarint(e.lineDelta), EncodeVarint(e.endDelta);
    var c, d := EncodeVarint(e.longColumn + 1), EncodeVarint(e.longEndColumn + 1);
    FourParts(pre, a, b, c, d, post);
    SignedVarintInverts(pre, b + c + d + post, e.lineDelta);
    VarintInverts(pre + a, c + d + post, e.endDelta);
    VarintInverts(pre + a + b, d + post, e.longColumn + 1);
    VarintInverts(pre + a + b + c, post, e.longEndColumn + 1);
    Int32Of(info.lineno + e.lineDelta + e.endDelta);
    Int32Of(e.longColumn);
    Int32Of(e.longEndColumn);
  }

  lemma {:induction false} EntryInverts(pre: seq<byte>, post: seq<byte>, e: Entry, info: LocationInfo)
    requires Encodable(e) && LinesFit([e], info.lineno)
    ensures DecodeEntry(pre + EncodePayload(e) + post, |pre|, EntryCode(e), info)
         == Some(Decoded(Step(info, e), |pre| + |EncodePayload(e)|))
  {
    hide DecodeEntry, EncodePayload;
    match e
    case Short(_, _, _) => ShortInverts(pre, post, e, info);
    case OneLine(_, _, _, _) => OneLineInverts(pre, post, e, info);
    case NoColumns(_, _) => NoColumnsInverts(pre, post, e, info);
    case Long(_, _, _, _, _) => LongInverts(pre, post, e, info);
    case NoLocation(_) => NoLocationInverts(pre, post, e, info);
  }

  lemma {:induction false} NoLocationInverts(pre: seq<byte>, post: seq<byte>, e: Entry, info: LocationInfo)
    requires Encodable(e) && e.NoLocation?
    ensures DecodeEntry(pre + EncodePayload(e) + post, |pre|, EntryCode(e), info)
         == Some(Decoded(Step(info, e), |pre| + |EncodePayload(e)|))
  {
  }

  // ----- Round trip of tables

  /** What looking an offset up in a list of entries should give. */
  function Lookup(entries: seq<Entry>, offset: nat, info: LocationInfo): Parsed {
    if offset < Total(entries) then Found(After(entries[..Covering(entries, offset) + 1], info))
    else NotFound(After(entries, info))
  }

  lemma {:induction false} LookupStep(entries: seq<Entry>, offset: nat, info: LocationInfo)
    requires entries != []
    ensures Lookup(entries, offset, info)
         == if offset < entries[0].length then Found(Step(info, entries[0]))
            else Lookup(entries[1..], offset - entries[0].length, Step(info, entries[0]))
  {
    if offset < entries[0].length {
      assert entries[..1] == [entries[0]];
      AfterOne(entries[0], info);
    } else if offset < Total(entries) {
      var k := Covering(entries, offset);
      assert entries[..k + 1][1..] == entries[1..][..k] && entries[..k + 1][0] == entries[0];
      assert After(entries[..k + 1], info) == After(entries[1..][..k], Step(info, entries[0]));
      assert k == 1 + Covering(entries[1..], offset - entries[0].length);
    } else {
      assert Lookup(entries, offset, info) == NotFound(After(entries, info));
    }
  }

  lemma {:induction false} EntryInvertsAt(table: seq<byte>, ptr: nat, e: Entry, info: LocationInfo)
    requires Encodable(e) && LinesFit([e], info.lineno) && At(table, ptr, EncodePayload(e))
    ensures DecodeEntry(table, ptr, EntryCode(e), info) == Some(Decoded(Step(info, e), ptr + |EncodePayload(e)|))
  {
    hide DecodeEntry, EncodePayload, EntryCode, LinesFit, Encodable;
    var payload := EncodePayload(e);
    var pre, post := table[..ptr], table[ptr + |payload|..];
    assert table == pre + payload + post;
    EntryInverts(pre, post, e, info);
  }

  lemma {:induction false} FirstByteParts(e: Entry)
    requires Encodable(e)
    ensures FirstByte(e) != 0 && FirstByte(e) / 8 % 16 == EntryCode(e) && FirstByte(e) % 8 + 1 == e.length
  {
    FirstByteBits(EntryCode(e), e.length - 1);
  }

  lemma {:induction false} FirstByteBits(code: nat, low: nat)
    requires code < 16 && low < 8
    ensures var b := 128 + code * 8 + low;
      b / 8 == 16 + code && b % 8 == low && b / 8 % 16 == code
  {
    var b := 128 + code * 8 + low;
    assert b == 8 * (16 + code) + low && 8 * (b / 8) <= b < 8 * (b / 8) + 8;
  }

  lemma {:induction false} EncodedFirst(table: seq<byte>, ptr: nat, entries: seq<Entry>)
    requires AllEncodable(entries) && entries != [] && At(table, ptr, Encode(entries))
    ensures var e, rest := entries[0], entries[1..];
      && ByteAt(table, ptr) == Some(FirstByte(e))
      && At(table, ptr + 1, EncodePayload(e))
      && At(table, ptr + 1 + |EncodePayload(e)|, Encode(rest))
      && |Encode(entries)| == 1 + |EncodePayload(e)| + |Encode(rest)|
  {
    hide FirstByte, EncodePayload, EntryCode, Encodable, At;
    var e, rest := entries[0], entries[1..];
    AtSplit(table, ptr, [FirstByte(e)] + EncodePayload(e), Encode(rest));
    AtSplit(table, ptr, [FirstByte(e)], EncodePayload(e));
    AtOne(table, ptr, FirstByte(e));
  }

  lemma {:induction false} ParseFromInverts(table: seq<byte>, ptr: nat, entries: seq<Entry>, addr: nat, addrq: word64,
                                            info: LocationInfo)
    requires AllEncodable(entries) && LinesFit(entries, info.lineno)
    requires At(table, ptr, Encode(entries)) && ptr + |Encode(entries)| == |table|
    requires addr <= addrq
    ensures ParseFrom(table, ptr, addr, addrq, info) == Lookup(entries, addrq - addr, info)
    decreases |entries|
  {
    hide DecodeEntry, EncodePayload, Lookup, At, Encode, FirstByte, EntryCode, Encodable;
    if entries == [] {
      EmptyLookup(addrq - addr, info);
      EmptyTable();
    } else {
      var e, rest := entries[0], entries[1..];
      EncodedFirst(table, ptr, entries);
      FirstByteParts(e);
      EntryInvertsAt(table, ptr + 1, e, info);
      LookupStep(entries, addrq - addr, info);
      if addrq >= addr + e.length {
        StepLine(e, info);
        ParseFromInverts(table, ptr + 1 + |EncodePayload(e)|, rest, addr + e.length, addrq, Step(info, e));
      }
    }
  }

  lemma {:induction false} EmptyTable()
    ensures Encode([]) == []
  {
  }

  lemma {:induction false} EmptyLookup(offset: nat, info: LocationInfo)
    ensures Lookup([], offset, info) == NotFound(info)
  {
  }

  lemma {:induction false} StepLine(e: Entry, info: LocationInfo)
    ensures Step(info, e).lineno == info.lineno + LineDelta(e)
  {
  }

  /** Where entry `k` starts. */
  function Start(entries: seq<Entry>, k: nat): nat
    requires k <= |entries|
  {
    Total(entries[..k])
  }

  function DeltaSum(entries: seq<Entry>): int {
    if entries == [] then 0 else LineDelta(entries[0]) + DeltaSum(entries[1..])
  }

  /** The covering entry is the one whose range holds the offset, and there is no other. */
  lemma {:induction false} CoveringIsUnique(entries: seq<Entry>, offset: nat, k: nat)
    requires AllEncodable(entries) && k < |entries|
    ensures Start(entries, k) <= offset < Start(entries, k + 1)
       <==> offset < Total(entries) && Covering(entries, offset) == k
  {
    assert entries[..k + 1][1..] == entries[1..][..k];
    if k > 0 {
      assert entries[..k][1..] == entries[1..][..k - 1];
      if offset >= entries[0].length {
        CoveringIsUnique(entries[1..], offset - entries[0].length, k - 1);
      }
    }
  }

  lemma {:induction false} AfterLine(entries: seq<Entry>, info: LocationInfo)
    ensures After(entries, info).lineno == info.lineno + DeltaSum(entries)
  {
    if entries != [] {
      StepLine(entries[0], info);
      AfterLine(entries[1..], Step(info, entries[0]));
    }
  }

  lemma {:induction false} AfterSplit(xs: seq<Entry>, ys: seq<Entry>, info: LocationInfo)
    ensures After(xs + ys, info) == After(ys, After(xs, info))
  {
    if xs == [] {
      assert xs + ys == ys;
    } else {
      assert (xs + ys)[1..] == xs[1..] + ys;
      AfterSplit(xs[1..], ys, Step(info, xs[0]));
    }
  }

  /** The reader inverts the format: on any encoded table it succeeds exactly for the addresses the
      table covers, and then answers from the one covering entry `k`, with the line reached by the
      deltas up to `k`. It neither stops at a zero byte inside an entry nor leaves the table. */
  lemma {:induction false} DecodeInvertsEncode(entries: seq<Entry>, addrq: word64, firstlineno: int,
                                               info0: LocationInfo)
    requires AllEncodable(entries) && LinesFit(entries, firstlineno)
    ensures var r := ParseFrom(Encode(entries), 0, 0, addrq, info0.(lineno := firstlineno));
      && (r.Found? <==> addrq < Total(entries))
      && !r.Undefined?
      && forall k :: 0 <= k < |entries| && Start(entries, k) <= addrq < Start(entries, k + 1) ==>
           && r == Found(Step(After(entries[..k], info0.(lineno := firstlineno)), entries[k]))
           && r.info.lineno == firstlineno + DeltaSum(entries[..k + 1])
  {
    var info := info0.(lineno := firstlineno);
    hide ParseFrom, Encode, Step, After;
    ParseFromInverts(Encode(entries), 0, entries, 0, addrq, info);
    forall k | 0 <= k < |entries| && Start(entries, k) <= addrq < Start(entries, k + 1)
      ensures Lookup(entries, addrq, info) == Found(Step(After(entries[..k], info), entries[k]))
      ensures After(entries[..k + 1], info).lineno == firstlineno + DeltaSum(entries[..k + 1])
      ensures After(entries[..k + 1], info) == Step(After(entries[..k], info), entries[k])
    {
      CoveringIsUnique(entries, addrq, k);
      AfterLine(entries[..k + 1], info);
      assert entries[..k + 1] == entries[..k] + [entries[k]];
      AfterSplit(entries[..k], [entries[k]], info);
      AfterOne(entries[k], After(entries[..k], info));
    }
  }

  lemma {:induction false} AfterOne(e: Entry, info: LocationInfo)
    ensures After([e], info) == Step(info, e)
  {
    assert [e][1..] == [];
  }

  // ----- Which parts of the answer are right

  predicate SetsEndLine(e: Entry) {
    e.OneLine? || e.Long?
  }

  predicate SetsColumns(e: Entry) {
    !e.NoLocation?
  }

  /** The end line in force after some entries: that of the last entry that had one. */
  function EndLine(entries: seq<Entry>, lineno: int, before: int): int {
    if entries == [] then before
    else
      var line := lineno + LineDelta(entries[0]);
      EndLine(entries[1..], line,
              if entries[0].OneLine? then line
              else if entries[0].Long? then line + entries[0].endDelta
              else before)
  }

  lemma {:induction false} AfterEndLine(entries: seq<Entry>, info: LocationInfo)
    ensures After(entries, info).endLineno == EndLine(entries, info.lineno, info.endLineno)
  {
    if entries != [] {
      StepLine(entries[0], info);
      AfterEndLine(entries[1..], Step(info, entries[0]));
    }
  }

  /** The location that PEP 657 gives to entry `e` reached at line `line`; None is no location. */
  function PepLocation(e: Entry, line: int): Option<LocationInfo> {
    match e
    case Short(_, column, endColumn) => Some(LocationInfo(line, line, column, endColumn))
    case OneLine(_, _, column, endColumn) => Some(LocationInfo(line, line, column, endColumn))
    case NoColumns(_, _) => Some(LocationInfo(line, line, -1, -1))
    case Long(_, _, endDelta, column, endColumn) => Some(LocationInfo(line, line + endDelta, column, endColumn))
    case NoLocation(_) => None
  }

  /** The answer for entry `k` is the location of the standard if and only if the entry has a location
      and either carries its own end line or happens to be on the end line still in force: entries
      that leave the end line out leave the reader with the one of an earlier entry. */
  lemma {:induction false} AnswerIsPepLocationIff(entries: seq<Entry>, k: nat, info: LocationInfo)
    requires k < |entries|
    ensures var line := info.lineno + DeltaSum(entries[..k + 1]);
      Some(Step(After(entries[..k], info), entries[k])) == PepLocation(entries[k], line)
      <==> !entries[k].NoLocation?
           && (SetsEndLine(entries[k]) || EndLine(entries[..k], info.lineno, info.endLineno) == line)
  {
    AfterLine(entries[..k], info);
    AfterEndLine(entries[..k], info);
    DeltaSumOneMore(entries, k);
  }

  lemma {:induction false} DeltaSumOneMore(entries: seq<Entry>, k: nat)
    requires k < |entries|
    ensures DeltaSum(entries[..k + 1]) == DeltaSum(entries[..k]) + LineDelta(entries[k])
  {
    assert entries[..k + 1][1..] == entries[1..][..k];
    if k > 0 {
      assert entries[..k][1..] == entries[1..][..k - 1];
      DeltaSumOneMore(entries[1..], k - 1);
    }
  }

  /** A table on which the answer is wrong: a two-line entry followed by a short one. */
  lemma {:induction false} StaleEndLine()
    ensures var entries := [Long(1, 0, 1, 0, 4), Short(1, 0, 4)];
      && AllEncodable(entries) && LinesFit(entries, 10)
      && ParseFrom(Encode(entries), 0, 0, 1, LocationInfo(10, 0, 0, 0)) == Found(LocationInfo(10, 11, 0, 4))
      && PepLocation(entries[1], 10) == Some(LocationInfo(10, 10, 0, 4))
  {
    var entries := [Long(1, 0, 1, 0, 4), Short(1, 0, 4)];
    assert entries[..1] == [entries[0]] && entries[..2] == entries;
    assert Start(entries, 1) == 1 && Start(entries, 2) == 2 by {
      assert entries[1..] == [entries[1]];
    }
    DecodeInvertsEncode(entries, 1, 10, LocationInfo(0, 0, 0, 0));
    AfterOne(entries[0], LocationInfo(10, 0, 0, 0));
  }

  /** The caller hands in an uninitialised record. The end line of the answer depends on what it held
      if and only if no entry up to the covering one has an end line, and the columns if and only if
      none has columns either. */
  lemma {:induction false} UninitialisedFieldsMatterIff(entries: seq<Entry>, a: LocationInfo, b: LocationInfo)
    requires a.lineno == b.lineno
    ensures After(entries, a).endLineno == After(entries, b).endLineno
       <==> a.endLineno == b.endLineno || exists e :: e in entries && SetsEndLine(e)
    ensures (&& After(entries, a).column == After(entries, b).column
             && After(entries, a).endColumn == After(entries, b).endColumn)
       <==> (a.column == b.column && a.endColumn == b.endColumn) || exists e :: e in entries && SetsColumns(e)
  {
    if entries != [] {
      var e, rest := entries[0], entries[1..];
      UninitialisedFieldsMatterIff(rest, Step(a, e), Step(b, e));
      assert e in entries && forall x :: x in entries <==> x == e || x in rest;
    }
  }
}
