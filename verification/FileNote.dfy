/** The note in which a core file lists its mapped files (NT_FILE): read_obj and parseCoreFileNote in
    corefile.cpp, the layout Linux gives the note, and the proof that the parser accepts exactly that
    layout and returns what was put in. 64-bit files only. */
module FileNote {
  import opened Basics
  import opened Mappings

  const WORD_SIZE: nat := 8

  /** A mapped file as returned, with its offset in bytes; the note knows no more about it. */
  function MappedFile(start: word64, end: word64, offset: word64, path: Text): CoreVirtualMap {
    CoreVirtualMap(start, end, 0, [], offset, [], 0, path, [])
  }

  /** A mapped file as stored, with its offset in pages. */
  datatype FileEntry = FileEntry(start: word64, end: word64, pageOffset: word64, name: Text)

  /** `OutOfBounds` stands for reads past the end of the note, which the source does not prevent. */
  datatype NoteResult = Parsed(maps: seq<CoreVirtualMap>) | Error | OutOfBounds

  // ----- Words

  /** The first `n` bytes as a little-endian number. */
  function FromBytes(bytes: seq<byte>): nat {
    if bytes == [] then 0 else bytes[0] + 256 * FromBytes(bytes[1..])
  }

  function ToBytes(w: nat, n: nat): (r: seq<byte>)
    ensures |r| == n
  {
    if n == 0 then [] else [w % 256] + ToBytes(w / 256, n - 1)
  }

  function Pow256(n: nat): nat {
    if n == 0 then 1 else 256 * Pow256(n - 1)
  }

  lemma {:induction false} FromToBytes(w: nat, n: nat)
    requires w < Pow256(n)
    ensures FromBytes(ToBytes(w, n)) == w
  {
    if n > 0 {
      FromToBytes(w / 256, n - 1);
      assert ToBytes(w, n)[1..] == ToBytes(w / 256, n - 1);
    }
  }

  lemma {:induction false} ToFromBytes(bytes: seq<byte>)
    ensures FromBytes(bytes) < Pow256(|bytes|)
    ensures ToBytes(FromBytes(bytes), |bytes|) == bytes
  {
    if bytes != [] {
      var first, rest := bytes[0], FromBytes(bytes[1..]);
      ToFromBytes(bytes[1..]);
      assert (first + 256 * rest) % 256 == first && (first + 256 * rest) / 256 == rest;
      assert bytes == [first] + bytes[1..];
    }
  }

  lemma {:induction false} WordsFillEightBytes()
    ensures Pow256(WORD_SIZE) == TWO_64
  {
    assert Pow256(4) == 256 * Pow256(3) == 65536 * Pow256(2) == TWO_32;
    assert Pow256(8) == 256 * Pow256(7) == 65536 * Pow256(6);
    assert Pow256(6) == 256 * Pow256(5) == 65536 * Pow256(4);
  }

  /** A word of the note, if it lies inside. */
  function WordAt(data: seq<byte>, ptr: nat): (r: Option<word64>)
    ensures r.Some? <==> ptr + WORD_SIZE <= |data|
  {
    if ptr + WORD_SIZE <= |data| then
      WordsFillEightBytes();
      ToFromBytes(data[ptr..ptr + WORD_SIZE]);
      Some(FromBytes(data[ptr..ptr + WORD_SIZE]))
    else None
  }

  /** The position of the first zero byte at or after `ptr`. */
  function FindNul(data: seq<byte>, ptr: nat): (r: Option<nat>)
    ensures r.Some? ==> ptr <= r.value < |data| && data[r.value] == 0
    ensures r.Some? ==> forall i :: ptr <= i < r.value ==> data[i] != 0
    ensures r.None? ==> forall i :: ptr <= i < |data| ==> data[i] != 0
    decreases |data| - ptr
  {
    if ptr >= |data| then None
    else if data[ptr] == 0 then Some(ptr)
    else FindNul(data, ptr + 1)
  }

  // ----- The layout

  function EncodeTable(entries: seq<FileEntry>): (r: seq<byte>)
    ensures |r| == 3 * WORD_SIZE * |entries|
  {
    if entries == [] then []
    else ToBytes(entries[0].start, WORD_SIZE) + ToBytes(entries[0].end, WORD_SIZE)
         + ToBytes(entries[0].pageOffset, WORD_SIZE) + EncodeTable(entries[1..])
  }

  function EncodeNames(entries: seq<FileEntry>): seq<byte> {
    if entries == [] then [] else entries[0].name + [0] + EncodeNames(entries[1..])
  }

  /** Count, page size, the table of ranges, the table of names, and whatever follows. */
  function EncodeNote(entries: seq<FileEntry>, pageSize: word64, tail: seq<byte>): seq<byte> {
    ToBytes(|entries|, WORD_SIZE) + ToBytes(pageSize, WORD_SIZE) + EncodeTable(entries) + EncodeNames(entries) + tail
  }

  predicate NulFree(name: seq<byte>) {
    forall i :: 0 <= i < |name| ==> name[i] != 0
  }

  predicate NulFreeNames(entries: seq<FileEntry>) {
    forall e | e in entries :: NulFree(e.name)
  }

  function MapOf(e: FileEntry, pageSize: word64): CoreVirtualMap {
    MappedFile(e.start, e.end, e.pageOffset * pageSize % TWO_64, e.name)
  }

  function MapsOf(entries: seq<FileEntry>, pageSize: word64): (r: seq<CoreVirtualMap>)
    ensures |r| == |entries| && forall i :: 0 <= i < |r| ==> r[i] == MapOf(entries[i], pageSize)
  {
    seq(|entries|, i requires 0 <= i < |entries| => MapOf(entries[i], pageSize))
  }

  // ----- The parser

  /** The loop over `count` remaining entries: `ptr` walks the table, `names` the names. None is a name
      that runs past the note: the source copies it before it looks for the terminator. */
  function ParseEntries(data: seq<byte>, ptr: nat, names: nat, count: nat): (r: Option<seq<FileEntry>>)
    requires ptr + 3 * WORD_SIZE * count <= |data|
    ensures r.Some? ==> |r.value| == count
    decreases count
  {
    if count == 0 then Some([])
    else
      var nul := FindNul(data, names);
      if nul.None? then None
      else
        var e := FileEntry(WordAt(data, ptr).value, WordAt(data, ptr + WORD_SIZE).value,
                           WordAt(data, ptr + 2 * WORD_SIZE).value, data[names..nul.value]);
        var rest := ParseEntries(data, ptr + 3 * WORD_SIZE, nul.value + 1, count - 1);
        if rest.None? then None else Some([e] + rest.value)
  }

  function ParseNote(data: seq<byte>): NoteResult {
    if |data| < 2 * WORD_SIZE then OutOfBounds
    else
      var count, pageSize := WordAt(data, 0).value, WordAt(data, WORD_SIZE).value;
      if count > (|data| - 2 * WORD_SIZE) / (3 * WORD_SIZE) then Error
      else
        Converted(ParseEntries(data, 2 * WORD_SIZE, 2 * WORD_SIZE + 3 * WORD_SIZE * count, count), pageSize)
  }

  /** A note is refused exactly if its header is there and the table it announces does not fit. */
  lemma {:induction false} RefusedIff(data: seq<byte>)
    ensures ParseNote(data) == Error
       <==> |data| >= 16 && 16 + 24 * WordAt(data, 0).value > |data|
  {
    hide WordAt, ParseEntries;
  }

  method ParseCoreFileNote(data: seq<byte>) returns (r: NoteResult)
    ensures r == ParseNote(data)
  {
    hide WordAt, FindNul, MapsOf, ParseEntries, Prefixed, Converted;
    if |data| < 2 * WORD_SIZE {
      return OutOfBounds;
    }
    var count, pageSize := WordAt(data, 0).value, WordAt(data, WORD_SIZE).value;
    var ptr := 2 * WORD_SIZE;
    var entrySize := 3 * WORD_SIZE;
    var maxCount := (|data| - ptr) / entrySize;
    if count > maxCount {
      return Error;
    }
    var filenamePtr: nat := ptr + count * entrySize;
    var result: seq<CoreVirtualMap> := [];
    ghost var goal := Converted(ParseEntries(data, ptr, filenamePtr, count), pageSize);
    NothingBefore(goal);
    for i := 0 to count
      invariant ptr == 2 * WORD_SIZE + i * entrySize
      invariant Prefixed(result, Converted(ParseEntries(data, ptr, filenamePtr, count - i), pageSize)) == goal
    {
      OneMoreEntry(data, ptr, filenamePtr, count - i, pageSize, result);
      var start, end := WordAt(data, ptr).value, WordAt(data, ptr + WORD_SIZE).value;
      var offset := WordAt(data, ptr + 2 * WORD_SIZE).value;
      ptr := ptr + entrySize;
      var nul := FindNul(data, filenamePtr);
      if nul.None? {
        return OutOfBounds;
      }
      result := result + [MappedFile(start, end, offset * pageSize % TWO_64, data[filenamePtr..nul.value])];
      filenamePtr := nul.value + 1;
    }
    NothingMore(data, ptr, filenamePtr, pageSize, result);
    return Parsed(result);
  }

  function Converted(entries: Option<seq<FileEntry>>, pageSize: word64): NoteResult {
    if entries.None? then OutOfBounds else Parsed(MapsOf(entries.value, pageSize))
  }

  function Prefixed(before: seq<CoreVirtualMap>, r: NoteResult): NoteResult {
    if r.Parsed? then Parsed(before + r.maps) else r
  }

  lemma {:induction false} NothingBefore(r: NoteResult)
    ensures Prefixed([], r) == r
  {
    assert r.Parsed? ==> [] + r.maps == r.maps;
  }

  lemma {:induction false} NothingMore(data: seq<byte>, ptr: nat, names: nat, pageSize: word64,
                                       result: seq<CoreVirtualMap>)
    requires ptr <= |data|
    ensures Prefixed(result, Converted(ParseEntries(data, ptr, names, 0), pageSize)) == Parsed(result)
  {
    assert MapsOf([], pageSize) == [];
  }

  /** One turn of the loop, with the files found so far in front. */
  lemma {:induction false} OneMoreEntry(data: seq<byte>, ptr: nat, names: nat, count: nat, pageSize: word64,
                                        result: seq<CoreVirtualMap>)
    requires count > 0 && ptr + 3 * WORD_SIZE * count <= |data|
    ensures var nul := FindNul(data, names);
      Prefixed(result, Converted(ParseEntries(data, ptr, names, count), pageSize)) ==
      if nul.None? then OutOfBounds
      else
        var e := FileEntry(WordAt(data, ptr).value, WordAt(data, ptr + WORD_SIZE).value,
                           WordAt(data, ptr + 2 * WORD_SIZE).value, data[names..nul.value]);
        Prefixed(result + [MapOf(e, pageSize)],
                 Converted(ParseEntries(data, ptr + 3 * WORD_SIZE, nul.value + 1, count - 1), pageSize))
  {
    hide WordAt, FindNul, MapsOf;
    var nul := FindNul(data, names);
    if nul.Some? {
      var e := FileEntry(WordAt(data, ptr).value, WordAt(data, ptr + WORD_SIZE).value,
                         WordAt(data, ptr + 2 * WORD_SIZE).value, data[names..nul.value]);
      var rest := ParseEntries(data, ptr + 3 * WORD_SIZE, nul.value + 1, count - 1);
      if rest.Some? {
        MapsOfCons(e, rest.value, pageSize);
        AppendAssociates(result, [MapOf(e, pageSize)], MapsOf(rest.value, pageSize));
      }
    }
  }

  lemma {:induction false} MapsOfCons(e: FileEntry, rest: seq<FileEntry>, pageSize: word64)
    ensures MapsOf([e] + rest, pageSize) == [MapOf(e, pageSize)] + MapsOf(rest, pageSize)
  {
  }

  // ----- Finding what was encoded

  lemma {:induction false} WordIsEncoded(data: seq<byte>, ptr: nat, w: word64)
    ensures At(data, ptr, ToBytes(w, WORD_SIZE)) <==> WordAt(data, ptr) == Some(w)
  {
    if ptr + WORD_SIZE <= |data| {
      WordsFillEightBytes();
      FromToBytes(w, WORD_SIZE);
      ToFromBytes(data[ptr..ptr + WORD_SIZE]);
    }
  }

  /** A name with its terminator stands at `ptr` exactly when the first zero byte ends it. */
  lemma {:induction false} NameIsEncoded(data: seq<byte>, ptr: nat, name: seq<byte>)
    ensures NulFree(name) && At(data, ptr, name + [0])
       <==> FindNul(data, ptr) == Some(ptr + |name|) && data[ptr..ptr + |name|] == name
  {
    var n := |name|;
    AtSplit(data, ptr, name, [0]);
    assert At(data, ptr + n, [0]) <==> ptr + n < |data| && data[ptr + n] == 0 by {
      if ptr + n < |data| { assert data[ptr + n..ptr + n + 1] == [data[ptr + n]]; }
    }
    if NulFree(name) && At(data, ptr, name + [0]) {
      FirstNul(data, ptr, name);
    }
    if FindNul(data, ptr) == Some(ptr + n) && data[ptr..ptr + n] == name {
      forall i | 0 <= i < n ensures name[i] != 0 {
        assert name[i] == data[ptr + i];
      }
    }
  }

  lemma {:induction false} FirstNul(data: seq<byte>, ptr: nat, name: seq<byte>)
    requires ptr + |name| < |data| && data[ptr..ptr + |name|] == name && data[ptr + |name|] == 0 && NulFree(name)
    ensures FindNul(data, ptr) == Some(ptr + |name|)
  {
    hide FindNul;
    assert forall i :: ptr <= i < ptr + |name| ==> data[i] == data[ptr..ptr + |name|][i - ptr];
  }

  predicate EntryAt(data: seq<byte>, ptr: nat, names: nat, e: FileEntry) {
    && WordAt(data, ptr) == Some(e.start)
    && WordAt(data, ptr + WORD_SIZE) == Some(e.end)
    && WordAt(data, ptr + 2 * WORD_SIZE) == Some(e.pageOffset)
    && FindNul(data, names) == Some(names + |e.name|)
    && data[names..names + |e.name|] == e.name
  }

  lemma {:induction false} EncodedCons(entries: seq<FileEntry>)
    requires entries != []
    ensures var e, rest := entries[0], entries[1..];
      && EncodeTable(entries) == ToBytes(e.start, WORD_SIZE) + ToBytes(e.end, WORD_SIZE)
                                 + ToBytes(e.pageOffset, WORD_SIZE) + EncodeTable(rest)
      && EncodeNames(entries) == e.name + [0] + EncodeNames(rest)
  {
    hide ToBytes;
  }

  /** The first entry is found where it was put, and only there. */
  lemma {:induction false} FirstEntryIsEncoded(data: seq<byte>, ptr: nat, names: nat, entries: seq<FileEntry>)
    requires entries != []
    ensures At(data, ptr, EncodeTable(entries)) && At(data, names, EncodeNames(entries)) && NulFree(entries[0].name)
       <==> && EntryAt(data, ptr, names, entries[0])
            && At(data, ptr + 3 * WORD_SIZE, EncodeTable(entries[1..]))
            && At(data, names + |entries[0].name| + 1, EncodeNames(entries[1..]))
  {
    hide At, ToBytes, WordAt, FindNul, NulFree, EncodeTable, EncodeNames;
    var e := entries[0];
    EncodedCons(entries);
    var w0, w1, w2 := ToBytes(e.start, WORD_SIZE), ToBytes(e.end, WORD_SIZE), ToBytes(e.pageOffset, WORD_SIZE);
    AtSplit(data, ptr, w0 + w1 + w2, EncodeTable(entries[1..]));
    AtSplit(data, ptr, w0 + w1, w2);
    AtSplit(data, ptr, w0, w1);
    WordIsEncoded(data, ptr, e.start);
    WordIsEncoded(data, ptr + WORD_SIZE, e.end);
    WordIsEncoded(data, ptr + 2 * WORD_SIZE, e.pageOffset);
    AtSplit(data, names, e.name + [0], EncodeNames(entries[1..]));
    NameIsEncoded(data, names, e.name);
  }

  lemma {:induction false} ParseEntriesStep(data: seq<byte>, ptr: nat, names: nat, e: FileEntry, count: nat)
    requires count > 0 && ptr + 3 * WORD_SIZE * count <= |data|
    requires EntryAt(data, ptr, names, e)
    ensures var rest := ParseEntries(data, ptr + 3 * WORD_SIZE, names + |e.name| + 1, count - 1);
      ParseEntries(data, ptr, names, count) == if rest.None? then None else Some([e] + rest.value)
  {
    hide WordAt, FindNul;
  }

  /** Where a parsed list starts, its first entry is. */
  lemma {:induction false} ParsedFirst(data: seq<byte>, ptr: nat, names: nat, count: nat)
    requires count > 0 && ptr + 3 * WORD_SIZE * count <= |data|
    requires ParseEntries(data, ptr, names, count).Some?
    ensures EntryAt(data, ptr, names, ParseEntries(data, ptr, names, count).value[0])
  {
    hide WordAt, FindNul;
  }

  /** The loop finds a list of entries if and only if their table stands at `ptr` and their names at
      `names`. */
  lemma {:induction false} EntriesParsedIffEncoded(data: seq<byte>, ptr: nat, names: nat, entries: seq<FileEntry>)
    requires ptr + 3 * WORD_SIZE * |entries| <= |data| && names <= |data|
    ensures ParseEntries(data, ptr, names, |entries|) == Some(entries)
       <==> At(data, ptr, EncodeTable(entries)) && At(data, names, EncodeNames(entries)) && NulFreeNames(entries)
    decreases |entries|
  {
    hide EntryAt, EncodeTable, EncodeNames, NulFree, At, ParseEntries;
    if entries == [] {
      NothingToParse(data, ptr, names);
    } else {
      var e, rest := entries[0], entries[1..];
      assert NulFreeNames(entries) <==> NulFree(e.name) && NulFreeNames(rest) by {
        assert entries == [e] + rest;
      }
      FirstEntryIsEncoded(data, ptr, names, entries);
      if EntryAt(data, ptr, names, e) {
        ParseEntriesStep(data, ptr, names, e, |entries|);
        NameInside(data, ptr, names, e);
        EntriesParsedIffEncoded(data, ptr + 3 * WORD_SIZE, names + |e.name| + 1, rest);
        assert [e] + rest == entries;
        Cons(e, rest, ParseEntries(data, ptr + 3 * WORD_SIZE, names + |e.name| + 1, |rest|));
      } else if ParseEntries(data, ptr, names, |entries|) == Some(entries) {
        ParsedFirst(data, ptr, names, |entries|);
      }
    }
  }

  lemma {:induction false} Cons(e: FileEntry, rest: seq<FileEntry>, parsed: Option<seq<FileEntry>>)
    ensures parsed.Some? && [e] + parsed.value == [e] + rest <==> parsed == Some(rest)
  {
    if parsed.Some? && [e] + parsed.value == [e] + rest {
      assert ([e] + parsed.value)[1..] == ([e] + rest)[1..];
    }
  }

  lemma {:induction false} NameInside(data: seq<byte>, ptr: nat, names: nat, e: FileEntry)
    requires EntryAt(data, ptr, names, e)
    ensures names + |e.name| + 1 <= |data|
  {
  }

  lemma {:induction false} NothingToParse(data: seq<byte>, ptr: nat, names: nat)
    requires ptr <= |data| && names <= |data|
    ensures ParseEntries(data, ptr, names, 0) == Some([])
    ensures At(data, ptr, EncodeTable([])) && At(data, names, EncodeNames([]))
  {
  }

  // ----- The whole note

  ghost predicate IsNote(data: seq<byte>, entries: seq<FileEntry>, pageSize: word64, tail: seq<byte>) {
    |entries| < TWO_64 && NulFreeNames(entries) && data == EncodeNote(entries, pageSize, tail)
  }

  /** The parts of a note, each at its place. */
  lemma {:induction false} NoteParts(data: seq<byte>, entries: seq<FileEntry>, pageSize: word64, tail: seq<byte>)
    ensures var table, names := 2 * WORD_SIZE + 3 * WORD_SIZE * |entries|, |EncodeNames(entries)|;
      data == EncodeNote(entries, pageSize, tail)
      <==> && At(data, 0, ToBytes(|entries|, WORD_SIZE)) && At(data, WORD_SIZE, ToBytes(pageSize, WORD_SIZE))
           && At(data, 2 * WORD_SIZE, EncodeTable(entries)) && At(data, table, EncodeNames(entries))
           && At(data, table + names, tail) && |data| == table + names + |tail|
  {
    hide At, ToBytes, EncodeTable, EncodeNames;
    var a, b, c, d := ToBytes(|entries|, WORD_SIZE), ToBytes(pageSize, WORD_SIZE), EncodeTable(entries),
         EncodeNames(entries);
    WholeIsAt(data, a + b + c + d + tail);
    AtSplit(data, 0, a + b + c + d, tail);
    AtSplit(data, 0, a + b + c, d);
    AtSplit(data, 0, a + b, c);
    AtSplit(data, 0, a, b);
  }

  lemma {:induction false} WholeIsAt(data: seq<byte>, whole: seq<byte>)
    ensures data == whole <==> At(data, 0, whole) && |data| == |whole|
  {
  }

  /** Round trip: from any list of files in the Linux layout the parser returns exactly that list, with
      offsets turned into bytes modulo 2^64, and never reads outside the note. */
  lemma {:induction false} ParseInvertsEncode(entries: seq<FileEntry>, pageSize: word64, tail: seq<byte>)
    requires NulFreeNames(entries) && |entries| < TWO_64
    ensures var r := ParseNote(EncodeNote(entries, pageSize, tail));
      && r.Parsed? && |r.maps| == |entries|
      && forall i :: 0 <= i < |entries| ==>
           && r.maps[i].start == entries[i].start && r.maps[i].end == entries[i].end
           && r.maps[i].offset == entries[i].pageOffset * pageSize % TWO_64 && r.maps[i].path == entries[i].name
           && r.maps[i].filesize == r.maps[i].inode == 0
           && r.maps[i].flags == r.maps[i].device == r.maps[i].buildid == []
  {
    hide At, ToBytes, EncodeNote, ParseNote;
    ParsesToMaps(entries, pageSize, tail);
  }

  lemma {:induction false} ParsesToMaps(entries: seq<FileEntry>, pageSize: word64, tail: seq<byte>)
    requires NulFreeNames(entries) && |entries| < TWO_64
    ensures ParseNote(EncodeNote(entries, pageSize, tail)) == Parsed(MapsOf(entries, pageSize))
  {
    hide At, ToBytes, EncodeTable, EncodeNames, EncodeNote, ParseEntries, MapsOf, WordAt;
    var data := EncodeNote(entries, pageSize, tail);
    NoteParts(data, entries, pageSize, tail);
    WordIsEncoded(data, 0, |entries|);
    WordIsEncoded(data, WORD_SIZE, pageSize);
    EntriesParsedIffEncoded(data, 2 * WORD_SIZE, 2 * WORD_SIZE + 3 * WORD_SIZE * |entries|, entries);
  }

  /** The parser accepts a note if and only if it has the Linux layout. */
  lemma {:induction false} ParsedIffEncoded(data: seq<byte>)
    ensures ParseNote(data).Parsed?
       <==> exists entries, pageSize, tail :: IsNote(data, entries, pageSize, tail)
  {
    hide At, ToBytes, EncodeTable, EncodeNames, EncodeNote, ParseEntries, WordAt;
    if ParseNote(data).Parsed? {
      var count, pageSize := WordAt(data, 0).value, WordAt(data, WORD_SIZE).value;
      var table := 2 * WORD_SIZE + 3 * WORD_SIZE * count;
      var entries := ParseEntries(data, 2 * WORD_SIZE, table, count).value;
      EntriesParsedIffEncoded(data, 2 * WORD_SIZE, table, entries);
      WordIsEncoded(data, 0, count);
      WordIsEncoded(data, WORD_SIZE, pageSize);
      var tail := TailAt(data, table, EncodeNames(entries));
      NoteParts(data, entries, pageSize, tail);
      assert IsNote(data, entries, pageSize, tail);
    }
    forall entries, pageSize, tail | IsNote(data, entries, pageSize, tail)
      ensures ParseNote(data).Parsed?
    {
      ParseInvertsEncode(entries, pageSize, tail);
    }
  }

  lemma {:induction false} TailAt(data: seq<byte>, ptr: nat, part: seq<byte>) returns (tail: seq<byte>)
    requires At(data, ptr, part)
    ensures At(data, ptr + |part|, tail) && |data| == ptr + |part| + |tail|
  {
    tail := data[ptr + |part|..];
  }
}
