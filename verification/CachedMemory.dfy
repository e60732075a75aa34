/** Reading the memory of a stopped process: in pieces, through the memory file, or through the cache
    of whole mappings (ProcessMemoryManager in mem.cpp). */
module CachedMemory {
  import opened Basics
  import opened Mappings
  import opened LruModel
  import opened LruCache

  /** The readable bytes of the frozen process. */
  type Memory = map<int, byte>

  predicate Readable(mem: Memory, addr: int, len: nat) {
    forall a | addr <= a < addr + len :: a in mem
  }

  /** What reading a range means: all of its bytes, or an invalid address if any cannot be read. */
  function Read(mem: Memory, addr: int, len: nat): (r: Option<seq<byte>>)
    ensures r.Some? <==> Readable(mem, addr, len)
    ensures r.Some? ==> |r.value| == len && forall i :: 0 <= i < len ==> r.value[i] == mem[addr + i]
  {
    if Readable(mem, addr, len) then Some(seq(len, i requires 0 <= i < len => mem[addr + i])) else None
  }

  lemma {:induction false} ReadInside(mem: Memory, addr: int, len: nat, offset: nat, n: nat)
    requires offset + n <= len && Read(mem, addr, len).Some?
    ensures Read(mem, addr + offset, n) == Some(Read(mem, addr, len).value[offset..offset + n])
  {
    assert Read(mem, addr + offset, n).value == Read(mem, addr, len).value[offset..offset + n];
  }

  lemma {:induction false} ReadNothing(mem: Memory, addr: int)
    ensures Read(mem, addr, 0) == Some([])
  {
  }

  lemma {:induction false} HoleInRange(mem: Memory, addr: int, len: nat, n: nat)
    requires n < len && addr + n !in mem
    ensures Read(mem, addr, len) == None
  {
  }

  lemma {:induction false} ReadAppend(mem: Memory, addr: int, n: nat, m: nat)
    requires Read(mem, addr, n).Some? && Read(mem, addr + n, m).Some?
    ensures Read(mem, addr, n + m) == Some(Read(mem, addr, n).value + Read(mem, addr + n, m).value)
  {
    assert forall a :: addr + n <= a < addr + n + m ==> a in mem;
    assert Read(mem, addr, n + m).value == Read(mem, addr, n).value + Read(mem, addr + n, m).value;
  }

  /** The outcome of a read. `Refused` is any error other than an invalid address; `OutOfBounds` is a
      copy from beyond the end of a cached mapping, which the source does not prevent. */
  datatype ReadResult = Bytes(bytes: seq<byte>) | InvalidAddress | Refused(errno: nat) | OutOfBounds

  function Direct(mem: Memory, addr: int, len: nat): ReadResult {
    match Read(mem, addr, len)
    case Some(bytes) => Bytes(bytes)
    case None => InvalidAddress
  }

  /** The end of user space on 64-bit Linux, with five-level page tables. */
  const USER_SPACE_END: int := 0x0100_0000_0000_0000

  /** Readable memory of a process lies in user space. */
  ghost predicate UserSpace(mem: Memory) {
    forall a :: a in mem ==> 0 <= a < USER_SPACE_END
  }

  // ----- One system call

  const EINVAL: nat := 22

  /** What the kernel chooses: to move all it can, to move at most so many bytes, or to fail. */
  datatype Mood = MovesAll | Moves(most: nat) | Fails(errno: nat)

  predicate AnyFails(moods: seq<Mood>) {
    exists mood :: mood in moods && mood.Fails?
  }

  /** Later choices of the kernel, after it has used up some. */
  ghost predicate GoesOn(before: seq<Mood>, after: seq<Mood>) {
    |after| <= |before| && before[|before| - |after|..] == after
  }

  ghost function Used(before: seq<Mood>, after: seq<Mood>): seq<Mood>
    requires GoesOn(before, after)
  {
    before[..|before| - |after|]
  }

  lemma {:induction false} UsedJoins(a: seq<Mood>, b: seq<Mood>, c: seq<Mood>)
    requires GoesOn(a, b) && GoesOn(b, c)
    ensures GoesOn(a, c) && Used(a, c) == Used(a, b) + Used(b, c)
    ensures AnyFails(Used(a, c)) <==> AnyFails(Used(a, b)) || AnyFails(Used(b, c))
  {
    assert forall mood :: mood in Used(a, b) + Used(b, c) <==> mood in Used(a, b) || mood in Used(b, c);
  }

  lemma {:induction false} NothingUsed(moods: seq<Mood>)
    ensures GoesOn(moods, moods) && Used(moods, moods) == [] && !AnyFails(Used(moods, moods))
  {
  }

  /** The last of some choices and then of some more. */
  lemma {:induction false} LastUsed(a: seq<Mood>, b: seq<Mood>, c: seq<Mood>)
    requires GoesOn(a, b) && !AnyFails(Used(a, b)) && GoesOn(b, c)
    ensures GoesOn(a, c)
    ensures var used, later := Used(a, c), Used(b, c);
      && (AnyFails(used) <==> AnyFails(later))
      && (later != [] ==>
            && used != [] && used[|used| - 1] == later[|later| - 1]
            && (AnyFails(used[..|used| - 1]) <==> AnyFails(later[..|later| - 1])))
  {
    UsedJoins(a, b, c);
    var first, later := Used(a, b), Used(b, c);
    if later != [] {
      var init := later[..|later| - 1];
      assert (first + later)[..|first + later| - 1] == first + init;
      assert forall mood :: mood in first + init <==> mood in first || mood in init;
    }
  }

  /** One more choice is used up, or none is left to use. */
  lemma {:induction false} OneMoreUsed(a: seq<Mood>, b: seq<Mood>, c: seq<Mood>, mood: Mood)
    requires GoesOn(a, b) && !AnyFails(Used(a, b)) && GoesOn(b, c)
    requires Used(b, c) == (if c == b then [] else [mood]) && (c == b ==> mood == MovesAll)
    ensures GoesOn(a, c)
    ensures var used := Used(a, c);
      if mood.Fails? then used != [] && used[|used| - 1] == mood && !AnyFails(used[..|used| - 1]) else !AnyFails(used)
    ensures |c| <= |b| && (|c| == |b| ==> mood == MovesAll)
  {
    UsedJoins(a, b, c);
    assert c != b ==> (Used(a, b) + [mood])[..|Used(a, b)|] == Used(a, b);
    assert |c| == |b| ==> c == b;
  }

  /** Choices none of which is a failure leave none behind and use none up. */
  lemma {:induction false} WillingGoesOn(before: seq<Mood>, after: seq<Mood>)
    requires GoesOn(before, after) && !AnyFails(before)
    ensures !AnyFails(after) && !AnyFails(Used(before, after))
    ensures var used := Used(before, after);
      used != [] ==> !used[|used| - 1].Fails?
  {
    assert before == Used(before, after) + after;
    assert forall mood :: mood in after || mood in Used(before, after) ==> mood in before;
  }

  datatype ReadvResult = Moved(bytes: seq<byte>) | Fault | NotImplemented | Failed(errno: nat)

  /** How many bytes from `addr` on can be read, up to `len`. */
  function ReadablePrefix(mem: Memory, addr: int, len: nat): (n: nat)
    ensures n <= len && Readable(mem, addr, n)
    ensures n < len ==> addr + n !in mem
    decreases len
  {
    if len == 0 || addr !in mem then 0 else 1 + ReadablePrefix(mem, addr + 1, len - 1)
  }

  /** process_vm_readv on one range: it may stop short of what it could move, even of the first byte; it
      faults if there is no first byte to move; it refuses lengths that are negative as signed numbers,
      and whenever it likes. Old kernels lack the call. */
  function ProcessVmReadv(mem: Memory, available: bool, mood: Mood, addr: int, len: nat): ReadvResult {
    var n := ReadablePrefix(mem, addr, len);
    if !available then NotImplemented
    else if mood.Fails? then Failed(mood.errno)
    else if len >= TWO_63 then Failed(EINVAL)
    else if len == 0 || mood == Moves(0) then Moved([])
    else if n == 0 then Fault
    else Moved(Read(mem, addr, if mood.Moves? && mood.most <= n then mood.most else n).value)
  }

  lemma {:induction false} ReadvSays(mem: Memory, available: bool, mood: Mood, addr: int, len: nat)
    ensures match ProcessVmReadv(mem, available, mood, addr, len)
      case Moved(bytes) =>
        && available && !mood.Fails? && |bytes| <= len && Read(mem, addr, |bytes|) == Some(bytes)
        && (len > 0 && mood.MovesAll? ==> bytes != [])
      case Fault => available && !mood.Fails? && len > 0 && addr !in mem
      case Failed(errno) => available && if mood.Fails? then mood == Fails(errno) else len >= TWO_63 && errno == EINVAL
      case NotImplemented => !available
  {
  }

  predicate HoldsEnds(m: VirtualMap, addr: word64, len: nat) {
    m.ContainsAddr(addr) && m.ContainsAddr((addr + len - 1) % TWO_64)
  }

  /** The first mapping that holds the first and the last byte of the range; the last byte's address
      is computed on 64-bit words. */
  function FindMap(maps: seq<VirtualMap>, addr: word64, len: nat): (r: Option<VirtualMap>)
    ensures r.Some? ==> r.value in maps && HoldsEnds(r.value, addr, len)
    ensures r.None? ==> forall m :: m in maps ==> !HoldsEnds(m, addr, len)
  {
    if maps == [] then None
    else if HoldsEnds(maps[0], addr, len) then Some(maps[0])
    else FindMap(maps[1..], addr, len)
  }

  /** Cached mappings are found again by their start address alone. */
  ghost predicate StartsIdentify(maps: seq<VirtualMap>) {
    forall m, m' :: m in maps && m' in maps && m.start == m'.start && m.start < m.end && m'.start < m'.end ==> m == m'
  }

  ghost predicate PairwiseDisjoint(maps: seq<VirtualMap>) {
    forall i, j :: 0 <= i < j < |maps| ==> maps[i].end <= maps[j].start || maps[j].end <= maps[i].start
  }

  lemma {:induction false} DisjointStartsIdentify(maps: seq<VirtualMap>)
    requires PairwiseDisjoint(maps)
    ensures StartsIdentify(maps)
  {
  }

  /** The copy out of the cache would run past the mapping: the range wraps around the end of the
      address space, back into the mapping it starts in, and that mapping is cached or can be. */
  ghost predicate RunsPastMapping(maps: seq<VirtualMap>, mem: Memory, capacity: nat, addr: word64, len: word64) {
    var found := FindMap(maps, addr, len);
    && addr + len > TWO_64
    && found.Some? && found.value.Size() <= capacity
    && Readable(mem, found.value.start, found.value.Size())
  }

  /** That takes a length of more than half the address space, which is negative as a signed number. */
  lemma {:induction false} OnlyHugeLengthsRunPast(maps: seq<VirtualMap>, mem: Memory, capacity: nat, addr: word64,
                                                  len: word64)
    requires UserSpace(mem) && RunsPastMapping(maps, mem, capacity, addr, len)
    ensures len > TWO_63
  {
    hide FindMap;
    assert addr in mem;
  }

  /** A process with one readable page, mapped at 4096. */
  function OnePage(): VirtualMap {
    VirtualMap(4096, 8192, 4096, [], 0, [], 0, [])
  }

  predicate InPage(a: int) {
    4096 <= a < 8192
  }

  function PageMemory(): Memory {
    map a | 4096 <= a < 8192 && InPage(a) :: 0
  }

  /** A range that does: from within the page, four bytes short of the whole address space. */
  lemma {:induction false} WrappingCopyRunsPast()
    ensures UserSpace(PageMemory())
    ensures RunsPastMapping([OnePage()], PageMemory(), 4096, 5000, TWO_64 - 4)
  {
    assert [OnePage()][0] == OnePage();
  }

  lemma {:induction false} InsideMapping(maps: seq<VirtualMap>, addr: word64, len: word64)
    requires FindMap(maps, addr, len).Some?
    ensures var m := FindMap(maps, addr, len).value;
      && m.start <= addr && m.start < m.end
      && (addr - m.start + len <= m.Size() <==> addr + len <= TWO_64)
  {
    hide FindMap;
  }

  /** Seeking the memory file takes a signed offset, so even reading nothing fails in the upper half. */
  predicate Ordinary(addr: word64, len: nat) {
    len > 0 || addr < TWO_63
  }

  class ProcessMemoryManager {
    const mem: Memory
    const maps: seq<VirtualMap>
    const cache: LRUCache
    const readvAvailable: bool
    const memFileErrno: nat
    var usesMemFile: bool
    var moods: seq<Mood>

    /** `memFileErrno` is the error of opening the memory file, 0 for none; `moods` is what the kernel will
        choose, call by call. */
    constructor (mem: Memory, maps: seq<VirtualMap>, capacity: nat, readvAvailable: bool, memFileErrno: nat,
                 forceMemFile: bool, moods: seq<Mood>)
      requires StartsIdentify(maps) && UserSpace(mem)
      ensures Valid() && fresh(cache)
      ensures this.mem == mem && this.maps == maps && cache.View().capacity == capacity
      ensures this.readvAvailable == readvAvailable && this.memFileErrno == memFileErrno && this.moods == moods
    {
      this.mem := mem;
      this.maps := maps;
      this.cache := new LRUCache(capacity);
      this.readvAvailable := readvAvailable;
      this.memFileErrno := memFileErrno;
      this.usesMemFile := forceMemFile;
      this.moods := moods;
    }

    /** Whatever is cached is the content of a whole mapping. */
    ghost predicate Valid()
      reads this, cache
    {
      && StartsIdentify(maps) && UserSpace(mem)
      && cache.Valid()
      && Exact(cache.View())
      && forall e :: e in cache.View().entries ==> IsMapContent(maps, mem, e)
    }

    /** The kernel will not fail a read of ordinary length. */
    ghost predicate Willing()
      reads this
    {
      memFileErrno == 0 && !AnyFails(moods)
    }

    /** Why a read is refused: the last system call made for it failed like that; or all of them were fine, but
        the length is negative as a signed number, or the memory file is needed and cannot be opened. */
    twostate predicate RefusedFor(errno: nat, huge: bool)
      reads this
    {
      && GoesOn(old(moods), moods)
      && var used := Used(old(moods), moods);
        || (used != [] && used[|used| - 1] == Fails(errno) && !AnyFails(used[..|used| - 1]))
        || (!AnyFails(used) && huge && errno == EINVAL)
        || (!AnyFails(used) && memFileErrno != 0 && errno == memFileErrno && (usesMemFile || !readvAvailable))
    }

    twostate predicate NothingFailed()
      reads this
    {
      GoesOn(old(moods), moods) && !AnyFails(Used(old(moods), moods))
    }

    /** A read is refused for one of those reasons, or no system call has failed and it gives what is
        expected; if nothing is read at an address that is not ordinary, it may also fail. */
    twostate predicate Outcome(r: ReadResult, expected: ReadResult, ordinary: bool, huge: bool)
      reads this
    {
      match r
      case Refused(errno) => RefusedFor(errno, huge)
      case _ => NothingFailed() && (r == expected || (!ordinary && r.InvalidAddress?))
    }

    /** A kernel without the call makes no choices about it. */
    method NextMood() returns (mood: Mood)
      modifies this`moods
      ensures GoesOn(old(moods), moods)
      ensures Used(old(moods), moods) == if moods == old(moods) then [] else [mood]
      ensures moods == old(moods) ==> mood == MovesAll
      ensures !readvAvailable ==> moods == old(moods)
    {
      mood := MovesAll;
      if readvAvailable && moods != [] {
        mood := moods[0];
        moods := moods[1..];
      }
    }

    method ReadChunkThroughMemFile(addr: word64, len: word64) returns (r: ReadResult)
      requires UserSpace(mem)
      requires usesMemFile || !readvAvailable
      modifies this`usesMemFile
      ensures Outcome(r, Direct(mem, addr, len), Ordinary(addr, len), false)
      ensures usesMemFile <==> old(usesMemFile) || memFileErrno == 0
    {
      NothingUsed(moods);
      if memFileErrno != 0 {
        return Refused(memFileErrno);
      }
      usesMemFile := true;
      if addr >= TWO_63 {
        assert len > 0 ==> addr !in mem;
        return InvalidAddress;
      }
      return Direct(mem, addr, len);
    }

    /** Moves pieces, some of them empty, until the range is complete; a fault anywhere in it is an invalid
        address. */
    method ReadChunkDirect(addr: word64, len: word64) returns (r: ReadResult)
      requires UserSpace(mem)
      modifies this`usesMemFile, this`moods
      ensures Outcome(r, Direct(mem, addr, len), Ordinary(addr, len), len >= TWO_63)
    {
      hide ProcessVmReadv, Read, UserSpace, AnyFails, GoesOn, Used;
      ReadNothing(mem, addr);
      var dst: seq<byte> := [];
      var done := false;
      NothingUsed(moods);
      while !done
        invariant NothingFailed() && usesMemFile == old(usesMemFile)
        invariant |dst| <= len && Read(mem, addr, |dst|) == Some(dst)
        invariant done ==> |dst| == len
        decreases |moods|, len - |dst|, !done
      {
        var result := |dst|;
        ghost var before := moods;
        var mood := NextMood();
        OneMoreUsed(old(moods), before, moods, mood);
        ReadvSays(mem, readvAvailable, mood, addr + result, len - result);
        match ProcessVmReadv(mem, readvAvailable, mood, addr + result, len - result)
        case NotImplemented =>
          NothingUsed(moods);
          r := ReadChunkThroughMemFile(addr, len);
          return;
        case Fault =>
          HoleInRange(mem, addr, len, result);
          return InvalidAddress;
        case Failed(errno) =>
          return Refused(errno);
        case Moved(bytes) =>
          ReadAppend(mem, addr, result, |bytes|);
          done := |bytes| == len - result;
          dst := dst + bytes;
      }
      return Bytes(dst);
    }

    method ReadChunk(addr: word64, len: word64) returns (r: ReadResult)
      requires UserSpace(mem)
      modifies this`usesMemFile, this`moods
      ensures Outcome(r, Direct(mem, addr, len), Ordinary(addr, len), len >= TWO_63)
    {
      if usesMemFile {
        r := ReadChunkThroughMemFile(addr, len);
      } else {
        r := ReadChunkDirect(addr, len);
      }
    }

    /** Cached reads are indistinguishable from direct reads: same bytes, same failures, whether the
        mapping is cached, is being cached, does not fit, or cannot be read as a whole, and unless the
        kernel refuses. The one exception is a range that wraps around into its own cached mapping. A
        mapping that is cached is read without a system call, and one that fits and can be read is
        cached afterwards. */
    method CopyMemoryFromProcess(addr: word64, len: word64) returns (r: ReadResult)
      requires Valid()
      modifies this, cache
      ensures Valid()
      ensures cache.View().capacity == old(cache.View().capacity)
      ensures var past := RunsPastMapping(maps, mem, old(cache.View().capacity), addr, len);
        Outcome(r, if past then OutOfBounds else Direct(mem, addr, len), Ordinary(addr, len),
                len >= TWO_63 || cache.View().capacity >= TWO_63)
      ensures old(Willing()) ==> Willing() && (len < TWO_63 && cache.View().capacity < TWO_63 ==> !r.Refused?)
      ensures var found := FindMap(maps, addr, len);
        found.Some? && found.value.Size() <= cache.View().capacity ==>
          && (old(cache.Exists(found.value.start)) ==> moods == old(moods) && usesMemFile == old(usesMemFile))
          && (!r.Refused? && Readable(mem, found.value.start, found.value.Size()) ==> cache.Exists(found.value.start))
    {
      hide Find, FindMap, Inv, Exact, LinkedOn, IsMapContent, StartsIdentify, UserSpace, Read, AnyFails, GoesOn, Used,
           NothingFailed, RefusedFor, Willing, LRUCache.Valid, LRUCache.Exists;
      Unused();
      var found := FindMap(maps, addr, len);
      if found.None? || !cache.CanFit(found.value.Size()) {
        r := ReadChunk(addr, len);
        StaysWilling(r);
        return;
      }
      var vmap := found.value;
      InsideMapping(maps, addr, len);
      var offset := addr - vmap.start;
      if !cache.Exists(vmap.start) {
        var failure := FillCache(vmap, addr, len);
        if failure.Some? {
          StaysWilling(failure.value);
          return failure.value;
        }
      }
      r := ReadCached(vmap, offset, len);
      StaysWilling(r);
    }

    twostate lemma {:induction false} Unused()
      requires moods == old(moods)
      ensures NothingFailed()
    {
      NothingUsed(moods);
    }

    /** A willing kernel refuses nothing of ordinary length, and stays willing. */
    twostate lemma {:induction false} StaysWilling(r: ReadResult)
      requires if r.Refused? then RefusedFor(r.errno, false) || RefusedFor(r.errno, true) else NothingFailed()
      ensures old(Willing()) ==> Willing() && (r.Refused? ==> !RefusedFor(r.errno, false))
      ensures r.Refused? && RefusedFor(r.errno, false) ==> RefusedFor(r.errno, true)
    {
      if old(Willing()) {
        WillingGoesOn(old(moods), moods);
      }
    }

    /** Caches the mapping the range is in; if that cannot be read as a whole, reads the range by itself. */
    method FillCache(vmap: VirtualMap, addr: word64, len: word64) returns (r: Option<ReadResult>)
      requires Valid() && vmap in maps && vmap.start < vmap.end
      requires cache.CanFit(vmap.Size()) && !cache.Exists(vmap.start)
      modifies this, cache
      ensures Valid() && cache.View().capacity == old(cache.View().capacity)
      ensures match r
        case None => NothingFailed() && cache.Exists(vmap.start)
        case Some(failure) =>
          && Outcome(failure, Direct(mem, addr, len), Ordinary(addr, len), len >= TWO_63 || vmap.Size() >= TWO_63)
          && (failure.Refused? || !Readable(mem, vmap.start, vmap.Size()))
    {
      hide Find, Inv, Exact, LinkedOn, IsMapContent, StartsIdentify, UserSpace, Read, AnyFails, GoesOn, Used,
           LRUCache.Valid, LRUCache.View, LRUCache.Exists;
      var whole := CacheWholeMap(vmap);
      if whole.Refused? {
        return Some(whole);
      }
      if whole.InvalidAddress? {
        ghost var between := moods;
        var chunk := ReadChunk(addr, len);
        LastUsed(old(moods), between, moods);
        return Some(chunk);
      }
      return None;
    }

    /** Copies out of a cached mapping. */
    method ReadCached(vmap: VirtualMap, offset: nat, len: nat) returns (r: ReadResult)
      requires Valid() && vmap in maps && vmap.start < vmap.end && cache.Exists(vmap.start)
      modifies cache
      ensures Valid() && cache.View().capacity == old(cache.View().capacity)
      ensures Readable(mem, vmap.start, vmap.Size()) && cache.Exists(vmap.start)
      ensures r == if offset + len <= vmap.Size() then Direct(mem, vmap.start + offset, len) else OutOfBounds
    {
      hide Find, Inv, Exact, LinkedOn, IsMapContent, StartsIdentify, UserSpace, Read, LRUCache.Valid, LRUCache.View,
           LRUCache.Exists;
      CachedIsMap(cache.View().entries, maps, mem, vmap);
      KeyFacts(cache, vmap.start);
      GetPresent(cache.View(), vmap.start);
      var data := cache.GetValue(vmap.start);
      KeyFacts(cache, vmap.start);
      GetFinds(old(cache.View()), vmap.start, vmap.start);
      if offset + len > |data.value| {
        return OutOfBounds;
      }
      ReadInside(mem, vmap.start, vmap.Size(), offset, len);
      return Bytes(data.value[offset..offset + len]);
    }

    /** Reads a mapping as a whole into the cache, if it can be read. */
    method CacheWholeMap(vmap: VirtualMap) returns (r: ReadResult)
      requires Valid() && vmap in maps && vmap.start < vmap.end
      requires cache.CanFit(vmap.Size()) && !cache.Exists(vmap.start)
      modifies this, cache
      ensures Valid() && cache.View().capacity == old(cache.View().capacity)
      ensures Outcome(r, Direct(mem, vmap.start, vmap.Size()), true, vmap.Size() >= TWO_63)
      ensures r.Bytes? ==> cache.Exists(vmap.start)
    {
      hide Find, Unaccounted, Inv, Exact, LinkedOn, UserSpace, LRUCache.Valid, LRUCache.Exists;
      r := ReadChunk(vmap.start, vmap.Size());
      if !r.Bytes? {
        return;
      }
      KeyFacts(cache, vmap.start);
      PutAbsent(cache.View(), vmap.start, r.bytes);
      assert IsMapContent(maps, mem, Entry(vmap.start, r.bytes));
      var stuck := cache.PutValue(vmap.start, r.bytes);
      KeyFacts(cache, vmap.start);
    }
  }

  /** The entry is the content of one of the mappings. */
  ghost predicate IsMapContent(maps: seq<VirtualMap>, mem: Memory, e: Entry) {
    exists m :: m in maps && m.start < m.end && e.key == m.start && Read(mem, m.start, m.Size()) == Some(e.data)
  }

  lemma {:induction false} CachedIsMap(entries: seq<Entry>, maps: seq<VirtualMap>, mem: Memory, vmap: VirtualMap)
    requires StartsIdentify(maps) && vmap in maps && vmap.start < vmap.end
    requires forall e :: e in entries ==> IsMapContent(maps, mem, e)
    ensures var found := Find(entries, vmap.start);
      found.None? || found == Read(mem, vmap.start, vmap.Size())
  {
    var found := Find(entries, vmap.start);
    if found.Some? {
      assert IsMapContent(maps, mem, Entry(vmap.start, found.value));
    }
  }
}
