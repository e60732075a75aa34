/** Memory mappings of a process and of a core file (mem.h, corefile.h). */
module Mappings {
  import opened Basics

  /** The bytes of a std::string. */
  type Text = seq<byte>

  datatype VirtualMap = VirtualMap(start: word64, end: word64, filesize: word64, flags: Text, offset: word64,
                                   device: Text, inode: word64, path: Text)
  {
    predicate ContainsAddr(addr: int) {
      start <= addr < end
    }

    function Size(): word64 {
      (end - start) % TWO_64
    }
  }

  datatype CoreVirtualMap = CoreVirtualMap(start: word64, end: word64, filesize: word64, flags: Text, offset: word64,
                                           device: Text, inode: word64, path: Text, buildid: Text)
}
