/** The writer as the program it is: methods that change the image array in place, each proved
    to leave exactly what its specification function says. */
module Ext2Writer {
  import opened Wrappers
  import opened Bytes
  import opened Ext2Layout
  import opened Ext2Alloc
  import opened Ext2File
  import opened Ext2Dirent
  import opened Ext2Ops

  // ----- reading and writing fields -----

  function ReadU16(image: array<byte>, at: nat): (v: nat)
    requires at + 2 <= image.Length
    reads image
    ensures v == U16(image[..], at)
  {
    image[at] as int + 256 * image[at + 1] as int
  }

  function ReadU32(image: array<byte>, at: nat): (v: nat)
    requires at + 4 <= image.Length
    reads image
    ensures v == U32(image[..], at)
  {
    image[at] as int + 256 * image[at + 1] as int + 65536 * image[at + 2] as int + 16777216 * image[at + 3] as int
  }

  /** `copy_from_slice`. */
  method Store(image: array<byte>, at: nat, bytes: seq<byte>)
    requires at + |bytes| <= image.Length
    modifies image
    ensures image[..] == Put(old(image[..]), at, bytes)
  {
    var n := 0;
    while n < |bytes|
      invariant n <= |bytes|
      invariant forall p :: 0 <= p < image.Length && !(at <= p < at + n) ==> image[p] == old(image[p])
      invariant forall p :: at <= p < at + n ==> image[p] == bytes[p - at]
    {
      image[at + n] := bytes[n];
      n := n + 1;
    }
  }

  /** `fill(0)`. */
  method Wipe(image: array<byte>, at: nat, len: nat)
    requires at + len <= image.Length
    modifies image
    ensures image[..] == Put(old(image[..]), at, Zeros(len))
  {
    var n := 0;
    while n < len
      invariant n <= len
      invariant forall p :: 0 <= p < image.Length && !(at <= p < at + n) ==> image[p] == old(image[p])
      invariant forall p :: at <= p < at + n ==> image[p] == 0
    {
      image[at + n] := 0;
      n := n + 1;
    }
  }

  // ----- blocks -----

  /** The inner loop of both allocators: the first clear bit of [from, span). */
  method SearchBitmap(image: array<byte>, bitmap: nat, from: nat, span: nat) returns (p: Probe)
    ensures p == FindClear(image[..], bitmap, from, span)
  {
    var i := from;
    while i < span
      invariant from <= i
      invariant FindClear(image[..], bitmap, from, span) == FindClear(image[..], bitmap, i, span)
    {
      if bitmap + i / 8 >= image.Length { return Outside; }
      if !Bit(image[bitmap + i / 8], i % 8) { return Clear(i); }
      i := i + 1;
    }
    p := AllUsed;
  }

  /** Writes the bit byte and both counters of one site. */
  method WriteSite(image: array<byte>, s: Site, b: byte, groupFree: nat, total: nat)
    requires SiteInside(image.Length, s) && groupFree < 0x1_0000 && total < 0x1_0000_0000
    modifies image
    ensures image[..] == Written(old(image[..]), s, b, groupFree, total)
  {
    hide Put, Le16, Le32;
    Store(image, s.byteAt, [b]);
    Store(image, s.groupAt, Le16(groupFree));
    Store(image, s.totalAt, Le32(total));
  }

  /** `allocate_block`. */
  method AllocateBlock(image: array<byte>, L: Layout) returns (r: Res<nat>)
    requires LayoutOf(image.Length, L)
    modifies image
    ensures (r, image[..]) == AllocBlock(old(image[..]), L)
  {
    hide U16, U32, Put, Bit, SetBit, LayoutOf, Times, Written, FindClear;
    ghost var img := image[..];
    var g := 0;
    while g < L.groupCount
      invariant g <= L.groupCount && image[..] == img
      invariant AllocBlock(img, L) == AllocBlockFrom(img, L, g)
    {
      GroupStarts(image.Length, L, g);
      var d := DescAt(L, g);
      var bitmap := BlockAt(L, ReadU32(image, d));
      var found := SearchBitmap(image, bitmap, 0, BlockSpan(L, g));
      match found
      case Outside => return Err(ImageTooSmall);
      case AllUsed => g := g + 1;
      case Clear(i) =>
        var s := Site(bitmap + i / 8, i % 8, d + 12, FREE_BLOCKS_AT);
        if ReadU16(image, s.groupAt) == 0 || ReadU32(image, s.totalAt) == 0 { return Err(FreeCountInconsistent); }
        WriteSite(image, s, SetBit(image[s.byteAt], s.bit), ReadU16(image, s.groupAt) - 1,
          ReadU32(image, s.totalAt) - 1);
        return Ok(L.firstData + Times(g, L.bpg) + i);
    }
    r := Err(Full);
  }

  /** `free_block`. */
  method ReleaseBlock(image: array<byte>, L: Layout, block: nat) returns (r: Res<()>)
    requires LayoutOf(image.Length, L)
    modifies image
    ensures (r, image[..]) == FreeBlock(old(image[..]), L, block)
  {
    hide U16, U32, Put, Bit, ClearBit, LayoutOf, Times, Quot, Rem;
    if block >= L.blocksCount || block < L.firstData { return Err(BlockOutOfRange(block)); }
    Locate(image.Length, L, block);
    var g, i := GroupOfBlock(L, block), IndexOfBlock(L, block);
    GroupStarts(image.Length, L, g);
    var d := DescAt(L, g);
    var byteAt := BlockAt(L, ReadU32(image, d)) + i / 8;
    if byteAt >= image.Length { return Err(ImageTooSmall); }
    if !Bit(image[byteAt], i % 8) { return Err(NotAllocated(block)); }
    if ReadU16(image, d + 12) == 0xFFFF || ReadU32(image, FREE_BLOCKS_AT) == 0xFFFF_FFFF {
      return Err(FreeCountInconsistent);
    }
    var free, total := ReadU16(image, d + 12) + 1, ReadU32(image, FREE_BLOCKS_AT) + 1;
    Store(image, byteAt, [ClearBit(image[byteAt], i % 8)]);
    Store(image, d + 12, Le16(free));
    Store(image, FREE_BLOCKS_AT, Le32(total));
    r := Ok(());
  }

  // ----- inodes -----

  /** Sets the bit, then takes one off both counters if neither is at zero. */
  method MarkSite(image: array<byte>, s: Site) returns (ok: bool)
    requires SiteInside(image.Length, s)
    modifies image
    ensures var marked := Marked(old(image[..]), s);
      && ok == (U16(marked, s.groupAt) != 0 && U32(marked, s.totalAt) != 0)
      && image[..] == if ok then Counted(marked, s, U16(marked, s.groupAt) - 1, U32(marked, s.totalAt) - 1) else marked
  {
    hide U16, U32, Put, SetBit, Counted;
    Store(image, s.byteAt, [SetBit(image[s.byteAt], s.bit)]);
    var free, total := ReadU16(image, s.groupAt), ReadU32(image, s.totalAt);
    ok := free != 0 && total != 0;
    if ok { WriteCounts(image, s, free - 1, total - 1); }
  }

  method WriteCounts(image: array<byte>, s: Site, groupFree: nat, total: nat)
    requires SiteInside(image.Length, s) && groupFree < 0x1_0000 && total < 0x1_0000_0000
    modifies image
    ensures image[..] == Counted(old(image[..]), s, groupFree, total)
  {
    hide Put, Le16, Le32;
    Store(image, s.groupAt, Le16(groupFree));
    Store(image, s.totalAt, Le32(total));
  }

  /** `allocate_inode`: the bit is set before the counters are looked at. */
  method AllocateInode(image: array<byte>, L: Layout) returns (r: Res<nat>)
    requires LayoutOf(image.Length, L)
    modifies image
    ensures (r, image[..]) == AllocInode(old(image[..]), L)
  {
    hide U16, U32, Put, Bit, SetBit, LayoutOf, Times, FindClear, Reserved, InodeSpan, Le16, Le32, Marked, Counted;
    ghost var img := image[..];
    var g := 0;
    while g < L.groupCount
      invariant g <= L.groupCount && image[..] == img
      invariant AllocInode(img, L) == AllocInodeFrom(img, L, g)
    {
      GroupStarts(image.Length, L, g);
      var d := DescAt(L, g);
      var bitmap := BlockAt(L, ReadU32(image, d + 4));
      var found := SearchBitmap(image, bitmap, Reserved(L, g), InodeSpan(L, g));
      match found
      case Outside => return Err(ImageTooSmall);
      case AllUsed => g := g + 1;
      case Clear(i) =>
        var counted := MarkSite(image, Site(bitmap + i / 8, i % 8, d + 14, FREE_INODES_AT));
        if !counted { return Err(FreeCountInconsistent); }
        return Ok(Times(g, L.ipg) + 1 + i);
    }
    r := Err(Full);
  }

  /** `free_inode`. */
  method ReleaseInode(image: array<byte>, L: Layout, ino: nat) returns (r: Res<()>)
    requires LayoutOf(image.Length, L)
    modifies image
    ensures (r, image[..]) == FreeInode(old(image[..]), L, ino)
  {
    hide U16, U32, Put, Bit, ClearBit, LayoutOf, Times, Quot, Rem;
    if ino == 0 || ino > L.inodesCount { return Err(InodeOutOfRange(ino)); }
    var g, i := GroupOfInode(L, ino), IndexOfInode(L, ino);
    if g >= L.groupCount { return Err(InodeOutOfRange(ino)); }
    GroupStarts(image.Length, L, g);
    var d := DescAt(L, g);
    var byteAt := BlockAt(L, ReadU32(image, d + 4)) + i / 8;
    if byteAt >= image.Length { return Err(ImageTooSmall); }
    if !Bit(image[byteAt], i % 8) { return Err(NotAllocated(ino)); }
    if ReadU16(image, d + 14) == 0xFFFF || ReadU32(image, FREE_INODES_AT) == 0xFFFF_FFFF {
      return Err(FreeCountInconsistent);
    }
    var free, total := ReadU16(image, d + 14) + 1, ReadU32(image, FREE_INODES_AT) + 1;
    Store(image, byteAt, [ClearBit(image[byteAt], i % 8)]);
    Store(image, d + 14, Le16(free));
    Store(image, FREE_INODES_AT, Le32(total));
    r := Ok(());
  }

  /** `Layout::inode_at`. */
  method LocateInode(image: array<byte>, L: Layout, ino: nat) returns (at: Option<nat>)
    requires LayoutOf(image.Length, L)
    ensures at == InodeAt(image[..], L, ino)
  {
    hide U32, LayoutOf, Times, Quot, Rem;
    if ino == 0 || ino > L.inodesCount || GroupOfInode(L, ino) >= L.groupCount { return None; }
    GroupStarts(image.Length, L, GroupOfInode(L, ino));
    var start := BlockAt(L, ReadU32(image, DescAt(L, GroupOfInode(L, ino)) + 8)) + Times(IndexOfInode(L, ino),
      L.inodeSize);
    at := if start + L.inodeSize > image.Length then None else Some(start);
  }

  // ----- files -----

  method WriteSizes(image: array<byte>, L: Layout, inode: nat, size: nat)
    requires LayoutOf(image.Length, L) && inode + L.inodeSize <= image.Length && size < 0x1_0000_0000
    modifies image
    ensures image[..] == Sized(old(image[..]), L, inode, size)
  {
    hide Put, Times, CeilQuot, Le32;
    SectorsFit(L, size);
    Store(image, inode + 4, Le32(size));
    Store(image, inode + 28, Le32(Times(CeilQuot(size, L.bs), SectorsPerBlock(L))));
  }

  /** The block the next byte goes into, taken and linked first when the size is on a block
      boundary. */
  method NextBlock(image: array<byte>, L: Layout, inode: nat, size: nat) returns (r: Res<nat>)
    requires LayoutOf(image.Length, L) && inode + L.inodeSize <= image.Length && Quot(size, L.bs) < DIRECT_BLOCK_COUNT
    modifies image
    ensures (r, image[..]) == Target(old(image[..]), L, inode, size)
  {
    hide U32, Put, Times, Quot, Rem, AllocBlock, Le32;
    var slot := SlotAt(inode, Quot(size, L.bs));
    if Rem(size, L.bs) != 0 { return Ok(ReadU32(image, slot)); }
    r := AllocateBlock(image, L);
    if r.Ok? { Store(image, slot, Le32(r.value)); }
  }

  /** `append_to_file`. */
  method AppendToFile(image: array<byte>, L: Layout, ino: nat, data: seq<byte>) returns (r: Res<()>)
    requires LayoutOf(image.Length, L)
    modifies image
    ensures (r, image[..]) == Append(old(image[..]), L, ino, data)
  {
    hide U32, Put, InodeAt, Times, Quot, Rem, Target, Sized;
    ghost var img := image[..];
    var at := LocateInode(image, L, ino);
    if at.None? { return Err(BlockOutOfRange(ino)); }
    var inode := at.value;
    var size: nat, written: nat := ReadU32(image, inode + 4), 0;
    ghost var size0 := size;
    while written < |data|
      invariant written <= |data| && size < 0x1_0000_0000
      invariant AppendLoop(img, L, inode, size0, data) == AppendLoop(image[..], L, inode, size, data[written..])
    {
      var index, off := Quot(size, L.bs), Rem(size, L.bs);
      QuotRem(size, L.bs);
      if index >= DIRECT_BLOCK_COUNT { return Err(Full); }
      DirectSize(L, size);
      var target := NextBlock(image, L, inode, size);
      if target.Err? { return Err(target.error); }
      var block := target.value;
      var room := L.bs - off;
      var take := if room < |data| - written then room else |data| - written;
      var start := BlockAt(L, block) + off;
      if start + take > image.Length { return Err(ImageTooSmall); }
      assert data[written..][..take] == data[written..written + take];
      assert data[written..][take..] == data[written + take..];
      Store(image, start, data[written..written + take]);
      written, size := written + take, size + take;
    }
    WriteSizes(image, L, inode, size);
    r := Ok(());
  }

  /** One turn of the loop of `truncate_to`. */
  method ReleaseSlot(image: array<byte>, L: Layout, inode: nat, index: nat) returns (r: Res<()>)
    requires LayoutOf(image.Length, L) && SlotAt(inode, index) + 4 <= image.Length
    modifies image
    ensures (r, image[..]) == FreeSlot(old(image[..]), L, inode, index)
  {
    hide U32, Put, Times, FreeBlock, Le32, LayoutOf;
    var slot := SlotAt(inode, index);
    var block := ReadU32(image, slot);
    if block == 0 { return Ok(()); }
    var at := BlockAt(L, block);
    if at + L.bs <= image.Length { Wipe(image, at, L.bs); }
    Store(image, slot, Le32(0));
    r := ReleaseBlock(image, L, block);
  }

  /** `truncate_to`. */
  method TruncateTo(image: array<byte>, L: Layout, ino: nat, target: nat) returns (r: Res<()>)
    requires LayoutOf(image.Length, L)
    requires InodeAt(image[..], L, ino).Some? ==>
      SlotAt(InodeAt(image[..], L, ino).value,
            CeilQuot(U32(image[..], InodeAt(image[..], L, ino).value + 4), L.bs)) <= image.Length
    modifies image
    ensures (r, image[..]) == Truncate(old(image[..]), L, ino, target)
  {
    hide U32, Put, InodeAt, CeilQuot, FreeSlot, Sized, WipeTail, Rem;
    ghost var img := image[..];
    var at := LocateInode(image, L, ino);
    if at.None? { return Err(BlockOutOfRange(ino)); }
    var inode := at.value;
    var size := ReadU32(image, inode + 4);
    if target > size { return Err(NotAllocated(ino)); }
    CeilMonotone(target, size, L.bs);
    var keep, have := CeilQuot(target, L.bs), CeilQuot(size, L.bs);
    ghost var have0 := have;
    while have > keep
      invariant keep <= have <= have0
      invariant FreeDown(img, L, inode, keep, have0) == FreeDown(image[..], L, inode, keep, have)
    {
      var freed := ReleaseSlot(image, L, inode, have - 1);
      if freed.Err? { return freed; }
      have := have - 1;
    }
    ClearTail(image, L, inode, target);
    WriteSizes(image, L, inode, target);
    r := Ok(());
  }

  method ClearTail(image: array<byte>, L: Layout, inode: nat, target: nat)
    requires LayoutOf(image.Length, L) && SlotAt(inode, CeilQuot(target, L.bs)) <= image.Length
    modifies image
    ensures image[..] == WipeTail(old(image[..]), L, inode, target)
  {
    hide U32, Put, Times, CeilQuot, Rem;
    var keep, tail := CeilQuot(target, L.bs), Rem(target, L.bs);
    QuotRem(target, L.bs);
    if keep > 0 {
      var last := ReadU32(image, SlotAt(inode, keep - 1));
      var at := BlockAt(L, last) + tail;
      if last != 0 && tail != 0 && at + (L.bs - tail) <= image.Length { Wipe(image, at, L.bs - tail); }
    }
  }

  // ----- directories -----

  method SameName(image: array<byte>, at: nat, len: nat, name: seq<byte>) returns (same: bool)
    requires at + len <= image.Length
    ensures same == (image[..][at..at + len] == name)
  {
    if len != |name| { return false; }
    var n := 0;
    while n < len
      invariant n <= len && forall p :: 0 <= p < n ==> image[at + p] == name[p]
    {
      if image[at + n] != name[n] {
        assert image[..][at..at + len][n] != name[n];
        return false;
      }
      n := n + 1;
    }
    assert image[..][at..at + len] == name;
    same := true;
  }

  /** The inner loop of `scan_directory`, over one block. */
  method ScanRecords(image: array<byte>, base: nat, end: nat, name: seq<byte>, want: nat,
      acc: Scan) returns (r: Res<Scan>)
    requires base <= end <= image.Length
    ensures r == ScanBlock(image[..], base, end, None, name, want, acc)
  {
    hide U16, U32;
    var at, previous: Option<nat>, found, room := base, None, acc.found, acc.room;
    while at + DIRENT_HEADER_LEN <= end
      invariant base <= at <= end
      invariant ScanBlock(image[..], base, end, None, name, want, acc)
          == ScanBlock(image[..], at, end, previous, name, want, Scan(found, room))
      decreases end - at
    {
      var entry, recLen, nameLen := ReadU32(image, at), ReadU16(image, at + 4), image[at + 6];
      if recLen % 4 != 0 || recLen < DIRENT_HEADER_LEN + nameLen || at + recLen > end { return Err(DirectoryCorrupt); }
      var same := SameName(image, at + DIRENT_HEADER_LEN, nameLen, name);
      if entry != 0 && same { found := Some(Spot(at, previous)); }
      if room.None? && entry != 0 && recLen >= Span(nameLen) + want { room := Some(Spot(at, previous)); }
      previous := Some(at);
      at := at + recLen;
    }
    r := Ok(Scan(found, room));
  }

  /** `scan_directory`. */
  method ScanNames(image: array<byte>, L: Layout, dir: nat, name: seq<byte>, want: nat) returns (r: Res<Scan>)
    requires LayoutOf(image.Length, L)
    ensures r == ScanDirectory(image[..], L, dir, name, want)
  {
    hide U16, U32, InodeAt, Times, ScanBlock, ScanBlocks;
    var at := LocateInode(image, L, dir);
    if at.None? { return Err(InodeOutOfRange(dir)); }
    var dirAt := at.value;
    if !IsDirectoryMode(ReadU16(image, dirAt)) { return Err(NotADirectory(dir)); }
    var blocks := BlocksToScan(L, ReadU32(image, dirAt + 4));
    var index, acc := 0, Scan(None, None);
    while index < blocks
      invariant index <= blocks <= DIRECT_BLOCK_COUNT
      invariant ScanDirectory(image[..], L, dir, name, want)
          == ScanFrom(image[..], L, dirAt, index, blocks, name, want, acc)
    {
      var b := ReadU32(image, SlotAt(dirAt, index));
      if b != 0 {
        var base := BlockAt(L, b);
        if base + L.bs > image.Length { return Err(ImageTooSmall); }
        var x := ScanRecords(image, base, base + L.bs, name, want, acc);
        if x.Err? { return x; }
        acc := x.value;
      }
      index := index + 1;
    }
    r := Ok(acc);
  }

  function BlocksToScan(L: Layout, size: nat): (n: nat)
    requires L.bs > 0
    ensures n == ScanBlocks(L, size) <= DIRECT_BLOCK_COUNT
  {
    if Quot(size, L.bs) < DIRECT_BLOCK_COUNT then Quot(size, L.bs) else DIRECT_BLOCK_COUNT
  }

  /** `insert_dirent`. */
  method InsertDirent(image: array<byte>, previous: nat, ino: nat, name: seq<byte>, kind: byte)
    requires Splittable(image[..], previous, |name|) && ino < 0x1_0000_0000 && |name| <= MAX_NAME_LEN
    modifies image
    ensures image[..] == Insert(old(image[..]), previous, ino, name, kind)
  {
    hide U16, Put, Le16, RecordBytes;
    var previousLen := Span(image[previous + 6]);
    SpanCovers(|name|);
    var entryLen := ReadU16(image, previous + 4) - previousLen;
    Store(image, previous + 4, Le16(previousLen));
    Store(image, previous + previousLen, RecordBytes(ino, entryLen, name, kind));
  }

  /** `remove_dirent`. */
  method RemoveDirent(image: array<byte>, entry: nat, previous: nat) returns (r: Res<()>)
    requires entry + DIRENT_HEADER_LEN <= image.Length && previous + DIRENT_HEADER_LEN <= image.Length
    requires entry + RecLen(image[..], entry) <= image.Length
    modifies image
    ensures (r, image[..]) == Remove(old(image[..]), entry, previous)
  {
    hide U16, Put, Le16;
    var entryLen := ReadU16(image, entry + 4);
    var merged := ReadU16(image, previous + 4) + entryLen;
    if merged >= 0x1_0000 { return Err(DirectoryCorrupt); }
    Store(image, previous + 4, Le16(merged));
    Wipe(image, entry, entryLen);
    r := Ok(());
  }
}
