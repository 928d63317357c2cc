/** The reading side: the superblock, inodes, file blocks and the directory walk. */
module Ext2Reader {
  import opened Wrappers
  import opened Bytes
  import opened Ext2Layout
  import opened Ext2File
  import opened Ext2Dirent

  const EXT2_MAGIC := 0xEF53
  const INODE_CORE_LEN := 128
  const SINGLE_INDIRECT_SLOT := 12
  /** The one incompatible feature understood: file types in directory records. */
  const INCOMPAT_SUPPORTED := 2

  datatype Ext2Error =
    | TooShort
    | BadMagic
    | UnsupportedRevision(revision: nat)
    | BadBlockSizeShift(shift: nat)
    | BadInodeSize(size: nat)
    | ZeroPerGroup
    | UnsupportedIncompatFeatures(bits: nat)
    | ImageShort(needed: nat, actual: nat)
    | BadBlock(block: nat)
    | GroupDescriptorsOutOfRange
    | BadInode(ino: nat)
    | InodeTableOutOfRange(ino: nat, needed: nat)
    | FileBlockOutOfRange(index: nat)
    | IndirectBlockUnsupported(index: nat)
    | NotDirectory(ino: nat)
    | DirEntryTruncated(block: nat, remaining: nat)
    | DirEntryMisaligned(recLen: nat)
    | DirEntryRecordTooSmall(recLen: nat, nameLen: nat)
    | DirEntryRecordPastBlock(recLen: nat, remaining: nat)
    | NotFound
    | PathNotAbsolute
    | PathTooManyComponents(limit: nat)

  datatype Read<+T> = Got(value: T) | Bad(error: Ext2Error)

  // ----- the superblock -----

  predicate PowerOfTwo16(n: nat) {
    n in {1, 2, 4, 8, 16, 32, 64, 128, 256, 512, 1024, 2048, 4096, 8192, 16384, 32768}
  }

  /** `s_want_extra_isize` when it is there, set, and fits the inode; 0 otherwise. */
  function WantExtra(img: seq<byte>, inodeSize: nat): nat {
    var at := SUPERBLOCK_OFFSET + 350;
    var declared := if at + 2 <= |img| then U16(img, at) else 0;
    if declared != 0 && INODE_CORE_LEN + declared <= inodeSize then declared else 0
  }

  /** `Ext2::parse`, kept to the layout it yields. */
  function Parse(img: seq<byte>): Read<Layout> {
    if |img| < SUPERBLOCK_OFFSET + 104 then Bad(TooShort)
    else if U16(img, SUPERBLOCK_OFFSET + 56) != EXT2_MAGIC then Bad(BadMagic)
    else if U32(img, SUPERBLOCK_OFFSET + 76) != 1 then Bad(UnsupportedRevision(U32(img, SUPERBLOCK_OFFSET + 76)))
    else
      var shift := U32(img, SUPERBLOCK_OFFSET + 24);
      if shift > 6 then Bad(BadBlockSizeShift(shift))
      else
        var bs := 1024 * Pow2(shift);
        var inodeSize := U16(img, SUPERBLOCK_OFFSET + 88);
        if inodeSize < 128 || !PowerOfTwo16(inodeSize) || inodeSize > bs then Bad(BadInodeSize(inodeSize))
        else
          var incompat := U32(img, SUPERBLOCK_OFFSET + 96);
          var unsupported := if incompat / INCOMPAT_SUPPORTED % 2 == 1 then incompat - INCOMPAT_SUPPORTED else incompat;
          if unsupported != 0 then Bad(UnsupportedIncompatFeatures(unsupported))
          else ParseSizes(img, bs, inodeSize)
  }

  /** The rest of `parse`: the sizes the superblock claims, against the image. */
  function ParseSizes(img: seq<byte>, bs: nat, inodeSize: nat): Read<Layout>
    requires |img| >= SUPERBLOCK_OFFSET + 104
  {
    var blocksCount, inodesCount := U32(img, SUPERBLOCK_OFFSET + 4), U32(img, SUPERBLOCK_OFFSET);
    var bpg, ipg := U32(img, SUPERBLOCK_OFFSET + 32), U32(img, SUPERBLOCK_OFFSET + 40);
    if bpg == 0 || ipg == 0 then Bad(ZeroPerGroup)
    else
      var needed := Times(blocksCount, bs);
      if needed > |img| then Bad(ImageShort(needed, |img|))
      else
        var firstData := U32(img, SUPERBLOCK_OFFSET + 20);
        if firstData >= blocksCount then Bad(BadBlock(firstData))
        else
          var groupCount := CeilQuot(blocksCount - firstData, bpg);
          if Times(firstData + 1, bs) + GROUP_DESCRIPTOR_SIZE * groupCount > |img| then Bad(GroupDescriptorsOutOfRange)
          else Got(Layout(bs, blocksCount, firstData, bpg, groupCount, ipg, inodeSize, inodesCount,
                          WantExtra(img, inodeSize), U32(img, SUPERBLOCK_OFFSET + 84)))
  }

  /** Every accepted image has the layout facts the writer relies on. */
  lemma ParseGivesLayout(img: seq<byte>)
    requires Parse(img).Got?
    ensures LayoutOf(|img|, Parse(img).value)
  {
    hide U16, U32, Times;
    var L := Parse(img).value;
    ShiftSizes(U32(img, SUPERBLOCK_OFFSET + 24));
    CeilBounds(L.blocksCount - L.firstData, L.bpg);
  }

  lemma ShiftSizes(shift: nat)
    requires shift <= 6
    ensures 1024 * Pow2(shift) in {1024, 2048, 4096, 8192, 16384, 32768, 65536}
  {
    assert Pow2(3) == 8;
    assert Pow2(6) == 64;
  }

  lemma CeilBounds(n: nat, unit: nat)
    requires n > 0 && unit > 0
    ensures CeilQuot(n, unit) > 0 && Times(CeilQuot(n, unit) - 1, unit) < n <= Times(CeilQuot(n, unit), unit)
  {
    QuotRem(n + (unit - 1), unit);
    var q := CeilQuot(n, unit);
    assert Times(0, unit) == 0;
    assert Times(q, unit) == Times(q - 1, unit) + unit;
  }

  // ----- inodes and file blocks -----

  datatype Inode = Inode(number: nat, mode: nat, size: nat, links: nat, blocks512: nat, blocks: seq<nat>)

  /** `Ext2::group_descriptor`, kept to the inode table. */
  function TableOf(img: seq<byte>, L: Layout, g: nat): Read<nat>
    requires LayoutOf(|img|, L)
  {
    if g >= L.groupCount then Bad(GroupDescriptorsOutOfRange)
    else
      GroupStarts(|img|, L, g);
      var d := DescAt(L, g);
      if U32(img, d) >= L.blocksCount then Bad(BadBlock(U32(img, d)))
      else if U32(img, d + 4) >= L.blocksCount then Bad(BadBlock(U32(img, d + 4)))
      else if U32(img, d + 8) >= L.blocksCount then Bad(BadBlock(U32(img, d + 8)))
      else Got(U32(img, d + 8))
  }

  /** The first of the 15 slots that points outside the file system, if any. */
  function BadSlot(img: seq<byte>, L: Layout, at: nat, j: nat): Option<nat>
    requires at + INODE_CORE_LEN <= |img| && j <= 15
    decreases 15 - j
  {
    if j == 15 then None
    else
      var b := U32(img, SlotAt(at, j));
      if b != 0 && b >= L.blocksCount then Some(b) else BadSlot(img, L, at, j + 1)
  }

  function SlotsOf(img: seq<byte>, at: nat): (s: seq<nat>)
    requires at + INODE_CORE_LEN <= |img|
    ensures |s| == 15 && forall j :: 0 <= j < 15 ==> s[j] == U32(img, SlotAt(at, j))
  {
    seq(15, j requires 0 <= j < 15 => U32(img, SlotAt(at, j)))
  }

  /** `Ext2::inode`. */
  function InodeOf(img: seq<byte>, L: Layout, ino: nat): (r: Read<Inode>)
    requires LayoutOf(|img|, L)
    ensures r.Got? ==> |r.value.blocks| == 15
  {
    if ino == 0 || ino > L.inodesCount then Bad(BadInode(ino))
    else
      match TableOf(img, L, GroupOfInode(L, ino))
      case Bad(e) => Bad(e)
      case Got(table) =>
        var at := BlockAt(L, table) + Times(IndexOfInode(L, ino), L.inodeSize);
        if at + INODE_CORE_LEN > |img| then Bad(InodeTableOutOfRange(ino, at + INODE_CORE_LEN))
        else if BadSlot(img, L, at, 0).Some? then Bad(BadBlock(BadSlot(img, L, at, 0).value))
        else
          var mode, low := U16(img, at), U32(img, at + 4);
          var size := if IsRegularMode(mode) then low + 0x1_0000_0000 * U32(img, at + 108) else low;
          Got(Inode(ino, mode, size, U16(img, at + 26), U32(img, at + 28), SlotsOf(img, at)))
  }

  /** `Ext2::block_bytes`. */
  function BlockBytes(img: seq<byte>, L: Layout, b: nat): (r: Read<seq<byte>>)
    requires LayoutOf(|img|, L)
    ensures r.Got? ==> |r.value| == L.bs
  {
    if b >= L.blocksCount then Bad(BadBlock(b))
    else if BlockAt(L, b) + L.bs > |img| then Bad(BadBlock(b))
    else Got(img[BlockAt(L, b)..BlockAt(L, b) + L.bs])
  }

  /** `Ext2::block_number_of`: 0 is a hole. */
  function BlockNumber(img: seq<byte>, L: Layout, inode: Inode, index: nat): Read<nat>
    requires LayoutOf(|img|, L) && |inode.blocks| == 15
  {
    if index < DIRECT_BLOCK_COUNT then Got(inode.blocks[index])
    else
      var within := index - DIRECT_BLOCK_COUNT;
      if within >= L.bs / 4 then Bad(IndirectBlockUnsupported(index))
      else if inode.blocks[SINGLE_INDIRECT_SLOT] == 0 then Got(0)
      else
        match BlockBytes(img, L, inode.blocks[SINGLE_INDIRECT_SLOT])
        case Bad(e) => Bad(e)
        case Got(table) => Got(U32(table, within * 4))
  }

  /** `Ext2::file_block`: the valid bytes of block `index`; a hole reads as zeros. */
  function FileBlock(img: seq<byte>, L: Layout, inode: Inode, index: nat): (r: Read<seq<byte>>)
    requires LayoutOf(|img|, L) && |inode.blocks| == 15
    ensures r.Got? ==> Times(index, L.bs) < inode.size && 0 < |r.value| <= L.bs
  {
    var offset := Times(index, L.bs);
    if offset >= inode.size then Bad(FileBlockOutOfRange(index))
    else if inode.blocks[13] != 0 || inode.blocks[14] != 0 then Bad(IndirectBlockUnsupported(index))
    else
      match BlockNumber(img, L, inode, index)
      case Bad(e) => Bad(e)
      case Got(b) =>
        var bytes := if b == 0 then Got(Zeros(L.bs)) else BlockBytes(img, L, b);
        match bytes
        case Bad(e) => Bad(e)
        case Got(whole) => Got(whole[..if inode.size - offset < L.bs then inode.size - offset else L.bs])
  }

  // ----- the directory walk -----

  datatype DirEntry = DirEntry(inode: nat, kind: byte, name: seq<byte>, nextOffset: nat)
  {
    predicate IsDirectory() { kind == DIRENT_TYPE_DIRECTORY }

    predicate IsRegularFile() { kind == DIRENT_TYPE_REGULAR }
  }

  datatype Item = Entry(entry: DirEntry) | Broken(error: Ext2Error)

  /** Where the walk stands. `loaded` says that the current block has been fetched. */
  datatype Cursor = Cursor(blockIndex: nat, offset: nat, loaded: bool, finished: bool)

  function BlockSpanOf(L: Layout, inode: Inode): nat
    requires L.bs > 0
  {
    CeilQuot(inode.size, L.bs)
  }

  lemma IndexBelowSpan(L: Layout, inode: Inode, index: nat)
    requires L.bs > 0 && Times(index, L.bs) < inode.size
    ensures index < BlockSpanOf(L, inode)
  {
    CeilBounds(inode.size, L.bs);
    var n := CeilQuot(inode.size, L.bs);
    if index >= n { if index > n { TimesMonotone(n, index, L.bs); } assert false; }
  }

  /** What the checks on one record say: an error, or how far to move. */
  function Check(bytes: seq<byte>, L: Layout, blockIndex: nat, offset: nat): (e: Option<Ext2Error>)
    requires offset < |bytes|
    ensures e.None? ==>
      && offset + DIRENT_HEADER_LEN <= |bytes| && RecLen(bytes, offset) >= DIRENT_HEADER_LEN + NameLen(bytes, offset)
      && offset + RecLen(bytes, offset) <= |bytes|
  {
    var remaining := |bytes| - offset;
    if remaining < DIRENT_HEADER_LEN then Some(DirEntryTruncated(blockIndex, remaining))
    else
      var recLen, nameLen := RecLen(bytes, offset), NameLen(bytes, offset);
      if recLen % 4 != 0 then Some(DirEntryMisaligned(recLen))
      else if recLen < DIRENT_HEADER_LEN + nameLen then Some(DirEntryRecordTooSmall(recLen, nameLen))
      else if recLen > remaining then Some(DirEntryRecordPastBlock(recLen, remaining))
      else if U32(bytes, offset) != 0 && U32(bytes, offset) > L.inodesCount then Some(BadInode(U32(bytes, offset)))
      else None
  }
}
