/** Where things live in an ext2 image: the layout copied out of the superblock, the
    metadata areas, and the rule that they do not overlap. */
module Ext2Layout {
  import opened Wrappers
  import opened Bytes

  const SUPERBLOCK_OFFSET := 1024
  const FREE_BLOCKS_AT := 1036
  const FREE_INODES_AT := 1040
  const GROUP_DESCRIPTOR_SIZE := 32
  const DIRECT_BLOCK_COUNT := 12

  datatype AllocError =
    | Full
    | BlockOutOfRange(block: nat)
    | NotAllocated(number: nat)
    | ImageTooSmall
    | FreeCountInconsistent
    | InodeOutOfRange(inode: nat)
    | BadName
    | NameTaken
    | NoRoomInDirectory
    | NotADirectory(inode: nat)
    | NotARegularFile(inode: nat)
    | NoSuchEntry
    | NoPreviousEntry
    | DirectoryNotEmpty(inode: nat)
    | DirectoryCorrupt

  datatype Res<+T> = Ok(value: T) | Err(error: AllocError)

  datatype Layout = Layout(
    bs: nat, blocksCount: nat, firstData: nat, bpg: nat, groupCount: nat,
    ipg: nat, inodeSize: nat, inodesCount: nat, wantExtra: nat, firstInode: nat)

  /** What `Ext2::parse` has checked about a layout, for an image of `len` bytes. */
  predicate LayoutOf(len: nat, L: Layout)
    ensures LayoutOf(len, L) ==>
      && SUPERBLOCK_OFFSET + 104 <= len && 1024 <= L.bs <= 65536 && 128 <= L.inodeSize && 0 < L.bpg && 0 < L.ipg
      && 0 < L.groupCount
  {
    && L.bs in {1024, 2048, 4096, 8192, 16384, 32768, 65536}
    && L.inodeSize in {128, 256, 512, 1024, 2048, 4096, 8192, 16384, 32768} && L.inodeSize <= L.bs
    && 0 < L.bpg && 0 < L.ipg
    && L.firstData < L.blocksCount < 0x1_0000_0000
    && 0 < L.groupCount
    && Times(L.groupCount - 1, L.bpg) < L.blocksCount - L.firstData <= Times(L.groupCount, L.bpg)
    && L.inodesCount < 0x1_0000_0000
    && Times(L.blocksCount, L.bs) <= len
    && DescAt(L, L.groupCount) <= len
    && SUPERBLOCK_OFFSET + 104 <= len
    && (L.wantExtra == 0 || 128 + L.wantExtra <= L.inodeSize)
  }

  function BlockAt(L: Layout, block: nat): nat {
    Times(block, L.bs)
  }

  function DescAt(L: Layout, group: nat): nat {
    Times(L.firstData + 1, L.bs) + GROUP_DESCRIPTOR_SIZE * group
  }

  function SectorsPerBlock(L: Layout): nat {
    L.bs / 512
  }

  /** How many blocks (inodes) the bitmap of a group speaks for; the last group may be short. */
  function BlockSpan(L: Layout, group: nat): nat
    requires L.firstData + Times(group, L.bpg) <= L.blocksCount
  {
    var rest := L.blocksCount - (L.firstData + Times(group, L.bpg));
    if L.bpg < rest then L.bpg else rest
  }

  function InodeSpan(L: Layout, group: nat): nat {
    var first := Times(group, L.ipg) + 1;
    var rest := if L.inodesCount + 1 < first then 0 else L.inodesCount + 1 - first;
    if L.ipg < rest then L.ipg else rest
  }

  /** The group table starts inside the range of blocks it describes. */
  lemma GroupStarts(len: nat, L: Layout, g: nat)
    requires LayoutOf(len, L) && g < L.groupCount
    ensures L.firstData + Times(g, L.bpg) < L.blocksCount
    ensures DescAt(L, g) + GROUP_DESCRIPTOR_SIZE <= len
  {
    if g < L.groupCount - 1 { TimesMonotone(g, L.groupCount - 1, L.bpg); }
  }

  // ----- blocks and their bits -----

  function GroupOfBlock(L: Layout, block: nat): nat
    requires L.bpg > 0 && L.firstData <= block
  {
    Quot(block - L.firstData, L.bpg)
  }

  function IndexOfBlock(L: Layout, block: nat): nat
    requires L.bpg > 0 && L.firstData <= block
  {
    Rem(block - L.firstData, L.bpg)
  }

  /** Where the bit and the two free counters of one block or one inode are. */
  datatype Site = Site(byteAt: nat, bit: nat, groupAt: nat, totalAt: nat)

  function BlockBitmap(img: seq<byte>, L: Layout, g: nat): nat
    requires LayoutOf(|img|, L) && g < L.groupCount
  {
    GroupStarts(|img|, L, g);
    BlockAt(L, U32(img, DescAt(L, g)))
  }

  function InodeBitmap(img: seq<byte>, L: Layout, g: nat): nat
    requires LayoutOf(|img|, L) && g < L.groupCount
  {
    GroupStarts(|img|, L, g);
    BlockAt(L, U32(img, DescAt(L, g) + 4))
  }

  function InodeTable(img: seq<byte>, L: Layout, g: nat): nat
    requires LayoutOf(|img|, L) && g < L.groupCount
  {
    GroupStarts(|img|, L, g);
    BlockAt(L, U32(img, DescAt(L, g) + 8))
  }

  function BlockSite(img: seq<byte>, L: Layout, g: nat, i: nat): Site
    requires LayoutOf(|img|, L) && g < L.groupCount
  {
    Site(BlockBitmap(img, L, g) + i / 8, i % 8, DescAt(L, g) + 12, FREE_BLOCKS_AT)
  }

  function InodeSite(img: seq<byte>, L: Layout, g: nat, i: nat): Site
    requires LayoutOf(|img|, L) && g < L.groupCount
  {
    Site(InodeBitmap(img, L, g) + i / 8, i % 8, DescAt(L, g) + 14, FREE_INODES_AT)
  }

  lemma Locate(len: nat, L: Layout, block: nat)
    requires LayoutOf(len, L) && L.firstData <= block < L.blocksCount
    ensures GroupOfBlock(L, block) < L.groupCount
    ensures block == L.firstData + Times(GroupOfBlock(L, block), L.bpg) + IndexOfBlock(L, block)
    ensures L.firstData + Times(GroupOfBlock(L, block), L.bpg) <= L.blocksCount
    ensures IndexOfBlock(L, block) < BlockSpan(L, GroupOfBlock(L, block))
  {
    QuotRem(block - L.firstData, L.bpg);
    var g := GroupOfBlock(L, block);
    if g >= L.groupCount {
      if g > L.groupCount { TimesMonotone(L.groupCount, g, L.bpg); }
      assert false;
    }
  }

  lemma LocateOf(len: nat, L: Layout, g: nat, i: nat)
    requires LayoutOf(len, L) && g < L.groupCount
    requires L.firstData + Times(g, L.bpg) <= L.blocksCount && i < BlockSpan(L, g)
    ensures L.firstData + Times(g, L.bpg) + i < L.blocksCount
    ensures GroupOfBlock(L, L.firstData + Times(g, L.bpg) + i) == g
    ensures IndexOfBlock(L, L.firstData + Times(g, L.bpg) + i) == i
  {
    QuotOf(g, i, L.bpg);
  }

  // ----- inodes -----

  function GroupOfInode(L: Layout, ino: nat): nat
    requires L.ipg > 0 && ino > 0
  {
    Quot(ino - 1, L.ipg)
  }

  function IndexOfInode(L: Layout, ino: nat): nat
    requires L.ipg > 0 && ino > 0
  {
    Rem(ino - 1, L.ipg)
  }

  /** `Layout::inode_at`: byte offset of the slot, if the whole slot is inside the image. */
  function InodeAt(img: seq<byte>, L: Layout, ino: nat): (at: Option<nat>)
    requires LayoutOf(|img|, L)
    ensures at.Some? ==> 0 < ino <= L.inodesCount && at.value + L.inodeSize <= |img|
  {
    if ino == 0 || ino > L.inodesCount then None
    else
      var g := GroupOfInode(L, ino);
      if g >= L.groupCount then None
      else
        var at := InodeTable(img, L, g) + Times(IndexOfInode(L, ino), L.inodeSize);
        if at + L.inodeSize > |img| then None else Some(at)
  }

  // ----- metadata areas -----

  /** `Super` is the boot sector and the superblock together, so block 0 is never data. */
  datatype Meta = Super | Table | BlockMap(g: nat) | InodeMap(g: nat) | Inodes(g: nat)

  predicate ValidMeta(L: Layout, m: Meta) {
    m.Super? || m.Table? || m.g < L.groupCount
  }

  function MetaStart(img: seq<byte>, L: Layout, m: Meta): nat
    requires LayoutOf(|img|, L) && ValidMeta(L, m)
  {
    match m
    case Super => 0
    case Table => DescAt(L, 0)
    case BlockMap(g) => BlockBitmap(img, L, g)
    case InodeMap(g) => InodeBitmap(img, L, g)
    case Inodes(g) => InodeTable(img, L, g)
  }

  function MetaLen(L: Layout, m: Meta): nat {
    match m
    case Super => 2048
    case Table => GROUP_DESCRIPTOR_SIZE * L.groupCount
    case BlockMap(_) => L.bs
    case InodeMap(_) => L.bs
    case Inodes(_) => Times(L.ipg, L.inodeSize)
  }

  /** The metadata areas lie inside the image, do not overlap, and their bitmaps are long
      enough for the groups they describe. */
  ghost predicate Geometry(img: seq<byte>, L: Layout)
    ensures Geometry(img, L) ==>
      LayoutOf(|img|, L) && L.bpg <= 8 * L.bs && L.ipg <= 8 * L.bs && L.inodesCount <= Times(L.groupCount, L.ipg)
  {
    && LayoutOf(|img|, L)
    && L.bpg <= 8 * L.bs && L.ipg <= 8 * L.bs && L.bpg < 0x1_0000 && L.ipg < 0x1_0000
    && L.inodesCount <= Times(L.groupCount, L.ipg)
    && (forall m {:trigger ValidMeta(L, m)} :: ValidMeta(L, m) ==> MetaStart(img, L, m) + MetaLen(L, m) <= |img|)
    && (forall m, n {:trigger ValidMeta(L, m), ValidMeta(L, n)} ::
          ValidMeta(L, m) && ValidMeta(L, n) && m != n
          ==> Apart(MetaStart(img, L, m), MetaLen(L, m), MetaStart(img, L, n), MetaLen(L, n)))
  }

  /** Block `b` holds file data: it touches no metadata area. */
  ghost predicate DataBlock(img: seq<byte>, L: Layout, b: nat)
    requires LayoutOf(|img|, L)
    ensures DataBlock(img, L, b) ==> L.firstData <= b < L.blocksCount
  {
    && L.firstData <= b < L.blocksCount
    && forall m {:trigger ValidMeta(L, m)} :: ValidMeta(L, m)
          ==> Apart(BlockAt(L, b), L.bs, MetaStart(img, L, m), MetaLen(L, m))
  }

  lemma DataBlockInside(img: seq<byte>, L: Layout, b: nat)
    requires LayoutOf(|img|, L) && b < L.blocksCount
    ensures BlockAt(L, b) + L.bs <= |img|
  {
    TimesMonotone(b, L.blocksCount, L.bs);
  }

  lemma BlocksApart(L: Layout, a: nat, b: nat)
    requires a != b
    ensures Apart(BlockAt(L, a), L.bs, BlockAt(L, b), L.bs)
  {
    if a < b { TimesMonotone(a, b, L.bs); } else { TimesMonotone(b, a, L.bs); }
  }

  // ----- the pointers in the group table never move -----

  /** Both images have the same length and the same three block numbers per group. */
  ghost predicate SamePointers(img: seq<byte>, img': seq<byte>, L: Layout)
    requires LayoutOf(|img|, L)
  {
    && |img'| == |img|
    && forall g :: 0 <= g < L.groupCount ==> SameDescriptor(img, img', L, g)
  }

  ghost predicate SameDescriptor(img: seq<byte>, img': seq<byte>, L: Layout, g: nat)
    requires LayoutOf(|img|, L) && |img'| == |img| && g < L.groupCount
  {
    && BlockBitmap(img', L, g) == BlockBitmap(img, L, g)
    && InodeBitmap(img', L, g) == InodeBitmap(img, L, g)
    && InodeTable(img', L, g) == InodeTable(img, L, g)
  }

  lemma SameAreas(img: seq<byte>, img': seq<byte>, L: Layout)
    requires LayoutOf(|img|, L) && SamePointers(img, img', L)
    ensures forall m {:trigger ValidMeta(L, m)} :: ValidMeta(L, m) ==> MetaStart(img', L, m) == MetaStart(img, L, m)
    ensures Geometry(img, L) ==> Geometry(img', L)
    ensures forall b: nat {:trigger DataBlock(img', L, b)} :: DataBlock(img', L, b) <==> DataBlock(img, L, b)
    ensures forall ino: nat {:trigger InodeAt(img', L, ino)} :: InodeAt(img', L, ino) == InodeAt(img, L, ino)
  {
    forall m {:trigger ValidMeta(L, m)} | ValidMeta(L, m)
      ensures MetaStart(img', L, m) == MetaStart(img, L, m)
    {
      if m.BlockMap? || m.InodeMap? || m.Inodes? { assert SameDescriptor(img, img', L, m.g); }
    }
    forall ino: nat {:trigger InodeAt(img', L, ino)}
      ensures InodeAt(img', L, ino) == InodeAt(img, L, ino)
    {
      if 0 < ino <= L.inodesCount {
        var g := GroupOfInode(L, ino);
        if g < L.groupCount { assert SameDescriptor(img, img', L, g); }
      }
    }
  }

  /** A write outside the group table, or inside it but past the pointers of one descriptor,
      keeps every pointer. */
  lemma PutKeepsPointers(img: seq<byte>, L: Layout, at: nat, bs: seq<byte>)
    requires LayoutOf(|img|, L) && at + |bs| <= |img|
    requires Apart(at, |bs|, DescAt(L, 0), GROUP_DESCRIPTOR_SIZE * L.groupCount)
          || exists g :: 0 <= g < L.groupCount && DescAt(L, g) + 12 <= at
              && at + |bs| <= DescAt(L, g) + GROUP_DESCRIPTOR_SIZE
    ensures SamePointers(img, Put(img, at, bs), L)
  {
    var img' := Put(img, at, bs);
    forall g | 0 <= g < L.groupCount
      ensures SameDescriptor(img, img', L, g)
    {
      GroupStarts(|img|, L, g);
      var d := DescAt(L, g);
      assert Apart(at, |bs|, d, 12);
      Read32Apart(img, at, bs, d);
      Read32Apart(img, at, bs, d + 4);
      Read32Apart(img, at, bs, d + 8);
    }
  }

  lemma SamePointersTrans(a: seq<byte>, b: seq<byte>, c: seq<byte>, L: Layout)
    requires LayoutOf(|a|, L) && SamePointers(a, b, L) && SamePointers(b, c, L)
    ensures SamePointers(a, c, L)
  {
    forall g | 0 <= g < L.groupCount
      ensures SameDescriptor(a, c, L, g)
    {
      assert SameDescriptor(a, b, L, g) && SameDescriptor(b, c, L, g);
    }
  }
}
