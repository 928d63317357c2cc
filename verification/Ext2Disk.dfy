/** Small disks to try the operations on: one group of eight blocks, of 1 KiB or of 64 KiB, with
    eight inodes, a root directory of one block and up to one more inode. */
module Ext2Disk {
  import opened Wrappers
  import opened Bytes
  import opened Ext2Layout
  import opened Ext2Alloc
  import opened Ext2Areas
  import opened Ext2File
  import opened Ext2Unwind
  import opened Ext2Append
  import opened Ext2Dirent
  import opened Ext2Directory
  import opened Ext2Ops
  import opened Ext2RoundTrip
  import opened Ext2Accounting
  import opened Ext2Mkdir
  import opened Ext2Steps
  import opened Ext2Fs
  import opened Ext2FsFile
  import opened Ext2FsNames
  import opened Ext2FsTree
  import opened Ext2Superblock

  /** How many blocks and inodes are in use, the slot of inode 3, and the three data blocks, the
      first of them the root's. */
  datatype Disk = Disk(large: bool, blocks: nat, inodes: nat, third: seq<byte>, root: seq<byte>, left: seq<byte>,
    right: seq<byte>)
  {
    function Bs(): nat { if large then 65536 else 1024 }

    /** The number of the first block: with blocks of 1 KiB the boot sector is one of its own. */
    function First(): nat { if large then 0 else 1 }

    function Geo(): Layout { Layout(Bs(), First() + 8, First(), 8192, 1, 8, 128, 8, 0, 3) }

    /** Where the block of index `b` starts. */
    function Pos(b: nat): nat { if large then 65536 * b else 1024 * (b + 1) }

    predicate Fit() {
      6 <= blocks <= 8 && 2 <= inodes <= 3 && |third| == 128 && |root| == Bs() && |left| == Bs() && |right| == Bs()
    }
  }

  const ROOT: nat := 2

  const THIRD: nat := 3

  lemma DiskLayout(d: Disk)
    ensures LayoutOf(d.Pos(8), d.Geo()) && DescAt(d.Geo(), 0) == d.Pos(1)
    ensures forall b: nat :: BlockAt(d.Geo(), d.First() + b) == d.Pos(b)
    ensures forall b: nat :: BlockAt(d.Geo(), b) == d.Bs() * b
  {
    assert Times(1, 8192) == 8192;
    forall b: nat ensures Times(b, 1024) == 1024 * b && Times(b, 65536) == 65536 * b {
      TimesIsProduct(b, 1024);
      TimesIsProduct(b, 65536);
    }
  }

  function RootSlot(d: Disk): (s: seq<byte>)
    ensures |s| == 128
  {
    DiskLayout(d);
    FreshDirectory(d.Pos(8), d.Geo(), d.First() + 5)
  }

  /** The image, part by part: descriptor, counts, the two bitmaps, the inode table and the
      data blocks. */
  ghost predicate IsDisk(img: seq<byte>, d: Disk) {
    && d.Fit() && |img| == d.Pos(8) && IsMeta(img, d)
    && img[d.Pos(4) + 128..d.Pos(4) + 256] == RootSlot(d) && img[d.Pos(4) + 256..d.Pos(4) + 384] == d.third
    && (forall p :: d.Pos(4) <= p < d.Pos(4) + 128 || d.Pos(4) + 384 <= p < d.Pos(4) + 1024 ==> img[p] == 0)
    && img[d.Pos(5)..d.Pos(6)] == d.root && img[d.Pos(6)..d.Pos(7)] == d.left && img[d.Pos(7)..d.Pos(8)] == d.right
  }

  ghost predicate IsMeta(img: seq<byte>, d: Disk)
    requires d.Fit() && |img| == d.Pos(8)
  {
    && U32(img, d.Pos(1)) == d.First() + 2 && U32(img, d.Pos(1) + 4) == d.First() + 3
    && U32(img, d.Pos(1) + 8) == d.First() + 4
    && U16(img, d.Pos(1) + 12) == 8 - d.blocks && U16(img, d.Pos(1) + 14) == 8 - d.inodes
    && U16(img, d.Pos(1) + 16) == 2
    && U32(img, 1024 + 12) == 8 - d.blocks && U32(img, 1024 + 16) == 8 - d.inodes && Says(img, d.Geo())
    && img[d.Pos(2)] == Pow2(d.blocks) - 1 && img[d.Pos(3)] == Pow2(d.inodes) - 1
  }

  // ----- there is such an image -----

  lemma DiskExists(d: Disk) returns (img: seq<byte>)
    requires d.Fit()
    ensures IsDisk(img, d)
  {
    hide RootSlot, Pow2, U16, U32, IsMeta;
    var a := DiskContent(d);
    img := DiskMeta(a, d);
    assert img[d.Pos(4) + 128..d.Pos(4) + 256] == RootSlot(d);
    assert img[d.Pos(4) + 256..d.Pos(4) + 384] == d.third;
    assert img[d.Pos(5)..d.Pos(6)] == d.root;
    assert img[d.Pos(6)..d.Pos(7)] == d.left;
    assert img[d.Pos(7)..d.Pos(8)] == d.right;
  }

  lemma DiskContent(d: Disk) returns (a: seq<byte>)
    requires d.Fit()
    ensures |a| == d.Pos(8)
    ensures a[d.Pos(4) + 128..d.Pos(4) + 256] == RootSlot(d) && a[d.Pos(4) + 256..d.Pos(4) + 384] == d.third
    ensures forall p :: d.Pos(4) <= p < d.Pos(4) + 128 || d.Pos(4) + 384 <= p < d.Pos(4) + 1024 ==> a[p] == 0
    ensures a[d.Pos(5)..d.Pos(6)] == d.root && a[d.Pos(6)..d.Pos(7)] == d.left && a[d.Pos(7)..d.Pos(8)] == d.right
  {
    hide RootSlot, Put;
    var x := Put(Put(Zeros(d.Pos(8)), d.Pos(4) + 128, RootSlot(d)), d.Pos(4) + 256, d.third);
    a := Put(Put(Put(x, d.Pos(5), d.root), d.Pos(6), d.left), d.Pos(7), d.right);
    assert a[d.Pos(4) + 128..d.Pos(4) + 256] == RootSlot(d);
    assert a[d.Pos(4) + 256..d.Pos(4) + 384] == d.third;
    assert a[d.Pos(5)..d.Pos(6)] == d.root;
    assert a[d.Pos(6)..d.Pos(7)] == d.left;
    assert a[d.Pos(7)..d.Pos(8)] == d.right;
  }

  lemma DiskMeta(a: seq<byte>, d: Disk) returns (r: seq<byte>)
    requires d.Fit() && |a| == d.Pos(8)
    ensures |r| == |a| && IsMeta(r, d) && forall p :: d.Pos(4) <= p < |a| ==> r[p] == a[p]
  {
    var b, i := 8 - d.blocks, 8 - d.inodes;
    LowRange(d.blocks);
    LowRange(d.inodes);
    var desc := Le32(d.First() + 2) + Le32(d.First() + 3) + Le32(d.First() + 4) + Le16(b) + Le16(i) + Le16(2);
    r := Put(Put(a, d.Pos(2), [Pow2(d.blocks) - 1]), d.Pos(3), [Pow2(d.inodes) - 1]);
    r := DescPut(r, d.Pos(1), d.First(), b, i);
    r := SuperPut(r, d, b, i);
  }

  lemma DescPut(a: seq<byte>, at: nat, first: nat, b: nat, i: nat) returns (r: seq<byte>)
    requires 2048 <= at && at + 18 <= |a| && first <= 1 && b <= 8 && i <= 8
    ensures |r| == |a| && forall p :: 0 <= p < |a| && !(at <= p < at + 18) ==> r[p] == a[p]
    ensures U32(r, at) == first + 2 && U32(r, at + 4) == first + 3 && U32(r, at + 8) == first + 4
    ensures U16(r, at + 12) == b && U16(r, at + 14) == i && U16(r, at + 16) == 2
  {
    r := Put(a, at, [first + 2, 0, 0, 0, first + 3, 0, 0, 0, first + 4, 0, 0, 0, b, 0, i, 0, 2, 0]);
  }

  /** Byte `o` of the superblock, with `b` blocks and `i` inodes free. */
  function SuperByte(d: Disk, b: nat, i: nat, o: nat): byte
    requires b <= 8 && i <= 8
  {
    match o
    case 0 => 8
    case 4 => d.First() + 8
    case 12 => b
    case 16 => i
    case 20 => d.First()
    case 24 => if d.large then 6 else 0
    case 33 => 32
    case 40 => 8
    case 56 => 0x53
    case 57 => 0xEF
    case 76 => 1
    case 84 => 3
    case 88 => 128
    case _ => 0
  }

  function SuperBytes(d: Disk, b: nat, i: nat): (s: seq<byte>)
    requires b <= 8 && i <= 8
    ensures |s| == 104
  {
    seq(104, o requires 0 <= o < 104 => SuperByte(d, b, i, o))
  }

  lemma SuperPut(a: seq<byte>, d: Disk, b: nat, i: nat) returns (r: seq<byte>)
    requires |a| == d.Pos(8) && b <= 8 && i <= 8
    ensures |r| == |a| && forall p :: 2048 <= p < |a| ==> r[p] == a[p]
    ensures U32(r, 1024 + 12) == b && U32(r, 1024 + 16) == i && Says(r, d.Geo())
  {
    var s := SuperBytes(d, b, i);
    hide SuperBytes, U32, U16, Says;
    r := Put(a, 1024, s);
    assert r[1024..1024 + 104] == s;
    SuperReads(r, d, b, i);
  }

  /** An image with those bytes says the layout. */
  lemma SuperReads(r: seq<byte>, d: Disk, b: nat, i: nat)
    requires |r| == d.Pos(8) && b <= 8 && i <= 8 && r[1024..1024 + 104] == SuperBytes(d, b, i)
    ensures U32(r, 1024 + 12) == b && U32(r, 1024 + 16) == i && Says(r, d.Geo())
  {
    var s := SuperBytes(d, b, i);
    SuperSays(d, b, i);
    FieldsRead(r, s);
    SayingIs(r, d.Geo(), if d.large then 6 else 0);
    assert Pow2(6) == 64 && Pow2(0) == 1 by { assert Pow2(3) == 8; }
  }

  lemma FieldsRead(r: seq<byte>, s: seq<byte>)
    requires |s| == 104 && 1024 + 104 <= |r| && r[1024..1024 + 104] == s
    ensures U32(r, 1024) == U32(s, 0) && U32(r, 1028) == U32(s, 4) && U32(r, 1036) == U32(s, 12)
    ensures U32(r, 1040) == U32(s, 16) && U32(r, 1044) == U32(s, 20) && U32(r, 1048) == U32(s, 24)
    ensures U32(r, 1056) == U32(s, 32) && U32(r, 1064) == U32(s, 40) && U16(r, 1080) == U16(s, 56)
    ensures U32(r, 1100) == U32(s, 76) && U32(r, 1108) == U32(s, 84) && U16(r, 1112) == U16(s, 88)
    ensures U32(r, 1120) == U32(s, 96)
  {
    hide U32, U16;
    Field(r, s, 0);
    Field(r, s, 4);
    Field(r, s, 12);
    Field(r, s, 16);
    Field(r, s, 20);
    Field(r, s, 24);
    Field(r, s, 32);
    Field(r, s, 40);
    Field(r, s, 56);
    Field(r, s, 76);
    Field(r, s, 84);
    Field(r, s, 88);
    Field(r, s, 96);
  }

  lemma SayingIs(r: seq<byte>, L: Layout, shift: nat)
    requires 1024 + 104 <= |r| && shift <= 6 && L.wantExtra == 0 && L.inodeSize == 128
    ensures (&& U32(r, 1024) == L.inodesCount && U32(r, 1028) == L.blocksCount && U32(r, 1044) == L.firstData
             && U32(r, 1048) == shift && L.bs == 1024 * Pow2(shift) && U32(r, 1056) == L.bpg && U32(r, 1064) == L.ipg
             && U16(r, 1080) == 0xEF53 && U32(r, 1100) == 1 && U32(r, 1108) == L.firstInode && U16(r, 1112) == 128
             && U32(r, 1120) == 0) ==> Says(r, L)
  {
    hide U32, U16, Pow2;
  }

  /** A field of the superblock reads as in the bytes put there. */
  lemma Field(r: seq<byte>, s: seq<byte>, o: nat)
    requires |s| == 104 && 1024 + 104 <= |r| && r[1024..1024 + 104] == s && o <= 100
    ensures U32(r, 1024 + o) == U32(s, o) && U16(r, 1024 + o) == U16(s, o)
  {
    forall p | o <= p < o + 4 ensures r[1024 + p] == s[p] { assert r[1024..1024 + 104][p] == s[p]; }
  }

  lemma SuperSays(d: Disk, b: nat, i: nat)
    requires b <= 8 && i <= 8
    ensures var s := SuperBytes(d, b, i);
      && U32(s, 0) == 8 && U32(s, 4) == d.First() + 8 && U32(s, 12) == b && U32(s, 16) == i && U32(s, 20) == d.First()
      && U32(s, 24) == (if d.large then 6 else 0) && U32(s, 32) == 8192 && U32(s, 40) == 8 && U16(s, 56) == 0xEF53
      && U32(s, 76) == 1 && U32(s, 84) == 3 && U16(s, 88) == 128 && U32(s, 96) == 0
  {
  }

  lemma {:induction false} LowBits(n: nat, i: nat)
    ensures Bit(Pow2(n) - 1, i) <==> i < n
  {
    if n > 0 && i > 0 {
      assert (Pow2(n) - 1) / 2 == Pow2(n - 1) - 1;
      LowBits(n - 1, i - 1);
    } else if n == 0 {
      ZeroBits(i);
    }
  }

  lemma {:induction false} ZeroBits(i: nat)
    ensures !Bit(0, i)
  {
    if i > 0 { ZeroBits(i - 1); }
  }

  lemma LowRange(n: nat)
    requires n <= 8
    ensures 0 <= Pow2(n) - 1 < 256
  {
    assert Pow2(0) == 1 && Pow2(1) == 2 && Pow2(2) == 4 && Pow2(3) == 8;
    assert Pow2(4) == 16 && Pow2(5) == 32 && Pow2(6) == 64 && Pow2(7) == 128 && Pow2(8) == 256;
  }

  // ----- it is well formed -----

  lemma DiskPlaces(img: seq<byte>, d: Disk)
    requires IsDisk(img, d)
    ensures LayoutOf(|img|, d.Geo())
    ensures var L := d.Geo();
      && MetaStart(img, L, Super) == 0 && MetaLen(L, Super) == 2048
      && MetaStart(img, L, Table) == d.Pos(1) && MetaLen(L, Table) == 32
      && MetaStart(img, L, BlockMap(0)) == d.Pos(2) && MetaLen(L, BlockMap(0)) == d.Bs()
      && MetaStart(img, L, InodeMap(0)) == d.Pos(3) && MetaLen(L, InodeMap(0)) == d.Bs()
      && MetaStart(img, L, Inodes(0)) == d.Pos(4) && MetaLen(L, Inodes(0)) == 1024
      && forall m :: ValidMeta(L, m) <==> m in {Super, Table, BlockMap(0), InodeMap(0), Inodes(0)}
  {
    var L := d.Geo();
    DiskLayout(d);
    TimesIsProduct(8, 128);
    hide U32, U16, RootSlot, Times, LayoutOf, Pow2;
    forall m ensures ValidMeta(L, m) <==> m in {Super, Table, BlockMap(0), InodeMap(0), Inodes(0)} {
      match m { case Super => case Table => case BlockMap(g) => case InodeMap(g) => case Inodes(g) => }
    }
  }

  lemma DiskGeometry(img: seq<byte>, d: Disk)
    requires IsDisk(img, d)
    ensures Geometry(img, d.Geo())
    ensures forall b: nat :: DataBlock(img, d.Geo(), b) <==> d.First() + 5 <= b < d.First() + 8
    ensures forall i: nat :: IsInode(d.Geo(), i) ==> InodeAt(img, d.Geo(), i) == Some(d.Pos(4) + 128 * (i - 1))
  {
    var L := d.Geo();
    DiskPlaces(img, d);
    DiskLayout(d);
    assert Times(1, 8) == 8;
    DiskInodes(img, d);
    hide U32, U16, RootSlot, Times, LayoutOf, MetaStart, MetaLen, IsDisk, InodeAt, Pow2;
    forall b: nat ensures DataBlock(img, L, b) <==> d.First() + 5 <= b < d.First() + 8 {
      if d.First() <= b < d.First() + 8 {
        assert ValidMeta(L, Super) && ValidMeta(L, Table) && ValidMeta(L, BlockMap(0));
        assert ValidMeta(L, InodeMap(0)) && ValidMeta(L, Inodes(0));
      }
    }
  }

  lemma DiskInodes(img: seq<byte>, d: Disk)
    requires IsDisk(img, d)
    ensures LayoutOf(|img|, d.Geo())
    ensures forall i: nat :: IsInode(d.Geo(), i) ==> InodeAt(img, d.Geo(), i) == Some(d.Pos(4) + 128 * (i - 1))
  {
    DiskPlaces(img, d);
    hide U32, U16, RootSlot, Times, LayoutOf, Pow2;
    forall i: nat | IsInode(d.Geo(), i)
      ensures InodeAt(img, d.Geo(), i) == Some(d.Pos(4) + 128 * (i - 1))
    {
      TimesIsProduct(i - 1, 128);
    }
  }

  /** The bits of both bitmaps. */
  lemma DiskBit(img: seq<byte>, d: Disk, n: nat)
    requires IsDisk(img, d) && n < 8
    ensures Geometry(img, d.Geo())
    ensures BitOn(img, d.Geo(), BlockKind, 0, n) <==> n < d.blocks
    ensures BitOn(img, d.Geo(), InodeKind, 0, n) <==> n < d.inodes
  {
    DiskGeometry(img, d);
    MapsAre(img, d);
    hide Geometry, U32, U16, RootSlot, Pow2, LayoutOf, InodeAt, BlockBitmap, InodeBitmap, DataBlock, BitOn;
    BitOfMap(img, d.Geo(), BlockKind, d.Pos(2), d.blocks, n);
    BitOfMap(img, d.Geo(), InodeKind, d.Pos(3), d.inodes, n);
  }

  lemma BitOfMap(img: seq<byte>, L: Layout, k: Kind, at: nat, count: nat, n: nat)
    requires Geometry(img, L) && 0 < L.groupCount && n < 8 && at < |img| && img[at] == Pow2(count) - 1
    requires at == if k.BlockKind? then BlockBitmap(img, L, 0) else InodeBitmap(img, L, 0)
    ensures BitOn(img, L, k, 0, n) <==> n < count
  {
    LowBits(count, n);
    hide Geometry, Bit, Pow2, LayoutOf, BlockBitmap, InodeBitmap, Times;
  }

  lemma MapsAre(img: seq<byte>, d: Disk)
    requires IsDisk(img, d)
    ensures LayoutOf(|img|, d.Geo()) && BlockBitmap(img, d.Geo(), 0) == d.Pos(2)
    ensures InodeBitmap(img, d.Geo(), 0) == d.Pos(3)
  {
    DiskPlaces(img, d);
    hide U32, U16, RootSlot, Times, Pow2, LayoutOf, IsDisk;
  }

  lemma DiskBits(img: seq<byte>, d: Disk)
    requires IsDisk(img, d)
    ensures Geometry(img, d.Geo())
    ensures forall b: nat :: InRange(d.Geo(), b) ==> (BlockUsed(img, d.Geo(), b) <==> b < d.First() + d.blocks)
    ensures forall i: nat :: IsInode(d.Geo(), i) ==> (InodeUsed(img, d.Geo(), i) <==> i <= d.inodes)
  {
    var L := d.Geo();
    DiskGeometry(img, d);
    hide Geometry, BitOn, IsDisk, InodeAt, DataBlock, LayoutOf;
    forall b: nat | InRange(L, b) ensures BlockUsed(img, L, b) <==> b < d.First() + d.blocks {
      DiskBit(img, d, b - d.First());
      assert GroupOfBlock(L, b) == 0 && IndexOfBlock(L, b) == b - d.First();
    }
    forall i: nat | IsInode(L, i) ensures InodeUsed(img, L, i) <==> i <= d.inodes {
      DiskBit(img, d, i - 1);
      assert GroupOfInode(L, i) == 0 && IndexOfInode(L, i) == i - 1;
    }
  }

  lemma DiskAccounts(img: seq<byte>, d: Disk)
    requires IsDisk(img, d)
    ensures Geometry(img, d.Geo()) && Accounts(img, d.Geo())
  {
    DiskGeometry(img, d);
    DiskLayout(d);
    FreeCounts(img, d);
    hide Geometry, U32, U16, RootSlot, Pow2, FreeIn, DataBlock, InodeAt, LayoutOf, Times, Accounts;
    OneGroupAccounts(img, d.Geo(), 8 - d.blocks, 8 - d.inodes);
  }

  /** With one group, both counts of a kind are its clear bits. */
  lemma OneGroupAccounts(img: seq<byte>, L: Layout, b: nat, i: nat)
    requires Geometry(img, L) && L.groupCount == 1 && DescAt(L, 0) + 32 <= |img| && FREE_INODES_AT + 4 <= |img|
    requires FreeIn(img, L, BlockKind, 0) == b == U16(img, DescAt(L, 0) + 12) == U32(img, FREE_BLOCKS_AT)
    requires FreeIn(img, L, InodeKind, 0) == i == U16(img, DescAt(L, 0) + 14) == U32(img, FREE_INODES_AT)
    ensures Accounts(img, L)
  {
    hide Geometry, U32, U16, FreeIn, Times;
    assert FreeUpTo(img, L, BlockKind, 0) == 0 && FreeUpTo(img, L, InodeKind, 0) == 0;
    assert FreeUpTo(img, L, BlockKind, 1) == b && FreeUpTo(img, L, InodeKind, 1) == i;
  }

  lemma FreeCounts(img: seq<byte>, d: Disk)
    requires IsDisk(img, d)
    ensures Geometry(img, d.Geo())
    ensures FreeIn(img, d.Geo(), BlockKind, 0) == 8 - d.blocks && FreeIn(img, d.Geo(), InodeKind, 0) == 8 - d.inodes
  {
    var L := d.Geo();
    DiskGeometry(img, d);
    hide Geometry, IsDisk, BitOn, DataBlock, InodeAt, LayoutOf, ClearBits;
    forall n: nat | n < 8
      ensures BitOn(img, L, BlockKind, 0, n) <==> n < d.blocks
      ensures BitOn(img, L, InodeKind, 0, n) <==> n < d.inodes
    {
      DiskBit(img, d, n);
    }
    CountsAre(img, L, BlockKind, d.blocks, 8);
    CountsAre(img, L, InodeKind, d.inodes, 8);
  }

  /** A bitmap whose first `m` bits are set has the other `n - m` clear. */
  lemma {:induction false} CountsAre(img: seq<byte>, L: Layout, k: Kind, m: nat, n: nat)
    requires Geometry(img, L) && n <= 8 && 0 < L.groupCount
    requires forall i: nat :: i < 8 ==> (BitOn(img, L, k, 0, i) <==> i < m)
    ensures ClearBits(img, L, k, 0, n) == if m <= n then n - m else 0
  {
    hide Geometry, BitOn;
    if n > 0 { CountsAre(img, L, k, m, n - 1); }
  }

  // ----- its inodes -----

  /** Fields of the slots of the root and of inode 3 read as those of what was put there. */
  lemma SlotFields(img: seq<byte>, at: nat, x: seq<byte>)
    requires at + 128 <= |img| && img[at..at + 128] == x
    ensures U16(img, at) == U16(x, 0) && U32(img, at + 4) == U32(x, 4) && U16(img, at + 26) == U16(x, 26)
    ensures forall j :: 0 <= j < 15 ==> U32(img, SlotAt(at, j)) == U32(x, SlotAt(0, j))
  {
    assert forall p :: 0 <= p < 128 ==> img[at + p] == x[p] by {
      forall p | 0 <= p < 128 ensures img[at + p] == x[p] { assert img[at..at + 128][p] == x[p]; }
    }
  }

  /** The root has one block. */
  lemma RootInode(img: seq<byte>, d: Disk)
    requires IsDisk(img, d)
    ensures var L := d.Geo();
      && Geometry(img, L) && NodeOf(img, L, ROOT) == Node(0x41ED, 2) && DirectoryInode(img, L, ROOT)
      && SizeOf(img, L, ROOT) == L.bs && Slot(img, L, ROOT, 0) == d.First() + 5
      && (forall j :: 1 <= j < 15 ==> Slot(img, L, ROOT, j) == 0)
  {
    DiskGeometry(img, d);
    DiskLayout(d);
    FreshSlot(d.Pos(8), d.Geo(), d.First() + 5);
    hide Geometry, U32, U16, FreshDirectory, InodeAt, Times, Pow2;
    SlotFields(img, d.Pos(4) + 128, RootSlot(d));
  }

  /** Inode 1 is empty. */
  lemma FirstInode(img: seq<byte>, d: Disk)
    requires IsDisk(img, d)
    ensures var L := d.Geo();
      Geometry(img, L) && !DirectoryInode(img, L, 1) && forall j :: 0 <= j < 15 ==> Slot(img, L, 1, j) == 0
  {
    DiskGeometry(img, d);
    hide Geometry, RootSlot, InodeAt, Times, LayoutOf, Pow2;
  }

  /** Inode 3 is what its slot says. */
  lemma ThirdInode(img: seq<byte>, d: Disk)
    requires IsDisk(img, d)
    ensures var L := d.Geo();
      && Geometry(img, L) && (DirectoryInode(img, L, THIRD) <==> IsDirectoryMode(U16(d.third, 0)))
      && SizeOf(img, L, THIRD) == U32(d.third, 4)
      && (forall j :: 0 <= j < 15 ==> Slot(img, L, THIRD, j) == U32(d.third, SlotAt(0, j)))
  {
    DiskGeometry(img, d);
    hide Geometry, U32, U16, RootSlot, InodeAt, Times, LayoutOf, Pow2;
    SlotFields(img, d.Pos(4) + 256, d.third);
  }

  /** The third inode refers to the blocks from the sixth on, each once, and to nothing else. */
  ghost predicate OwnsRest(d: Disk)
    requires d.Fit()
  {
    forall j :: 0 <= j < 15 ==>
      U32(d.third, SlotAt(0, j)) == if j < 2 && 6 + j < d.blocks then d.First() + 6 + j else 0
  }

  /** The block a reference of inode `i` leads to. */
  function RefOf(d: Disk, i: nat, x: nat): nat {
    if i == ROOT && x == 0 then d.First() + 5
    else if i == THIRD && x < 2 && 6 + x < d.blocks then d.First() + 6 + x
    else 0
  }

  lemma DiskRefs(img: seq<byte>, d: Disk, i: nat, x: nat)
    requires IsDisk(img, d) && Geometry(img, d.Geo()) && IsUsed(img, d.Geo(), i) && x < RefCount(d.Geo())
    requires d.inodes == 3 ==> OwnsRest(d)
    ensures Ref(img, d.Geo(), i, x) == RefOf(d, i, x)
  {
    hide Geometry, U32, U16, RootSlot, BlockUsed, InodeUsed, DataBlock, InodeAt, Times, Slot, LayoutOf, Pow2,
      DirectoryInode, SizeOf;
    DiskBits(img, d);
    assert i == 1 || i == ROOT || (i == THIRD && d.inodes == 3);
    if i == ROOT { RootInode(img, d); } else if i == 1 { FirstInode(img, d); } else { ThirdInode(img, d); }
  }

  /** The invariant of whole images holds when the directories are well formed. */
  lemma DiskSound(img: seq<byte>, d: Disk)
    requires IsDisk(img, d) && Dir(img, d.Geo(), ROOT, 1)
    requires d.inodes == 3 ==> OwnsRest(d) && (IsDirectoryMode(U16(d.third, 0)) ==> DirOk(img, d.Geo(), THIRD))
    ensures Fs(img, d.Geo()) && FolderOk(img, d.Geo(), ROOT, 1)
  {
    DiskRootUsed(img, d);
    DiskAccounts(img, d);
    DiskExclusive(img, d);
    DiskFree(img, d);
    DiskDirs(img, d);
    hide Geometry, U16, Dir, Accounts, Exclusive, FreeIsData, Dirs, OwnsRest, IsDirectoryMode, IsDisk, IsUsed;
  }

  lemma DiskRootUsed(img: seq<byte>, d: Disk)
    requires IsDisk(img, d)
    ensures Geometry(img, d.Geo()) && IsUsed(img, d.Geo(), ROOT) && (IsUsed(img, d.Geo(), THIRD) <==> d.inodes == 3)
    ensures IsUsed(img, d.Geo(), 1) && forall i: nat :: IsUsed(img, d.Geo(), i) ==> i == 1 || i == ROOT || i == THIRD
  {
    DiskBits(img, d);
    hide Geometry, BlockUsed, InodeUsed, IsMeta, RootSlot;
  }

  lemma DiskDirs(img: seq<byte>, d: Disk)
    requires IsDisk(img, d) && Dir(img, d.Geo(), ROOT, 1)
    requires d.inodes == 3 ==> IsDirectoryMode(U16(d.third, 0)) ==> DirOk(img, d.Geo(), THIRD)
    ensures Geometry(img, d.Geo()) && Dirs(img, d.Geo())
  {
    DiskRootUsed(img, d);
    FirstInode(img, d);
    ThirdInode(img, d);
    assert DirOk(img, d.Geo(), ROOT);
    hide Geometry, U16, U32, Dir, DirOk, IsDisk, IsUsed, Slot, SizeOf, DirectoryInode;
  }

  /** References that are not 0 are to used data blocks, and no two are to one block. */
  lemma RefsOf(d: Disk, i: nat, x: nat, j: nat, y: nat)
    requires d.Fit() && RefOf(d, i, x) != 0
    ensures d.First() + 5 <= RefOf(d, i, x) < d.First() + d.blocks
    ensures (i, x) != (j, y) ==> RefOf(d, i, x) != RefOf(d, j, y)
  {
  }

  lemma DiskExclusive(img: seq<byte>, d: Disk)
    requires IsDisk(img, d) && (d.inodes == 3 ==> OwnsRest(d))
    ensures Geometry(img, d.Geo()) && Exclusive(img, d.Geo())
  {
    var L := d.Geo();
    DiskLinked(img, d);
    hide Geometry, InodeUsed, Ref, Linked, OwnsRest, IsMeta, RootSlot, RefOf, RefCount;
    forall i, x {:trigger Ref(img, L, i, x)} | IsUsed(img, L, i) && 0 <= x < RefCount(L)
      ensures Ref(img, L, i, x) == RefOf(d, i, x) && (Ref(img, L, i, x) != 0 ==> Linked(img, L, Ref(img, L, i, x)))
    {
      DiskRefs(img, d, i, x);
      if RefOf(d, i, x) != 0 { RefsOf(d, i, x, i, x); }
    }
    forall i, x, j, y {:trigger Ref(img, L, i, x), Ref(img, L, j, y)} |
        IsUsed(img, L, i) && IsUsed(img, L, j) && 0 <= x < RefCount(L) && 0 <= y < RefCount(L) && (i, x) != (j, y)
        && Ref(img, L, i, x) != 0
      ensures Ref(img, L, i, x) != Ref(img, L, j, y)
    {
      RefsOf(d, i, x, j, y);
    }
  }

  lemma DiskFree(img: seq<byte>, d: Disk)
    requires IsDisk(img, d)
    ensures Geometry(img, d.Geo()) && FreeIsData(img, d.Geo())
  {
    DiskBits(img, d);
    DiskGeometry(img, d);
    hide Geometry, BlockUsed, DataBlock, InodeUsed, InodeAt;
  }

  lemma DiskLinked(img: seq<byte>, d: Disk)
    requires IsDisk(img, d)
    ensures Geometry(img, d.Geo()) && d.blocks <= 8
    ensures forall b: nat :: d.First() + 5 <= b < d.First() + d.blocks ==> Linked(img, d.Geo(), b)
  {
    DiskBits(img, d);
    DiskGeometry(img, d);
    hide Geometry, BlockUsed, DataBlock, InodeUsed, InodeAt;
  }

  // ----- directory blocks of two records -----

  datatype Record = Record(ino: nat, name: seq<byte>, kind: byte)
  {
    predicate Short() { ino < 0x1_0000_0000 && |name| <= 4 }

    function Bound(): Binding { (name, ino, kind) }
  }

  /** A block tiled by two records, the first as short as it can be. */
  function TwoRecords(bs: nat, a: Record, b: Record): (r: seq<byte>)
    requires bs in {1024, 65536} && a.Short() && b.Short()
    ensures |r| == bs
  {
    Put(Put(Zeros(bs), 0, RecordBytes(a.ino, DOT_LEN, a.name, a.kind)), DOT_LEN,
          RecordBytes(b.ino, bs - DOT_LEN, b.name, b.kind))
  }

  lemma TwoRecordsTail(bs: nat, a: Record, b: Record)
    requires bs in {1024, 65536} && a.Short() && b.Short()
    ensures forall q :: DOT_LEN + DIRENT_HEADER_LEN + |b.name| <= q < bs ==> TwoRecords(bs, a, b)[q] == 0
  {
    hide RecordBytes;
  }

  lemma TwoReads(r: seq<byte>, at: nat, bs: nat, a: Record, b: Record)
    requires bs in {1024, 65536} && a.Short() && b.Short() && at + bs <= |r|
    requires r[at..at + bs] == TwoRecords(bs, a, b)
    ensures RecLen(r, at) == DOT_LEN && NameLen(r, at) == |a.name| && BindingAt(r, at) == a.Bound()
    ensures var p := at + DOT_LEN;
      RecLen(r, p) == bs - DOT_LEN && NameLen(r, p) == |b.name| && BindingAt(r, p) == b.Bound()
  {
    var x := RecordBytes(a.ino, DOT_LEN, a.name, a.kind);
    var y := RecordBytes(b.ino, bs - DOT_LEN, b.name, b.kind);
    TwoSlices(r, at, bs, a, b);
    hide RecordBytes, U32, RecLen, NameLen, NameAt;
    PutSame(r, at, x);
    PutSame(r, at + DOT_LEN, y);
    RecordReads(r, at, a.ino, DOT_LEN, a.name, a.kind);
    RecordReads(r, at + DOT_LEN, b.ino, bs - DOT_LEN, b.name, b.kind);
  }

  lemma TwoSlices(r: seq<byte>, at: nat, bs: nat, a: Record, b: Record)
    requires bs in {1024, 65536} && a.Short() && b.Short() && at + bs <= |r|
    requires r[at..at + bs] == TwoRecords(bs, a, b)
    ensures var x, y := RecordBytes(a.ino, DOT_LEN, a.name, a.kind), RecordBytes(b.ino, bs - DOT_LEN, b.name, b.kind);
      r[at..at + |x|] == x && r[at + DOT_LEN..at + DOT_LEN + |y|] == y
  {
    hide RecordBytes;
    var x, y := RecordBytes(a.ino, DOT_LEN, a.name, a.kind), RecordBytes(b.ino, bs - DOT_LEN, b.name, b.kind);
    var t := TwoRecords(bs, a, b);
    assert t[0..|x|] == x;
    assert t[DOT_LEN..DOT_LEN + |y|] == y;
    SliceOfSlice(r, at, bs, 0, |x|);
    SliceOfSlice(r, at, bs, DOT_LEN, |y|);
  }

  /** The entries of such a block, and where its records start. */
  lemma TwoEntriesAre(r: seq<byte>, at: nat, bs: nat, a: Record, b: Record)
    requires bs in {1024, 65536} && a.Short() && b.Short() && at + bs <= |r|
    requires r[at..at + bs] == TwoRecords(bs, a, b)
    ensures Tiled(r, at, at + bs)
    ensures Entries(r, at, at + bs)
      == (if a.ino == 0 then [] else [a.Bound()]) + (if b.ino == 0 then [] else [b.Bound()])
    ensures var end := at + bs; forall p :: Starts(r, at, end, p) <==> p == at || p == at + DOT_LEN
  {
    hide RecLen, NameLen, NameAt, U32, TwoRecords;
    TwoReads(r, at, bs, a, b);
    var p, end := at + DOT_LEN, at + bs;
    assert RecordOk(r, p, end) && p + RecLen(r, p) == end;
    assert Tiled(r, end, end);
    assert Tiled(r, p, end);
    assert RecordOk(r, at, end);
    assert Entries(r, end, end) == [];
    assert Entries(r, p, end) == (if b.ino == 0 then [] else [b.Bound()]);
    forall q ensures Starts(r, at, end, q) <==> q == at || q == p {
      assert Starts(r, at, end, q) <==> at == q || Starts(r, p, end, q);
      assert Starts(r, p, end, q) <==> p == q || Starts(r, end, end, q);
    }
  }

  /** A root of two records is a well-formed directory that binds the two. */
  lemma RootDir(img: seq<byte>, d: Disk, a: Record, b: Record)
    requires IsDisk(img, d) && a.Short() && b.Short() && a.ino != 0 && b.ino != 0 && d.root == TwoRecords(d.Bs(), a, b)
    ensures Dir(img, d.Geo(), ROOT, 1)
    ensures Names(img, d.Geo(), ROOT, 1, 1) == [a.Bound(), b.Bound()]
  {
    RootInode(img, d);
    RootBlock(img, d, a, b);
    hide Geometry, Slot, BlockEntries, TiledBlock, LayoutOf, IsDisk, Linked, SizeOf, DirectoryInode, Dir, Names,
      TwoRecords, Times;
    OneBlockDir(img, d.Geo(), ROOT, d.First() + 5);
  }

  lemma OneBlockDir(img: seq<byte>, L: Layout, ino: nat, b: nat)
    requires Geometry(img, L) && IsInode(L, ino) && DirectoryInode(img, L, ino) && SizeOf(img, L, ino) == L.bs
    requires Slot(img, L, ino, 0) == b && (forall j :: 1 <= j < 15 ==> Slot(img, L, ino, j) == 0)
    requires Linked(img, L, b) && BlockAt(L, b) + L.bs <= |img| && InRange(L, b) && TiledBlock(img, L, b)
    ensures Dir(img, L, ino, 1) && Names(img, L, ino, 1, 1) == BlockEntries(img, L, b)
  {
    hide Geometry, Slot, BlockEntries, TiledBlock, LayoutOf, Linked, SizeOf, DirectoryInode;
    assert Times(1, L.bs) == L.bs;
    assert Dense(img, L, ino, 1);
    DirIs(img, L, ino, 1);
    OneBlockNames(img, L, ino, b);
  }

  lemma RootBlock(img: seq<byte>, d: Disk, a: Record, b: Record)
    requires IsDisk(img, d) && a.Short() && b.Short() && a.ino != 0 && b.ino != 0 && d.root == TwoRecords(d.Bs(), a, b)
    ensures var L, n := d.Geo(), d.First() + 5;
      && Geometry(img, L) && Linked(img, L, n) && BlockAt(L, n) == d.Pos(5) && d.Pos(5) + L.bs <= |img|
      && TiledBlock(img, L, n) && BlockEntries(img, L, n) == [a.Bound(), b.Bound()]
  {
    DiskLinked(img, d);
    DiskLayout(d);
    DataSlices(img, d);
    hide Geometry, IsDisk, TwoRecords, Linked, Times, LayoutOf, TiledBlock, BlockEntries;
    BlockOfTwo(img, d.Geo(), d.First() + 5, a, b);
  }

  /** The data blocks hold what they should. */
  lemma DataSlices(img: seq<byte>, d: Disk)
    requires IsDisk(img, d)
    ensures |img| == d.Pos(8) && LayoutOf(|img|, d.Geo())
    ensures var L, n := d.Geo(), d.First();
      && img[BlockAt(L, n + 5)..BlockAt(L, n + 5) + L.bs] == d.root
      && img[BlockAt(L, n + 6)..BlockAt(L, n + 6) + L.bs] == d.left
      && img[BlockAt(L, n + 7)..BlockAt(L, n + 7) + L.bs] == d.right
  {
    DiskLayout(d);
    hide LayoutOf, IsMeta, RootSlot, Times;
  }

  /** Any block of two records. */
  lemma BlockOfTwo(img: seq<byte>, L: Layout, n: nat, a: Record, b: Record)
    requires LayoutOf(|img|, L) && InRange(L, n) && BlockAt(L, n) + L.bs <= |img| && L.bs in {1024, 65536}
    requires a.Short() && b.Short() && img[BlockAt(L, n)..BlockAt(L, n) + L.bs] == TwoRecords(L.bs, a, b)
    ensures TiledBlock(img, L, n)
    ensures BlockEntries(img, L, n)
      == (if a.ino == 0 then [] else [a.Bound()]) + (if b.ino == 0 then [] else [b.Bound()])
  {
    TwoEntriesAre(img, BlockAt(L, n), L.bs, a, b);
    hide TwoRecords, Times, Entries, Tiled, LayoutOf;
  }

  lemma DirIs(img: seq<byte>, L: Layout, ino: nat, k: nat)
    requires Geometry(img, L) && IsInode(L, ino) && DirectoryInode(img, L, ino) && SizeOf(img, L, ino) == Times(k, L.bs)
    requires Dense(img, L, ino, k)
    requires forall j :: 0 <= j < k ==> InRange(L, Slot(img, L, ino, j)) && TiledBlock(img, L, Slot(img, L, ino, j))
    ensures Dir(img, L, ino, k)
  {
    hide Geometry, InodeAt, Dense, Slot, TiledBlock, U16, U32, Times;
    InodeSlot(img, L, ino);
  }
}
