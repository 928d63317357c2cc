/** Two operations worked out by hand: the bytes of a small disk before and after a file or a
    directory is created on it, every number written out. */
module Ext2ByHand {
  import opened Wrappers
  import opened Bytes
  import opened Ext2Layout
  import opened Ext2Alloc
  import opened Ext2Areas
  import opened Ext2File
  import opened Ext2Unwind
  import opened Ext2Append
  import opened Ext2Dirent
  import opened Ext2DirBlock
  import opened Ext2Directory
  import opened Ext2Ops
  import opened Ext2RoundTrip
  import opened Ext2Accounting
  import opened Ext2Giving
  import opened Ext2Mkdir
  import opened Ext2Fs
  import opened Ext2FsFile
  import opened Ext2FsNames
  import opened Ext2Outcomes
  import opened Ext2Disk
  import opened Ext2SmallDisk
  import opened Ext2Superblock
  import opened Ext2Reader
  import opened Ext2Lookup
  import opened Ext2Decode
  import opened Ext2Tree
  import opened Ext2FsView
  import opened Ext2FsRuns
  import opened Ext2Path

  // ----- before -----

  /** A directory's inode: rwxr-xr-x, 1024 bytes, two links, two sectors and its one block, each at
      its place in the slot. */
  ghost function SlotOf(block: byte): (x: seq<byte>)
    ensures |x| == 128
  {
    var a := Put(Put(Zeros(128), 0, [0xED, 0x41]), 4, [0, 4, 0, 0]);
    Put(Put(Put(a, 26, [2, 0]), 28, [2, 0, 0, 0]), 40, [block, 0, 0, 0])
  }

  lemma DirSlotIs(block: byte)
    ensures LayoutOf(9216, EmptyDisk(6).Geo())
    ensures FreshDirectory(9216, EmptyDisk(6).Geo(), block as nat) == SlotOf(block)
  {
    DiskLayout(EmptyDisk(6));
    assert Le16(0x41ED) == [0xED, 0x41] && Le32(1024) == [0, 4, 0, 0] && Le16(2) == [2, 0] && Le32(2) == [2, 0, 0, 0];
    assert Le32(block as nat) == [block, 0, 0, 0];
    hide LayoutOf, Put, Le16, Le32;
  }

  /** A directory's block: `.` with 12 bytes and `..`, which is inode 2, with the other 1012. */
  ghost function DotsOf(ino: byte): (x: seq<byte>)
    ensures |x| == 1024
  {
    Put(Put(Zeros(1024), 0, [ino, 0, 0, 0, 12, 0, 1, 2, 46]), 12, [2, 0, 0, 0, 0xF4, 3, 2, 2, 46, 46])
  }

  lemma DotRecords(ino: byte)
    ensures RecordBytes(ino as nat, 12, [46], 2) == [ino, 0, 0, 0, 12, 0, 1, 2, 46]
    ensures RecordBytes(2, 1012, [46, 46], 2) == [2, 0, 0, 0, 0xF4, 3, 2, 2, 46, 46]
  {
    assert Le32(ino as nat) == [ino, 0, 0, 0] && Le32(2) == [2, 0, 0, 0];
    assert Le16(12) == [12, 0] && Le16(1012) == [0xF4, 3];
    hide Le16, Le32;
  }

  lemma RootBytes(img: seq<byte>)
    requires IsDisk(img, EmptyDisk(6))
    ensures |img| == 9216 && img[5248..5376] == SlotOf(6)
  {
    DirSlotIs(6);
    hide TwoRecords, IsMeta, FreshDirectory, SlotOf;
  }

  lemma DotsBytes(img: seq<byte>)
    requires IsDisk(img, EmptyDisk(6))
    ensures |img| == 9216 && img[6144..7168] == DotsOf(2)
  {
    DotRecords(2);
    hide RootSlot, IsMeta, RecordBytes, Put;
  }

  // ----- after -----

  /** Byte `o` of the new file's inode: a regular file, rw-r--r--, with one link. */
  function FileByte(o: nat): byte {
    match o
    case 0 => 0xA4
    case 1 => 0x81
    case 26 => 1
    case _ => 0
  }

  /** The disk with the file: bit 2 of the inode bitmap set, five inodes free in the group and in all,
      the file's inode in slot 3, and the record of `..` cut to 12 bytes to make room for `a`. */
  ghost function WithFile(img: seq<byte>): seq<byte>
    requires |img| == 9216
  {
    var a := Put(Put(Put(img, 4096, [7]), 2062, [5, 0]), 1040, [5, 0, 0, 0]);
    var b := Put(a, 5376, seq(128, o requires 0 <= o < 128 => FileByte(o)));
    Put(Put(b, 6160, [12, 0]), 6168, [3, 0, 0, 0, 0xE8, 3, 1, 1, 97])
  }

  lemma FileBytes(img: seq<byte>)
    requires IsDisk(img, EmptyDisk(6))
    ensures LayoutOf(|img|, EmptyDisk(6).Geo())
    ensures FreshFile(|img|, EmptyDisk(6).Geo()) == seq(128, o requires 0 <= o < 128 => FileByte(o))
  {
    DiskLayout(EmptyDisk(6));
    hide LayoutOf, TwoRecords, RootSlot, IsMeta;
    var x, y := FreshFile(|img|, EmptyDisk(6).Geo()), seq(128, o requires 0 <= o < 128 => FileByte(o));
    forall o | 0 <= o < 128 ensures x[o] == y[o] { }
  }

  /** The record to split has the room. */
  lemma PlanIsGap(img: seq<byte>, L: Layout)
    requires FolderOk(img, L, ROOT, 1) && EntryRefusal(img, L, ROOT, 1, NAME_A).None?
    ensures LayoutOf(|img|, L) && PlanCreate(img, L, ROOT, NAME_A).Ok?
    ensures GapIn(img, L, ROOT, 1, 0, 12, PlanCreate(img, L, ROOT, NAME_A).value)
  {
    PlanCreateExact(img, L, ROOT, 1, NAME_A);
    ScanDirectoryExact(img, L, ROOT, 1, NAME_A, 12);
    hide Fs, Dir, Geometry, LayoutOf, Matched, Gapped, LastMatch, EntryRefusal, ScanDirectory, GapIn, ValidName;
  }

  /** The first record with room is `..`. */
  lemma RoomAtDotDot(img: seq<byte>)
    requires IsDisk(img, EmptyDisk(6))
    ensures LayoutOf(|img|, EmptyDisk(6).Geo()) && PlanCreate(img, EmptyDisk(6).Geo(), ROOT, NAME_A) == Ok(6156)
  {
    var d := EmptyDisk(6);
    var L := d.Geo();
    EmptyHasRoom(img, 6);
    RootRecords(img, d, Dot(ROOT), DotDot(ROOT));
    hide IsDisk, TwoRecords, Fs, Dir, Geometry, NoFreeInode, EntryRefusal, LayoutOf, TwoIn, PlanCreate, FolderOk, GapIn;
    PlanIsGap(img, L);
    GapIsSecond(img, L, PlanCreate(img, L, ROOT, NAME_A).value);
  }

  lemma GapIsSecond(img: seq<byte>, L: Layout, p: nat)
    requires TwoIn(img, L, 6, Dot(ROOT), DotDot(ROOT)) && GapIn(img, L, ROOT, 1, 0, 12, p) && BlockAt(L, 6) == 6144
    ensures p == 6156
  {
    hide Dir, Geometry, Starts, Tiled, RecLen, NameLen, U32, NameAt, Slot, TiledBlock, LayoutOf, Times;
    assert RecordStart(img, L, 6, p);
  }

  lemma ThirdIsFree(img: seq<byte>)
    requires IsDisk(img, EmptyDisk(6))
    ensures var L := EmptyDisk(6).Geo();
      && Geometry(img, L) && IsInode(L, 3) && !InodeUsed(img, L, 3) && GroupOfInode(L, 3) == 0 && L.firstInode == 3
      && Accounts(img, L) && !NoFreeInode(img, L, 0)
  {
    EmptyHasRoom(img, 6);
    DiskBits(img, EmptyDisk(6));
    DiskAccounts(img, EmptyDisk(6));
    hide IsDisk, Fs, Dir, Geometry, NoFreeInode, EntryRefusal, InodeUsed, BlockUsed, FolderOk, Accounts, InodeAt;
  }

  lemma FirstFreeInode(img: seq<byte>)
    requires IsDisk(img, EmptyDisk(6))
    ensures LayoutOf(|img|, EmptyDisk(6).Geo()) && NewFile(img, EmptyDisk(6).Geo()).0 == Ok(3)
  {
    hide IsDisk, Geometry, NoFreeInode, InodeUsed, Accounts, InodeAt, LayoutOf, GroupOfInode, NewFile, AllocInodeFrom,
      SiteOfInode, Takable, Take;
    var L := EmptyDisk(6).Geo();
    ThirdIsFree(img);
    AllocInodeComplete(img, L, 0);
    AllocInodeTakes(img, L, 0);
    NewFileIs(img, L);
    if AllocInode(img, L).0.value > 3 { AllocInodeLowest(img, L, 0, 3); }
  }

  lemma NewFileIs(img: seq<byte>, L: Layout)
    requires Geometry(img, L) && AllocInodeFrom(img, L, 0).0.Ok?
    ensures NewFile(img, L).0 == AllocInodeFrom(img, L, 0).0
  {
    NewFileSucceeds(img, L);
    hide Geometry, LayoutOf, AllocInodeFrom, InodeAt, FreshFile;
  }

  lemma ThirdSite(img: seq<byte>)
    requires IsDisk(img, EmptyDisk(6))
    ensures var L := EmptyDisk(6).Geo();
      && Geometry(img, L) && LayoutOf(|img|, L) && GroupOfInode(L, 3) < L.groupCount
      && SiteOfInode(img, L, 3) == Site(4096, 2, 2062, 1040) && InodeAt(img, L, 3) == Some(5376)
      && img[4096] == 3 && U16(img, 2062) == 6 && U32(img, 1040) == 6
  {
    var d := EmptyDisk(6);
    DiskGeometry(img, d);
    MapsAre(img, d);
    DiskLayout(d);
    InodeGroup(d.Geo(), 3);
    assert Pow2(2) == 4;
    hide Geometry, LayoutOf, RootSlot, TwoRecords, InodeAt, InodeBitmap, BlockBitmap, Times, U16, U32, DataBlock;
  }

  lemma ThirdTaken(img: seq<byte>)
    requires |img| == 9216 && img[4096] == 3 && U16(img, 2062) == 6 && U32(img, 1040) == 6
    ensures var s := Site(4096, 2, 2062, 1040);
      Takable(img, s) && Take(img, s) == Put(Put(Put(img, 4096, [7]), 2062, [5, 0]), 1040, [5, 0, 0, 0])
  {
    assert SetBit(3, 2) == 7 && !Bit(3, 2) by { assert Bit(3, 1) && Pow2(2) == 4; }
    assert Le16(5) == [5, 0] && Le32(5) == [5, 0, 0, 0];
    hide Put, U16, U32, Le16, Le32, SetBit, Bit;
  }

  /** The record of `..` split for `a`. */
  lemma DotDotSplit(x: seq<byte>, kind: byte)
    requires |x| == 9216 && U16(x, 6160) == 1012 && x[6162] == 2
    ensures Splittable(x, 6156, 1)
    ensures Insert(x, 6156, 3, [97], kind) == Put(Put(x, 6160, [12, 0]), 6168, [3, 0, 0, 0, 0xE8, 3, 1, kind, 97])
  {
    RecordByHand(kind);
    assert Le16(12) == [12, 0];
    assert RecLen(x, 6156) == 1012 && NameLen(x, 6156) == 2 && Span(2) == 12 && Span(1) == 12;
    hide *;
    SplitByHand(x, kind);
  }

  lemma SplitByHand(x: seq<byte>, kind: byte)
    requires |x| == 9216 && RecLen(x, 6156) == 1012 && NameLen(x, 6156) == 2 && Span(2) == 12 && Span(1) == 12
    requires Le16(12) == [12, 0] && RecordBytes(3, 1000, [97], kind) == [3, 0, 0, 0, 0xE8, 3, 1, kind, 97]
    ensures Splittable(x, 6156, 1)
    ensures Insert(x, 6156, 3, [97], kind) == Put(Put(x, 6160, [12, 0]), 6168, [3, 0, 0, 0, 0xE8, 3, 1, kind, 97])
  {
    hide Put, RecLen, NameLen, Span, Le16, RecordBytes, Insert;
    InsertShape(x, 6156, 3, [97], kind);
  }

  lemma RecordByHand(kind: byte)
    ensures RecordBytes(3, 1000, [97], kind) == [3, 0, 0, 0, 0xE8, 3, 1, kind, 97]
  {
    assert Le32(3) == [3, 0, 0, 0] && Le16(1000) == [0xE8, 3];
  }

  /** Bytes of the root's block are not touched by what comes first. */
  lemma BlockStays(img: seq<byte>, slot: seq<byte>)
    requires |img| == 9216 && |slot| == 128
    ensures var x := Put(Put(Put(Put(img, 4096, [7]), 2062, [5, 0]), 1040, [5, 0, 0, 0]), 5376, slot);
      |x| == 9216 && forall p :: 6144 <= p < 7168 ==> x[p] == img[p]
  {
  }

  /** The image with the inode taken and its slot filled in. */
  ghost function WithInode(img: seq<byte>): (x: seq<byte>)
    requires |img| == 9216
    ensures |x| == 9216
  {
    Put(Put(Put(Put(img, 4096, [7]), 2062, [5, 0]), 1040, [5, 0, 0, 0]), 5376,
      seq(128, o requires 0 <= o < 128 => FileByte(o)))
  }

  lemma NewFileByHand(img: seq<byte>)
    requires IsDisk(img, EmptyDisk(6))
    ensures |img| == 9216 && LayoutOf(|img|, EmptyDisk(6).Geo())
    ensures NewFile(img, EmptyDisk(6).Geo()) == (Ok(3), WithInode(img))
  {
    hide IsDisk, TwoRecords, LayoutOf, Geometry, NewFile, FreshFile, Take, Takable, Put, InodeAt, SiteOfInode,
      GroupOfInode, InodeUsed;
    var L := EmptyDisk(6).Geo();
    ThirdSite(img);
    FirstFreeInode(img);
    NewFileShape(img, L);
    FileBytes(img);
    DotsBytes(img);
    ThirdTaken(img);
  }

  lemma SplittableByHand(img: seq<byte>)
    requires IsDisk(img, EmptyDisk(6))
    ensures |img| == 9216 && Splittable(WithInode(img), 6156, 1)
    ensures Insert(WithInode(img), 6156, 3, [97], 1) == WithFile(img)
  {
    hide IsDisk, Insert, Put, Splittable;
    DotsBytes(img);
    BlockStays(img, seq(128, o requires 0 <= o < 128 => FileByte(o)));
    LengthOfRecord(img, WithInode(img));
    DotDotSplit(WithInode(img), 1);
  }

  /** Creating `a` in the empty root hands out inode 3 and changes exactly these bytes. */
  lemma CreateByHand(img: seq<byte>)
    requires IsDisk(img, EmptyDisk(6))
    ensures |img| == 9216 && CreateInBounds(img, EmptyDisk(6).Geo(), ROOT, [97])
    ensures CreateFile(img, EmptyDisk(6).Geo(), ROOT, [97]) == (Ok(3), WithFile(img))
  {
    hide IsDisk, LayoutOf, NewFile, PlanCreate, Insert, Splittable, WithFile, WithInode;
    RoomAtDotDot(img);
    NewFileByHand(img);
    SplittableByHand(img);
  }

  lemma LengthOfRecord(img: seq<byte>, x: seq<byte>)
    requires |img| == |x| == 9216 && forall p :: 6144 <= p < 7168 ==> x[p] == img[p]
    requires img[6144..7168] == DotsOf(2)
    ensures U16(x, 6160) == 1012 && x[6162] == 2
  {
    assert DotsOf(2)[16] == 0xF4 && DotsOf(2)[17] == 3 && DotsOf(2)[18] == 2;
    hide DotsOf;
    assert img[6144..7168][16] == img[6160] && img[6144..7168][17] == img[6161] && img[6144..7168][18] == img[6162];
  }

  // ----- a directory -----

  /** Inode and block taken: bit 2 and bit 6 set, five inodes and one block free. */
  ghost function BothTaken(img: seq<byte>): (x: seq<byte>)
    requires |img| == 9216
    ensures |x| == 9216
  {
    var a := Put(Put(Put(img, 4096, [7]), 2062, [5, 0]), 1040, [5, 0, 0, 0]);
    Put(Put(Put(a, 3072, [127]), 2060, [1, 0]), 1036, [1, 0, 0, 0])
  }

  /** Slot and block filled in. */
  ghost function WithBoth(img: seq<byte>): (x: seq<byte>)
    requires |img| == 9216
    ensures |x| == 9216
  {
    Put(Put(BothTaken(img), 5376, SlotOf(7)), 7168, DotsOf(3))
  }

  /** And the record, the root's third link, and the group's third directory. */
  ghost function WithDirectory(img: seq<byte>): seq<byte>
    requires |img| == 9216
  {
    var a := Put(Put(WithBoth(img), 6160, [12, 0]), 6168, [3, 0, 0, 0, 0xE8, 3, 1, 2, 97]);
    Put(Put(a, 5274, [3, 0]), 2064, [3, 0])
  }

  lemma NewDotsBytes(img: seq<byte>)
    requires |img| == 9216
    ensures LayoutOf(|img|, EmptyDisk(6).Geo()) && FreshBody(|img|, EmptyDisk(6).Geo(), 3, 2) == DotsOf(3)
  {
    DiskLayout(EmptyDisk(6));
    DotRecords(3);
    hide LayoutOf, RecordBytes, Put;
  }

  lemma SixthIsClear(x: seq<byte>)
    requires |x| == 9216 && x[3072] == 63
    ensures FindClear(x, 3072, 0, 8) == Clear(6) && SetBit(63, 6) == 127 && !Bit(63, 6)
  {
    assert Pow2(6) == 64 by { assert Pow2(3) == 8; }
    forall i: nat | i < 8 ensures Bit(63, i) <==> i < 6 { LowBits(6, i); }
    hide FindClear, Bit, SetBit, Pow2;
    var p := FindClear(x, 3072, 0, 8);
    assert BitAt(x, 3072, 6) <==> Bit(63, 6);
    if p.Clear? { assert BitAt(x, 3072, p.i) <==> Bit(63, p.i); }
    assert SetBit(63, 6) == 127 by { BitSixSet(); }
  }

  lemma BitSixSet()
    ensures SetBit(63, 6) == 127
  {
    assert Pow2(6) == 64 by { assert Pow2(3) == 8; }
    LowBits(6, 6);
    hide Bit, Pow2;
  }

  /** The lowest clear bit of the block bitmap is bit 6, that of block 7. */
  lemma SeventhTaken(x: seq<byte>)
    requires |x| == 9216 && x[3072] == 63 && U16(x, 2060) == 2 && U32(x, 1036) == 2 && U32(x, 2048) == 3
    ensures LayoutOf(|x|, EmptyDisk(6).Geo())
    ensures AllocBlock(x, EmptyDisk(6).Geo())
      == (Ok(7), Put(Put(Put(x, 3072, [127]), 2060, [1, 0]), 1036, [1, 0, 0, 0]))
  {
    var L := EmptyDisk(6).Geo();
    DiskLayout(EmptyDisk(6));
    assert Times(3, 1024) == 3072 && Times(0, 8192) == 0 by { TimesIsProduct(3, 1024); }
    SixthIsClear(x);
    assert Le16(1) == [1, 0] && Le32(1) == [1, 0, 0, 0];
    hide LayoutOf, Put, U16, U32, Le16, Le32, SetBit, Bit, FindClear, Times, Pow2;
  }

  /** What the image says of the block bitmap, the free blocks and the table. */
  lemma MetaBytes(img: seq<byte>)
    requires IsDisk(img, EmptyDisk(6))
    ensures |img| == 9216 && img[3072] == 63 && U16(img, 2060) == 2 && U32(img, 1036) == 2 && U32(img, 2048) == 3
    ensures U32(img, 2056) == 5 && U16(img, 2064) == 2 && U16(img, 5274) == 2
  {
    assert Pow2(6) == 64 by { assert Pow2(3) == 8; }
    RootBytes(img);
    assert SlotOf(6)[26] == 2 && SlotOf(6)[27] == 0;
    assert img[5248..5376][26] == img[5274] && img[5248..5376][27] == img[5275];
    hide RootSlot, TwoRecords, SlotOf, Says;
  }

  lemma AllocThird(img: seq<byte>)
    requires IsDisk(img, EmptyDisk(6))
    ensures |img| == 9216 && LayoutOf(|img|, EmptyDisk(6).Geo())
    ensures AllocInode(img, EmptyDisk(6).Geo())
      == (Ok(3), Put(Put(Put(img, 4096, [7]), 2062, [5, 0]), 1040, [5, 0, 0, 0]))
  {
    hide IsDisk, TwoRecords, LayoutOf, Geometry, AllocInodeFrom, Take, Takable, Put, InodeAt, SiteOfInode,
      GroupOfInode, InodeUsed, NoFreeInode, Accounts;
    var L := EmptyDisk(6).Geo();
    MetaBytes(img);
    ThirdSite(img);
    ThirdIsFree(img);
    AllocInodeComplete(img, L, 0);
    AllocInodeTakes(img, L, 0);
    if AllocInode(img, L).0.value > 3 { AllocInodeLowest(img, L, 0, 3); }
    ThirdTaken(img);
  }

  /** Where inodes 2 and 3 are. */
  lemma InodesAt(x: seq<byte>)
    requires |x| == 9216 && U32(x, 2056) == 5
    ensures LayoutOf(|x|, EmptyDisk(6).Geo())
    ensures InodeAt(x, EmptyDisk(6).Geo(), 2) == Some(5248) && InodeAt(x, EmptyDisk(6).Geo(), 3) == Some(5376)
  {
    DiskLayout(EmptyDisk(6));
    assert Times(5, 1024) == 5120 && Times(1, 128) == 128 && Times(2, 128) == 256 by {
      TimesIsProduct(5, 1024);
      TimesIsProduct(1, 128);
      TimesIsProduct(2, 128);
    }
    hide LayoutOf, U32, Times;
  }

  /** Fields away from the bytes written so far. */
  lemma FieldsStay(img: seq<byte>, b: seq<byte>)
    requires |img| == 9216 && |b| == 4
    ensures var x := Put(Put(Put(img, 4096, [7]), 2062, [5, 0]), 1040, b);
      && x[3072] == img[3072] && U16(x, 2060) == U16(img, 2060) && U32(x, 1036) == U32(img, 1036)
      && U32(x, 2048) == U32(img, 2048) && U32(x, 2056) == U32(img, 2056)
  {
  }

  lemma TakenStays(img: seq<byte>)
    requires |img| == 9216
    ensures var x := BothTaken(img);
      U32(x, 2056) == U32(img, 2056) && forall p :: 2064 <= p < 3072 || 5120 <= p < 9216 ==> x[p] == img[p]
  {
  }

  lemma FilledStays(x: seq<byte>, slot: seq<byte>, body: seq<byte>)
    requires |x| == 9216 && |slot| == 128 && |body| == 1024
    ensures var y := Put(Put(x, 5376, slot), 7168, body);
      && (forall p :: 2048 <= p < 3072 || 5120 <= p < 5376 || 6144 <= p < 7168 ==> y[p] == x[p])
      && U32(y, 2056) == U32(x, 2056) && U16(y, 2064) == U16(x, 2064) && U16(y, 5274) == U16(x, 5274)
  {
  }

  lemma NewDirectoryByHand(img: seq<byte>)
    requires IsDisk(img, EmptyDisk(6))
    ensures |img| == 9216 && LayoutOf(|img|, EmptyDisk(6).Geo())
    ensures NewDirectory(img, EmptyDisk(6).Geo(), 2) == (Ok(3), WithBoth(img))
  {
    hide IsDisk, LayoutOf, AllocInodeFrom, AllocBlockFrom, Put, InodeAt, FreshDirectory, FreshBody, U32, U16;
    var L := EmptyDisk(6).Geo();
    MetaBytes(img);
    AllocThird(img);
    FieldsStay(img, [5, 0, 0, 0]);
    SeventhTaken(AllocInode(img, L).1);
    TakenStays(img);
    InodesAt(BothTaken(img));
    DirSlotIs(7);
    NewDotsBytes(img);
    DiskLayout(EmptyDisk(6));
  }

  /** The fields the last steps read. */
  lemma LastFields(img: seq<byte>)
    requires IsDisk(img, EmptyDisk(6))
    ensures |img| == 9216
    ensures var y := WithBoth(img);
      && U16(y, 6160) == 1012 && y[6162] == 2 && U32(y, 2056) == 5 && U16(y, 2064) == 2 && U16(y, 5274) == 2
  {
    hide IsDisk, Put, U32, U16, BothTaken;
    MetaBytes(img);
    DotsBytes(img);
    TakenStays(img);
    FilledStays(BothTaken(img), SlotOf(7), DotsOf(3));
    LengthOfRecord(img, WithBoth(img));
    FieldsSame(img, BothTaken(img));
  }

  lemma FieldsSame(img: seq<byte>, x: seq<byte>)
    requires |img| == |x| == 9216 && forall p :: 2064 <= p < 3072 || 5120 <= p < 9216 ==> x[p] == img[p]
    ensures U16(x, 2064) == U16(img, 2064) && U16(x, 5274) == U16(img, 5274)
  {
  }

  /** The two counters, on an image that reads like that. */
  lemma CountersByHand(z: seq<byte>)
    requires |z| == 9216 && U32(z, 2056) == 5 && U16(z, 2064) == 2 && U16(z, 5274) == 2
    ensures LayoutOf(|z|, EmptyDisk(6).Geo())
    ensures var L := EmptyDisk(6).Geo(); var y := Put(z, 5274, [3, 0]);
      && BumpLinks(z, L, 2, 1) == (Ok(()), y) && BumpDirs(y, L, 3, 1) == (Ok(()), Put(y, 2064, [3, 0]))
  {
    var L := EmptyDisk(6).Geo();
    DiskLayout(EmptyDisk(6));
    InodesAt(z);
    assert Le16(3) == [3, 0];
    hide LayoutOf, Put, InodeAt, U32, Le16;
    Read16Apart(z, 5274, [3, 0], 2064);
    assert Quot(2, 8) == 0;
    hide U16;
  }

  lemma SplitStays(y: seq<byte>, kind: byte)
    requires |y| == 9216
    ensures var z := Put(Put(y, 6160, [12, 0]), 6168, [3, 0, 0, 0, 0xE8, 3, 1, kind, 97]);
      && |z| == 9216 && U32(z, 2056) == U32(y, 2056) && U16(z, 2064) == U16(y, 2064) && U16(z, 5274) == U16(y, 5274)
  {
  }

  /** Making directory `a` in the empty root hands out inode 3 and changes exactly these bytes. */
  lemma MkdirByHand(img: seq<byte>)
    requires IsDisk(img, EmptyDisk(6))
    ensures |img| == 9216 && MkdirInBounds(img, EmptyDisk(6).Geo(), ROOT, [97])
    ensures CreateDirectory(img, EmptyDisk(6).Geo(), ROOT, [97]) == (Ok(3), WithDirectory(img))
  {
    hide IsDisk, LayoutOf, NewDirectory, PlanCreate, Insert, Splittable, WithBoth, Put, U16, U32, BumpLinks, BumpDirs;
    RoomAtDotDot(img);
    NewDirectoryByHand(img);
    LastFields(img);
    var y := WithBoth(img);
    DotDotSplit(y, 2);
    SplitStays(y, 2);
    CountersByHand(Insert(y, 6156, 3, [97], 2));
  }

  // ----- reading it -----

  /** An inode whose block words name blocks of the file system can be read. */
  lemma SlotsDecode(img: seq<byte>, L: Layout, i: nat)
    requires Geometry(img, L) && IsInode(L, i) && GroupAndIndex(L, i).0 < L.groupCount
    requires DescriptorFits(img, L, GroupAndIndex(L, i).0)
    requires forall j :: 0 <= j < 15 ==> Slot(img, L, i, j) < L.blocksCount
    ensures LayoutOf(|img|, L) && Decodes(img, L, i)
  {
    hide Geometry, U32, U16, InodeAt, PlaceOf, LayoutOf;
    InodeSlot(img, L, i);
    InodeAtPlace(img, L, i);
    var at := PlaceOf(img, L, i);
    forall j | 0 <= j < 15 ensures Decode(img, i, at).blocks[j] < L.blocksCount {
      assert Slot(img, L, i, j) == U32(img, SlotAt(at, j));
    }
  }

  lemma DescriptorByHand(img: seq<byte>)
    requires IsDisk(img, EmptyDisk(6))
    ensures LayoutOf(|img|, EmptyDisk(6).Geo()) && DescriptorFits(img, EmptyDisk(6).Geo(), 0)
  {
    DiskLayout(EmptyDisk(6));
    hide LayoutOf, U32, U16, RootSlot, TwoRecords, Says, Pow2;
  }

  /** Both inodes in use can be read: the root is a directory whose one block is block 6. */
  lemma BothDecode(img: seq<byte>)
    requires IsDisk(img, EmptyDisk(6))
    ensures var L := EmptyDisk(6).Geo(); LayoutOf(|img|, L) && Decodes(img, L, 1) && Decodes(img, L, 2)
  {
    hide LayoutOf, Geometry, IsDisk, NodeOf, DirectoryInode, SizeOf, DescriptorFits, Decodes, Slot;
    DescriptorByHand(img);
    RootInode(img, EmptyDisk(6));
    FirstInode(img, EmptyDisk(6));
    SlotsDecode(img, EmptyDisk(6).Geo(), 1);
    SlotsDecode(img, EmptyDisk(6).Geo(), 2);
  }

  /** The disk meets what the theorem about paths asks, and `/` is the root. */
  lemma PathsByHand(img: seq<byte>)
    requires IsDisk(img, EmptyDisk(6))
    ensures var L := EmptyDisk(6).Geo();
      && Sound(img, L) && AllDecode(img, L) && IsUsed(img, L, 2)
      && Lookup(img, L, [47]) == InodeOf(img, L, 2)
  {
    var L := EmptyDisk(6).Geo();
    hide IsDisk, LayoutOf, Geometry, Sound, InodeOf, Lookup, TwoRecords, IsUsed, FolderOk, AllDecode, Leads;
    EmptyIsTree(img);
    EmptyRoot(img, 6);
    DiskRootUsed(img, EmptyDisk(6));
    OnlyTwo(img, L);
    SlashIsRoot(img, L);
  }

  lemma SlashIsRoot(img: seq<byte>, L: Layout)
    requires Sound(img, L) && AllDecode(img, L) && FolderOk(img, L, 2, 1)
    ensures IsUsed(img, L, 2) && Lookup(img, L, [47]) == InodeOf(img, L, 2)
  {
    hide LayoutOf, Geometry, Fs, TreeOf, TreeOk, LinksCounted, InodeOf, Lookup, InodeUsed, AllDecode, Leads, Dir;
    assert Spell([]) + [47] == [47];
    PathFollowsTree(img, L, [], true);
    RootLeads(img, L);
  }

  lemma OnlyTwo(img: seq<byte>, L: Layout)
    requires IsDisk(img, EmptyDisk(6)) && L == EmptyDisk(6).Geo()
    ensures Fs(img, L) && AllDecode(img, L)
  {
    EmptyRoot(img, 6);
    DiskBits(img, EmptyDisk(6));
    BothDecode(img);
    RootInode(img, EmptyDisk(6));
    FirstInode(img, EmptyDisk(6));
    InodeExactly(img, L, 1);
    InodeExactly(img, L, 2);
    hide IsDisk, LayoutOf, Geometry, Decodes, InodeOf, TwoRecords, InodeUsed, BlockUsed, Fs, DirectoryInode, NodeOf,
      SizeOf, Slot, Decode, PlaceOf;
    forall i: nat | IsUsed(img, L, i) ensures DecodesPlainly(img, L, i) {
      assert i == 1 || i == 2;
      PlainSlots(img, L, i);
    }
  }

  /** Neither uses double or triple indirection. */
  lemma PlainSlots(img: seq<byte>, L: Layout, i: nat)
    requires Geometry(img, L) && IsInode(L, i) && InodeOf(img, L, i).Got?
    requires Slot(img, L, i, 13) == 0 && Slot(img, L, i, 14) == 0
    ensures DecodesPlainly(img, L, i)
  {
    hide Geometry, U32, U16, InodeOf, InodeAt;
    InodeSlot(img, L, i);
    InodeOfFields(img, L, i, InodeOf(img, L, i).value);
  }

  lemma RootLeads(img: seq<byte>, L: Layout)
    requires FolderOk(img, L, ROOT, 1)
    ensures Leads(TreeOf(img, L), 2, [], 2) && 2 in TreeOf(img, L).dirs
  {
    hide Fs, TreeOf, Dir, InodeUsed;
    FolderView(img, L, ROOT, 1);
  }
}
