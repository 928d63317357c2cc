/** Inputs. One disk meets every hypothesis the theorems about images make, so none of them is
    vacuous; the others show, one by one, where the code does less than one might expect. */
module Ext2SmallDisk {
  import opened Wrappers
  import opened Bytes
  import opened Ext2Layout
  import opened Ext2Alloc
  import opened Ext2Areas
  import opened Ext2File
  import opened Ext2Unwind
  import opened Ext2Append
  import opened Ext2Dirent
  import opened Ext2DirBlock
  import opened Ext2Directory
  import opened Ext2Ops
  import opened Ext2RoundTrip
  import opened Ext2CreateUnlink
  import opened Ext2Accounting
  import opened Ext2Giving
  import opened Ext2Mkdir
  import opened Ext2Steps
  import opened Ext2Fs
  import opened Ext2FsFile
  import opened Ext2FsNames
  import opened Ext2FsTree
  import opened Ext2Tree
  import opened Ext2FsView
  import opened Ext2FsRuns
  import opened Ext2Outcomes
  import opened Ext2AppendOutcome
  import opened Ext2RmdirOutcome
  import opened Ext2Disk
  import opened Ext2Superblock
  import Ext2Reader

  const NAME_A: seq<byte> := [97]
  const NAME_B: seq<byte> := [98]

  function Dot(ino: nat): Record { Record(ino, [46], 2) }
  function DotDot(ino: nat): Record { Record(ino, [46, 46], 2) }
  function File(name: seq<byte>): Record { Record(THIRD, name, 1) }

  // ----- an empty root -----

  /** Nothing but an empty root; `blocks` blocks are in use. */
  function EmptyDisk(blocks: nat): Disk {
    Disk(false, blocks, 2, Zeros(128), TwoRecords(1024, Dot(ROOT), DotDot(ROOT)), Zeros(1024), Zeros(1024))
  }

  lemma EmptyRoot(img: seq<byte>, blocks: nat)
    requires IsDisk(img, EmptyDisk(blocks))
    ensures var L := EmptyDisk(blocks).Geo();
      FolderOk(img, L, ROOT, 1) && Names(img, L, ROOT, 1, 1) == [Dot(ROOT).Bound(), DotDot(ROOT).Bound()]
  {
    hide IsDisk, TwoRecords, Fs, Dir, Names;
    var d := EmptyDisk(blocks);
    RootDir(img, d, Dot(ROOT), DotDot(ROOT));
    DiskSound(img, d);
  }

  /** The root has one block, `n`, of the two records `a` and `b`. */
  ghost predicate TwoIn(img: seq<byte>, L: Layout, n: nat, a: Record, b: Record) {
    && Dir(img, L, ROOT, 1) && Slot(img, L, ROOT, 0) == n && InRange(L, n) && BlockAt(L, n) + L.bs <= |img|
    && TiledBlock(img, L, n) && a.ino != 0 && b.ino != 0
    && var at := BlockAt(L, n);
       && U32(img, at) == a.ino && RecLen(img, at) == DOT_LEN && NameLen(img, at) == |a.name|
       && NameAt(img, at) == a.name
       && U32(img, at + DOT_LEN) == b.ino && RecLen(img, at + DOT_LEN) == L.bs - DOT_LEN
       && NameLen(img, at + DOT_LEN) == |b.name| && NameAt(img, at + DOT_LEN) == b.name
       && (forall p: nat :: RecordStart(img, L, n, p) <==> p == at || p == at + DOT_LEN)
  }

  /** The two records of a root, as the scan sees them. */
  lemma RootRecords(img: seq<byte>, d: Disk, a: Record, b: Record)
    requires IsDisk(img, d) && a.Short() && b.Short() && a.ino != 0 && b.ino != 0 && d.root == TwoRecords(d.Bs(), a, b)
    ensures TwoIn(img, d.Geo(), d.First() + 5, a, b) && BlockAt(d.Geo(), d.First() + 5) == d.Pos(5)
  {
    RootDir(img, d, a, b);
    RootInode(img, d);
    RootBlock(img, d, a, b);
    TwoReads(img, d.Pos(5), d.Bs(), a, b);
    TwoEntriesAre(img, d.Pos(5), d.Bs(), a, b);
    hide Geometry, U32, U16, RecLen, NameLen, NameAt, LayoutOf, Dir, TwoRecords, Slot, TiledBlock, Starts, Tiled,
      RootSlot, Linked, BlockEntries, Times, IsMeta, SizeOf, DirectoryInode, Entries;
    var L, n, at, end := d.Geo(), d.First() + 5, d.Pos(5), d.Pos(5) + d.Bs();
    forall p: nat ensures RecordStart(img, L, n, p) <==> p == at || p == at + DOT_LEN {
      assert Starts(img, at, end, p) <==> p == at || p == at + DOT_LEN;
    }
  }

  /** There is room after the second record for a short name. */
  lemma RoomAfterSecond(img: seq<byte>, L: Layout, n: nat, a: Record, b: Record)
    requires TwoIn(img, L, n, a, b) && b.Short()
    ensures Gapped(img, L, ROOT, 1, 0, Span(1))
  {
    hide Geometry, U32, U16, RecLen, NameLen, NameAt, LayoutOf, Dir, Slot, TiledBlock, Starts, Times;
    assert RecordStart(img, L, n, BlockAt(L, n) + DOT_LEN);
    assert GapIn(img, L, ROOT, 1, 0, Span(1), BlockAt(L, n) + DOT_LEN);
  }

  /** A third name is not there. */
  lemma NoThirdName(img: seq<byte>, L: Layout, n: nat, a: Record, b: Record, name: seq<byte>)
    requires TwoIn(img, L, n, a, b) && name != a.name && name != b.name
    ensures !Matched(img, L, ROOT, 1, 0, name)
  {
    hide Geometry, U32, U16, RecLen, NameLen, NameAt, LayoutOf, Dir, Slot, TiledBlock, Starts, Times;
    forall j: nat, p: nat | j < 1 ensures !MatchIn(img, L, ROOT, 1, j, name, p) {
      assert MatchIn(img, L, ROOT, 1, j, name, p) ==> RecordStart(img, L, n, p);
    }
  }

  /** Nothing stands in the way of a new name. */
  lemma EmptyHasRoom(img: seq<byte>, blocks: nat)
    requires IsDisk(img, EmptyDisk(blocks))
    ensures var L := EmptyDisk(blocks).Geo();
      FolderOk(img, L, ROOT, 1) && EntryRefusal(img, L, ROOT, 1, NAME_A).None? && !NoFreeInode(img, L, 0)
  {
    var d := EmptyDisk(blocks);
    EmptyRoot(img, blocks);
    RootRecords(img, d, Dot(ROOT), DotDot(ROOT));
    RoomAfterSecond(img, d.Geo(), 6, Dot(ROOT), DotDot(ROOT));
    NoThirdName(img, d.Geo(), 6, Dot(ROOT), DotDot(ROOT), NAME_A);
    FreeInodeLeft(img, d);
    hide IsDisk, TwoRecords, Fs, Dir, Names, NoFreeInode, Gapped, Matched, TwoIn;
  }

  lemma FreeInodeLeft(img: seq<byte>, d: Disk)
    requires IsDisk(img, d) && d.inodes == 2
    ensures Geometry(img, d.Geo()) && !NoFreeInode(img, d.Geo(), 0)
  {
    DiskBits(img, d);
    hide Geometry, IsDisk, BlockUsed, InodeUsed, GroupOfInode;
    assert !InodeUsed(img, d.Geo(), THIRD);
  }

  lemma EmptyIsPristine(img: seq<byte>)
    requires IsDisk(img, EmptyDisk(6))
    ensures Pristine(img, EmptyDisk(6).Geo(), ROOT, 1)
  {
    var d := EmptyDisk(6);
    EmptyRoot(img, 6);
    DiskRootUsed(img, d);
    DiskFree(img, d);
    EmptyFreeZero(img);
    EmptySlotsZero(img);
    EmptyDirSlack(img);
    hide Geometry, U32, U16, Dir, Slot, IsDisk, FreeIsData, FreeIsZero, FreeSlotsZero, Fs, DirSlackZero, Names,
      TwoRecords, InodeUsed;
  }

  lemma EmptyDirSlack(img: seq<byte>)
    requires IsDisk(img, EmptyDisk(6)) && Dir(img, EmptyDisk(6).Geo(), ROOT, 1)
    ensures DirSlackZero(img, EmptyDisk(6).Geo(), ROOT, 1)
  {
    var d := EmptyDisk(6);
    var L := d.Geo();
    RootInode(img, d);
    hide Geometry, U32, U16, Dir, Slot, RecordStart, SlackZero, IsDisk, SizeOf, DirectoryInode, TwoRecords, LayoutOf;
    forall j: nat, p: nat | j < 1 && InRange(L, Slot(img, L, ROOT, j)) && p + DIRENT_HEADER_LEN <= |img|
        && RecordStart(img, L, Slot(img, L, ROOT, j), p)
      ensures SlackZero(img, p)
    {
      EmptySlack(img, p);
    }
  }

  lemma EmptyFreeZero(img: seq<byte>)
    requires IsDisk(img, EmptyDisk(6))
    ensures Geometry(img, EmptyDisk(6).Geo()) && FreeIsZero(img, EmptyDisk(6).Geo())
  {
    var d := EmptyDisk(6);
    DiskBits(img, d);
    DiskLayout(d);
    hide Geometry, BlockUsed, InodeUsed, IsMeta, RootSlot, TwoRecords, LayoutOf, Times;
    forall b | InRange(d.Geo(), b) && !BlockUsed(img, d.Geo(), b) ensures ZeroBlock(img, d.Geo(), b) {
      assert b == 7 || b == 8;
    }
  }

  lemma EmptySlotsZero(img: seq<byte>)
    requires IsDisk(img, EmptyDisk(6))
    ensures Geometry(img, EmptyDisk(6).Geo()) && FreeSlotsZero(img, EmptyDisk(6).Geo())
  {
    var d := EmptyDisk(6);
    DiskBits(img, d);
    DiskGeometry(img, d);
    TableZeros(img);
    hide Geometry, BlockUsed, InodeUsed, IsDisk, LayoutOf, InodeAt, DataBlock;
    forall i: nat | IsInode(d.Geo(), i) && !InodeUsed(img, d.Geo(), i) && InodeAt(img, d.Geo(), i).Some?
      ensures img[InodeAt(img, d.Geo(), i).value..InodeAt(img, d.Geo(), i).value + 128] == Zeros(128)
    {
    }
  }

  /** Past the root's slot the inode table is zero. */
  lemma TableZeros(img: seq<byte>)
    requires IsDisk(img, EmptyDisk(6))
    ensures EmptyDisk(6).Pos(4) == 5120 && |img| == 9216 && forall p :: 5376 <= p < 6144 ==> img[p] == 0
  {
    hide IsMeta, RootSlot, TwoRecords;
    forall p | 5376 <= p < 6144 ensures img[p] == 0 {
      if p < 5504 { assert img[5376..5504][p - 5376] == Zeros(128)[p - 5376]; }
    }
  }

  lemma EmptySlack(img: seq<byte>, p: nat)
    requires IsDisk(img, EmptyDisk(6)) && LayoutOf(|img|, EmptyDisk(6).Geo()) && InRange(EmptyDisk(6).Geo(), 6)
    requires p + DIRENT_HEADER_LEN <= |img| && RecordStart(img, EmptyDisk(6).Geo(), 6, p)
    ensures SlackZero(img, p)
  {
    var d := EmptyDisk(6);
    RootRecords(img, d, Dot(ROOT), DotDot(ROOT));
    BodyZeros(img);
    hide U32, U16, TwoRecords, Times, RecLen, NameLen, NameAt, LayoutOf, IsDisk, Dir, Slot, Starts, Tiled;
    assert RecordStart(img, d.Geo(), 6, p);
    assert p == d.Pos(5) || p == d.Pos(5) + DOT_LEN;
  }

  lemma BodyZeros(img: seq<byte>)
    requires IsDisk(img, EmptyDisk(6))
    ensures EmptyDisk(6).Pos(5) == 6144 && |img| == 9216 && forall p :: 6168 <= p < 7168 ==> img[p] == 0
  {
    TwoRecordsTail(1024, Dot(ROOT), DotDot(ROOT));
    DataSlices(img, EmptyDisk(6));
    DiskLayout(EmptyDisk(6));
    hide IsDisk, TwoRecords, LayoutOf, Times;
    forall p | 6168 <= p < 7168 ensures img[p] == 0 {
      assert img[6144..7168][p - 6144] == img[p];
    }
  }

  lemma EmptyOnlyRoot(img: seq<byte>)
    requires IsDisk(img, EmptyDisk(6))
    ensures Geometry(img, EmptyDisk(6).Geo()) && OnlyRoot(img, EmptyDisk(6).Geo())
  {
    DiskRootUsed(img, EmptyDisk(6));
    FirstInode(img, EmptyDisk(6));
    hide Geometry, IsDisk, IsUsed, DirectoryInode, Slot, TwoRecords;
  }

  lemma EmptyIsTree(img: seq<byte>)
    requires IsDisk(img, EmptyDisk(6))
    ensures Sound(img, EmptyDisk(6).Geo())
  {
    EmptyRoot(img, 6);
    EmptyOnlyRoot(img);
    RootInode(img, EmptyDisk(6));
    hide Geometry, Fs, IsDisk, TreeOf, Dir, TwoRecords, EmptyDisk, TreeOk, LinksCounted, Spelled, OnlyRoot, Names,
      NodeOf, Slot;
    RootIsTree(img, EmptyDisk(6).Geo());
  }

  /** A root that binds only `.` and `..`, both to itself, and no other directory: a tree. */
  lemma RootIsTree(img: seq<byte>, L: Layout)
    requires FolderOk(img, L, ROOT, 1) && Names(img, L, ROOT, 1, 1) == [Dot(ROOT).Bound(), DotDot(ROOT).Bound()]
    requires OnlyRoot(img, L) && NodeOf(img, L, ROOT) == Node(0x41ED, 2)
    ensures TreeOk(TreeOf(img, L)) && LinksCounted(TreeOf(img, L)) && Spelled(TreeOf(img, L))
  {
    hide Geometry, Fs, FolderOk, TreeOf, Names, InodeUsed, NodeOf, EntriesOf;
    TreeReads(img, L);
    FolderView(img, L, ROOT, 1);
    TwoEntries(Dot(ROOT).Bound(), DotDot(ROOT).Bound());
    RootTree(TreeOf(img, L));
  }

  lemma RootTree(t: Tree)
    requires t.dirs.Keys == {ROOT} && ROOT in t.nodes && t.nodes[ROOT] == Node(0x41ED, 2)
    requires t.dirs[ROOT] == Dots(ROOT, ROOT)
    requires forall i: nat :: i in t.dirs <==> i in t.nodes && IsDirectoryMode(t.nodes[i].mode)
    ensures TreeOk(t) && LinksCounted(t) && Spelled(t)
  {
    var here: Binding, above: Binding := ([46], ROOT, 2), ([46, 46], ROOT, 2);
    forall d: nat, e: Binding ensures In(t, d, e) <==> d == ROOT && (e == here || e == above) { }
    assert t.dirs[ROOT][here] == 1 && t.dirs[ROOT][above] == 1;
    RootLeading(t);
    NewDots(t, ROOT, ROOT);
    hide In, Leading, HasDots, Dots;
  }

  lemma RootLeading(t: Tree)
    requires t.dirs.Keys == {ROOT} && t.dirs[ROOT] == Dots(ROOT, ROOT)
    ensures |Leading(t, ROOT)| == 2 && forall i: nat :: i != ROOT ==> Leading(t, i) == {}
  {
    var here: Binding, above: Binding := ([46], ROOT, 2), ([46, 46], ROOT, 2);
    assert Leading(t, ROOT) == {(ROOT, here), (ROOT, above)};
  }

  lemma DiskParses(img: seq<byte>, d: Disk)
    requires IsDisk(img, d)
    ensures Ext2Reader.Parse(img) == Ext2Reader.Got(d.Geo())
  {
    DiskLayout(d);
    ParseExactly(img, d.Geo());
    hide LayoutOf, RootSlot, Ext2Reader.Parse, U32, U16;
  }

  /** The hypotheses of the theorems about images can all be met at once, by an image on which a
      file can be created. */
  lemma HypothesesMet() returns (img: seq<byte>)
    ensures var L := EmptyDisk(6).Geo();
      && Ext2Reader.Parse(img) == Ext2Reader.Got(L)
      && FolderOk(img, L, ROOT, 1) && Pristine(img, L, ROOT, 1) && Sound(img, L)
      && CreateInBounds(img, L, ROOT, NAME_A) && CreateFile(img, L, ROOT, NAME_A).0.Ok?
  {
    hide IsDisk, Pristine, Sound, FolderOk, CreateFile, CreateInBounds, EntryRefusal, NoFreeInode, TwoRecords,
      Ext2Reader.Parse;
    img := DiskExists(EmptyDisk(6));
    DiskParses(img, EmptyDisk(6));
    EmptyRoot(img, 6);
    EmptyIsPristine(img);
    EmptyIsTree(img);
    EmptyHasRoom(img, 6);
    CreateFileOutcome(img, EmptyDisk(6).Geo(), ROOT, 1, NAME_A);
  }

  /** With no block left `create_directory` is refused and the image is not the one it was given. */
  lemma RefusalChangesImage() returns (img: seq<byte>)
    ensures var L := EmptyDisk(8).Geo();
      && FolderOk(img, L, ROOT, 1) && MkdirInBounds(img, L, ROOT, NAME_A)
      && var c := CreateDirectory(img, L, ROOT, NAME_A); c.0 == Err(Full) && c.1 != img
  {
    hide Geometry, IsDisk, InodeUsed, BlockUsed, CreateDirectory, AllocInode, MkdirInBounds, EntryRefusal,
      NoFreeInode, LayoutOf, FolderOk, TwoRecords, NewInode;
    var L := EmptyDisk(8).Geo();
    img := DiskExists(EmptyDisk(8));
    EmptyHasRoom(img, 8);
    DiskBits(img, EmptyDisk(8));
    CreateDirectoryOutcome(img, L, ROOT, 1, NAME_A);
    CreateDirectoryRefused(img, L, ROOT, 1, NAME_A);
  }

  /** An empty root can be asked to remove its own `..`: it is freed, and the removal then fails. */
  lemma RootFreesItself() returns (img: seq<byte>)
    ensures var L := EmptyDisk(6).Geo();
      && FolderOk(img, L, ROOT, 1) && RmdirInBounds(img, L, ROOT, DOT_DOT)
      && var u := RemoveDirectory(img, L, ROOT, DOT_DOT);
         u.0 == Err(DirectoryCorrupt) && Geometry(u.1, L) && !InodeUsed(u.1, L, ROOT)
  {
    var d := EmptyDisk(6);
    var L := d.Geo();
    hide IsDisk, Fs, TwoRecords, FolderOk, Names, PlanRemove, RecLen, InodeAt, U16, Geometry, InodeUsed,
      RemoveDirectory, RmdirInBounds, Dir, OnlyDots, FirstBlockDots, U32, DirsOf, LinksOf, GroupOfInode;
    img := DiskExists(d);
    EmptyRoot(img, 6);
    DiskRootUsed(img, d);
    SecondIsVictim(img, d, Dot(ROOT), DotDot(ROOT));
    RootVictim(img, L, DOT_DOT);
    var kv := RemoveDirectoryOutcome(img, L, ROOT, 1, DOT_DOT);
    OneSize(img, L, ROOT, kv, 1);
    BareRoot(img, L);
    RootCounters(img, d);
  }

  lemma RootVictim(img: seq<byte>, L: Layout, name: seq<byte>)
    requires FolderOk(img, L, ROOT, 1) && PlanRemove(img, L, ROOT, name).Ok?
    requires PlanRemove(img, L, ROOT, name).value.ino == ROOT
    ensures SubdirOk(img, L, ROOT, name) && IsDirectoryMode(U16(img, PlanRemove(img, L, ROOT, name).value.at))
  {
    hide Geometry, Fs, PlanRemove, InodeAt, U16, Dense, InodeUsed, Slot, TiledBlock, U32;
  }

  lemma BareRoot(img: seq<byte>, L: Layout)
    requires Dir(img, L, ROOT, 1) && Names(img, L, ROOT, 1, 1) == [Dot(ROOT).Bound(), DotDot(ROOT).Bound()]
    ensures FirstBlockDots(img, L, ROOT, 1)
  {
    hide Dir, Names, BlockDots, FirstBlockDots;
    DotsByBlock(img, L, ROOT, 1, 1);
    FirstDots(img, L, ROOT, 1);
    assert OnlyDots(Names(img, L, ROOT, 1, 1));
  }

  // ----- a root with a file in it -----

  /** Inode 3 is an empty file; the root binds what `a` and `b` say. */
  function FileDisk(large: bool, a: Record, b: Record): Disk
    requires a.Short() && b.Short()
  {
    var empty := Disk(large, 6, 3, Zeros(128), [], [], []);
    DiskLayout(empty);
    empty.(third := FreshFile(empty.Pos(8), empty.Geo()), root := TwoRecords(empty.Bs(), a, b),
          left := Zeros(empty.Bs()),
           right := Zeros(empty.Bs()))
  }

  /** Such a disk is sound, and its file is one an append can be tried on. */
  lemma FileRoot(img: seq<byte>, large: bool, a: Record, b: Record)
    requires a.Short() && b.Short() && a.ino != 0 && b.ino != 0 && IsDisk(img, FileDisk(large, a, b))
    ensures var L := FileDisk(large, a, b).Geo();
      && FolderOk(img, L, ROOT, 1) && Names(img, L, ROOT, 1, 1) == [a.Bound(), b.Bound()]
      && FileOk(img, L, THIRD) && SizeOf(img, L, THIRD) == 0 && IsRegular(img, L, THIRD) && OnlyRoot(img, L)
      && FREE_BLOCKS_AT + 4 <= |img| && FreeBlocks(img) == 2
  {
    var d := FileDisk(large, a, b);
    FileDiskThird(large, a, b);
    FileDiskBs(large, a, b);
    hide FileDisk, TwoRecords, IsDisk, Fs, Dir, Names, U32, U16, LayoutOf, Geometry, FileOk, SizeOf, IsDirectoryMode,
      IsRegularMode, OwnsRest, IsRegular, OnlyRoot, FolderOk;
    RootDir(img, d, a, b);
    DiskSound(img, d);
    FileThird(img, d);
    FreeCountReads(img, d);
  }

  /** The file of such a disk. */
  lemma FileThird(img: seq<byte>, d: Disk)
    requires IsDisk(img, d) && Fs(img, d.Geo()) && d.inodes == 3 && IsRegularMode(U16(d.third, 0))
    requires !IsDirectoryMode(U16(d.third, 0)) && U32(d.third, 4) == 0
    requires forall j :: 0 <= j < 15 ==> U32(d.third, SlotAt(0, j)) == 0
    ensures FileOk(img, d.Geo(), THIRD) && SizeOf(img, d.Geo(), THIRD) == 0 && IsRegular(img, d.Geo(), THIRD)
    ensures OnlyRoot(img, d.Geo())
  {
    ThirdInode(img, d);
    FirstInode(img, d);
    DiskRootUsed(img, d);
    ThirdIsRegular(img, d);
    hide IsDisk, Fs, U32, U16, LayoutOf, Geometry, SizeOf, IsDirectoryMode, IsRegularMode, IsRegular, IsUsed, Slot,
      DirectoryInode, FileOk, Direct;
    EmptyFile(img, d.Geo(), THIRD);
    FileOkIs(img, d.Geo(), THIRD);
  }

  /** The slot of inode 3 there: a regular file without a block. */
  lemma FileDiskThird(large: bool, a: Record, b: Record)
    requires a.Short() && b.Short()
    ensures var d := FileDisk(large, a, b);
      && d.Fit() && d.inodes == 3 && d.blocks == 6 && OwnsRest(d) && IsRegularMode(U16(d.third, 0))
      && !IsDirectoryMode(U16(d.third, 0)) && U32(d.third, 4) == 0
      && (forall j :: 0 <= j < 15 ==> U32(d.third, SlotAt(0, j)) == 0)
  {
    var d := FileDisk(large, a, b);
    DiskLayout(d);
    FreshFileReads(d.Pos(8), d.Geo());
    hide TwoRecords, FreshFile, U32, U16, LayoutOf;
  }

  /** The root is the only directory. */
  ghost predicate OnlyRoot(img: seq<byte>, L: Layout)
    requires Geometry(img, L)
  {
    forall i: nat :: IsDir(img, L, i) ==> i == ROOT
  }

  ghost predicate IsRegular(img: seq<byte>, L: Layout, ino: nat)
    requires Geometry(img, L) && IsInode(L, ino)
  {
    InodeSlot(img, L, ino);
    IsRegularMode(U16(img, InodeAt(img, L, ino).value))
  }

  lemma ThirdIsRegular(img: seq<byte>, d: Disk)
    requires IsDisk(img, d)
    ensures Geometry(img, d.Geo()) && (IsRegular(img, d.Geo(), THIRD) <==> IsRegularMode(U16(d.third, 0)))
  {
    DiskGeometry(img, d);
    hide Geometry, U32, U16, RootSlot, InodeAt, LayoutOf, IsMeta;
    SlotFields(img, d.Pos(4) + 256, d.third);
  }

  lemma FreeCountReads(img: seq<byte>, d: Disk)
    requires IsDisk(img, d)
    ensures FREE_BLOCKS_AT + 4 <= |img| && FreeBlocks(img) == 8 - d.blocks
  {
    hide RootSlot, U32, Pow2;
  }

  /** Four blocks do not fit where two are free: the append is refused, and the image is not the
      one it was given. */
  lemma RefusedAppendChangesImage() returns (img: seq<byte>, L: Layout)
    ensures FileOk(img, L, THIRD)
    ensures var r := Append(img, L, THIRD, Zeros(4096)); r.0 == Err(Full) && r.1 != img
  {
    var a, b := Dot(ROOT), File(NAME_A);
    hide IsDisk, FileDisk, Fs, FileOk, SizeOf, TwoRecords, Append, FolderOk, Names, U32;
    img := DiskExists(FileDisk(false, a, b)) by { FileDiskFits(false, a, b); }
    L := FileDisk(false, a, b).Geo();
    FileRoot(img, false, a, b);
    FileDiskBs(false, a, b);
    FourDoNotFit(img, L);
  }

  lemma FourDoNotFit(img: seq<byte>, L: Layout)
    requires FileOk(img, L, THIRD) && SizeOf(img, L, THIRD) == 0 && L.bs == 1024
    requires FREE_BLOCKS_AT + 4 <= |img| && FreeBlocks(img) == 2
    ensures var r := Append(img, L, THIRD, Zeros(4096)); r.0 == Err(Full) && r.1 != img
  {
    hide Fs, FileOk, SizeOf, Append, Quot, Rem, TailHolds, U32, CeilQuot, Dense, Geometry;
    CeilZero(1024);
    CeilExact(4, 1024);
    assert Times(4, 1024) == 4096 by { TimesIsProduct(4, 1024); }
    hide Times;
    AppendOutcome(img, L, THIRD, Zeros(4096));
    RefusedAppendUnchanged(img, L, THIRD, Zeros(4096));
  }

  lemma FileDiskFits(large: bool, a: Record, b: Record)
    requires a.Short() && b.Short()
    ensures FileDisk(large, a, b).Fit()
  {
  }

  lemma FileDiskBs(large: bool, a: Record, b: Record)
    requires a.Short() && b.Short()
    ensures FileDisk(large, a, b).Geo().bs == if large then 65536 else 1024
    ensures FileDisk(large, a, b).Bs() == if large then 65536 else 1024
    ensures FileDisk(large, a, b).root == TwoRecords(FileDisk(large, a, b).Bs(), a, b)
  {
  }

  /** The second record of a root of two is found by its name, with the first before it. */
  lemma SecondIsVictim(img: seq<byte>, d: Disk, a: Record, b: Record)
    requires IsDisk(img, d) && a.Short() && b.Short() && a.ino != 0 && d.root == TwoRecords(d.Bs(), a, b)
    requires IsInode(d.Geo(), b.ino) && a.name != b.name && 0 < |b.name|
    requires FolderOk(img, d.Geo(), ROOT, 1)
    ensures var plan := PlanRemove(img, d.Geo(), ROOT, b.name);
      && plan.Ok? && plan.value.ino == b.ino
      && plan.value.entry == d.Pos(5) + DOT_LEN && plan.value.previous == d.Pos(5)
      && RecLen(img, plan.value.previous) + RecLen(img, plan.value.entry) == d.Bs()
  {
    RootRecords(img, d, a, b);
    hide IsDisk, TwoRecords, Fs, PlanRemove, TwoIn, Dir;
    SecondOfTwo(img, d.Geo(), d.First() + 5, a, b);
  }

  lemma SecondOfTwo(img: seq<byte>, L: Layout, n: nat, a: Record, b: Record)
    requires TwoIn(img, L, n, a, b) && b.Short() && IsInode(L, b.ino) && a.name != b.name && 0 < |b.name|
    ensures var plan, at := PlanRemove(img, L, ROOT, b.name), BlockAt(L, n);
      && plan.Ok? && plan.value.ino == b.ino && plan.value.entry == at + DOT_LEN && plan.value.previous == at
      && RecLen(img, plan.value.previous) + RecLen(img, plan.value.entry) == L.bs
  {
    hide Geometry, U32, RecLen, NameLen, NameAt, LayoutOf, Dir, Slot, TiledBlock, Starts, Tiled, PlanRemove, Times;
    var at := BlockAt(L, n);
    assert RecordStart(img, L, n, at + DOT_LEN);
    assert MatchIn(img, L, ROOT, 1, 0, b.name, at + DOT_LEN);
    assert Matched(img, L, ROOT, 1, 0, b.name);
    var p := PlanRemoveExact(img, L, ROOT, 1, b.name);
    OnlySecondMatches(img, L, n, a, b, p);
    assert !OpensBlock(img, L, ROOT, 1, p) by { assert forall j: nat :: j < 1 ==> !MatchOpens(img, L, ROOT, 1, j, p); }
    var j, s := VictimShape(img, L, ROOT, 1, b.name);
    assert RecordStart(img, L, n, s.previous.value);
  }

  lemma OnlySecondMatches(img: seq<byte>, L: Layout, n: nat, a: Record, b: Record, p: nat)
    requires TwoIn(img, L, n, a, b) && a.name != b.name
    requires exists j: nat :: j < 1 && LastMatch(img, L, ROOT, 1, j, b.name, p)
    ensures p == BlockAt(L, n) + DOT_LEN
  {
    hide Geometry, U32, RecLen, NameLen, NameAt, LayoutOf, Dir, Slot, TiledBlock, Starts, Tiled, Times, Matched;
    assert MatchIn(img, L, ROOT, 1, 0, b.name, p);
    assert RecordStart(img, L, n, p);
  }

  /** Two names for one inode: unlinking one of them frees the inode, and the other leads to a
      free inode. */
  lemma UnlinkLeavesName() returns (img: seq<byte>, L: Layout)
    ensures FolderOk(img, L, ROOT, 1) && NamesLead(TreeOf(img, L)) && UnlinkInBounds(img, L, ROOT, NAME_B)
    ensures var u := UnlinkFile(img, L, ROOT, NAME_B); u.0.Ok? && Fs(u.1, L) && !NamesLead(TreeOf(u.1, L))
  {
    var a, b := File(NAME_A), File(NAME_B);
    var d := FileDisk(false, a, b);
    hide IsDisk, FileDisk, Fs, FileOk, SizeOf, TwoRecords, FolderOk, Names, TreeOf, UnlinkFile, UnlinkInBounds,
      PlanRemove, RecLen, InodeAt, U16, Geometry, InodeUsed;
    img := DiskExists(d) by { FileDiskFits(false, a, b); }
    L := d.Geo();
    FileRoot(img, false, a, b);
    FileDiskBs(false, a, b);
    ThirdInRange(false, a, b);
    SecondIsVictim(img, d, a, b);
    FileVictim(img, L, NAME_B);
    UnlinkFileOutcome(img, L, ROOT, 1, NAME_B);
    TwoNamesLead(img, L);
    UnlinkLeads(img, L, ROOT, 1, NAME_B);
    assert !Sole(TreeOf(img, L), ROOT, Removed(img, L, ROOT, NAME_B)) by { TwoNamesNotSole(img, L); }
  }

  lemma ThirdInRange(large: bool, a: Record, b: Record)
    requires a.Short() && b.Short()
    ensures IsInode(FileDisk(large, a, b).Geo(), THIRD)
  {
  }

  /** The victim is the empty file. */
  lemma FileVictim(img: seq<byte>, L: Layout, name: seq<byte>)
    requires FileOk(img, L, THIRD) && IsRegular(img, L, THIRD) && LayoutOf(|img|, L)
    requires PlanRemove(img, L, ROOT, name).Ok? && PlanRemove(img, L, ROOT, name).value.ino == THIRD
    ensures VictimOk(img, L, ROOT, name) && IsUsed(img, L, THIRD) && Geometry(img, L)
    ensures IsRegularMode(U16(img, PlanRemove(img, L, ROOT, name).value.at))
  {
    hide Geometry, Fs, PlanRemove, InodeAt, U16, Dense, InodeUsed, SizeOf, CeilQuot, Slot;
    FileOkMeans(img, L, THIRD);
  }

  lemma TwoNamesLead(img: seq<byte>, L: Layout)
    requires FolderOk(img, L, ROOT, 1) && Names(img, L, ROOT, 1, 1) == [File(NAME_A).Bound(), File(NAME_B).Bound()]
    requires FileOk(img, L, THIRD) && OnlyRoot(img, L)
    ensures NamesLead(TreeOf(img, L))
  {
    hide Geometry, Fs, FileOk, FolderOk, TreeOf, Names, InodeUsed, DirectoryInode, EntriesOf;
    FileOkMeans(img, L, THIRD);
    TreeReads(img, L);
    FolderView(img, L, ROOT, 1);
    TwoEntries(File(NAME_A).Bound(), File(NAME_B).Bound());
    var t := TreeOf(img, L);
    assert forall d: nat, e: Binding :: In(t, d, e) ==>
      d == ROOT && (e == File(NAME_A).Bound() || e == File(NAME_B).Bound());
  }

  lemma TwoNamesNotSole(img: seq<byte>, L: Layout)
    requires FolderOk(img, L, ROOT, 1) && Names(img, L, ROOT, 1, 1) == [File(NAME_A).Bound(), File(NAME_B).Bound()]
    ensures forall kind: byte :: !Sole(TreeOf(img, L), ROOT, (NAME_B, THIRD, kind))
  {
    hide Geometry, Fs, FolderOk, TreeOf, Names;
    FolderView(img, L, ROOT, 1);
    TwoEntries(File(NAME_A).Bound(), File(NAME_B).Bound());
    assert In(TreeOf(img, L), ROOT, File(NAME_A).Bound());
  }

  /** Blocks of 64 KiB, and a directory block of exactly two records: unlinking the second frees
      the file and then fails, because the length of the merged record does not fit. */
  lemma UnlinkFailsHalfway() returns (img: seq<byte>, L: Layout)
    ensures FolderOk(img, L, ROOT, 1) && IsUsed(img, L, THIRD) && UnlinkInBounds(img, L, ROOT, NAME_A)
    ensures var u := UnlinkFile(img, L, ROOT, NAME_A);
      u.0 == Err(DirectoryCorrupt) && HalfUnlinked(img, u.1, L, ROOT, 1, THIRD)
  {
    var a, b := Dot(ROOT), File(NAME_A);
    var d := FileDisk(true, a, b);
    hide IsDisk, FileDisk, Fs, FileOk, SizeOf, TwoRecords, FolderOk, Names, UnlinkFile, UnlinkInBounds, PlanRemove,
      RecLen, InodeAt, U16, Geometry, InodeUsed, HalfUnlinked;
    img := DiskExists(d) by { FileDiskFits(true, a, b); }
    L := d.Geo();
    FileRoot(img, true, a, b);
    FileDiskBs(true, a, b);
    ThirdInRange(true, a, b);
    SecondIsVictim(img, d, a, b);
    FileVictim(img, L, NAME_A);
    UnlinkFileOutcome(img, L, ROOT, 1, NAME_A);
  }

  // ----- a directory of two blocks -----

  /** The slot of a directory whose block is 7. */
  function WideBase(): (s: seq<byte>)
    ensures |s| == 128
  {
    var empty := Disk(false, 8, 3, [], [], [], []);
    DiskLayout(empty);
    FreshDirectory(empty.Pos(8), empty.Geo(), 7)
  }

  /** Inode 3 is a directory of two blocks: the first empty, the second with a name in it. */
  function WideDirDisk(): Disk {
    Disk(false, 8, 3, Put(Put(WideBase(), 4, Le32(2048)), 44, Le32(8)),
         TwoRecords(1024, Dot(ROOT), Record(THIRD, NAME_A, DIRENT_TYPE_DIRECTORY)),
         TwoRecords(1024, Dot(THIRD), DotDot(ROOT)),
         TwoRecords(1024, Record(1, NAME_B, DIRENT_TYPE_REGULAR), Record(0, [], 0)))
  }

  /** A directory slot with another size and a second block. */
  lemma WidenedSlot(x: seq<byte>, size: nat, b: nat)
    requires |x| == 128 && size < 0x1_0000_0000 && b < 0x1_0000_0000
    ensures var y := Put(Put(x, 4, Le32(size)), 44, Le32(b));
      && U16(y, 0) == U16(x, 0) && U32(y, 4) == size && U32(y, SlotAt(0, 1)) == b
      && forall j :: 0 <= j < 15 && j != 1 ==> U32(y, SlotAt(0, j)) == U32(x, SlotAt(0, j))
  {
    hide Put, U32, U16, Le32;
    var y := Put(x, 4, Le32(size));
    Read16Apart(x, 4, Le32(size), 0);
    Read16Apart(y, 44, Le32(b), 0);
    Put32Read(x, 4, size);
    Read32Apart(y, 44, Le32(b), 4);
    Put32Read(y, 44, b);
    forall j | 0 <= j < 15 && j != 1 ensures U32(Put(y, 44, Le32(b)), SlotAt(0, j)) == U32(x, SlotAt(0, j)) {
      Read32Apart(x, 4, Le32(size), SlotAt(0, j));
      Read32Apart(y, 44, Le32(b), SlotAt(0, j));
    }
  }

  lemma WideSlot()
    ensures var s, d := WideDirDisk().third, WideDirDisk();
      && d.Fit() && |s| == 128 && IsDirectoryMode(U16(s, 0)) && U32(s, 4) == 2048 && OwnsRest(d)
  {
    var d, x := WideDirDisk(), WideBase();
    WideBaseReads();
    hide WideBase, Put, U32, U16, Le32, TwoRecords, IsDirectoryMode;
    WidenedSlot(x, 2048, 8);
  }

  lemma WideBaseReads()
    ensures var x := WideBase();
      && IsDirectoryMode(U16(x, 0)) && U32(x, SlotAt(0, 0)) == 7 && forall j :: 1 <= j < 15 ==>
           U32(x, SlotAt(0, j)) == 0
  {
    var empty := Disk(false, 8, 3, [], [], [], []);
    DiskLayout(empty);
    hide FreshDirectory, U32, U16, LayoutOf, IsDirectoryMode;
    FreshSlot(empty.Pos(8), empty.Geo(), 7);
  }

  /** The directory binds `.` and `..` in its first block and a name in its second. */
  lemma WideDir(img: seq<byte>)
    requires IsDisk(img, WideDirDisk())
    ensures var L := WideDirDisk().Geo();
      && FolderOk(img, L, ROOT, 1) && Dir(img, L, THIRD, 2) && FirstBlockDots(img, L, THIRD, 2)
      && !OnlyDots(Names(img, L, THIRD, 2, 2)) && IsUsed(img, L, THIRD)
  {
    var d := WideDirDisk();
    WideSlot();
    WideShape();
    WideBlocks(img);
    ThirdInode(img, d);
    DiskRootUsed(img, d);
    hide Geometry, U32, U16, IsDisk, TwoRecords, Slot, BlockEntries, TiledBlock, Linked, Fs, DirectoryInode, SizeOf,
      IsUsed, LayoutOf, IsDirectoryMode, WideDirDisk, Dir, Names, OnlyDots, FirstBlockDots;
    assert Slot(img, d.Geo(), THIRD, 0) == 7 && Slot(img, d.Geo(), THIRD, 1) == 8;
    TwoBlockDir(img, d.Geo(), 7, 8);
    RootDir(img, d, Dot(ROOT), Record(THIRD, NAME_A, DIRENT_TYPE_DIRECTORY));
    DiskSound(img, d);
  }

  lemma TwoBlockDir(img: seq<byte>, L: Layout, a: nat, b: nat)
    requires Geometry(img, L) && IsInode(L, THIRD) && DirectoryInode(img, L, THIRD) && L.bs == 1024
    requires SizeOf(img, L, THIRD) == 2048 && Slot(img, L, THIRD, 0) == a && Slot(img, L, THIRD, 1) == b && a != b
    requires forall j :: 2 <= j < 15 ==> Slot(img, L, THIRD, j) == 0
    requires Linked(img, L, a) && Linked(img, L, b) && TiledBlock(img, L, a) && TiledBlock(img, L, b)
    requires OnlyDots(BlockEntries(img, L, a)) && !OnlyDots(BlockEntries(img, L, b))
    ensures Dir(img, L, THIRD, 2) && DirOk(img, L, THIRD) && FirstBlockDots(img, L, THIRD, 2)
    ensures !OnlyDots(Names(img, L, THIRD, 2, 2))
  {
    hide Geometry, Slot, BlockEntries, TiledBlock, DirectoryInode, SizeOf, LayoutOf, OnlyDots, DataBlock, BlockUsed;
    assert Times(2, L.bs) == 2048 by { TimesIsProduct(2, 1024); }
    assert Dense(img, L, THIRD, 2);
    DirIs(img, L, THIRD, 2);
    hide Dir, Dense, Linked;
    DotsByBlock(img, L, THIRD, 2, 2);
    BlockDotsIs(img, L, THIRD, 2, 1);
    BlockDotsIs(img, L, THIRD, 2, 0);
    FirstDots(img, L, THIRD, 2);
  }

  lemma WideBlocks(img: seq<byte>)
    requires IsDisk(img, WideDirDisk())
    ensures var L := WideDirDisk().Geo();
      && Geometry(img, L) && Linked(img, L, 7) && Linked(img, L, 8) && TiledBlock(img, L, 7) && TiledBlock(img, L, 8)
      && OnlyDots(BlockEntries(img, L, 7)) && !OnlyDots(BlockEntries(img, L, 8))
  {
    var d := WideDirDisk();
    DiskLinked(img, d);
    DataSlices(img, d);
    hide Geometry, IsDisk, TwoRecords, Linked, Times, LayoutOf, TiledBlock, BlockEntries, WideBase, Put;
    DataBlockInside(img, d.Geo(), 7);
    DataBlockInside(img, d.Geo(), 8);
    BlockOfTwo(img, d.Geo(), 7, Dot(THIRD), DotDot(ROOT));
    BlockOfTwo(img, d.Geo(), 8, Record(1, NAME_B, DIRENT_TYPE_REGULAR), Record(0, [], 0));
    assert BlockEntries(img, d.Geo(), 8)[0].0 == NAME_B;
  }

  /** A directory with a name in its second block is removed all the same. */
  lemma RemovesNonEmpty() returns (img: seq<byte>, L: Layout)
    ensures FolderOk(img, L, ROOT, 1) && Dir(img, L, THIRD, 2) && !OnlyDots(Names(img, L, THIRD, 2, 2))
    ensures RmdirInBounds(img, L, ROOT, NAME_A) && RemoveDirectory(img, L, ROOT, NAME_A).0.Ok?
    ensures PlanRemove(img, L, ROOT, NAME_A).Ok? && PlanRemove(img, L, ROOT, NAME_A).value.ino == THIRD
  {
    var d := WideDirDisk();
    var b := Record(THIRD, NAME_A, DIRENT_TYPE_DIRECTORY);
    WideSlot();
    WideShape();
    hide IsDisk, WideDirDisk, Fs, TwoRecords, FolderOk, Names, PlanRemove, RecLen, InodeAt, U16, Geometry, InodeUsed,
      RemoveDirectory, RmdirInBounds, Dir, OnlyDots, FirstBlockDots, U32, DirectoryInode, DirsOf, LinksOf,
      GroupOfInode;
    img := DiskExists(d);
    L := d.Geo();
    WideDir(img);
    SecondIsVictim(img, d, Dot(ROOT), b);
    var v := PlanRemove(img, L, ROOT, NAME_A).value;
    var kv := RemoveDirectoryOutcome(img, L, ROOT, 1, NAME_A) by { WideVictim(img, L, 1, NAME_A); }
    WideVictim(img, L, 1, NAME_A);
    OneSize(img, L, THIRD, kv, 2);
    RootCounters(img, d);
  }

  lemma WideShape()
    ensures var d := WideDirDisk();
      && d.root == TwoRecords(d.Bs(), Dot(ROOT), Record(THIRD, NAME_A, DIRENT_TYPE_DIRECTORY)) && d.Bs() == 1024
      && IsInode(d.Geo(), THIRD) && IsInode(d.Geo(), ROOT) && d.Geo().bs == 1024
      && d.First() == 1 && d.blocks == 8 && d.inodes == 3
  {
  }

  lemma WideVictim(img: seq<byte>, L: Layout, k: nat, name: seq<byte>)
    requires FolderOk(img, L, ROOT, k) && Dir(img, L, THIRD, 2) && IsUsed(img, L, THIRD)
    requires PlanRemove(img, L, ROOT, name).Ok? && PlanRemove(img, L, ROOT, name).value.ino == THIRD
    ensures SubdirOk(img, L, ROOT, name) && IsDirectoryMode(U16(img, PlanRemove(img, L, ROOT, name).value.at))
  {
    hide Geometry, Fs, PlanRemove, InodeAt, U16, Dense, InodeUsed, Slot, TiledBlock, U32;
  }

  /** Neither counter is 0. */
  lemma RootCounters(img: seq<byte>, d: Disk)
    requires IsDisk(img, d) && Geometry(img, d.Geo())
    ensures IsInode(d.Geo(), ROOT) && LinksOf(img, d.Geo(), ROOT) == 2
    ensures GroupOfInode(d.Geo(), THIRD) == 0 && GroupOfInode(d.Geo(), ROOT) == 0 && DirsOf(img, d.Geo(), 0) == 2
  {
    DiskLayout(d);
    DiskGeometry(img, d);
    FreshLinks(d.Pos(8), d.Geo(), d.First() + 5);
    hide Geometry, U32, U16, InodeAt, LayoutOf, Times, FreshDirectory, Pow2;
    SlotFields(img, d.Pos(4) + 128, RootSlot(d));
  }

  lemma FreshLinks(len: nat, L: Layout, b: nat)
    requires LayoutOf(len, L) && b < 0x1_0000_0000
    ensures U16(FreshDirectory(len, L, b), 26) == 2
  {
    ExtraFits(len, L);
    var x := FreshDirectory(len, L, b);
    assert x[26] == 2 && x[27] == 0;
  }
}
