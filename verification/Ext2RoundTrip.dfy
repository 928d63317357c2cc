/** Creating a file, appending to it any number of times and unlinking it gives back the
    original image, byte for byte. */
module Ext2RoundTrip {
  import opened Wrappers
  import opened Bytes
  import opened Ext2Layout
  import opened Ext2Alloc
  import opened Ext2Areas
  import opened Ext2File
  import opened Ext2Unwind
  import opened Ext2Append
  import opened Ext2Dirent
  import opened Ext2DirBlock
  import opened Ext2Directory
  import opened Ext2DirChange
  import opened Ext2Ops

  // ----- hypotheses -----

  /** The slots of inodes that are not in use hold zeros. */
  ghost predicate FreeSlotsZero(img: seq<byte>, L: Layout)
    requires Geometry(img, L)
  {
    forall i :: IsInode(L, i) && !InodeUsed(img, L, i) && InodeAt(img, L, i).Some? ==>
      img[InodeAt(img, L, i).value..InodeAt(img, L, i).value + L.inodeSize] == Zeros(L.inodeSize)
  }

  /** The slack of every record of the directory holds zeros. */
  ghost predicate DirSlackZero(img: seq<byte>, L: Layout, dir: nat, k: nat)
    requires Dir(img, L, dir, k)
  {
    forall j: nat, p: nat :: j < k && InRange(L, Slot(img, L, dir, j)) && p + DIRENT_HEADER_LEN <= |img|
        && RecordStart(img, L, Slot(img, L, dir, j), p)
      ==> SlackZero(img, p)
  }

  ghost predicate RecordStart(img: seq<byte>, L: Layout, b: nat, p: nat)
    requires LayoutOf(|img|, L) && InRange(L, b)
  {
    DataBlockInside(img, L, b);
    TiledBlock(img, L, b) && Starts(img, BlockAt(L, b), BlockAt(L, b) + L.bs, p)
  }

  /** A well-formed image whose unused places are zero, seen from one directory. */
  ghost predicate Pristine(img: seq<byte>, L: Layout, dir: nat, k: nat) {
    && Dir(img, L, dir, k) && InodeUsed(img, L, dir) && DirSlackZero(img, L, dir, k)
    && FreeIsData(img, L) && FreeIsZero(img, L) && FreeSlotsZero(img, L)
  }

  // ----- commuting an insertion with other writes -----

  lemma InsertAfterPut(img: seq<byte>, previous: nat, ino: nat, name: seq<byte>, kind: byte, at: nat, x: seq<byte>)
    requires Splittable(img, previous, |name|) && ino < 0x1_0000_0000 && |name| <= MAX_NAME_LEN
    requires at + |x| <= |img| && Apart(at, |x|, previous, RecLen(img, previous))
    ensures Splittable(Put(img, at, x), previous, |name|)
    ensures EntryOf(Put(img, at, x), previous) == EntryOf(img, previous)
    ensures RecLen(Put(img, at, x), previous) == RecLen(img, previous)
    ensures Insert(Put(img, at, x), previous, ino, name, kind) == Put(Insert(img, previous, ino, name, kind), at, x)
  {
    hide Put, U16, RecordBytes, Span, Le16, Insert;
    var n := Span(NameLen(img, previous));
    SpanCovers(NameLen(img, previous));
    SpanCovers(|name|);
    HeaderAfterPut(img, previous, at, x);
    InsertShape(img, previous, ino, name, kind);
    InsertShape(Put(img, at, x), previous, ino, name, kind);
    var rec := RecordBytes(ino, RecLen(img, previous) - n, name, kind);
    PutCommute(img, at, x, previous + 4, Le16(n));
    PutCommute(Put(img, previous + 4, Le16(n)), at, x, previous + n, rec);
  }

  lemma HeaderAfterPut(img: seq<byte>, previous: nat, at: nat, x: seq<byte>)
    requires previous + DIRENT_HEADER_LEN <= |img| && at + |x| <= |img| && Apart(at, |x|, previous, DIRENT_HEADER_LEN)
    ensures RecLen(Put(img, at, x), previous) == RecLen(img, previous)
    ensures NameLen(Put(img, at, x), previous) == NameLen(img, previous)
  {
    Read16Apart(img, at, x, previous + 4);
  }

  lemma InsertAfterTake(img: seq<byte>, s: Site, previous: nat, ino: nat, name: seq<byte>, kind: byte)
    requires Splittable(img, previous, |name|) && ino < 0x1_0000_0000 && |name| <= MAX_NAME_LEN
    requires SiteOk(|img|, s) && Takable(img, s) && ClearOf(s, previous, RecLen(img, previous))
    ensures Splittable(Take(img, s), previous, |name|) && EntryOf(Take(img, s), previous) == EntryOf(img, previous)
    ensures RecLen(Take(img, s), previous) == RecLen(img, previous)
    ensures Takable(Insert(img, previous, ino, name, kind), s)
    ensures Insert(Take(img, s), previous, ino, name, kind) == Take(Insert(img, previous, ino, name, kind), s)
  {
    hide Put, U16, U32, RecordBytes, Span, Le16, Insert, Take, Bit, Splittable, RecLen, NameLen, EntryOf;
    var taken := Take(img, s);
    InsertShape(img, previous, ino, name, kind);
    SpanCovers(NameLen(img, previous));
    SpanCovers(|name|);
    TakeShape(img, s);
    var bit, g, t := [SetBit(img[s.byteAt], s.bit)], Le16(U16(img, s.groupAt) - 1), Le32(U32(img, s.totalAt) - 1);
    var a := Put(img, s.byteAt, bit);
    var b := Put(a, s.groupAt, g);
    InsertAfterPut(img, previous, ino, name, kind, s.byteAt, bit);
    InsertAfterPut(a, previous, ino, name, kind, s.groupAt, g);
    InsertAfterPut(b, previous, ino, name, kind, s.totalAt, t);
    var n := Span(NameLen(img, previous));
    SplitInside(img, previous, |name|);
    var rec := RecordBytes(ino, RecLen(img, previous) - n, name, kind);
    TakeAfterPut(img, s, previous + 4, Le16(n));
    TakeAfterPut(Put(img, previous + 4, Le16(n)), s, previous + n, rec);
    var i := Insert(img, previous, ino, name, kind);
    TakeShape(i, s);
    assert Take(i, s) == Put(Put(Take(img, s), previous + 4, Le16(n)), previous + n, rec);
    InsertShape(taken, previous, ino, name, kind);
    assert NameLen(taken, previous) == NameLen(img, previous) by { TakenHeader(img, s, previous); }
  }

  lemma TakeShape(img: seq<byte>, s: Site)
    requires Takable(img, s)
    ensures Take(img, s) == Put(Put(Put(img, s.byteAt, [SetBit(img[s.byteAt], s.bit)]), s.groupAt,
          Le16(U16(img, s.groupAt) - 1)), s.totalAt, Le32(U32(img, s.totalAt) - 1))
  {
    hide Put, SetBit, U16, U32, Le16, Le32, Bit;
  }

  lemma SplitInside(img: seq<byte>, previous: nat, n: nat)
    requires Splittable(img, previous, n)
    ensures previous + RecLen(img, previous) <= |img| && RecLen(img, previous) >= Span(NameLen(img, previous)) + Span(n)
  {
  }

  lemma TakenHeader(img: seq<byte>, s: Site, previous: nat)
    requires SiteOk(|img|, s) && Takable(img, s) && previous + DIRENT_HEADER_LEN <= |img|
    requires ClearOf(s, previous, DIRENT_HEADER_LEN)
    ensures NameLen(Take(img, s), previous) == NameLen(img, previous)
    ensures RecLen(Take(img, s), previous) == RecLen(img, previous)
  {
    hide Ext2Alloc.Written, Bit, U32, SetBit;
    var g, n := U16(img, s.groupAt) - 1, U32(img, s.totalAt) - 1;
    TakenBytes(img, s, SetBit(img[s.byteAt], s.bit), g, n, previous + 4);
    TakenBytes(img, s, SetBit(img[s.byteAt], s.bit), g, n, previous + 5);
    TakenBytes(img, s, SetBit(img[s.byteAt], s.bit), g, n, previous + 6);
  }

  lemma TakenBytes(img: seq<byte>, s: Site, b: byte, g: nat, n: nat, p: nat)
    requires SiteOk(|img|, s) && g < 0x1_0000 && n < 0x1_0000_0000 && p < |img| && ClearOf(s, p, 1)
    ensures Ext2Alloc.Written(img, s, b, g, n)[p] == img[p]
  {
    hide Ext2Alloc.Written;
    WrittenReads(img, s, b, g, n);
  }

  // ----- taking an inode and writing its slot -----

  /** Taking an inode changes no other bit and no plain byte. */
  lemma TakeInodeKeeps(img: seq<byte>, L: Layout, ino: nat)
    requires Geometry(img, L) && IsInode(L, ino) && GroupOfInode(L, ino) < L.groupCount
    requires Takable(img, SiteOfInode(img, L, ino))
    ensures SiteOk(|img|, SiteOfInode(img, L, ino))
    ensures var r := Take(img, SiteOfInode(img, L, ino));
      && SamePointers(img, r, L) && Geometry(r, L)
      && (forall b {:trigger BlockUsed(r, L, b)} :: InRange(L, b) ==> (BlockUsed(r, L, b) <==> BlockUsed(img, L, b)))
      && (forall i {:trigger InodeUsed(r, L, i)} :: IsInode(L, i) ==>
            (InodeUsed(r, L, i) <==> i == ino || InodeUsed(img, L, i)))
      && (forall b: nat {:trigger DataBlock(r, L, b)} :: DataBlock(r, L, b) <==> DataBlock(img, L, b))
      && (forall i: nat {:trigger InodeAt(r, L, i)} :: InodeAt(r, L, i) == InodeAt(img, L, i))
      && (forall at: nat, n: nat {:trigger Plain(img, L, at, n)} :: at + n <= |img| && Plain(img, L, at, n) ==>
            SameBytes(img, r, at, n) && ClearOf(SiteOfInode(img, L, ino), at, n))
  {
    hide Geometry, Take, BitOn, Plain, DataBlock, InodeAt, GroupOfBlock, IndexOfBlock, GroupOfInode, IndexOfInode,
      Takable, SiteOfInode;
    InodePosition(img, L, ino);
    var s := SiteOfInode(img, L, ino);
    var g, x := GroupOfInode(L, ino), IndexOfInode(L, ino);
    TakeBit(img, L, InodeKind, g, x);
    var r := Take(img, s);
    SameAreas(img, r, L);
    forall b {:trigger BlockUsed(r, L, b)} | InRange(L, b) ensures BlockUsed(r, L, b) <==> BlockUsed(img, L, b) {
      BlockPosition(img, L, b);
    }
    forall i {:trigger InodeUsed(r, L, i)} | IsInode(L, i)
      ensures InodeUsed(r, L, i) <==> i == ino || InodeUsed(img, L, i)
    {
      InodePosition(img, L, i);
      if i != ino { InodePositionsDiffer(L, i, ino); }
    }
    forall at: nat, n: nat {:trigger Plain(img, L, at, n)} | at + n <= |img| && Plain(img, L, at, n)
      ensures SameBytes(img, r, at, n) && ClearOf(s, at, n)
    {
      PlainClear(img, L, InodeKind, g, x, at, n);
      Unwritten(img, r, s, at, n);
      SameSlice(img, r, at, n);
    }
  }

  /** Reading a field out of a freshly written slot. */
  lemma ReadInPut(img: seq<byte>, at: nat, x: seq<byte>, f: nat)
    requires at + |x| <= |img|
    ensures f + 4 <= |x| ==> U32(Put(img, at, x), at + f) == U32(x, f)
    ensures f + 2 <= |x| ==> U16(Put(img, at, x), at + f) == U16(x, f)
  {
  }

  /** A fresh file has the regular mode, size 0 and no block. */
  lemma FreshFileReads(len: nat, L: Layout)
    requires LayoutOf(len, L)
    ensures U16(FreshFile(len, L), 0) == 0x81A4 && U16(FreshFile(len, L), 26) == 1 && U32(FreshFile(len, L), 4) == 0
    ensures U32(FreshFile(len, L), 28) == 0
    ensures forall j :: 0 <= j < 15 ==> U32(FreshFile(len, L), SlotAt(0, j)) == 0
  {
    var f := FreshFile(len, L);
    assert f[0] == 0xA4 && f[1] == 0x81 && f[26] == 1 && f[27] == 0;
    assert forall p :: 4 <= p < 26 || 28 <= p < 128 ==> f[p] == 0;
    forall j | 0 <= j < 15 ensures U32(f, SlotAt(0, j)) == 0 {
      var p := SlotAt(0, j);
      assert f[p] == 0 && f[p + 1] == 0 && f[p + 2] == 0 && f[p + 3] == 0;
    }
  }

  /** Taking an inode and writing its slot leaves a directory other than it alone. */
  lemma NewInodeKeepsDir(img: seq<byte>, L: Layout, dir: nat, k: nat, ino: nat, x: seq<byte>)
    requires Dir(img, L, dir, k) && IsInode(L, ino) && ino != dir && GroupOfInode(L, ino) < L.groupCount
    requires Takable(img, SiteOfInode(img, L, ino))
    requires InodeAt(img, L, ino).Some? && |x| == L.inodeSize
    ensures var r := Put(Take(img, SiteOfInode(img, L, ino)), InodeAt(img, L, ino).value, x);
      && SamePointers(img, r, L) && Geometry(r, L) && DirSame(img, r, L, dir, k)
      && (forall b {:trigger BlockUsed(r, L, b)} :: InRange(L, b) ==> (BlockUsed(r, L, b) <==> BlockUsed(img, L, b)))
      && (forall i {:trigger InodeUsed(r, L, i)} :: IsInode(L, i) ==>
            (InodeUsed(r, L, i) <==> i == ino || InodeUsed(img, L, i)))
      && (forall b: nat {:trigger DataBlock(r, L, b)} :: DataBlock(r, L, b) <==> DataBlock(img, L, b))
      && (forall i: nat {:trigger InodeAt(r, L, i)} :: InodeAt(r, L, i) == InodeAt(img, L, i))
      && (forall b: nat :: DataBlock(img, L, b) ==> SameBytes(img, r, BlockAt(L, b), L.bs))
  {
    hide Geometry, Take, Plain, DataBlock, InodeAt, GroupOfInode, Takable, SiteOfInode, Dense, Put, SameBytes,
      BlockUsed, InodeUsed, TiledBlock, U16, U32;
    var s, at := SiteOfInode(img, L, ino), InodeAt(img, L, ino).value;
    TakeInodeKeeps(img, L, ino);
    var t := Take(img, s);
    InodeRangePlain(t, L, ino, at, L.inodeSize);
    PlainPutUsed(t, L, at, x);
    var r := Put(t, at, x);
    SamePointersTrans(img, t, r, L);
    forall b: nat | DataBlock(img, L, b)
      ensures SameBytes(img, r, BlockAt(L, b), L.bs)
    {
      DataBlockInside(img, L, b);
      DataRangePlain(img, L, b, BlockAt(L, b), L.bs);
      InodeRangeApartFromData(img, L, ino, at, L.inodeSize, b);
      SameBytesAfterPut(t, at, x, BlockAt(L, b), L.bs);
      SameBytesTrans(img, t, r, BlockAt(L, b), L.bs);
    }
    var d := InodeAt(img, L, dir).value;
    InodeRangePlain(img, L, dir, d, L.inodeSize);
    InodeSlotsApart(img, L, ino, dir);
    SameBytesAfterPut(t, at, x, d, L.inodeSize);
    SameBytesTrans(img, t, r, d, L.inodeSize);
    SameInode(img, r, L, dir);
    forall j | 0 <= j < k
      ensures Linked(r, L, Slot(img, L, dir, j))
    {
      DirBlock(img, L, dir, k, j);
      assert BlockUsed(r, L, Slot(img, L, dir, j)) && DataBlock(r, L, Slot(img, L, dir, j));
    }
  }

  lemma SameBytesTrans(a: seq<byte>, b: seq<byte>, c: seq<byte>, at: nat, n: nat)
    requires SameBytes(a, b, at, n) && SameBytes(b, c, at, n)
    ensures SameBytes(a, c, at, n)
  {
  }

  // ----- what creating does, on a well-formed directory -----

  /** The record chosen for splitting lies in a block of the directory, and the name is new. */
  lemma PlanShape(img: seq<byte>, L: Layout, dir: nat, k: nat, name: seq<byte>) returns (j: nat)
    requires Dir(img, L, dir, k) && PlanCreate(img, L, dir, name).Ok?
    ensures var previous := PlanCreate(img, L, dir, name).value;
      && ValidName(name) && j < k
      && InRange(L, Slot(img, L, dir, j)) && DataBlock(img, L, Slot(img, L, dir, j))
      && RecordStart(img, L, Slot(img, L, dir, j), previous)
      && Splittable(img, previous, |name|)
      && BlockAt(L, Slot(img, L, dir, j)) <= previous
      && previous + RecLen(img, previous) <= BlockAt(L, Slot(img, L, dir, j)) + L.bs <= |img|
      && forall i :: 0 <= i < k ==> !InBlock(img, L, dir, k, i, name)
  {
    hide Geometry, Dense, InodeAt, U16, U32, Times, ScanDirectory, Dir, Starts, RecLen, NameLen, TiledBlock,
      BlockEntries, DataBlock, Span;
    ScanDirectoryFacts(img, L, dir, k, name, Span(|name|));
    var s := ScanDirectory(img, L, dir, name, Span(|name|)).value.room.value;
    j :| 0 <= j < k && RoomIn(img, L, dir, k, j, Span(|name|), s);
    DirBlock(img, L, dir, k, j);
    var base := BlockAt(L, Slot(img, L, dir, j));
    StartsInBlock(img, L, Slot(img, L, dir, j), s.entry);
  }

  lemma StartsInBlock(img: seq<byte>, L: Layout, b: nat, p: nat)
    requires LayoutOf(|img|, L) && InRange(L, b) && BlockAt(L, b) + L.bs <= |img| && TiledBlock(img, L, b)
    requires Starts(img, BlockAt(L, b), BlockAt(L, b) + L.bs, p)
    ensures RecordStart(img, L, b, p) && BlockAt(L, b) <= p && p + DIRENT_HEADER_LEN <= |img|
    ensures p + RecLen(img, p) <= BlockAt(L, b) + L.bs
    ensures RecLen(img, p) >= DIRENT_HEADER_LEN
  {
    hide Starts, RecLen, NameLen, Times, Tiled;
    StartsInside(img, BlockAt(L, b), BlockAt(L, b) + L.bs, p);
  }

  /** The image `create_file` leaves: the name inserted, the inode taken, its slot written. */
  ghost function Created(img: seq<byte>, L: Layout, previous: nat, ino: nat, name: seq<byte>): (r: seq<byte>)
    requires LayoutOf(|img|, L) && Splittable(img, previous, |name|) && IsInode(L, ino) && |name| <= MAX_NAME_LEN
    requires var i := Insert(img, previous, ino, name, DIRENT_TYPE_REGULAR);
      GroupOfInode(L, ino) < L.groupCount && Takable(i, SiteOfInode(img, L, ino)) && InodeAt(img, L, ino).Some?
  {
    Put(Take(Insert(img, previous, ino, name, DIRENT_TYPE_REGULAR), SiteOfInode(img, L, ino)),
          InodeAt(img, L, ino).value, FreshFile(|img|, L))
  }

  lemma NewFileShape(img: seq<byte>, L: Layout)
    requires Geometry(img, L) && NewFile(img, L).0.Ok?
    ensures var ino := NewFile(img, L).0.value;
      && IsInode(L, ino) && GroupOfInode(L, ino) < L.groupCount && !InodeUsed(img, L, ino) && InodeAt(img, L, ino).Some?
      && Takable(img, SiteOfInode(img, L, ino))
      && NewFile(img, L).1 == Put(Take(img, SiteOfInode(img, L, ino)), InodeAt(img, L, ino).value, FreshFile(|img|, L))
  {
    hide Geometry, InodeAt, Take, Put, FreshFile;
    AllocInodeTakes(img, L, 0);
    var ino := AllocInode(img, L).0.value;
    TakeInodeKeeps(img, L, ino);
    InodeSlot(img, L, ino);
    TakableInodeIsFree(img, L, ino);
  }

  lemma TakableInodeIsFree(img: seq<byte>, L: Layout, ino: nat)
    requires Geometry(img, L) && IsInode(L, ino) && GroupOfInode(L, ino) < L.groupCount
    requires Takable(img, SiteOfInode(img, L, ino))
    ensures !InodeUsed(img, L, ino)
  {
    InodePosition(img, L, ino);
  }

  lemma CreateFileShape(img: seq<byte>, L: Layout, dir: nat, k: nat, name: seq<byte>) returns (j: nat)
    requires Dir(img, L, dir, k) && InodeUsed(img, L, dir)
    requires PlanCreate(img, L, dir, name).Ok? && NewFile(img, L).0.Ok?
    ensures CreateInBounds(img, L, dir, name)
    ensures var previous := PlanCreate(img, L, dir, name).value; var ino := NewFile(img, L).0.value;
      && ValidName(name) && j < k
      && InRange(L, Slot(img, L, dir, j)) && RecordStart(img, L, Slot(img, L, dir, j), previous)
      && Splittable(img, previous, |name|) && (forall i :: 0 <= i < k ==> !InBlock(img, L, dir, k, i, name))
      && IsInode(L, ino) && GroupOfInode(L, ino) < L.groupCount && !InodeUsed(img, L, ino) && ino != dir
      && InodeAt(img, L, ino).Some?
      && Takable(Insert(img, previous, ino, name, DIRENT_TYPE_REGULAR), SiteOfInode(img, L, ino))
      && CreateFile(img, L, dir, name) == (Ok(ino), Created(img, L, previous, ino, name))
  {
    hide Geometry, InodeAt, Take, Put, Dir, DataBlock, Insert, FreshFile, Splittable, RecLen, NewFile, PlanCreate,
      ScanDirectory, U16, U32, Bit, RecordStart, InBlock;
    j := PlanShape(img, L, dir, k, name);
    NewFileShape(img, L);
    var previous, ino := PlanCreate(img, L, dir, name).value, NewFile(img, L).0.value;
    var s, at, b := SiteOfInode(img, L, ino), InodeAt(img, L, ino).value, Slot(img, L, dir, j);
    TakeInodeKeeps(img, L, ino);
    var len := RecLen(img, previous);
    DataRangePlain(img, L, b, previous, len);
    InodeRangeApartFromData(img, L, ino, at, L.inodeSize, b);
    assert ClearOf(s, previous, len);
    InsertAfterTake(img, s, previous, ino, name, DIRENT_TYPE_REGULAR);
    InsertAfterPut(Take(img, s), previous, ino, name, DIRENT_TYPE_REGULAR, at, FreshFile(|img|, L));
  }

  // ----- the file while it is being written -----

  /** Equal except in the first 40 bytes of the slot at `at` (mode, size, links, sectors). */
  ghost predicate SameButHead(c: seq<byte>, y: seq<byte>, at: nat) {
    |c| == |y| && forall p :: 0 <= p < |c| && !(at <= p < at + 40) ==> y[p] == c[p]
  }

  /** `x` is the created image `c` after some appends to `ino`: cutting the file back gives `c`
      again up to the head of its slot, and the directory is as it was. */
  ghost predicate Appended(c: seq<byte>, x: seq<byte>, L: Layout, ino: nat, dir: nat, k: nat) {
    && Dir(c, L, dir, k) && IsInode(L, ino) && ino != dir && Geometry(x, L) && SamePointers(c, x, L)
    && InodeAt(c, L, ino).Some? && InodeAt(x, L, ino) == InodeAt(c, L, ino)
    && var at := InodeAt(c, L, ino).value; var n := CeilQuot(U32(x, at + 4), L.bs);
       && U16(x, at) == U16(c, at)
       && Ready(x, L, ino, n) && FreeIsZero(x, L)
       && DirSame(c, x, L, dir, k)
       && (forall j :: 0 <= j < k ==> Foreign(x, L, ino, n, Slot(c, L, dir, j)))
       && FreeDown(x, L, at, 0, n).0.Ok? && SameButHead(c, FreeDown(x, L, at, 0, n).1, at)
  }

  /** One append keeps the relation. */
  lemma AppendKeepsAppended(c: seq<byte>, x: seq<byte>, L: Layout, ino: nat, dir: nat, k: nat, data: seq<byte>)
    requires LayoutOf(|x|, L) && Appended(c, x, L, ino, dir, k) && Append(x, L, ino, data).0.Ok?
    ensures Appended(c, Append(x, L, ino, data).1, L, ino, dir, k)
  {
    hide Geometry, InodeAt, Put, Dir, DataBlock, U16, U32, FreeDown, Dense, FreeIsZero, FreeIsData, Slot, AppendLoop,
      Sized, CeilQuot, SameBytes, Owns, Linked, SameButHead;
    var at := InodeAt(c, L, ino).value;
    var size := U32(x, at + 4);
    var n, m := CeilQuot(size, L.bs), CeilQuot(size + |data|, L.bs);
    AppendLoopGrows(x, L, ino, size, data);
    var y := AppendLoop(x, L, at, size, data).1;
    assert Grown(x, y, L, ino, n, m);
    HeadSame(x, y, at);
    assert DirSame(c, y, L, dir, k) by { GrownKeepsDir(c, x, y, L, ino, dir, k, n, m); }
    SizedKeepsAppended(c, y, L, ino, dir, k, size + |data|);
  }

  lemma HeadSame(x: seq<byte>, y: seq<byte>, at: nat)
    requires SameBytes(x, y, at, 40)
    ensures U16(y, at) == U16(x, at)
  {
  }

  lemma GrownKeepsDir(c: seq<byte>, x: seq<byte>, y: seq<byte>, L: Layout, ino: nat, dir: nat, k: nat, n: nat, m: nat)
    requires Dir(c, L, dir, k) && SamePointers(c, x, L) && DirSame(c, x, L, dir, k) && Grown(x, y, L, ino, n, m)
    requires ino != dir
    requires forall j :: 0 <= j < k ==> Foreign(x, L, ino, n, Slot(c, L, dir, j))
    ensures DirSame(c, y, L, dir, k) && SamePointers(c, y, L)
    ensures forall j :: 0 <= j < k ==> Foreign(y, L, ino, m, Slot(c, L, dir, j))
  {
    hide Geometry, InodeAt, Dir, DataBlock, U16, U32, FreeDown, Dense, FreeIsZero, FreeIsData, Slot, Owns, Linked,
      SameBytes;
    SamePointersTrans(c, x, y, L);
    SameAreas(c, x, L);
    SameAreas(x, y, L);
    SameInode(x, y, L, dir);
    forall j | 0 <= j < k
      ensures Foreign(y, L, ino, m, Slot(c, L, dir, j)) && SameBytes(c, y, BlockAt(L, Slot(c, L, dir, j)), L.bs)
    {
      SameBytesTrans(c, x, y, BlockAt(L, Slot(c, L, dir, j)), L.bs);
    }
  }

  /** The situation of an append under way: like `Appended`, with `n` blocks, whatever the size
      field says. */
  ghost predicate Writing(c: seq<byte>, y: seq<byte>, L: Layout, ino: nat, dir: nat, k: nat, n: nat)
    ensures Writing(c, y, L, ino, dir, k, n) ==>
      && |y| == |c| && LayoutOf(|c|, L) && Geometry(y, L) && InodeAt(c, L, ino).Some?
      && InodeAt(y, L, ino) == InodeAt(c, L, ino)
  {
    && Dir(c, L, dir, k) && IsInode(L, ino) && ino != dir && SamePointers(c, y, L) && |y| == |c|
    && InodeAt(c, L, ino).Some? && InodeAt(y, L, ino) == InodeAt(c, L, ino)
    && Ready(y, L, ino, n) && FreeIsZero(y, L) && DirSame(c, y, L, dir, k)
    && (forall j :: 0 <= j < k ==> Foreign(y, L, ino, n, Slot(c, L, dir, j)))
    && var d := FreeDown(y, L, InodeAt(c, L, ino).value, 0, n);
       d.0.Ok? && SameButHead(c, d.1, InodeAt(c, L, ino).value)
  }

  /** Writing the size fields at the end of an append. */
  lemma SizedKeepsAppended(c: seq<byte>, y: seq<byte>, L: Layout, ino: nat, dir: nat, k: nat, size: nat)
    requires LayoutOf(|y|, L) && size < 0x1_0000_0000 && Writing(c, y, L, ino, dir, k, CeilQuot(size, L.bs))
    requires U16(y, InodeAt(c, L, ino).value) == U16(c, InodeAt(c, L, ino).value)
    ensures Appended(c, Sized(y, L, InodeAt(c, L, ino).value, size), L, ino, dir, k)
  {
    hide Geometry, InodeAt, Put, U16, U32, CeilQuot, Quot, Times, Writing, Le32, Appended;
    var at, n := InodeAt(c, L, ino).value, CeilQuot(size, L.bs);
    SectorsFit(L, size);
    var a, b := Le32(size), Le32(Times(n, SectorsPerBlock(L)));
    var z := Put(y, at + 4, a);
    HeadPut(c, y, L, ino, dir, k, n, at + 4, a);
    HeadPut(c, z, L, ino, dir, k, n, at + 28, b);
    Put32Read(y, at + 4, size);
    Read32Apart(z, at + 28, b, at + 4);
    Read16Apart(y, at + 4, a, at);
    Read16Apart(z, at + 28, b, at);
    WritingIsAppended(c, Put(z, at + 28, b), L, ino, dir, k, n);
  }

  lemma WritingIsAppended(c: seq<byte>, x: seq<byte>, L: Layout, ino: nat, dir: nat, k: nat, n: nat)
    requires Writing(c, x, L, ino, dir, k, n)
    requires n == CeilQuot(U32(x, InodeAt(c, L, ino).value + 4), L.bs)
    requires U16(x, InodeAt(c, L, ino).value) == U16(c, InodeAt(c, L, ino).value)
    ensures Appended(c, x, L, ino, dir, k)
  {
    hide Geometry, InodeAt, Dir, DataBlock, U16, U32, FreeDown, Dense, FreeIsZero, FreeIsData, Slot, CeilQuot, Owns,
      Linked, DirSame, SamePointers, SameButHead;
  }

  /** A write to the head of the file's slot keeps all but the size. */
  lemma HeadPut(c: seq<byte>, y: seq<byte>, L: Layout, ino: nat, dir: nat, k: nat, n: nat, p: nat, x: seq<byte>)
    requires Writing(c, y, L, ino, dir, k, n)
    requires var at := InodeAt(c, L, ino).value; at <= p && p + |x| <= at + 40
    ensures p + |x| <= |y| && Writing(c, Put(y, p, x), L, ino, dir, k, n)
  {
    hide Geometry, InodeAt, Put, Dir, DataBlock, U16, U32, FreeDown, Times, BlockUsed, InodeUsed, TiledBlock;
    var at := InodeAt(c, L, ino).value;
    var z := Put(y, p, x);
    InodeRangePlain(y, L, ino, p, |x|);
    PlainPutUsed(y, L, p, x);
    SamePointersTrans(c, y, z, L);
    HeadPutReady(y, L, ino, n, p, x);
    SameAreas(c, y, L);
    InodeSlotsApart(y, L, ino, dir);
    SameBytesAfterPut(y, p, x, InodeAt(c, L, dir).value, L.inodeSize);
    SameInode(y, z, L, dir);
    FreeDownAfterHead(y, L, ino, 0, n, p, x);
    SameButHeadPut(c, FreeDown(y, L, at, 0, n).1, at, p, x);
    forall j | 0 <= j < k
      ensures Foreign(z, L, ino, n, Slot(c, L, dir, j)) && SameBytes(c, z, BlockAt(L, Slot(c, L, dir, j)), L.bs)
    {
      var b := Slot(c, L, dir, j);
      assert Foreign(y, L, ino, n, b);
      assert BlockUsed(z, L, b) && DataBlock(z, L, b);
      DataBlockInside(y, L, b);
      InodeRangeApartFromData(y, L, ino, p, |x|, b);
      SameBytesAfterPut(y, p, x, BlockAt(L, b), L.bs);
    }
  }

  lemma SameButHeadPut(c: seq<byte>, y: seq<byte>, at: nat, p: nat, x: seq<byte>)
    requires SameButHead(c, y, at) && at <= p && p + |x| <= at + 40 && at + 40 <= |c|
    ensures SameButHead(c, Put(y, p, x), at)
  {
  }
}
