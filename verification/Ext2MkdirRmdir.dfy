/** `remove_directory` undoes `create_directory`. */
module Ext2MkdirRmdir {
  import opened Wrappers
  import opened Bytes
  import opened Ext2Layout
  import opened Ext2Alloc
  import opened Ext2Areas
  import opened Ext2File
  import opened Ext2Unwind
  import opened Ext2Append
  import opened Ext2Dirent
  import opened Ext2DirBlock
  import opened Ext2Directory
  import opened Ext2DirChange
  import opened Ext2Ops
  import opened Ext2RoundTrip
  import opened Ext2CreateUnlink
  import opened Ext2Mkdir

  /** A field elsewhere reads the same after an inode was taken and its slot written. */
  lemma TakenRead16(i: seq<byte>, s: Site, at: nat, x: seq<byte>, f: nat)
    requires SiteOk(|i|, s) && Takable(i, s) && at + |x| <= |i| && f + 2 <= |i| && ClearOf(s, f, 2)
    requires Apart(at, |x|, f, 2)
    ensures U16(Put(Take(i, s), at, x), f) == U16(i, f)
  {
    hide Put, U32;
    TakeShape(i, s);
    var bit, g, n := [SetBit(i[s.byteAt], s.bit)], Le16(U16(i, s.groupAt) - 1), Le32(U32(i, s.totalAt) - 1);
    Read16Apart(i, s.byteAt, bit, f);
    Read16Apart(Put(i, s.byteAt, bit), s.groupAt, g, f);
    Read16Apart(Put(Put(i, s.byteAt, bit), s.groupAt, g), s.totalAt, n, f);
    Read16Apart(Take(i, s), at, x, f);
  }

  /** y is the inserted image with the inode taken, its slot written and both counts one up. */
  lemma YIs(i: seq<byte>, z: seq<byte>, L: Layout, parent: nat, ino: nat, s: Site, at: nat, pat: nat, d: nat,
      x0: seq<byte>)
    requires Placed(i, L, parent, ino, s, at, pat, d) && |x0| == L.inodeSize && z == Put(Take(i, s), at, x0)
    requires CanRaise(z, pat, d)
    ensures U16(i, pat + 26) < 0xFFFF && U16(i, d + 16) < 0xFFFF
    ensures Raised(z, pat, d) == Both(z, pat, d, U16(i, pat + 26) + 1, U16(i, d + 16) + 1)
  {
    hide Geometry, InodeAt, GroupOfInode, Takable, Take, SiteOfInode, Put, Le16, U16;
    TakenRead16(i, s, at, x0, pat + 26);
    TakenRead16(i, s, at, x0, d + 16);
    Read16Apart(z, pat + 26, Le16(U16(z, pat + 26) + 1), d + 16);
  }

  /** The slot in y: a directory of one block's size, with no block yet. */
  lemma YSlot(t: seq<byte>, L: Layout, at: nat, pat: nat, d: nat, links: nat, dirs: nat)
    requires LayoutOf(|t|, L) && at + L.inodeSize <= |t| && pat + 28 <= |t| && d + 18 <= |t| && links < 0x1_0000
    requires dirs < 0x1_0000
    requires Apart(at, L.inodeSize, pat + 26, 2) && Apart(at, L.inodeSize, d + 16, 2)
    ensures var y := Both(Put(t, at, FreshDirectory(|t|, L, 0)), pat, d, links, dirs);
      IsDirectoryMode(U16(y, at)) && U32(y, at + 4) == L.bs && U32(y, SlotAt(at, 0)) == 0
  {
    hide Put, FreshDirectory, U16, U32, Le16, LayoutOf;
    var x0 := FreshDirectory(|t|, L, 0);
    FreshDirectoryReads(|t|, L);
    ReadInPut(t, at, x0, 0);
    ReadInPut(t, at, x0, 4);
    assert U32(x0, SlotAt(0, 0)) == 0;
    ReadInPut(t, at, x0, 40);
    var z := Put(t, at, x0);
    var a, b := Le16(links), Le16(dirs);
    var y1 := Put(z, pat + 26, a);
    Read16Apart(z, pat + 26, a, at);
    Read16Apart(y1, d + 16, b, at);
    Read32Apart(z, pat + 26, a, at + 4);
    Read32Apart(y1, d + 16, b, at + 4);
    Read32Apart(z, pat + 26, a, at + 40);
    Read32Apart(y1, d + 16, b, at + 40);
  }

  /** The linked image x: same head, slot 0 is b, the block holds the body. */
  lemma XReads(y: seq<byte>, L: Layout, parent: nat, ino: nat, b: nat, body: seq<byte>, at: nat)
    requires Blockable(y, L, parent, ino, b) && |body| == L.bs && at == InodeAt(y, L, ino).value
    ensures var x := LinkedImage(y, L, ino, 0, b, body);
      && Geometry(x, L) && SamePointers(y, x, L) && InodeAt(x, L, ino) == Some(at)
      && U16(x, at) == U16(y, at) && U32(x, at + 4) == U32(y, at + 4) && U32(x, at + 40) == b
      && BlockAt(L, b) + L.bs <= |x| && x[BlockAt(L, b)..BlockAt(L, b) + L.bs] == body
  {
    hide Geometry, InodeAt, Put, DataBlock, Times, BlockUsed, InodeUsed, Take, Takable, SiteOfBlock, GroupOfInode,
      U32, U16, Le32;
    var x := LinkedImage(y, L, ino, 0, b, body);
    LinkUsed(y, L, ino, 0, b, body);
    LinkSlots(y, L, ino, 0, b, body);
    InodeRangePlain(y, L, ino, at, 40);
    InodeRangeApartFromData(y, L, ino, at, 40, b);
    LinkBytes(y, L, ino, 0, b, body, at, 40);
    HeadSame(y, x, at);
    SameWord(y, x, at, 40, at + 4);
    DataBlockInside(y, L, b);
    BodyOf(Put(Take(y, SiteOfBlock(y, L, b)), SlotAt(at, 0), Le32(b)), BlockAt(L, b), body);
  }

  lemma BodyOf(s: seq<byte>, at: nat, x: seq<byte>)
    requires at + |x| <= |s|
    ensures Put(s, at, x)[at..at + |x|] == x
  {
  }

  /** Cutting the new directory to nothing gives y back, up to its size fields. */
  lemma CutDirectory(y: seq<byte>, L: Layout, parent: nat, ino: nat, b: nat, body: seq<byte>, at: nat)
    requires Blockable(y, L, parent, ino, b) && |body| == L.bs && at == InodeAt(y, L, ino).value
    requires ZeroBlock(y, L, b) && U32(y, SlotAt(at, 0)) == 0
    requires var x := LinkedImage(y, L, ino, 0, b, body); InodeAt(x, L, ino) == Some(at) && U32(x, at + 4) == L.bs
    ensures SlotAt(at, CeilQuot(L.bs, L.bs)) <= |y|
    ensures Truncate(LinkedImage(y, L, ino, 0, b, body), L, ino, 0) == (Ok(()), Sized(y, L, at, 0))
  {
    hide Geometry, InodeAt, Put, DataBlock, Times, BlockUsed, InodeUsed, Take, Takable, SiteOfBlock, GroupOfInode,
      U32, U16, Le32, FreeSlot, Sized;
    var x := LinkedImage(y, L, ino, 0, b, body);
    DataBlockInside(y, L, b);
    FreeSlotUndoesLink(y, L, ino, 0, b, body);
    CeilOne(L.bs);
    assert FreeDown(x, L, at, 0, 1) == (Ok(()), y) by { FreeDownOne(x, y, L, at); }
    TruncateToNothing(x, L, ino, at);
  }

  lemma CeilOne(unit: nat)
    requires unit > 0
    ensures CeilQuot(unit, unit) == 1
  {
    assert Quot(unit + (unit - 1), unit) == 1 + Quot(unit - 1, unit);
  }

  lemma FreeDownOne(x: seq<byte>, y: seq<byte>, L: Layout, at: nat)
    requires LayoutOf(|x|, L) && SlotAt(at, 1) <= |x| && |y| == |x| && FreeSlot(x, L, at, 0) == (Ok(()), y)
    ensures FreeDown(x, L, at, 0, 1) == (Ok(()), y)
  {
    hide FreeSlot;
    FreeDownNone(y, L, at);
  }

  /** Wiping the slot hides the size fields too. */
  lemma SizedThenWiped(y: seq<byte>, L: Layout, at: nat)
    requires LayoutOf(|y|, L) && at + L.inodeSize <= |y|
    ensures Put(Sized(y, L, at, 0), at, Zeros(L.inodeSize)) == Put(y, at, Zeros(L.inodeSize))
  {
    hide Put, Le32, CeilQuot, Times;
    SectorsFit(L, 0);
    var a, b := Le32(0), Le32(Times(CeilQuot(0, L.bs), SectorsPerBlock(L)));
    PutCovers(Put(y, at + 4, a), at + 28, b, at, Zeros(L.inodeSize));
    PutCovers(y, at + 4, a, at, Zeros(L.inodeSize));
  }

  /** `y` is `i` with inode `ino` taken, its wiped slot made a directory's, and both counts raised. */
  ghost predicate Begun(i: seq<byte>, y: seq<byte>, L: Layout, parent: nat, ino: nat, s: Site, at: nat, pat: nat, d: nat)
    ensures Begun(i, y, L, parent, ino, s, at, pat, d) ==>
      Placed(i, L, parent, ino, s, at, pat, d) && LayoutOf(|i|, L) && |y| == |i| && SamePointers(i, y, L)
  {
    && Placed(i, L, parent, ino, s, at, pat, d) && i[at..at + L.inodeSize] == Zeros(L.inodeSize)
    && U16(i, pat + 26) < 0xFFFF && U16(i, d + 16) < 0xFFFF
    && y == Both(Put(Take(i, s), at, FreshDirectory(|i|, L, 0)), pat, d, U16(i, pat + 26) + 1, U16(i, d + 16) + 1)
    && SamePointers(i, y, L)
  }

  /** `x` is `y` with the block linked and filled. */
  ghost predicate Filled(y: seq<byte>, x: seq<byte>, L: Layout, parent: nat, ino: nat, b: nat, at: nat, body: seq<byte>)
    ensures Filled(y, x, L, parent, ino, b, at, body) ==> LayoutOf(|y|, L) && Blockable(y, L, parent, ino, b)
  {
    && Blockable(y, L, parent, ino, b) && |body| == L.bs && ZeroBlock(y, L, b) && InodeAt(y, L, ino) == Some(at)
    && x == LinkedImage(y, L, ino, 0, b, body)
  }

  /** What `remove_directory` reads of the new directory. */
  lemma FilledReads(i: seq<byte>, y: seq<byte>, x: seq<byte>, L: Layout, parent: nat, ino: nat, b: nat, s: Site,
      at: nat, pat: nat, d: nat, body: seq<byte>)
    requires Begun(i, y, L, parent, ino, s, at, pat, d) && Filled(y, x, L, parent, ino, b, at, body)
    ensures LayoutOf(|x|, L) && InodeAt(x, L, ino) == Some(at) && SlotAt(at, CeilQuot(U32(x, at + 4), L.bs)) <= |x|
    ensures IsDirectoryMode(U16(x, at)) && U32(x, at + 40) == b && U32(x, at + 4) == L.bs
    ensures U32(y, SlotAt(at, 0)) == 0
  {
    hide Geometry, InodeAt, Put, DataBlock, Times, BlockUsed, InodeUsed, Take, Takable, SiteOfBlock, SiteOfInode,
      GroupOfInode, U32, U16, FreshDirectory, LinkedImage, CeilQuot, ZeroBlock, Both, CanLink, SamePointers;
    var links, dirs := U16(i, pat + 26) + 1, U16(i, d + 16) + 1;
    YSlot(Take(i, s), L, at, pat, d, links, dirs);
    XReads(y, L, parent, ino, b, body, at);
    CeilOne(L.bs);
  }

  /** Everything `remove_directory` gives back before the name: the inserted image is left. */
  lemma UnbumpedRestores(i: seq<byte>, y: seq<byte>, x: seq<byte>, L: Layout, parent: nat, ino: nat, b: nat, s: Site,
      at: nat, pat: nat, d: nat, body: seq<byte>, v: Victim)
    requires Begun(i, y, L, parent, ino, s, at, pat, d) && Filled(y, x, L, parent, ino, b, at, body)
    requires v.ino == ino && v.at == at
    requires LayoutOf(|x|, L) && InodeAt(x, L, ino) == Some(at) && SlotAt(at, CeilQuot(U32(x, at + 4), L.bs)) <= |x|
    ensures Unbumped(x, L, parent, v) == (Ok(()), i)
  {
    hide Geometry, InodeAt, Put, DataBlock, Times, BlockUsed, InodeUsed, Take, Takable, Give, Givable, SiteOfBlock,
      SiteOfInode, GroupOfInode, U32, U16, FreshDirectory, LinkedImage, CeilQuot, Sized, Truncate, BumpDirs,
      BumpLinks, ZeroBlock, Both, FreeInode, LayoutOf, CanLink;
    var links, dirs := U16(i, pat + 26) + 1, U16(i, d + 16) + 1;
    FilledReads(i, y, x, L, parent, ino, b, s, at, pat, d, body);
    XReads(y, L, parent, ino, b, body, at);
    CutDirectory(y, L, parent, ino, b, body, at);
    SizedThenWiped(y, L, at);
    WipedAndFreed(i, L, parent, ino, s, at, pat, d, FreshDirectory(|i|, L, 0), links, dirs);
    var t := Both(Take(i, s), pat, d, links, dirs);
    InodeRangePlain(i, L, parent, pat + 26, 2);
    FreeCounted(i, t, L, ino, s, pat, d, links, dirs);
    CountsRestored(i, L, parent, ino, s, at, pat, d);
  }

  /** `free_inode` on the taken image with the counts rewritten. */
  lemma FreeCounted(i: seq<byte>, t: seq<byte>, L: Layout, ino: nat, s: Site, pat: nat, d: nat, links: nat, dirs: nat)
    requires Geometry(i, L) && IsInode(L, ino) && GroupOfInode(L, ino) < L.groupCount && s == SiteOfInode(i, L, ino)
    requires SiteOk(|i|, s) && Takable(i, s) && d == DescAt(L, GroupOfInode(L, ino)) && d + GROUP_DESCRIPTOR_SIZE <= |i|
    requires pat + 28 <= |i| && links < 0x1_0000 && dirs < 0x1_0000 && Plain(i, L, pat + 26, 2)
    requires t == Both(Take(i, s), pat, d, links, dirs) && Givable(t, s)
    ensures FreeInode(t, L, ino) == (Ok(()), Give(t, s))
  {
    hide Geometry, Take, Give, Takable, U16, U32, Bit, SiteOfInode, GroupOfInode, Put, Le16, Plain;
    TakeInodeKeeps(i, L, ino);
    var t0 := Take(i, s);
    SitesStay(i, t0, L, ino);
    PlainStays(i, t0, L, pat + 26, 2);
    PlainPut(t0, L, pat + 26, Le16(links));
    var t1 := Put(t0, pat + 26, Le16(links));
    SitesStay(t0, t1, L, ino);
    DirsPut(t1, L, GroupOfInode(L, ino), dirs);
    SitesStay(t1, t, L, ino);
    GivableMeans(t, s);
  }

  /** THE ROUND TRIP of a directory. On a well-formed image whose unused places are zero, a
      successful `create_directory` followed by `remove_directory` of the same name succeeds
      and gives back every byte: both bitmaps, all four free counts, the parent's link count
      and the group's directory count included. */
  lemma CreateRemoveDirectory(img: seq<byte>, L: Layout, parent: nat, k: nat, name: seq<byte>)
    requires Pristine(img, L, parent, k)
    requires MkdirInBounds(img, L, parent, name) && CreateDirectory(img, L, parent, name).0.Ok?
    ensures var x := CreateDirectory(img, L, parent, name).1;
      RmdirInBounds(x, L, parent, name) && RemoveDirectory(x, L, parent, name) == (Ok(()), img)
  {
    hide Geometry, InodeAt, Put, DataBlock, U16, U32, Times, BlockUsed, InodeUsed, Take, Takable, Insert,
      FreshDirectory, FreshBody, Dense, Dir, SiteOfInode, SiteOfBlock, GroupOfInode, Splittable, RecLen, FreeIsData,
      FreeIsZero, Pristine, LinkedImage, CreateDirectory, RemoveDirectory, InBlock, Mkdirable, MadeFrom, Blockable,
      CanLink, MkdirInBounds, RmdirInBounds;
    PristineFree(img, L, parent, k);
    var j, b, previous, ino, y := CreateDirectoryShape(img, L, parent, k, name);
    RemoveRestores(img, L, parent, k, name, j, b, previous, ino, y);
  }

  lemma PristineFree(img: seq<byte>, L: Layout, dir: nat, k: nat)
    requires Pristine(img, L, dir, k)
    ensures Dir(img, L, dir, k) && InodeUsed(img, L, dir) && FreeIsData(img, L) && FreeIsZero(img, L)
  {
  }

  /** The intermediate images and places, collected: i has the name, z the inode as well. */
  ghost predicate Parts(img: seq<byte>, L: Layout, parent: nat, k: nat, name: seq<byte>, b: nat, previous: nat,
      ino: nat, y: seq<byte>,
                        i: seq<byte>, z: seq<byte>, s: Site, at: nat, pat: nat, d: nat) {
    && Splittable(img, previous, |name|) && 0 < ino < 0x1_0000_0000 && |name| <= MAX_NAME_LEN && LayoutOf(|img|, L)
    && |i| == |img|
    && i == Insert(img, previous, ino, name, DIRENT_TYPE_DIRECTORY) && Dir(i, L, parent, k)
    && InodeAt(i, L, parent) == InodeAt(img, L, parent)
    && Placed(i, L, parent, ino, s, at, pat, d) && z == Put(Take(i, s), at, FreshDirectory(|img|, L, 0))
    && CanRaise(z, pat, d) && y == Raised(z, pat, d)
    && DirSame(i, z, L, parent, k) && Dir(z, L, parent, k) && SamePointers(i, z, L) && Blockable(z, L, parent, ino, b)
    && pat == InodeAt(z, L, parent).value && d == DescAt(L, GroupOfInode(L, ino)) && InodeAt(z, L, ino) == Some(at)
  }

  lemma Pieces(img: seq<byte>, L: Layout, parent: nat, k: nat, name: seq<byte>, j: nat, b: nat, previous: nat,
      ino: nat, y: seq<byte>)
    returns (i: seq<byte>, z: seq<byte>, s: Site, at: nat, pat: nat, d: nat)
    requires Mkdirable(img, L, parent, k, name, j, previous, ino, b) && MadeFrom(img, L, parent, previous, ino, name, y)
    ensures Parts(img, L, parent, k, name, b, previous, ino, y, i, z, s, at, pat, d)
    ensures SameBytes(img, z, BlockAt(L, b), L.bs) && at == InodeAt(img, L, ino).value
    ensures OnlyBlock(img, i, L, Slot(img, L, parent, j))
  {
    hide Geometry, InodeAt, Put, DataBlock, U16, U32, Times, BlockUsed, InodeUsed, Take, Takable, Insert,
      FreshDirectory, Dense, Dir, SiteOfInode, SiteOfBlock, GroupOfInode, Splittable, RecLen, CanRaise, Raised,
      OnlyBlock, SameBytes, DirSame, Slot, RecordStart, LayoutOf, SamePointers, Blockable, Placed;
    InodesSmall(|img|, L);
    InsertMovesIn(img, L, parent, k, name, j, previous, ino, b);
    NamedKeeps(img, L, parent, k, name, j, previous, ino, b);
    i, z := Insert(img, previous, ino, name, DIRENT_TYPE_DIRECTORY), Named(img, L, previous, ino, name);
    s, at, pat, d := SiteOfInode(img, L, ino), InodeAt(img, L, ino).value, InodeAt(img, L, parent).value,
        DescAt(L, GroupOfInode(L, ino));
    InsertedPlaced(i, L, parent, ino, s, at, pat, d);
  }

  lemma PiecesZero(img: seq<byte>, i: seq<byte>, L: Layout, parent: nat, k: nat, name: seq<byte>, j: nat, b: nat,
      previous: nat, ino: nat, at: nat)
    requires Pristine(img, L, parent, k) && Mkdirable(img, L, parent, k, name, j, previous, ino, b)
    requires at == InodeAt(img, L, ino).value && OnlyBlock(img, i, L, Slot(img, L, parent, j))
    ensures ZeroBlock(img, L, b) && at + L.inodeSize <= |i| && i[at..at + L.inodeSize] == Zeros(L.inodeSize)
  {
    hide Geometry, InodeAt, DataBlock, U16, U32, Times, BlockUsed, InodeUsed, Take, Takable, Dense, Dir, SiteOfInode,
      SiteOfBlock, GroupOfInode, Splittable, RecLen, FreeIsData, OnlyBlock, Slot, RecordStart, ZeroBlock, LayoutOf,
      FreeSlotsZero;
    SlotZeroAfterInsert(img, i, L, parent, k, j, ino);
  }

  /** The body stays zero under the two counts. */
  lemma ZeroUnderCounts(img: seq<byte>, z: seq<byte>, L: Layout, parent: nat, ino: nat, b: nat, pat: nat, d: nat,
      links: nat, dirs: nat)
    requires Blockable(z, L, parent, ino, b) && LayoutOf(|img|, L) && ZeroBlock(img, L, b)
    requires SameBytes(img, z, BlockAt(L, b), L.bs)
    requires pat == InodeAt(z, L, parent).value && d == DescAt(L, GroupOfInode(L, ino)) && links < 0x1_0000
    requires dirs < 0x1_0000
    ensures d + GROUP_DESCRIPTOR_SIZE <= |z| && ZeroBlock(Both(z, pat, d, links, dirs), L, b)
  {
    hide Geometry, InodeAt, Put, DataBlock, Times, GroupOfInode, Takable, SiteOfBlock, Le16, CanLink;
    BlockablePlaces(z, L, parent, ino, b);
    DataBlockInside(z, L, b);
    var y1 := Put(z, pat + 26, Le16(links));
    SameBytesAfterPut(z, pat + 26, Le16(links), BlockAt(L, b), L.bs);
    SameBytesAfterPut(y1, d + 16, Le16(dirs), BlockAt(L, b), L.bs);
    SameBytesTrans(img, z, y1, BlockAt(L, b), L.bs);
    SameBytesTrans(img, y1, Put(y1, d + 16, Le16(dirs)), BlockAt(L, b), L.bs);
    ZeroMoves(img, Both(z, pat, d, links, dirs), L, b);
  }

  lemma RemoveRestores(img: seq<byte>, L: Layout, parent: nat, k: nat, name: seq<byte>, j: nat, b: nat, previous: nat,
      ino: nat, y: seq<byte>)
    requires Pristine(img, L, parent, k) && Mkdirable(img, L, parent, k, name, j, previous, ino, b)
    requires forall m :: 0 <= m < k ==> !InBlock(img, L, parent, k, m, name)
    requires MadeFrom(img, L, parent, previous, ino, name, y) && Blockable(y, L, parent, ino, b) && |y| == |img|
    requires LayoutOf(|img|, L) && ino < 0x1_0000_0000
    ensures var x := LinkedImage(y, L, ino, 0, b, FreshBody(|img|, L, ino, parent));
      RmdirInBounds(x, L, parent, name) && RemoveDirectory(x, L, parent, name) == (Ok(()), img)
  {
    hide Geometry, InodeAt, Put, DataBlock, U16, U32, Times, BlockUsed, InodeUsed, Take, Takable, Insert,
      FreshDirectory, FreshBody, Dense, Dir, SiteOfInode, SiteOfBlock, GroupOfInode, Splittable, RecLen, FreeIsData,
      FreeIsZero, Pristine, LinkedImage, InBlock, Blockable, MadeFrom, CanLink, CanRaise, Raised, ScanDirectory,
      Unbumped, Remove, EmptyFrom, EmptyInBounds, IsDirectoryMode, DirSame, Both, Placed, EntryOf, ZeroBlock,
      SameBytes, RecordStart, LayoutOf, Tiled, Entries, DirSlackZero, FreeSlotsZero, CeilQuot, Slot;
    var i, z, s, at, pat, d := Pieces(img, L, parent, k, name, j, b, previous, ino, y);
    PiecesZero(img, i, L, parent, k, name, j, b, previous, ino, at);
    var body := FreshBody(|img|, L, ino, parent);
    var x := LinkedImage(y, L, ino, 0, b, body);
    YIs(i, z, L, parent, ino, s, at, pat, d, FreshDirectory(|img|, L, 0));
    RaisedKeepsDir(z, L, parent, k, ino, b, pat, d);
    DirSameIsDir(z, y, L, parent, k);
    LinkedKeepsDir(y, L, parent, k, ino, b, body);
    DirSameTrans(z, y, x, L, parent, k);
    ScanFindsCreated(img, i, z, x, L, parent, k, name, j, previous, ino, DIRENT_TYPE_DIRECTORY, USIZE_MAX);
    ZeroUnderCounts(img, z, L, parent, ino, b, pat, d, U16(i, pat + 26) + 1, U16(i, d + 16) + 1);
    YPointers(i, z, y, L, parent, k);
    var v := Victim(EntryOf(img, previous), previous, ino, at);
    YInode(z, y, L, parent, k, ino, b, pat, d);
    FilledReads(i, y, x, L, parent, ino, b, s, at, pat, d, body);
    UnbumpedRestores(i, y, x, L, parent, ino, b, s, at, pat, d, body, v);
    XReads(y, L, parent, ino, b, body, at);
    FreshBodyIsEmpty(x, L, BlockAt(L, b), ino, parent);
    PristineMeans(img, L, parent, k);
    SlackOf(img, L, parent, k, j, previous);
    RemoveUndoesInsert(img, previous, ino, name, DIRENT_TYPE_DIRECTORY);
    PlanIs(x, L, parent, name, v);
  }

  lemma YPointers(i: seq<byte>, z: seq<byte>, y: seq<byte>, L: Layout, parent: nat, k: nat)
    requires LayoutOf(|i|, L) && SamePointers(i, z, L) && Dir(z, L, parent, k) && DirSame(z, y, L, parent, k)
    ensures SamePointers(i, y, L)
  {
    hide Dir, Geometry;
    SamePointersTrans(i, z, y, L);
  }

  lemma YInode(z: seq<byte>, y: seq<byte>, L: Layout, parent: nat, k: nat, ino: nat, b: nat, pat: nat, d: nat)
    requires Blockable(z, L, parent, ino, b) && Dir(z, L, parent, k) && DirSame(z, y, L, parent, k)
    ensures InodeAt(y, L, ino) == InodeAt(z, L, ino)
  {
    hide Dir, Geometry;
    SameAreas(z, y, L);
  }

  lemma PlanIs(x: seq<byte>, L: Layout, parent: nat, name: seq<byte>, v: Victim)
    requires LayoutOf(|x|, L) && ValidName(name)
    requires Finds(ScanDirectory(x, L, parent, name, USIZE_MAX), Spot(v.entry, Some(v.previous)))
    requires v.entry + DIRENT_HEADER_LEN <= |x| && U32(x, v.entry) == v.ino && InodeAt(x, L, v.ino) == Some(v.at)
    ensures PlanRemove(x, L, parent, name) == Ok(v)
  {
    hide ScanDirectory, InodeAt, U32;
  }
}
