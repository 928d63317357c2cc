/** The round trip of a directory: `create_directory` then `remove_directory`. */
module Ext2Mkdir {
  import opened Wrappers
  import opened Bytes
  import opened Ext2Layout
  import opened Ext2Alloc
  import opened Ext2Areas
  import opened Ext2File
  import opened Ext2Unwind
  import opened Ext2Append
  import opened Ext2Dirent
  import opened Ext2DirBlock
  import opened Ext2Directory
  import opened Ext2DirChange
  import opened Ext2Ops
  import opened Ext2RoundTrip
  import opened Ext2CreateUnlink

  // ----- the bytes of a fresh directory -----

  lemma PutNested(s: seq<byte>, at: nat, x: seq<byte>, o: nat, y: seq<byte>)
    requires at + |x| <= |s| && o + |y| <= |x|
    ensures Put(s, at, Put(x, o, y)) == Put(Put(s, at, x), at + o, y)
  {
  }

  /** A fresh directory is one without a block, plus its block number. */
  lemma FreshDirectoryLinked(len: nat, L: Layout, b: nat)
    requires LayoutOf(len, L) && b < 0x1_0000_0000
    ensures FreshDirectory(len, L, b) == Put(FreshDirectory(len, L, 0), 40, Le32(b))
  {
    ExtraFits(len, L);
    var a := Put(Put(Zeros(L.inodeSize), 0, Le16(DIRECTORY_MODE)), 4, Le32(L.bs));
    var s := Put(Put(a, 26, Le16(2)), 28, Le32(SectorsPerBlock(L)));
    hide Put, Le32, Le16;
    PutCovers(s, 40, Le32(0), 40, Le32(b));
    if L.wantExtra != 0 { PutCommute(Put(s, 40, Le32(0)), 128, Le16(L.wantExtra), 40, Le32(b)); }
  }

  /** Its `i_blocks` counts the one block. */
  lemma FreshDirectorySectors(len: nat, L: Layout, block: nat)
    requires LayoutOf(len, L) && block < 0x1_0000_0000
    ensures 512 * U32(FreshDirectory(len, L, block), 28) == L.bs
  {
    ExtraFits(len, L);
    var a := Put(Put(Zeros(L.inodeSize), 0, Le16(DIRECTORY_MODE)), 4, Le32(L.bs));
    var b := Put(a, 26, Le16(2));
    var c := Put(b, 28, Le32(SectorsPerBlock(L)));
    var d := Put(c, 40, Le32(block));
    hide Put, Le32, Le16, U32;
    Put32Read(b, 28, SectorsPerBlock(L));
    Read32Apart(c, 40, Le32(block), 28);
    if L.wantExtra != 0 { Read32Apart(d, 128, Le16(L.wantExtra), 28); }
  }

  lemma FreshDirectorySize(len: nat, L: Layout)
    requires LayoutOf(len, L)
    ensures U32(FreshDirectory(len, L, 0), 4) == L.bs
  {
    ExtraFits(len, L);
    var z := Put(Zeros(L.inodeSize), 0, Le16(DIRECTORY_MODE));
    var a := Put(z, 4, Le32(L.bs));
    var b := Put(a, 26, Le16(2));
    var c := Put(b, 28, Le32(SectorsPerBlock(L)));
    var d := Put(c, 40, Le32(0));
    hide Put, Le32, Le16, U32;
    Put32Read(z, 4, L.bs);
    Read32Apart(a, 26, Le16(2), 4);
    Read32Apart(b, 28, Le32(SectorsPerBlock(L)), 4);
    Read32Apart(c, 40, Le32(0), 4);
    if L.wantExtra != 0 { Read32Apart(d, 128, Le16(L.wantExtra), 4); }
  }

  lemma FreshDirectoryReads(len: nat, L: Layout)
    requires LayoutOf(len, L)
    ensures var x := FreshDirectory(len, L, 0);
      && U16(x, 0) == 0x41ED && U16(x, 26) == 2 && U32(x, 4) == L.bs
      && forall j :: 0 <= j < 15 ==> U32(x, SlotAt(0, j)) == 0
  {
    FreshDirectorySize(len, L);
    ExtraFits(len, L);
    var x := FreshDirectory(len, L, 0);
    assert x[0] == 0xED && x[1] == 0x41 && x[26] == 2 && x[27] == 0;
    assert forall p :: 40 <= p < 128 ==> x[p] == 0;
    forall j | 0 <= j < 15 ensures U32(x, SlotAt(0, j)) == 0 {
      var p := SlotAt(0, j);
      assert x[p] == 0 && x[p + 1] == 0 && x[p + 2] == 0 && x[p + 3] == 0;
    }
  }

  lemma SliceOfSlice(r: seq<byte>, at: nat, n: nat, o: nat, m: nat)
    requires at + n <= |r| && o + m <= n
    ensures r[at + o..at + o + m] == r[at..at + n][o..o + m]
  {
    var x := r[at..at + n];
    var y, z := r[at + o..at + o + m], x[o..o + m];
    forall q | 0 <= q < m ensures y[q] == z[q] { assert x[o + q] == r[at + o + q]; }
  }

  /** The body of a fresh directory, wherever it stands, is two records: `.` and `..`. */
  lemma FreshBodyReads(r: seq<byte>, L: Layout, body: nat, ino: nat, parent: nat)
    requires LayoutOf(|r|, L) && 0 < ino < 0x1_0000_0000 && parent < 0x1_0000_0000
    requires body + L.bs <= |r| && r[body..body + L.bs] == FreshBody(|r|, L, ino, parent)
    ensures RecLen(r, body) == DOT_LEN && NameLen(r, body) == 1 && BindingAt(r, body) == (DOT, ino, 2)
    ensures var d := body + DOT_LEN;
      RecLen(r, d) == L.bs - DOT_LEN && NameLen(r, d) == 2 && BindingAt(r, d) == (DOT_DOT, parent, 2)
  {
    var dot := RecordBytes(ino, DOT_LEN, DOT, DIRENT_TYPE_DIRECTORY);
    var dotdot := RecordBytes(parent, L.bs - DOT_LEN, DOT_DOT, DIRENT_TYPE_DIRECTORY);
    var first := Put(Zeros(L.bs), 0, dot);
    var b := Put(first, DOT_LEN, dotdot);
    assert |dot| == 9 && |dotdot| == 10;
    assert b[0..9] == dot;
    assert b[12..22] == dotdot;
    SliceOfSlice(r, body, L.bs, 0, 9);
    SliceOfSlice(r, body, L.bs, DOT_LEN, 10);
    hide RecordBytes, U32, RecLen, NameLen, NameAt;
    PutSame(r, body, dot);
    PutSame(r, body + DOT_LEN, dotdot);
    RecordReads(r, body, ino, DOT_LEN, DOT, DIRENT_TYPE_DIRECTORY);
    RecordReads(r, body + DOT_LEN, parent, L.bs - DOT_LEN, DOT_DOT, DIRENT_TYPE_DIRECTORY);
  }

  /** So it is tiled, and empty for `remove_directory`. */
  lemma FreshBodyIsEmpty(r: seq<byte>, L: Layout, body: nat, ino: nat, parent: nat)
    requires LayoutOf(|r|, L) && 0 < ino < 0x1_0000_0000 && parent < 0x1_0000_0000
    requires body + L.bs <= |r| && r[body..body + L.bs] == FreshBody(|r|, L, ino, parent)
    ensures Tiled(r, body, body + L.bs)
    ensures EmptyInBounds(r, body, 0, L.bs) && EmptyFrom(r, body, 0, L.bs) == Ok(true)
    ensures Entries(r, body, body + L.bs)
      == if parent == 0 then [(DOT, ino, 2)] else [(DOT, ino, 2), (DOT_DOT, parent, 2)]
  {
    hide RecLen, NameLen, NameAt, U32, FreshBody;
    FreshBodyReads(r, L, body, ino, parent);
    var d, end := body + DOT_LEN, body + L.bs;
    assert RecordOk(r, d, end) && d + RecLen(r, d) == end;
    assert Tiled(r, end, end);
    assert Tiled(r, d, end);
    assert RecordOk(r, body, end);
    assert Entries(r, end, end) == [];
    assert EmptyInBounds(r, body, L.bs, L.bs) && EmptyFrom(r, body, L.bs, L.bs) == Ok(true);
    assert EmptyInBounds(r, body, DOT_LEN, L.bs) && EmptyFrom(r, body, DOT_LEN, L.bs) == Ok(true);
  }

  // ----- the used-directories counter -----

  /** Writing `bg_used_dirs_count` of one group moves no pointer, bit or other counter. */
  lemma DirsPut(img: seq<byte>, L: Layout, g: nat, v: nat)
    requires Geometry(img, L) && g < L.groupCount && v < 0x1_0000
    ensures DescAt(L, g) + GROUP_DESCRIPTOR_SIZE <= |img| && Inside(img, L, Table, DescAt(L, g) + 16, 2)
    ensures var r := Put(img, DescAt(L, g) + 16, Le16(v));
      && SamePointers(img, r, L) && Geometry(r, L)
      && (forall b {:trigger BlockUsed(r, L, b)} :: InRange(L, b) ==> (BlockUsed(r, L, b) <==> BlockUsed(img, L, b)))
      && (forall i {:trigger InodeUsed(r, L, i)} :: IsInode(L, i) ==> (InodeUsed(r, L, i) <==> InodeUsed(img, L, i)))
      && (forall b: nat {:trigger DataBlock(r, L, b)} :: DataBlock(r, L, b) <==> DataBlock(img, L, b))
      && (forall i: nat {:trigger InodeAt(r, L, i)} :: InodeAt(r, L, i) == InodeAt(img, L, i))
  {
    hide Put, Geometry, BitOn, Le16, GroupOfBlock, IndexOfBlock, GroupOfInode, IndexOfInode;
    GroupStarts(|img|, L, g);
    var at, x := DescAt(L, g) + 16, Le16(v);
    PutKeepsPointers(img, L, at, x);
    var r := Put(img, at, x);
    SameAreas(img, r, L);
    assert ValidMeta(L, Table);
    forall k: Kind, h: nat, i: nat {:trigger BitOn(r, L, k, h, i)} | Position(L, h, i)
      ensures BitOn(r, L, k, h, i) <==> BitOn(img, L, k, h, i)
    {
      BitAwayFromTable(img, r, L, k, h, i, at, x);
    }
    forall b {:trigger BlockUsed(r, L, b)} | InRange(L, b) ensures BlockUsed(r, L, b) <==> BlockUsed(img, L, b) {
      BlockPosition(img, L, b);
    }
    forall i {:trigger InodeUsed(r, L, i)} | IsInode(L, i) ensures InodeUsed(r, L, i) <==> InodeUsed(img, L, i) {
      InodePosition(img, L, i);
    }
  }

  lemma BitAwayFromTable(img: seq<byte>, r: seq<byte>, L: Layout, k: Kind, h: nat, i: nat, at: nat, x: seq<byte>)
    requires Geometry(img, L) && Geometry(r, L) && SamePointers(img, r, L) && Position(L, h, i)
    requires at + |x| <= |img| && r == Put(img, at, x) && Inside(img, L, Table, at, |x|)
    ensures BitOn(r, L, k, h, i) <==> BitOn(img, L, k, h, i)
  {
    hide Geometry, Bit;
    SiteStays(img, r, L, k, h, i);
    SitePlaces(img, L, k, h, i);
    var s := SiteAt(img, L, k, h, i);
    assert ValidMeta(L, Table) && ValidMeta(L, MapOf(k, h));
    InsideApart(img, L, MapOf(k, h), Table, s.byteAt, 1);
  }

  /** That counter is clear of every site, every data block and every inode slot. */
  lemma DirsClear(img: seq<byte>, L: Layout, g: nat, k: Kind, h: nat, i: nat)
    requires Geometry(img, L) && g < L.groupCount && Position(L, h, i)
    ensures ClearOf(SiteAt(img, L, k, h, i), DescAt(L, g) + 16, 2)
  {
    hide Geometry;
    SitePlaces(img, L, k, h, i);
    GroupStarts(|img|, L, g);
    var s := SiteAt(img, L, k, h, i);
    assert ValidMeta(L, Table) && ValidMeta(L, Super) && ValidMeta(L, MapOf(k, h));
    InsideApart(img, L, MapOf(k, h), Table, s.byteAt, 1);
    InsideApart(img, L, Super, Table, s.totalAt, 4);
  }

  lemma DirsApartFromData(img: seq<byte>, L: Layout, g: nat, b: nat)
    requires Geometry(img, L) && g < L.groupCount && DataBlock(img, L, b)
    ensures Apart(DescAt(L, g) + 16, 2, BlockAt(L, b), L.bs)
  {
    GroupStarts(|img|, L, g);
    assert ValidMeta(L, Table);
  }

  lemma DirsApartFromInode(img: seq<byte>, L: Layout, g: nat, ino: nat)
    requires Geometry(img, L) && g < L.groupCount && IsInode(L, ino) && InodeAt(img, L, ino).Some?
    ensures Apart(DescAt(L, g) + 16, 2, InodeAt(img, L, ino).value, L.inodeSize)
  {
    hide Geometry, InodeAt;
    GroupStarts(|img|, L, g);
    assert ValidMeta(L, Table);
    InodeRangeApart(img, L, ino, InodeAt(img, L, ino).value, L.inodeSize, Table);
  }

  // ----- the image `create_directory` leaves -----

  /** A write elsewhere moves inside the taking, the link and the body. */
  lemma LinkedCommute(z: seq<byte>, s: Site, slot: nat, v: seq<byte>, base: nat, body: seq<byte>, p: nat, x: seq<byte>)
    requires SiteOk(|z|, s) && Takable(z, s) && slot + |v| <= |z| && base + |body| <= |z| && p + |x| <= |z|
    requires ClearOf(s, p, |x|) && Apart(slot, |v|, p, |x|) && Apart(base, |body|, p, |x|)
    ensures Takable(Put(z, p, x), s)
    ensures Put(Put(Put(Take(z, s), slot, v), base, body), p, x) == Put(Put(Take(Put(z, p, x), s), slot, v), base, body)
  {
    hide Put, Take, Takable;
    var t := Take(z, s);
    TakeAfterPut(z, s, p, x);
    PutCommute(t, slot, v, p, x);
    PutCommute(Put(t, slot, v), base, body, p, x);
  }

  lemma NewDirectoryShape(img: seq<byte>, L: Layout, parent: nat) returns (b: nat)
    requires Geometry(img, L) && FreeIsData(img, L) && parent < 0x1_0000_0000 && NewDirectory(img, L, parent).0.Ok?
    ensures var ino := NewDirectory(img, L, parent).0.value;
      && IsInode(L, ino) && GroupOfInode(L, ino) < L.groupCount && !InodeUsed(img, L, ino) && InodeAt(img, L, ino).Some?
      && InRange(L, b) && !BlockUsed(img, L, b) && DataBlock(img, L, b) && BlockAt(L, b) + L.bs <= |img|
      && var s, t := SiteOfInode(img, L, ino), SiteOfBlock(img, L, b);
         && SiteOk(|img|, s) && SiteOk(|img|, t) && Takable(img, s) && Takable(Take(img, s), t)
         && NewDirectory(img, L, parent).1
            == Put(Put(Take(Take(img, s), t), InodeAt(img, L, ino).value, FreshDirectory(|img|, L, b)), BlockAt(L, b),
                  FreshBody(|img|, L, ino, parent))
  {
    hide Geometry, InodeAt, Take, Put, FreshDirectory, FreshBody, DataBlock, Times, SiteOfBlock, BlockUsed, InodeUsed;
    AllocInodeTakes(img, L, 0);
    var ino := AllocInode(img, L).0.value;
    TakeInodeKeeps(img, L, ino);
    InodeSlot(img, L, ino);
    TakableInodeIsFree(img, L, ino);
    var t1 := Take(img, SiteOfInode(img, L, ino));
    AllocBlockTakes(t1, L, 0);
    b := AllocBlock(t1, L).0.value;
    TakableIsFree(t1, L, b);
    BlockSiteStays(img, t1, L, b);
    BlockPosition(img, L, b);
    SitePlaces(img, L, BlockKind, GroupOfBlock(L, b), IndexOfBlock(L, b));
    BlockPosition(t1, L, b);
    TakeBit(t1, L, BlockKind, GroupOfBlock(L, b), IndexOfBlock(L, b));
    SameAreas(t1, Take(t1, SiteOfBlock(t1, L, b)), L);
    DataBlockInside(img, L, b);
  }

  /** The situation `create_directory` found. */
  ghost predicate Mkdirable(img: seq<byte>, L: Layout, parent: nat, k: nat, name: seq<byte>, j: nat, previous: nat,
      ino: nat, b: nat) {
    && Dir(img, L, parent, k) && ValidName(name) && j < k && parent < 0x1_0000_0000
    && InRange(L, Slot(img, L, parent, j)) && DataBlock(img, L, Slot(img, L, parent, j)) && Slot(img, L, parent, j) != b
    && RecordStart(img, L, Slot(img, L, parent, j), previous) && Splittable(img, previous, |name|)
    && BlockAt(L, Slot(img, L, parent, j)) <= previous
    && previous + RecLen(img, previous) <= BlockAt(L, Slot(img, L, parent, j)) + L.bs
    && IsInode(L, ino) && GroupOfInode(L, ino) < L.groupCount && !InodeUsed(img, L, ino) && ino != parent
    && InodeAt(img, L, ino).Some?
    && InRange(L, b) && !BlockUsed(img, L, b) && DataBlock(img, L, b) && BlockAt(L, b) + L.bs <= |img|
    && SiteOk(|img|, SiteOfInode(img, L, ino)) && SiteOk(|img|, SiteOfBlock(img, L, b))
    && Takable(img, SiteOfInode(img, L, ino)) && Takable(Take(img, SiteOfInode(img, L, ino)), SiteOfBlock(img, L, b))
  }

  /** Z: the name inserted, the inode taken, its slot written but for the block. */
  ghost function Named(img: seq<byte>, L: Layout, previous: nat, ino: nat, name: seq<byte>): (z: seq<byte>)
    requires LayoutOf(|img|, L) && Splittable(img, previous, |name|) && IsInode(L, ino) && |name| <= MAX_NAME_LEN
    requires GroupOfInode(L, ino) < L.groupCount && InodeAt(img, L, ino).Some?
    requires Takable(Insert(img, previous, ino, name, DIRENT_TYPE_DIRECTORY), SiteOfInode(img, L, ino))
    ensures |z| == |img|
  {
    Put(Take(Insert(img, previous, ino, name, DIRENT_TYPE_DIRECTORY), SiteOfInode(img, L, ino)),
          InodeAt(img, L, ino).value, FreshDirectory(|img|, L, 0))
  }

  /** The insertion moves inside everything `NewDirectory` wrote. */
  lemma InsertMovesIn(img: seq<byte>, L: Layout, parent: nat, k: nat, name: seq<byte>, j: nat, previous: nat, ino: nat,
      b: nat)
    requires Mkdirable(img, L, parent, k, name, j, previous, ino, b)
    ensures var s, t := SiteOfInode(img, L, ino), SiteOfBlock(img, L, b);
      var at, base, body := InodeAt(img, L, ino).value, BlockAt(L, b), FreshBody(|img|, L, ino, parent);
      var made := Put(Put(Take(Take(img, s), t), at, FreshDirectory(|img|, L, b)), base, body);
      && Takable(Insert(img, previous, ino, name, DIRENT_TYPE_DIRECTORY), s)
      && Splittable(made, previous, |name|)
      && var z := Named(img, L, previous, ino, name);
         && Takable(z, t)
         && Insert(made, previous, ino, name, DIRENT_TYPE_DIRECTORY)
             == Put(Put(Take(z, t), SlotAt(at, 0), Le32(b)), base, body)
  {
    hide Geometry, InodeAt, Take, Put, FreshDirectory, FreshBody, DataBlock, Times, SiteOfBlock, SiteOfInode,
      BlockUsed, InodeUsed, Takable, Insert, Splittable, RecLen, Dir, Slot, RecordStart, GroupOfInode, EntryOf, Le32;
    var s, t := SiteOfInode(img, L, ino), SiteOfBlock(img, L, b);
    var at, base, len := InodeAt(img, L, ino).value, BlockAt(L, b), RecLen(img, previous);
    var x, x0, body := FreshDirectory(|img|, L, b), FreshDirectory(|img|, L, 0), FreshBody(|img|, L, ino, parent);
    var c := Slot(img, L, parent, j);
    var kind := DIRENT_TYPE_DIRECTORY;
    // everything is apart from the record that is split
    DataBlockInside(img, L, c);
    DataRangePlain(img, L, c, previous, len);
    TakeInodeKeeps(img, L, ino);
    BlockPosition(img, L, b);
    PlainClear(img, L, BlockKind, GroupOfBlock(L, b), IndexOfBlock(L, b), previous, len);
    InodeRangeApartFromData(img, L, ino, at, L.inodeSize, c);
    BlocksApart(L, b, c);
    var t1 := Take(img, s);
    var t2 := Take(t1, t);
    InsertAfterTake(img, s, previous, ino, name, kind);
    InsertAfterTake(t1, t, previous, ino, name, kind);
    InsertAfterPut(t2, previous, ino, name, kind, at, x);
    InsertAfterPut(Put(t2, at, x), previous, ino, name, kind, base, body);
    var i := Insert(img, previous, ino, name, kind);
    var ti := Take(i, s);
    // the block number leaves the slot
    FreshDirectoryLinked(|img|, L, b);
    PutNested(Take(ti, t), at, x0, 40, Le32(b));
    // and the rest of the slot moves inside the taking
    InodeRangePlain(img, L, ino, at, L.inodeSize);
    PlainClear(img, L, BlockKind, GroupOfBlock(L, b), IndexOfBlock(L, b), at, L.inodeSize);
    TakeAfterPut(ti, t, at, x0);
  }

  /** A field elsewhere reads the same under the taking, the link and the body. */
  lemma LinkedRead16(z: seq<byte>, t: Site, slot: nat, v: seq<byte>, base: nat, body: seq<byte>, f: nat)
    requires SiteOk(|z|, t) && Takable(z, t) && slot + |v| <= |z| && base + |body| <= |z| && f + 2 <= |z|
    requires ClearOf(t, f, 2) && Apart(slot, |v|, f, 2) && Apart(base, |body|, f, 2)
    ensures U16(Put(Put(Take(z, t), slot, v), base, body), f) == U16(z, f)
  {
    hide Put, U32;
    var w := Take(z, t);
    TakeShape(z, t);
    var bit, g, n := [SetBit(z[t.byteAt], t.bit)], Le16(U16(z, t.groupAt) - 1), Le32(U32(z, t.totalAt) - 1);
    Read16Apart(z, t.byteAt, bit, f);
    Read16Apart(Put(z, t.byteAt, bit), t.groupAt, g, f);
    Read16Apart(Put(Put(z, t.byteAt, bit), t.groupAt, g), t.totalAt, n, f);
    Read16Apart(w, slot, v, f);
    Read16Apart(Put(w, slot, v), base, body, f);
  }

  /** z, its directory and its new inode, ready for the block. */
  ghost predicate Blockable(z: seq<byte>, L: Layout, parent: nat, ino: nat, b: nat)
    ensures Blockable(z, L, parent, ino, b) ==>
      Geometry(z, L) && IsInode(L, ino) && IsInode(L, parent) && InodeAt(z, L, ino).Some? && InodeAt(z, L, parent).Some?
    ensures Blockable(z, L, parent, ino, b) ==>
      InRange(L, b) && CanLink(z, L, ino, 0, b) && GroupOfInode(L, ino) < L.groupCount
  {
    && Geometry(z, L) && IsInode(L, ino) && IsInode(L, parent) && ino != parent
    && InodeAt(z, L, ino).Some? && InodeAt(z, L, parent).Some? && GroupOfInode(L, ino) < L.groupCount
    && InRange(L, b) && DataBlock(z, L, b) && Takable(z, SiteOfBlock(z, L, b))
  }

  /** A two-byte counter at `p` that the block, its link and its bit do not touch. */
  ghost predicate Elsewhere(z: seq<byte>, L: Layout, ino: nat, b: nat, p: nat)
    requires Geometry(z, L) && InodeAt(z, L, ino).Some? && InRange(L, b)
  {
    && p + 2 <= |z| && SiteOk(|z|, SiteOfBlock(z, L, b)) && ClearOf(SiteOfBlock(z, L, b), p, 2)
    && Apart(SlotAt(InodeAt(z, L, ino).value, 0), 4, p, 2) && Apart(BlockAt(L, b), L.bs, p, 2)
  }

  /** Such are the parent's link count and the group's directory count. */
  lemma BlockablePlaces(z: seq<byte>, L: Layout, parent: nat, ino: nat, b: nat)
    requires Blockable(z, L, parent, ino, b)
    ensures var at, pat, d := InodeAt(z, L, ino).value, InodeAt(z, L, parent).value, DescAt(L, GroupOfInode(L, ino));
      && d + GROUP_DESCRIPTOR_SIZE <= |z| && Elsewhere(z, L, ino, b, pat + 26) && Elsewhere(z, L, ino, b, d + 16)
      && Apart(pat + 26, 2, d + 16, 2) && Apart(at, L.inodeSize, pat, L.inodeSize) && Apart(at, L.inodeSize, d + 16, 2)
  {
    hide Geometry, InodeAt, DataBlock, Times, GroupOfInode, Takable, SiteOfBlock, GroupOfBlock, IndexOfBlock;
    var at, pat, g := InodeAt(z, L, ino).value, InodeAt(z, L, parent).value, GroupOfInode(L, ino);
    GroupStarts(|z|, L, g);
    BlockPosition(z, L, b);
    var h, i := GroupOfBlock(L, b), IndexOfBlock(L, b);
    SitePlaces(z, L, BlockKind, h, i);
    DataBlockInside(z, L, b);
    InodeRangePlain(z, L, parent, pat + 26, 2);
    PlainClear(z, L, BlockKind, h, i, pat + 26, 2);
    InodeSlotsApart(z, L, ino, parent);
    InodeRangeApartFromData(z, L, parent, pat + 26, 2, b);
    DirsClear(z, L, g, BlockKind, h, i);
    DirsApartFromData(z, L, g, b);
    DirsApartFromInode(z, L, g, ino);
    DirsApartFromInode(z, L, g, parent);
  }

  lemma LinkedKeepsInodes(z: seq<byte>, L: Layout, ino: nat, b: nat, body: seq<byte>)
    requires Geometry(z, L) && IsInode(L, ino) && InodeAt(z, L, ino).Some? && |body| == L.bs
    requires InRange(L, b) && DataBlock(z, L, b) && Takable(z, SiteOfBlock(z, L, b))
    ensures var w := LinkedImage(z, L, ino, 0, b, body);
      SamePointers(z, w, L) && Geometry(w, L)
          && forall i: nat {:trigger InodeAt(w, L, i)} :: InodeAt(w, L, i) == InodeAt(z, L, i)
  {
    hide Geometry, InodeAt, Take, Put, DataBlock, Times, SiteOfBlock, BlockUsed, InodeUsed, Takable, Le32,
      LinkedImage;
    LinkUsed(z, L, ino, 0, b, body);
  }

  /** `z1` is `z` with one counter rewritten, as far as the block is concerned. */
  ghost predicate Moved(z: seq<byte>, z1: seq<byte>, L: Layout, parent: nat, ino: nat, b: nat)
    ensures Moved(z, z1, L, parent, ino, b) ==>
      Blockable(z, L, parent, ino, b) && Blockable(z1, L, parent, ino, b) && |z1| == |z|
    ensures Moved(z, z1, L, parent, ino, b) ==>
      InodeAt(z1, L, ino) == InodeAt(z, L, ino) && InodeAt(z1, L, parent) == InodeAt(z, L, parent)
  {
    && Blockable(z, L, parent, ino, b) && Blockable(z1, L, parent, ino, b) && SamePointers(z, z1, L)
    && SiteOfBlock(z1, L, b) == SiteOfBlock(z, L, b)
    && InodeAt(z1, L, ino) == InodeAt(z, L, ino) && InodeAt(z1, L, parent) == InodeAt(z, L, parent)
  }

  /** A counter write moves inside, and reads through. */
  lemma CounterMovesIn(z: seq<byte>, L: Layout, parent: nat, ino: nat, b: nat, body: seq<byte>, p: nat, v: nat)
    requires Blockable(z, L, parent, ino, b) && |body| == L.bs && v < 0x1_0000 && Elsewhere(z, L, ino, b, p)
    requires SamePointers(z, Put(z, p, Le16(v)), L)
    ensures Moved(z, Put(z, p, Le16(v)), L, parent, ino, b)
    ensures Put(LinkedImage(z, L, ino, 0, b, body), p, Le16(v)) == LinkedImage(Put(z, p, Le16(v)), L, ino, 0, b, body)
  {
    hide Geometry, InodeAt, Take, Put, DataBlock, Times, SiteOfBlock, Takable, GroupOfInode, Le32, Le16, U16;
    var t, slot := SiteOfBlock(z, L, b), SlotAt(InodeAt(z, L, ino).value, 0);
    DataBlockInside(z, L, b);
    LinkedCommute(z, t, slot, Le32(b), BlockAt(L, b), body, p, Le16(v));
    SameAreas(z, Put(z, p, Le16(v)), L);
    BlockSiteStays(z, Put(z, p, Le16(v)), L, b);
  }

  lemma CounterReads(z: seq<byte>, L: Layout, parent: nat, ino: nat, b: nat, body: seq<byte>, p: nat)
    requires Blockable(z, L, parent, ino, b) && |body| == L.bs && Elsewhere(z, L, ino, b, p)
    ensures U16(LinkedImage(z, L, ino, 0, b, body), p) == U16(z, p)
  {
    hide Geometry, InodeAt, Take, Put, DataBlock, Times, SiteOfBlock, Takable, GroupOfInode, Le32, Le16, U16;
    DataBlockInside(z, L, b);
    LinkedRead16(z, SiteOfBlock(z, L, b), SlotAt(InodeAt(z, L, ino).value, 0), Le32(b), BlockAt(L, b), body, p);
  }

  lemma PlainPointers(z: seq<byte>, L: Layout, at: nat, x: seq<byte>)
    requires Geometry(z, L) && at + |x| <= |z| && Plain(z, L, at, |x|)
    ensures SamePointers(z, Put(z, at, x), L)
  {
    PlainPut(z, L, at, x);
  }

  lemma DirsPointers(z: seq<byte>, L: Layout, g: nat, v: nat)
    requires Geometry(z, L) && g < L.groupCount && v < 0x1_0000
    ensures DescAt(L, g) + GROUP_DESCRIPTOR_SIZE <= |z| && SamePointers(z, Put(z, DescAt(L, g) + 16, Le16(v)), L)
  {
    DirsPut(z, L, g, v);
  }

  ghost function LinksRaised(z: seq<byte>, pat: nat): (r: seq<byte>)
    requires pat + 28 <= |z| && U16(z, pat + 26) < 0xFFFF
    ensures |r| == |z|
  {
    Put(z, pat + 26, Le16(U16(z, pat + 26) + 1))
  }

  ghost function DirsRaised(z: seq<byte>, d: nat): (r: seq<byte>)
    requires d + 18 <= |z| && U16(z, d + 16) < 0xFFFF
    ensures |r| == |z|
  {
    Put(z, d + 16, Le16(U16(z, d + 16) + 1))
  }

  /** `w1` is the linked image over `z1`, which is `z` with one counter rewritten. */
  ghost predicate LinkedOver(w1: seq<byte>, z: seq<byte>, z1: seq<byte>, L: Layout, parent: nat, ino: nat, b: nat,
      body: seq<byte>) {
    Moved(z, z1, L, parent, ino, b) && |body| == L.bs && w1 == LinkedImage(z1, L, ino, 0, b, body)
  }

  /** Raising the parent's link count moves inside. */
  lemma LinksMoveIn(z: seq<byte>, w: seq<byte>, L: Layout, parent: nat, ino: nat, b: nat, body: seq<byte>, pat: nat)
    requires Blockable(z, L, parent, ino, b) && |body| == L.bs && pat == InodeAt(z, L, parent).value
    requires w == LinkedImage(z, L, ino, 0, b, body) && BumpLinks(w, L, parent, 1).0.Ok?
    ensures U16(z, pat + 26) < 0xFFFF
    ensures LinkedOver(BumpLinks(w, L, parent, 1).1, z, LinksRaised(z, pat), L, parent, ino, b, body)
  {
    hide Geometry, InodeAt, Take, Put, DataBlock, Times, SiteOfBlock, BlockUsed, InodeUsed, Takable, GroupOfInode,
      Le32, Le16, U16, LinkedImage, Plain, SamePointers, Moved, Elsewhere, CanLink;
    BlockablePlaces(z, L, parent, ino, b);
    LinkedKeepsInodes(z, L, ino, b, body);
    CounterReads(z, L, parent, ino, b, body, pat + 26);
    InodeRangePlain(z, L, parent, pat + 26, 2);
    PlainPointers(z, L, pat + 26, Le16(U16(z, pat + 26) + 1));
    CounterMovesIn(z, L, parent, ino, b, body, pat + 26, U16(z, pat + 26) + 1);
  }

  /** And so does the group's directory count. */
  lemma DirsMoveIn(z: seq<byte>, w: seq<byte>, L: Layout, parent: nat, ino: nat, b: nat, body: seq<byte>, d: nat)
    requires Blockable(z, L, parent, ino, b) && |body| == L.bs && d == DescAt(L, GroupOfInode(L, ino))
    requires w == LinkedImage(z, L, ino, 0, b, body) && BumpDirs(w, L, ino, 1).0.Ok?
    ensures d + 18 <= |z| && U16(z, d + 16) < 0xFFFF
    ensures LinkedOver(BumpDirs(w, L, ino, 1).1, z, DirsRaised(z, d), L, parent, ino, b, body)
  {
    hide Geometry, InodeAt, Take, Put, DataBlock, Times, SiteOfBlock, BlockUsed, InodeUsed, Takable, GroupOfInode,
      Le32, Le16, U16, LinkedImage, SamePointers, Moved, Elsewhere, CanLink;
    BlockablePlaces(z, L, parent, ino, b);
    CounterReads(z, L, parent, ino, b, body, d + 16);
    DirsPointers(z, L, GroupOfInode(L, ino), U16(z, d + 16) + 1);
    CounterMovesIn(z, L, parent, ino, b, body, d + 16, U16(z, d + 16) + 1);
  }

  /** The image `create_directory` leaves is Y with block `b` taken, linked and filled. */
  lemma CreateDirectoryShape(img: seq<byte>, L: Layout, parent: nat, k: nat,
      name: seq<byte>) returns (j: nat, b: nat, previous: nat, ino: nat, y: seq<byte>)
    requires Dir(img, L, parent, k) && InodeUsed(img, L, parent) && FreeIsData(img, L)
    requires MkdirInBounds(img, L, parent, name) && CreateDirectory(img, L, parent, name).0.Ok?
    ensures Mkdirable(img, L, parent, k, name, j, previous, ino, b)
    ensures forall m :: 0 <= m < k ==> !InBlock(img, L, parent, k, m, name)
    ensures MadeFrom(img, L, parent, previous, ino, name, y)
    ensures Blockable(y, L, parent, ino, b) && |y| == |img|
    ensures CreateDirectory(img, L, parent, name)
      == (Ok(ino), LinkedImage(y, L, ino, 0, b, FreshBody(|img|, L, ino, parent)))
  {
    hide Geometry, InodeAt, Take, Put, FreshDirectory, FreshBody, DataBlock, Times, SiteOfBlock, SiteOfInode,
      BlockUsed, InodeUsed, Takable, Insert, Splittable, RecLen, Dir, Slot, RecordStart, GroupOfInode, EntryOf, Le32,
      Le16, U16, PlanCreate, NewDirectory, InBlock, Named, FreeIsData, LinkedImage, Blockable, BumpDirs, BumpLinks,
      CanLink, Raised, CanRaise, RecordBytes, LayoutOf;
    j := PlanShape(img, L, parent, k, name);
    b := NewDirectoryShape(img, L, parent);
    previous, ino := PlanCreate(img, L, parent, name).value, NewDirectory(img, L, parent).0.value;
    DirBlock(img, L, parent, k, j);
    InodesSmall(|img|, L);
    assert Mkdirable(img, L, parent, k, name, j, previous, ino, b);
    y := RaisedShape(img, L, parent, k, name, j, previous, ino, b);
  }

  lemma InodesSmall(len: nat, L: Layout)
    requires LayoutOf(len, L)
    ensures L.inodesCount < 0x1_0000_0000
  {
  }

  /** How y comes from the image: name in, inode taken, slot written, counts raised. */
  ghost predicate MadeFrom(img: seq<byte>, L: Layout, parent: nat, previous: nat, ino: nat, name: seq<byte>,
      y: seq<byte>) {
    && LayoutOf(|img|, L) && Splittable(img, previous, |name|) && IsInode(L, ino) && |name| <= MAX_NAME_LEN
    && GroupOfInode(L, ino) < L.groupCount && InodeAt(img, L, ino).Some? && InodeAt(img, L, parent).Some?
    && Takable(Insert(img, previous, ino, name, DIRENT_TYPE_DIRECTORY), SiteOfInode(img, L, ino))
    && var z, pat, d := Named(img, L, previous, ino, name), InodeAt(img, L, parent).value,
        DescAt(L, GroupOfInode(L, ino));
       CanRaise(z, pat, d) && y == Raised(z, pat, d)
  }

  lemma RaisedShape(img: seq<byte>, L: Layout, parent: nat, k: nat, name: seq<byte>, j: nat, previous: nat, ino: nat,
      b: nat) returns (y: seq<byte>)
    requires Mkdirable(img, L, parent, k, name, j, previous, ino, b) && MkdirInBounds(img, L, parent, name)
    requires PlanCreate(img, L, parent, name) == Ok(previous) && CreateDirectory(img, L, parent, name).0.Ok?
    requires
      var t := Take(Take(img, SiteOfInode(img, L, ino)), SiteOfBlock(img, L, b));
      NewDirectory(img, L, parent) == (Ok(ino), Put(Put(t, InodeAt(img, L, ino).value, FreshDirectory(|img|, L, b)),
            BlockAt(L, b), FreshBody(|img|, L, ino, parent)))
    ensures MadeFrom(img, L, parent, previous, ino, name, y) && Blockable(y, L, parent, ino, b)
    ensures CreateDirectory(img, L, parent, name)
      == (Ok(ino), LinkedImage(y, L, ino, 0, b, FreshBody(|img|, L, ino, parent)))
  {
    hide Geometry, InodeAt, Take, Put, FreshDirectory, FreshBody, DataBlock, Times, SiteOfBlock, SiteOfInode,
      BlockUsed, InodeUsed, Takable, Insert, Splittable, RecLen, Dir, Slot, RecordStart, GroupOfInode, EntryOf, Le32,
      Le16, U16, PlanCreate, NewDirectory, Named, LinkedImage, Blockable, BumpDirs, BumpLinks, CanLink, Raised,
      CanRaise, RecordBytes, LayoutOf, SamePointers, DirSame, SameBytes, OnlyBlock;
    InodesSmall(|img|, L);
    InsertMovesIn(img, L, parent, k, name, j, previous, ino, b);
    NamedKeeps(img, L, parent, k, name, j, previous, ino, b);
    var z, body := Named(img, L, previous, ino, name), FreshBody(|img|, L, ino, parent);
    LinkedIs(z, L, ino, b, body);
    var w1 := BumpLinks(LinkedImage(z, L, ino, 0, b, body), L, parent, 1).1;
    var pat, d := InodeAt(img, L, parent).value, DescAt(L, GroupOfInode(L, ino));
    BumpBoth(z, w1, L, parent, ino, b, body, pat, d);
    y := Raised(z, pat, d);
  }

  /** Y: the inserted name and the taken inode, with both directory counts raised; all that
      is missing is the block. */
  ghost function Raised(z: seq<byte>, pat: nat, d: nat): (y: seq<byte>)
    requires CanRaise(z, pat, d)
    ensures |y| == |z|
  {
    DirsRaised(LinksRaised(z, pat), d)
  }

  /** Neither count is at its limit. */
  ghost predicate CanRaise(z: seq<byte>, pat: nat, d: nat) {
    pat + 28 <= |z| && d + 18 <= |z| && U16(z, pat + 26) < 0xFFFF && U16(LinksRaised(z, pat), d + 16) < 0xFFFF
  }

  lemma LinkedIs(z: seq<byte>, L: Layout, ino: nat, b: nat, body: seq<byte>)
    requires Geometry(z, L) && IsInode(L, ino) && InodeAt(z, L, ino).Some? && |body| == L.bs
    requires InRange(L, b) && Takable(z, SiteOfBlock(z, L, b)) && BlockAt(L, b) + L.bs <= |z|
    ensures LinkedImage(z, L, ino, 0, b, body)
      == Put(Put(Take(z, SiteOfBlock(z, L, b)), SlotAt(InodeAt(z, L, ino).value, 0), Le32(b)), BlockAt(L, b), body)
  {
    hide Put, Take, Geometry, InodeAt, SiteOfBlock, Times;
  }

  /** Both counts, one after the other, move inside. */
  lemma BumpBoth(z: seq<byte>, w1: seq<byte>, L: Layout, parent: nat, ino: nat, b: nat, body: seq<byte>, pat: nat,
      d: nat)
    requires Blockable(z, L, parent, ino, b) && |body| == L.bs && pat == InodeAt(z, L, parent).value
    requires d == DescAt(L, GroupOfInode(L, ino))
    requires var r := BumpLinks(LinkedImage(z, L, ino, 0, b, body), L, parent, 1); r.0.Ok? && r.1 == w1
    requires LayoutOf(|w1|, L) && BumpDirs(w1, L, ino, 1).0.Ok?
    ensures CanRaise(z, pat, d)
    ensures Blockable(Raised(z, pat, d), L, parent, ino, b)
    ensures BumpDirs(w1, L, ino, 1).1 == LinkedImage(Raised(z, pat, d), L, ino, 0, b, body)
  {
    hide Geometry, InodeAt, Take, Put, DataBlock, Times, SiteOfBlock, Takable, GroupOfInode, Le32, Le16, U16,
      LinkedImage, BumpLinks, BumpDirs, Moved, Blockable, LinksRaised, DirsRaised, CanLink, LayoutOf;
    LinksMoveIn(z, LinkedImage(z, L, ino, 0, b, body), L, parent, ino, b, body, pat);
    DirsMoveIn(LinksRaised(z, pat), w1, L, parent, ino, b, body, d);
  }

  /** The directory with the name in it, and with the inode taken, keeps its shape. */
  lemma NamedKeeps(img: seq<byte>, L: Layout, parent: nat, k: nat, name: seq<byte>, j: nat, previous: nat, ino: nat,
      b: nat)
    requires Mkdirable(img, L, parent, k, name, j, previous, ino, b)
    requires Takable(Insert(img, previous, ino, name, DIRENT_TYPE_DIRECTORY), SiteOfInode(img, L, ino))
    requires Takable(Named(img, L, previous, ino, name), SiteOfBlock(img, L, b))
    ensures var i, z := Insert(img, previous, ino, name, DIRENT_TYPE_DIRECTORY), Named(img, L, previous, ino, name);
      && OnlyBlock(img, i, L, Slot(img, L, parent, j)) && Geometry(i, L) && SamePointers(img, i, L)
      && Dir(i, L, parent, k)
      && SiteOfInode(i, L, ino) == SiteOfInode(img, L, ino) && InodeAt(i, L, ino) == InodeAt(img, L, ino)
      && InodeAt(i, L, parent) == InodeAt(img, L, parent)
      && Geometry(z, L) && SamePointers(i, z, L) && DirSame(i, z, L, parent, k) && Dir(z, L, parent, k)
      && InodeAt(z, L, ino) == InodeAt(img, L, ino) && InodeAt(z, L, parent) == InodeAt(img, L, parent)
      && SiteOfBlock(z, L, b) == SiteOfBlock(img, L, b) && Blockable(z, L, parent, ino, b)
      && SameBytes(img, z, BlockAt(L, b), L.bs)
  {
    hide Geometry, InodeAt, Take, Put, FreshDirectory, DataBlock, Times, SiteOfBlock, SiteOfInode, BlockUsed,
      InodeUsed, Takable, Insert, Splittable, RecLen, Dir, Slot, GroupOfInode, TiledBlock, Starts, OnlyBlock,
      SameBytes;
    var c := Slot(img, L, parent, j);
    DirBlock(img, L, parent, k, j);
    DirInsert(img, L, parent, k, j, previous, ino, name, DIRENT_TYPE_DIRECTORY);
    var i := Insert(img, previous, ino, name, DIRENT_TYPE_DIRECTORY);
    OnlyBlockKeeps(img, i, L, c);
    SitesStay(img, i, L, ino);
    NewInodeKeepsDir(i, L, parent, k, ino, FreshDirectory(|img|, L, 0));
    var z := Named(img, L, previous, ino, name);
    DirSameIsDir(i, z, L, parent, k);
    SamePointersTrans(img, i, z, L);
    BlockSiteStays(img, z, L, b);
    SameBytesTrans(img, i, z, BlockAt(L, b), L.bs);
  }

  // ----- removing it again -----

  /** Raising the two counts does not show in the directory's entries. */
  lemma RaisedKeepsDir(z: seq<byte>, L: Layout, parent: nat, k: nat, ino: nat, b: nat, pat: nat, d: nat)
    requires Dir(z, L, parent, k) && Blockable(z, L, parent, ino, b) && CanRaise(z, pat, d)
    requires pat == InodeAt(z, L, parent).value && d == DescAt(L, GroupOfInode(L, ino))
    ensures DirSame(z, Raised(z, pat, d), L, parent, k)
  {
    hide Geometry, InodeAt, Put, DataBlock, U16, U32, Times, BlockUsed, InodeUsed, Dense, Le16, TiledBlock,
      SiteOfBlock, Takable, GroupOfInode;
    BlockablePlaces(z, L, parent, ino, b);
    var y1 := LinksRaised(z, pat);
    var v := U16(z, pat + 26) + 1;
    InodeRangePlain(z, L, parent, pat + 26, 2);
    PlainPutUsed(z, L, pat + 26, Le16(v));
    var w := U16(y1, d + 16) + 1;
    DirsPut(y1, L, GroupOfInode(L, ino), w);
    var y := Raised(z, pat, d);
    SamePointersTrans(z, y1, y, L);
    DirsApartFromInode(z, L, GroupOfInode(L, ino), parent);
    Read16Apart(z, pat + 26, Le16(v), pat);
    Read16Apart(y1, d + 16, Le16(w), pat);
    Read32Apart(z, pat + 26, Le16(v), pat + 4);
    Read32Apart(y1, d + 16, Le16(w), pat + 4);
    forall j | 0 <= j < 15 ensures Slot(y, L, parent, j) == Slot(z, L, parent, j) {
      Read32Apart(z, pat + 26, Le16(v), SlotAt(pat, j));
      Read32Apart(y1, d + 16, Le16(w), SlotAt(pat, j));
    }
    forall j | 0 <= j < k
      ensures Linked(y, L, Slot(z, L, parent, j)) && SameBytes(z, y, BlockAt(L, Slot(z, L, parent, j)), L.bs)
    {
      DirBlock(z, L, parent, k, j);
      var c := Slot(z, L, parent, j);
      assert BlockUsed(y1, L, c) && BlockUsed(y, L, c) && DataBlock(y1, L, c) && DataBlock(y, L, c);
      InodeRangeApartFromData(z, L, parent, pat + 26, 2, c);
      DirsApartFromData(y1, L, GroupOfInode(L, ino), c);
      SameBytesAfterPut(z, pat + 26, Le16(v), BlockAt(L, c), L.bs);
      SameBytesAfterPut(y1, d + 16, Le16(w), BlockAt(L, c), L.bs);
      SameBytesTrans(z, y1, y, BlockAt(L, c), L.bs);
    }
  }

  /** Nor does linking the new directory's own block. */
  lemma LinkedKeepsDir(y: seq<byte>, L: Layout, parent: nat, k: nat, ino: nat, b: nat, body: seq<byte>)
    requires Dir(y, L, parent, k) && Blockable(y, L, parent, ino, b) && |body| == L.bs
    ensures DirSame(y, LinkedImage(y, L, ino, 0, b, body), L, parent, k)
  {
    hide Geometry, InodeAt, Put, DataBlock, U16, U32, Times, BlockUsed, InodeUsed, Dense, TiledBlock, SiteOfBlock,
      Takable, GroupOfInode, LinkedImage;
    var x := LinkedImage(y, L, ino, 0, b, body);
    LinkUsed(y, L, ino, 0, b, body);
    TakableIsFree(y, L, b);
    var pat, slot := InodeAt(y, L, parent).value, SlotAt(InodeAt(y, L, ino).value, 0);
    InodeRangePlain(y, L, parent, pat, L.inodeSize);
    InodeSlotsApart(y, L, ino, parent);
    InodeRangeApartFromData(y, L, parent, pat, L.inodeSize, b);
    LinkBytes(y, L, ino, 0, b, body, pat, L.inodeSize);
    SameInode(y, x, L, parent);
    forall j | 0 <= j < k
      ensures Linked(x, L, Slot(y, L, parent, j)) && SameBytes(y, x, BlockAt(L, Slot(y, L, parent, j)), L.bs)
    {
      DirBlock(y, L, parent, k, j);
      var c := Slot(y, L, parent, j);
      assert c != b && BlockUsed(x, L, c) && DataBlock(x, L, c);
      BlocksApart(L, b, c);
      DataRangePlain(y, L, c, BlockAt(L, c), L.bs);
      InodeRangeApartFromData(y, L, ino, slot, 4, c);
      LinkBytes(y, L, ino, 0, b, body, BlockAt(L, c), L.bs);
    }
  }

  lemma DirSameTrans(a: seq<byte>, b: seq<byte>, c: seq<byte>, L: Layout, dir: nat, k: nat)
    requires Dir(a, L, dir, k) && DirSame(a, b, L, dir, k) && Dir(b, L, dir, k) && DirSame(b, c, L, dir, k)
    ensures DirSame(a, c, L, dir, k)
  {
    hide Geometry, InodeAt, DataBlock, U16, U32, Times, BlockUsed, Dense, Dir, Linked, SameBytes, Slot;
    SamePointersTrans(a, b, c, L);
    forall j | 0 <= j < k
      ensures Linked(c, L, Slot(a, L, dir, j)) && SameBytes(a, c, BlockAt(L, Slot(a, L, dir, j)), L.bs)
    {
      assert Slot(b, L, dir, j) == Slot(a, L, dir, j);
      SameBytesTrans(a, b, c, BlockAt(L, Slot(a, L, dir, j)), L.bs);
    }
  }

  /** Both counts of `q` rewritten to given values. */
  ghost function Both(q: seq<byte>, pat: nat, d: nat, links: nat, dirs: nat): (r: seq<byte>)
    requires pat + 28 <= |q| && d + 18 <= |q| && links < 0x1_0000 && dirs < 0x1_0000
    ensures |r| == |q|
  {
    Put(Put(q, pat + 26, Le16(links)), d + 16, Le16(dirs))
  }

  /** Where the pieces of the new directory are, relative to the inserted image. */
  ghost predicate Placed(i: seq<byte>, L: Layout, parent: nat, ino: nat, s: Site, at: nat, pat: nat, d: nat)
    ensures Placed(i, L, parent, ino, s, at, pat, d) ==>
      pat + 28 <= |i| && d + 18 <= |i| && at + L.inodeSize <= |i| && Takable(i, s)
  {
    && Geometry(i, L) && IsInode(L, ino) && IsInode(L, parent) && GroupOfInode(L, ino) < L.groupCount
    && SiteOk(|i|, s) && Takable(i, s) && s == SiteOfInode(i, L, ino)
    && InodeAt(i, L, ino) == Some(at) && InodeAt(i, L, parent) == Some(pat) && d == DescAt(L, GroupOfInode(L, ino))
    && d + GROUP_DESCRIPTOR_SIZE <= |i|
    && ClearOf(s, pat + 26, 2) && ClearOf(s, d + 16, 2) && ClearOf(s, at, L.inodeSize)
    && Apart(pat + 26, 2, d + 16, 2) && Apart(at, L.inodeSize, pat, L.inodeSize) && Apart(at, L.inodeSize, d + 16, 2)
  }

  lemma InsertedPlaced(i: seq<byte>, L: Layout, parent: nat, ino: nat, s: Site, at: nat, pat: nat, d: nat)
    requires Geometry(i, L) && IsInode(L, ino) && IsInode(L, parent) && ino != parent
    requires GroupOfInode(L, ino) < L.groupCount
    requires s == SiteOfInode(i, L, ino) && Takable(i, s)
    requires InodeAt(i, L, ino) == Some(at) && InodeAt(i, L, parent) == Some(pat)
    requires d == DescAt(L, GroupOfInode(L, ino))
    ensures Placed(i, L, parent, ino, s, at, pat, d)
  {
    hide Geometry, InodeAt, GroupOfInode, IndexOfInode, Takable, SiteOfInode;
    var g := GroupOfInode(L, ino);
    GroupStarts(|i|, L, g);
    InodePosition(i, L, ino);
    var x := IndexOfInode(L, ino);
    SitePlaces(i, L, InodeKind, g, x);
    InodeRangePlain(i, L, parent, pat + 26, 2);
    PlainClear(i, L, InodeKind, g, x, pat + 26, 2);
    InodeRangePlain(i, L, ino, at, L.inodeSize);
    PlainClear(i, L, InodeKind, g, x, at, L.inodeSize);
    DirsClear(i, L, g, InodeKind, g, x);
    InodeSlotsApart(i, L, ino, parent);
    DirsApartFromInode(i, L, g, ino);
    DirsApartFromInode(i, L, g, parent);
  }

  /** With the slot wiped and the inode given back, only the two counts are left. */
  lemma WipedAndFreed(i: seq<byte>, L: Layout, parent: nat, ino: nat, s: Site, at: nat, pat: nat, d: nat,
      slotBytes: seq<byte>, links: nat, dirs: nat)
    requires Placed(i, L, parent, ino, s, at, pat, d) && |slotBytes| == L.inodeSize && links < 0x1_0000
    requires dirs < 0x1_0000
    requires i[at..at + L.inodeSize] == Zeros(L.inodeSize)
    ensures Put(Both(Put(Take(i, s), at, slotBytes), pat, d, links, dirs), at, Zeros(L.inodeSize))
      == Both(Take(i, s), pat, d, links, dirs)
    ensures Givable(Both(Take(i, s), pat, d, links, dirs), s)
    ensures Give(Both(Take(i, s), pat, d, links, dirs), s) == Both(i, pat, d, links, dirs)
  {
    hide Geometry, InodeAt, GroupOfInode, Takable, Take, Give, Givable, SiteOfInode, Put, Le16;
    var t, zeros, a, b := Take(i, s), Zeros(L.inodeSize), Le16(links), Le16(dirs);
    var z := Put(t, at, slotBytes);
    PutCommute(Put(z, pat + 26, a), d + 16, b, at, zeros);
    PutCommute(z, pat + 26, a, at, zeros);
    PutCovers(t, at, slotBytes, at, zeros);
    TakeInodeKeeps(i, L, ino);
    InodeRangePlain(i, L, ino, at, L.inodeSize);
    assert t[at..at + L.inodeSize] == i[at..at + L.inodeSize] by { assert SameBytes(i, t, at, L.inodeSize); }
    PutSame(t, at, zeros);
    GiveUndoesTake(i, s);
    GiveAfterPut(t, s, pat + 26, a);
    GiveAfterPut(Put(t, pat + 26, a), s, d + 16, b);
  }

  /** Lowering both counts by one restores the inserted image. */
  lemma CountsRestored(i: seq<byte>, L: Layout, parent: nat, ino: nat, s: Site, at: nat, pat: nat, d: nat)
    requires Placed(i, L, parent, ino, s, at, pat, d) && U16(i, pat + 26) < 0xFFFF && U16(i, d + 16) < 0xFFFF
    ensures var x := Both(i, pat, d, U16(i, pat + 26) + 1, U16(i, d + 16) + 1);
      && BumpDirs(x, L, ino, -1).0.Ok?
      && BumpLinks(BumpDirs(x, L, ino, -1).1, L, parent, -1) == (Ok(()), i)
  {
    hide Geometry, InodeAt, GroupOfInode, Takable, Take, SiteOfInode, Put, Le16, U16;
    var links, dirs := U16(i, pat + 26), U16(i, d + 16);
    var y := Put(i, pat + 26, Le16(links + 1));
    var x := Both(i, pat, d, links + 1, dirs + 1);
    Put16Read(y, d + 16, dirs + 1);
    PutCovers(y, d + 16, Le16(dirs + 1), d + 16, Le16(dirs));
    Read16Apart(i, pat + 26, Le16(links + 1), d + 16);
    Le16Of(y, d + 16);
    PutSame(y, d + 16, Le16(dirs));
    assert BumpDirs(x, L, ino, -1) == (Ok(()), y);
    InodeRangePlain(i, L, parent, pat + 26, 2);
    PlainPutUsed(i, L, pat + 26, Le16(links + 1));
    Put16Read(i, pat + 26, links + 1);
    PutCovers(i, pat + 26, Le16(links + 1), pat + 26, Le16(links));
    Le16Of(i, pat + 26);
    PutSame(i, pat + 26, Le16(links));
  }
}
