/** `append_to_file` and `truncate_to` keep the invariant of the image. */
module Ext2FsFile {
  import opened Wrappers
  import opened Bytes
  import opened Ext2Layout
  import opened Ext2Alloc
  import opened Ext2Areas
  import opened Ext2File
  import opened Ext2Unwind
  import opened Ext2Append
  import opened Ext2Accounting
  import opened Ext2Dirent
  import opened Ext2Directory
  import opened Ext2Steps
  import opened Ext2Fs
  import opened Ext2FsAppend

  ghost function SizeOf(img: seq<byte>, L: Layout, ino: nat): nat
    requires Geometry(img, L) && IsInode(L, ino)
  {
    InodeSlot(img, L, ino);
    U32(img, InodeAt(img, L, ino).value + 4)
  }

  /** As many direct blocks as the size says, without holes. */
  ghost predicate Solid(img: seq<byte>, L: Layout, ino: nat)
    requires Geometry(img, L) && IsInode(L, ino)
  {
    Dense(img, L, ino, CeilQuot(SizeOf(img, L, ino), L.bs))
  }

  /** A file without holes and without indirection, as long as its size says. */
  ghost predicate Direct(img: seq<byte>, L: Layout, ino: nat)
    requires Geometry(img, L) && IsInode(L, ino)
  {
    Solid(img, L, ino) && Slot(img, L, ino, 12) == 0
  }

  // ----- the head of the slot -----

  /** A write to the first 40 bytes of a slot moves no reference. */
  lemma HeadWrite(img: seq<byte>, L: Layout, ino: nat, p: nat, x: seq<byte>)
    requires Geometry(img, L) && IsInode(L, ino) && InodeAt(img, L, ino).Some?
    requires InodeAt(img, L, ino).value <= p && p + |x| <= InodeAt(img, L, ino).value + 40
    ensures var r := Put(img, p, x);
      && p + |x| <= |img| && Within(img, r, L, {}, {ino}) && (InodeUsed(r, L, ino) <==> InodeUsed(img, L, ino))
      && InodeAt(r, L, ino) == InodeAt(img, L, ino)
      && forall j :: 0 <= j < 15 ==> Slot(r, L, ino, j) == Slot(img, L, ino, j)
  {
    hide Geometry, Put, U32, InodeAt, Within, InodeUsed;
    var r := Put(img, p, x);
    PutInode(img, L, ino, p, x);
    WithinMeans(img, r, L, {}, {ino});
    var at := InodeAt(img, L, ino).value;
    forall j | 0 <= j < 15 ensures Slot(r, L, ino, j) == Slot(img, L, ino, j) {
      Read32Apart(img, p, x, SlotAt(at, j));
    }
  }

  /** Writing the size fields: the size is the new one, nothing else of the file moves. */
  lemma SizedWithin(img: seq<byte>, L: Layout, ino: nat, size: nat)
    requires Geometry(img, L) && IsInode(L, ino) && InodeAt(img, L, ino).Some? && size < 0x1_0000_0000
    ensures var r := Sized(img, L, InodeAt(img, L, ino).value, size);
      && Within(img, r, L, {}, {ino}) && (InodeUsed(r, L, ino) <==> InodeUsed(img, L, ino))
      && InodeAt(r, L, ino) == InodeAt(img, L, ino) && SizeOf(r, L, ino) == size
      && NodeOf(r, L, ino) == NodeOf(img, L, ino)
      && U16(r, InodeAt(img, L, ino).value) == U16(img, InodeAt(img, L, ino).value)
      && U16(r, InodeAt(img, L, ino).value + 26) == U16(img, InodeAt(img, L, ino).value + 26)
      && SectorsRight(r, L, ino)
      && (forall j :: 0 <= j < 15 ==> Slot(r, L, ino, j) == Slot(img, L, ino, j))
      && U32(r, InodeAt(img, L, ino).value + 108) == U32(img, InodeAt(img, L, ino).value + 108)
  {
    hide Geometry, Put, U32, U16, InodeAt, Within, InodeUsed, Slot, Le32, Times, CeilQuot;
    var at := InodeAt(img, L, ino).value;
    SectorsFit(L, size);
    var a, b := Le32(size), Le32(Times(CeilQuot(size, L.bs), SectorsPerBlock(L)));
    HeadWrite(img, L, ino, at + 4, a);
    var x := Put(img, at + 4, a);
    HeadWrite(x, L, ino, at + 28, b);
    var r := Put(x, at + 28, b);
    WithinTrans(img, x, r, L, {}, {ino}, {}, {ino});
    var none: set<nat> := {};
    assert {ino} + {ino} == {ino} && none + none == none;
    Put32Read(img, at + 4, size);
    Read32Apart(x, at + 28, b, at + 4);
    Read16Apart(img, at + 4, a, at);
    Read16Apart(x, at + 28, b, at);
    Read16Apart(img, at + 4, a, at + 26);
    Read16Apart(x, at + 28, b, at + 26);
    Put32Read(x, at + 28, Times(CeilQuot(size, L.bs), SectorsPerBlock(L)));
    TimesScale(CeilQuot(size, L.bs), SectorsPerBlock(L), 512);
    Read32Apart(img, at + 4, a, at + 108);
    Read32Apart(x, at + 28, b, at + 108);
  }

  /** The same slots and the same used blocks make the same dense file. */
  lemma DenseMoves(img: seq<byte>, r: seq<byte>, L: Layout, ino: nat, n: nat)
    requires Within(img, r, L, {}, {ino}) && IsInode(L, ino) && Dense(img, L, ino, n)
    requires forall j :: 0 <= j < 15 ==> Slot(r, L, ino, j) == Slot(img, L, ino, j)
    ensures Dense(r, L, ino, n)
  {
    hide Geometry, DataBlock, BlockUsed, Slot, InodeAt, Within;
    WithinMeans(img, r, L, {}, {ino});
    forall j | 0 <= j < n ensures Linked(r, L, Slot(r, L, ino, j)) {
      var b := Slot(img, L, ino, j);
      assert Linked(img, L, b);
      assert BlockUsed(r, L, b) && DataBlock(r, L, b);
    }
  }

  // ----- references of a direct file -----

  lemma DirectRefs(img: seq<byte>, r: seq<byte>, L: Layout, ino: nat, m: nat)
    requires Geometry(img, L) && Geometry(r, L) && Exclusive(img, L) && IsInode(L, ino)
    requires Dense(r, L, ino, m) && Slot(r, L, ino, 12) == 0
    requires forall j :: 0 <= j < m ==>
      && InRange(L, Slot(r, L, ino, j))
      && (!BlockUsed(img, L, Slot(r, L, ino, j)) || Owned(img, L, {ino}, Slot(r, L, ino, j)))
    ensures OwnRefs(img, r, L, ino)
  {
    hide Geometry, DataBlock, BlockUsed, Slot, NotOthers, Exclusive, Owned;
    forall x {:trigger Ref(r, L, ino, x)} | 0 <= x < RefCount(L) && Ref(r, L, ino, x) != 0
      ensures x < m && Linked(r, L, Ref(r, L, ino, x)) && NotOthers(img, L, ino, Ref(r, L, ino, x))
    {
      assert x < m;
      assert Ref(r, L, ino, x) == Slot(r, L, ino, x);
      assert Linked(r, L, Slot(r, L, ino, x));
      FreeIsNotOthers(img, L, ino, Slot(r, L, ino, x));
    }
  }

  lemma SlotIsOwned(img: seq<byte>, L: Layout, ino: nat, n: nat, j: nat)
    requires Geometry(img, L) && IsUsed(img, L, ino) && Dense(img, L, ino, n) && j < n
    ensures Owned(img, L, {ino}, Slot(img, L, ino, j)) && Slot(img, L, ino, j) != 0 && InRange(L, Slot(img, L, ino, j))
  {
    hide Geometry, DataBlock, BlockUsed, Slot, InodeUsed;
    assert Linked(img, L, Slot(img, L, ino, j));
    DataNotZero(img, L, Slot(img, L, ino, j));
    assert Ref(img, L, ino, j) == Slot(img, L, ino, j);
  }

  // ----- append -----

  /** A dense direct file's content: its blocks end to end, up to its size. */
  ghost function Content(img: seq<byte>, L: Layout, ino: nat): seq<byte>
    requires Geometry(img, L) && IsInode(L, ino) && Direct(img, L, ino)
  {
    var n := CeilQuot(SizeOf(img, L, ino), L.bs);
    CeilCovers(SizeOf(img, L, ino), L.bs);
    Body(img, L, ino, n, n)[..SizeOf(img, L, ino)]
  }

  /** The hypotheses of an append: a sound image and a direct regular file. */
  ghost predicate FileOk(img: seq<byte>, L: Layout, ino: nat)
    ensures FileOk(img, L, ino) ==>
      Geometry(img, L) && LayoutOf(|img|, L) && IsInode(L, ino) && Direct(img, L, ino) && InodeAt(img, L, ino).Some?
  {
    && Fs(img, L) && IsUsed(img, L, ino) && !DirectoryInode(img, L, ino) && Direct(img, L, ino)
    && InodeAt(img, L, ino).Some?
  }

  lemma FileReady(img: seq<byte>, L: Layout, ino: nat)
    requires FileOk(img, L, ino)
    ensures InodeAt(img, L, ino).Some? && SizeOf(img, L, ino) == U32(img, InodeAt(img, L, ino).value + 4)
    ensures Ready(img, L, ino, CeilQuot(SizeOf(img, L, ino), L.bs)) && Slot(img, L, ino, 12) == 0
  {
    hide Geometry, Dense, FreeIsData, Exclusive, Accounts, U32, CeilQuot;
    InodeSlot(img, L, ino);
  }

  lemma AppendParts(img: seq<byte>, L: Layout, ino: nat, data: seq<byte>)
    requires FileOk(img, L, ino) && Append(img, L, ino, data).0.Ok?
    ensures var at, size := InodeAt(img, L, ino).value, SizeOf(img, L, ino);
      var loop := AppendLoop(img, L, at, size, data);
      && loop.0.Ok? && size + |data| < 0x1_0000_0000
      && Append(img, L, ino, data).1 == Sized(loop.1, L, at, size + |data|)
  {
    hide Geometry, FileOk, U32, AppendLoop, Sized, InodeAt;
    FileReady(img, L, ino);
  }

  /** The other end of the slot is out of the loop's reach. */
  lemma LoopKeepsTail(img: seq<byte>, L: Layout, ino: nat, size: nat, data: seq<byte>)
    requires LayoutOf(|img|, L) && Ready(img, L, ino, CeilQuot(size, L.bs))
    requires AppendLoop(img, L, InodeAt(img, L, ino).value, size, data).0.Ok?
    ensures var r, at := AppendLoop(img, L, InodeAt(img, L, ino).value, size, data).1, InodeAt(img, L, ino).value;
      && Geometry(r, L) && InodeAt(r, L, ino) == InodeAt(img, L, ino)
      && (InodeUsed(r, L, ino) <==> InodeUsed(img, L, ino))
      && U16(r, at) == U16(img, at) && U16(r, at + 26) == U16(img, at + 26) && U32(r, at + 108) == U32(img, at + 108)
      && (forall j :: 12 <= j < 15 ==> Slot(r, L, ino, j) == Slot(img, L, ino, j))
  {
    hide Geometry, U32, AppendLoop, InodeAt, Dense, FreeIsData, CeilQuot, InodeUsed, FreeDown, FreeIsZero;
    AppendLoopGrows(img, L, ino, size, data);
    var r, at := AppendLoop(img, L, InodeAt(img, L, ino).value, size, data).1, InodeAt(img, L, ino).value;
    assert SameBytes(img, r, at, 40) && SameBytes(img, r, at + 88, L.inodeSize - 88);
    assert r[at] == img[at] && r[at + 1] == img[at + 1] && r[at + 26] == img[at + 26] && r[at + 27] == img[at + 27];
    SubRange(img, r, at + 88, L.inodeSize - 88, 20, 4);
    SameSlot(img, r, at + 108);
    forall j | 12 <= j < 15 ensures Slot(r, L, ino, j) == Slot(img, L, ino, j) {
      SubRange(img, r, at + 88, L.inodeSize - 88, 4 * (j - 12), 4);
      SameSlot(img, r, SlotAt(at, j));
    }
  }

  /** Same mode, same link count, same upper size word, same indirect slots. */
  ghost predicate SameRest(img: seq<byte>, r: seq<byte>, L: Layout, ino: nat)
    requires Geometry(img, L) && Geometry(r, L) && IsInode(L, ino)
  {
    && |r| == |img| && InodeAt(img, L, ino).Some? && InodeAt(r, L, ino) == InodeAt(img, L, ino)
    && var at := InodeAt(img, L, ino).value;
       && U16(r, at) == U16(img, at) && U16(r, at + 26) == U16(img, at + 26) && U32(r, at + 108) == U32(img, at + 108)
       && (forall j :: 12 <= j < 15 ==> Slot(r, L, ino, j) == Slot(img, L, ino, j))
  }

  /** `i_blocks` counts, in units of 512 bytes, the bytes of the blocks a file of its size has. */
  ghost predicate SectorsRight(img: seq<byte>, L: Layout, ino: nat)
    requires Geometry(img, L) && IsInode(L, ino)
  {
    InodeSlot(img, L, ino);
    512 * U32(img, InodeAt(img, L, ino).value + 28) == Times(CeilQuot(SizeOf(img, L, ino), L.bs), L.bs)
  }

  /** The file is its old content followed by `data`. */
  ghost predicate Lengthened(img: seq<byte>, r: seq<byte>, L: Layout, ino: nat, data: seq<byte>)
    requires Geometry(img, L) && Geometry(r, L) && IsInode(L, ino) && Direct(img, L, ino) && Direct(r, L, ino)
  {
    SizeOf(r, L, ino) == SizeOf(img, L, ino) + |data| && Content(r, L, ino) == Content(img, L, ino) + data
  }

  lemma ExtendedClaim(img: seq<byte>, r: seq<byte>, L: Layout, ino: nat, n: nat, m: nat)
    requires Extended(img, r, L, ino, n, m) && IsUsed(img, L, ino)
    ensures Claim(img, L, OwnSet(r, L, ino, m), {ino})
    ensures forall j :: 0 <= j < m ==>
      && InRange(L, Slot(r, L, ino, j))
      && (!BlockUsed(img, L, Slot(r, L, ino, j)) || Owned(img, L, {ino}, Slot(r, L, ino, j)))
  {
    hide Geometry, DataBlock, BlockUsed, Slot, InodeUsed, Within, Dense, FreeIsData, Owned;
    forall j | 0 <= j < m
      ensures var b := Slot(r, L, ino, j); b != 0 && InRange(L, b) && (!BlockUsed(img, L, b) || Owned(img, L, {ino}, b))
    {
      SlotIsLinked(r, L, ino, m, j);
      if j < n { SlotIsOwned(img, L, ino, n, j); }
    }
  }

  lemma SlotIsLinked(img: seq<byte>, L: Layout, ino: nat, n: nat, j: nat)
    requires Geometry(img, L) && IsInode(L, ino) && Dense(img, L, ino, n) && j < n
    ensures Linked(img, L, Slot(img, L, ino, j)) && Slot(img, L, ino, j) != 0
  {
    hide Geometry, DataBlock, BlockUsed, Slot;
    assert Linked(img, L, Slot(img, L, ino, j));
    DataNotZero(img, L, Slot(img, L, ino, j));
  }

  /** A successful append to a direct file of a sound image keeps the image sound, makes the
      file its old content followed by `data`, and leaves everybody else byte for byte. */
  lemma AppendKeepsFs(img: seq<byte>, L: Layout, ino: nat, data: seq<byte>)
    requires FileOk(img, L, ino) && Append(img, L, ino, data).0.Ok?
    ensures var r := Append(img, L, ino, data).1;
      && FileOk(r, L, ino) && Lengthened(img, r, L, ino, data) && SameRest(img, r, L, ino)
      && OthersKept(img, r, L, {ino}) && NodeOf(r, L, ino) == NodeOf(img, L, ino) && SectorsRight(r, L, ino)
  {
    hide Geometry, DataBlock, BlockUsed, Slot, InodeUsed, Within, Dense, FreeIsData, Owned, U32, U16, AppendLoop,
      Sized, InodeAt, Fs, Exclusive, Untouched, CeilQuot, Body, Append, FileOk, Extended, OwnRefs, Claim,
      SectorsRight;
    FileReady(img, L, ino);
    FileOkMeans(img, L, ino);
    AppendParts(img, L, ino, data);
    var at, size := InodeAt(img, L, ino).value, SizeOf(img, L, ino);
    var x := AppendLoop(img, L, at, size, data).1;
    var n, m := CeilQuot(size, L.bs), CeilQuot(size + |data|, L.bs);
    AppendLoopExtends(img, L, ino, size, data);
    LoopKeepsTail(img, L, ino, size, data);
    var r := Sized(x, L, at, size + |data|);
    SizedWithin(x, L, ino, size + |data|);
    SameKind(img, x, L, ino);
    AppendStep(img, x, r, L, ino, n, m);
    FsMeans(r, L);
    BodyKept(x, r, L, ino, m);
    FileOkIs(r, L, ino);
  }

  lemma SameKind(img: seq<byte>, r: seq<byte>, L: Layout, ino: nat)
    requires Geometry(img, L) && Geometry(r, L) && |r| == |img| && IsInode(L, ino)
    requires InodeAt(r, L, ino) == InodeAt(img, L, ino) && InodeAt(img, L, ino).Some?
    requires U16(r, InodeAt(img, L, ino).value) == U16(img, InodeAt(img, L, ino).value)
    requires U16(r, InodeAt(img, L, ino).value + 26) == U16(img, InodeAt(img, L, ino).value + 26)
    ensures NodeOf(r, L, ino) == NodeOf(img, L, ino)
  {
    hide Geometry, U16, InodeAt;
  }

  lemma FileOkMeans(img: seq<byte>, L: Layout, ino: nat)
    requires FileOk(img, L, ino)
    ensures Fs(img, L) && IsUsed(img, L, ino) && !DirectoryInode(img, L, ino) && Exclusive(img, L)
  {
  }

  lemma FileOkIs(r: seq<byte>, L: Layout, ino: nat)
    requires Fs(r, L) && IsUsed(r, L, ino) && !DirectoryInode(r, L, ino) && Direct(r, L, ino)
    ensures FileOk(r, L, ino)
  {
    InodeSlot(r, L, ino);
  }

  /** The loop and the size fields as one step of the invariant. */
  lemma AppendStep(img: seq<byte>, x: seq<byte>, r: seq<byte>, L: Layout, ino: nat, n: nat, m: nat)
    requires Fs(img, L) && Extended(img, x, L, ino, n, m) && Within(x, r, L, {}, {ino}) && IsUsed(img, L, ino)
    requires !DirectoryInode(r, L, ino)
    requires forall j :: 0 <= j < 15 ==> Slot(r, L, ino, j) == Slot(x, L, ino, j)
    requires Slot(x, L, ino, 12) == 0
    ensures Fs(r, L) && OthersKept(img, r, L, {ino}) && Dense(r, L, ino, m)
  {
    hide Geometry, DataBlock, BlockUsed, Slot, InodeUsed, Within, Dense, FreeIsData, Owned, InodeAt, Exclusive,
      Untouched, Fs, Claim, OwnRefs;
    var B := OwnSet(x, L, ino, m);
    WithinTrans(img, x, r, L, B, {ino}, {}, {ino});
    assert B + {} == B && {ino} + {ino} == {ino};
    DenseMoves(x, r, L, ino, m);
    ExtendedClaim(img, x, L, ino, n, m);
    FsMeans(img, L);
    DirectRefs(img, r, L, ino, m);
    FsStepAlone(img, r, L, B, ino);
  }

  /** A step on one inode and no directory. */
  lemma FsStepAlone(img: seq<byte>, r: seq<byte>, L: Layout, B: set<nat>, ino: nat)
    requires Fs(img, L) && Within(img, r, L, B, {ino}) && IsInode(L, ino) && Claim(img, L, B, {ino})
    requires IsUsed(r, L, ino) ==> OwnRefs(img, r, L, ino) && (DirectoryInode(r, L, ino) ==> DirOk(r, L, ino))
    ensures Fs(r, L) && OthersKept(img, r, L, {ino})
  {
    hide Geometry, InodeUsed, Within, InodeAt, OthersKept, Fs, Claim, OwnRefs, DirOk, DirectoryInode;
    var none: set<nat> := {};
    assert none + {ino} == {ino};
    FsStep(img, r, L, B, {ino}, none, ino);
  }

  lemma FsMeans(img: seq<byte>, L: Layout)
    requires Fs(img, L)
    ensures Geometry(img, L) && Exclusive(img, L) && FreeIsData(img, L) && Accounts(img, L) && Dirs(img, L)
  {
  }

  lemma BodyKept(x: seq<byte>, r: seq<byte>, L: Layout, ino: nat, m: nat)
    requires Ready(x, L, ino, m) && Within(x, r, L, {}, {ino}) && Dense(r, L, ino, m) && FreeIsData(r, L)
    requires forall j :: 0 <= j < 15 ==> Slot(r, L, ino, j) == Slot(x, L, ino, j)
    ensures Body(r, L, ino, m, m) == Body(x, L, ino, m, m)
  {
    hide Geometry, DataBlock, BlockUsed, Slot, InodeUsed, Within, Dense, FreeIsData, InodeAt, SameBytes, Body;
    WithinMeans(x, r, L, {}, {ino});
    forall j | 0 <= j < m ensures SameBytes(x, r, BlockAt(L, Slot(x, L, ino, j)), L.bs) {
      SlotIsLinked(x, L, ino, m, j);
    }
    BodySame(x, r, L, ino, m, m, m);
  }
}
