/** Whole directories: the scan over all blocks, and what adding or removing one entry does. */
module Ext2Directory {
  import opened Wrappers
  import opened Bytes
  import opened Ext2Layout
  import opened Ext2Alloc
  import opened Ext2Areas
  import opened Ext2File
  import opened Ext2Unwind
  import opened Ext2Append
  import opened Ext2Dirent
  import opened Ext2DirBlock

  ghost predicate TiledBlock(img: seq<byte>, L: Layout, b: nat)
    requires LayoutOf(|img|, L) && InRange(L, b)
  {
    DataBlockInside(img, L, b);
    Tiled(img, BlockAt(L, b), BlockAt(L, b) + L.bs)
  }

  ghost function BlockEntries(img: seq<byte>, L: Layout, b: nat): seq<Binding>
    requires LayoutOf(|img|, L) && InRange(L, b) && TiledBlock(img, L, b)
  {
    DataBlockInside(img, L, b);
    Entries(img, BlockAt(L, b), BlockAt(L, b) + L.bs)
  }

  /** A well-formed directory of `k` blocks: dense, a whole number of blocks long, and every
      block exactly tiled by records. */
  ghost predicate Dir(img: seq<byte>, L: Layout, dir: nat, k: nat)
    ensures Dir(img, L, dir, k) ==>
      k <= DIRECT_BLOCK_COUNT && Geometry(img, L) && IsInode(L, dir) && InodeAt(img, L, dir).Some?
  {
    && Geometry(img, L) && IsInode(L, dir) && InodeAt(img, L, dir).Some?
    && IsDirectoryMode(U16(img, InodeAt(img, L, dir).value))
    && U32(img, InodeAt(img, L, dir).value + 4) == Times(k, L.bs)
    && Dense(img, L, dir, k)
    && forall j :: 0 <= j < k ==> TiledBlock(img, L, Slot(img, L, dir, j))
  }

  /** All names bound in the first `n` blocks. */
  ghost function Names(img: seq<byte>, L: Layout, dir: nat, k: nat, n: nat): seq<Binding>
    requires Dir(img, L, dir, k) && n <= k
  {
    if n == 0 then [] else
      assert Linked(img, L, Slot(img, L, dir, n - 1));
      Names(img, L, dir, k, n - 1) + BlockEntries(img, L, Slot(img, L, dir, n - 1))
  }

  lemma DirBlock(img: seq<byte>, L: Layout, dir: nat, k: nat, j: nat)
    requires Dir(img, L, dir, k) && j < k
    ensures var b := Slot(img, L, dir, j);
      Linked(img, L, b) && InRange(L, b) && b != 0 && TiledBlock(img, L, b) && BlockAt(L, b) + L.bs <= |img|
  {
    var b := Slot(img, L, dir, j);
    assert Linked(img, L, b);
    DataBlockInside(img, L, b);
    DataNotZero(img, L, b);
  }

  // ----- the scan -----

  ghost predicate InBlock(img: seq<byte>, L: Layout, dir: nat, k: nat, j: nat, name: seq<byte>)
    requires Dir(img, L, dir, k) && j < k
  {
    DirBlock(img, L, dir, k, j);
    Has(BlockEntries(img, L, Slot(img, L, dir, j)), name)
  }

  ghost predicate FoundIn(img: seq<byte>, L: Layout, dir: nat, k: nat, j: nat, name: seq<byte>, s: Spot)
    requires Dir(img, L, dir, k)
  {
    && j < k
    && var b := Slot(img, L, dir, j);
       && InRange(L, b) && BlockAt(L, b) + L.bs <= |img| && TiledBlock(img, L, b)
       && FoundAt(img, BlockAt(L, b), BlockAt(L, b) + L.bs, None, name, s)
  }

  ghost predicate RoomIn(img: seq<byte>, L: Layout, dir: nat, k: nat, j: nat, want: nat, s: Spot)
    requires Dir(img, L, dir, k)
  {
    && j < k
    && var b := Slot(img, L, dir, j);
       && InRange(L, b) && BlockAt(L, b) + L.bs <= |img| && TiledBlock(img, L, b)
       && RoomAt(img, BlockAt(L, b), BlockAt(L, b) + L.bs, None, want, s)
  }

  /** What the outer loop reports on a well-formed directory. */
  lemma {:induction false} ScanFromFacts(img: seq<byte>, L: Layout, dir: nat, k: nat, index: nat, name: seq<byte>,
      want: nat, acc: Scan)
    requires Dir(img, L, dir, k) && index <= k
    ensures var r := ScanFrom(img, L, InodeAt(img, L, dir).value, index, k, name, want, acc);
      && r.Ok?
      && ((forall j :: index <= j < k ==> !InBlock(img, L, dir, k, j, name)) ==> r.value.found == acc.found)
      && ((exists j :: index <= j < k && InBlock(img, L, dir, k, j, name)) ==>
            r.value.found.Some? && exists j :: index <= j < k && FoundIn(img, L, dir, k, j, name, r.value.found.value))
      && (acc.room.Some? ==> r.value.room == acc.room)
      && (acc.room.None? && r.value.room.Some? ==>
            exists j :: index <= j < k && RoomIn(img, L, dir, k, j, want, r.value.room.value))
    decreases k - index
  {
    hide Geometry, Dense, InodeAt, U16, Times, ScanBlock, BlockEntries, RoomAt, FoundAt, Has, TiledBlock;
    if index < k {
      DirBlock(img, L, dir, k, index);
      ScanBlockAt(img, L, dir, k, index, name, want, acc);
      var base := BlockAt(L, Slot(img, L, dir, index));
      var acc' := ScanBlock(img, base, base + L.bs, None, name, want, acc).value;
      ScanFromFacts(img, L, dir, k, index + 1, name, want, acc');
    }
  }

  lemma ScanBlockAt(img: seq<byte>, L: Layout, dir: nat, k: nat, j: nat, name: seq<byte>, want: nat, acc: Scan)
    requires Dir(img, L, dir, k) && j < k
    requires BlockAt(L, Slot(img, L, dir, j)) + L.bs <= |img|
    ensures var base := BlockAt(L, Slot(img, L, dir, j));
            var r := ScanBlock(img, base, base + L.bs, None, name, want, acc);
      && r.Ok?
      && (!InBlock(img, L, dir, k, j, name) ==> r.value.found == acc.found)
      && (InBlock(img, L, dir, k, j, name) ==>
            r.value.found.Some? && FoundIn(img, L, dir, k, j, name, r.value.found.value))
      && (acc.room.Some? ==> r.value.room == acc.room)
      && (acc.room.None? && r.value.room.Some? ==> RoomIn(img, L, dir, k, j, want, r.value.room.value))
  {
    hide Geometry, Dense, InodeAt, U16, U32, Times, ScanBlock, RoomAt, FoundAt, Has, Entries;
    DirBlock(img, L, dir, k, j);
    var base := BlockAt(L, Slot(img, L, dir, j));
    ScanBlockFacts(img, base, base + L.bs, None, name, want, acc);
  }

  lemma ScanDirectoryIs(img: seq<byte>, L: Layout, dir: nat, k: nat, name: seq<byte>, want: nat)
    requires Dir(img, L, dir, k)
    ensures ScanDirectory(img, L, dir, name, want)
      == ScanFrom(img, L, InodeAt(img, L, dir).value, 0, k, name, want, Scan(None, None))
  {
    hide Geometry, Dense, InodeAt, U16, U32, Times, ScanFrom;
    QuotOf(k, 0, L.bs);
  }

  /** The scan of a well-formed directory succeeds; it reports the name exactly when some
      block binds it, and a gap only where there is one. */
  lemma ScanDirectoryFacts(img: seq<byte>, L: Layout, dir: nat, k: nat, name: seq<byte>, want: nat)
    requires Dir(img, L, dir, k)
    ensures var r := ScanDirectory(img, L, dir, name, want);
      && r.Ok?
      && (r.value.found.None? <==> forall j :: 0 <= j < k ==> !InBlock(img, L, dir, k, j, name))
      && (r.value.found.Some? ==> exists j :: 0 <= j < k && FoundIn(img, L, dir, k, j, name, r.value.found.value))
      && (r.value.room.Some? ==> exists j :: 0 <= j < k && RoomIn(img, L, dir, k, j, want, r.value.room.value))
  {
    hide Geometry, Dense, InodeAt, U16, U32, Times, ScanFrom, ScanDirectory, Dir;
    ScanDirectoryIs(img, L, dir, k, name, want);
    ScanFromFacts(img, L, dir, k, 0, name, want, Scan(None, None));
  }

  // ----- frames -----

  /** `r` equals `img` outside block `b`. */
  ghost predicate OnlyBlock(img: seq<byte>, r: seq<byte>, L: Layout, b: nat) {
    |r| == |img| && forall p :: 0 <= p < |img| && !(BlockAt(L, b) <= p < BlockAt(L, b) + L.bs) ==> r[p] == img[p]
  }

  lemma OnlyBlockIsPut(img: seq<byte>, r: seq<byte>, L: Layout, b: nat)
    requires OnlyBlock(img, r, L, b) && BlockAt(L, b) + L.bs <= |img|
    ensures r == Put(img, BlockAt(L, b), r[BlockAt(L, b)..BlockAt(L, b) + L.bs])
  {
  }

  /** Rewriting one data block moves no metadata and no inode. */
  lemma OnlyBlockKeeps(img: seq<byte>, r: seq<byte>, L: Layout, b: nat)
    requires Geometry(img, L) && DataBlock(img, L, b) && OnlyBlock(img, r, L, b)
    ensures SamePointers(img, r, L) && Geometry(r, L)
    ensures forall c {:trigger BlockUsed(r, L, c)} :: InRange(L, c) ==> (BlockUsed(r, L, c) <==> BlockUsed(img, L, c))
    ensures forall i {:trigger InodeUsed(r, L, i)} :: IsInode(L, i) ==> (InodeUsed(r, L, i) <==> InodeUsed(img, L, i))
    ensures forall c: nat {:trigger DataBlock(r, L, c)} :: DataBlock(r, L, c) <==> DataBlock(img, L, c)
    ensures forall i: nat {:trigger InodeAt(r, L, i)} :: InodeAt(r, L, i) == InodeAt(img, L, i)
    ensures forall i :: IsInode(L, i) && InodeAt(img, L, i).Some? ==>
      SameBytes(img, r, InodeAt(img, L, i).value, L.inodeSize)
    ensures forall c :: InRange(L, c) && c != b ==> SameBytes(img, r, BlockAt(L, c), L.bs)
  {
    hide Geometry, DataBlock, BlockUsed, InodeUsed, InodeAt, Times, Put;
    DataBlockInside(img, L, b);
    var base := BlockAt(L, b);
    var x := r[base..base + L.bs];
    OnlyBlockIsPut(img, r, L, b);
    DataRangePlain(img, L, b, base, L.bs);
    PlainPutUsed(img, L, base, x);
    forall i | IsInode(L, i) && InodeAt(img, L, i).Some?
      ensures SameBytes(img, r, InodeAt(img, L, i).value, L.inodeSize)
    {
      InodeRangeApartFromData(img, L, i, InodeAt(img, L, i).value, L.inodeSize, b);
    }
    forall c | InRange(L, c) && c != b
      ensures SameBytes(img, r, BlockAt(L, c), L.bs)
    {
      BlocksApart(L, b, c);
      DataBlockInside(img, L, c);
    }
  }

  /** Same mode, size and slots. */
  ghost predicate SameHeader(img: seq<byte>, r: seq<byte>, L: Layout, ino: nat)
    requires Geometry(img, L) && Geometry(r, L) && IsInode(L, ino) && InodeAt(img, L, ino).Some? && |r| == |img|
  {
    var at := InodeAt(img, L, ino).value;
    && U16(r, at) == U16(img, at) && U32(r, at + 4) == U32(img, at + 4)
    && forall j :: 0 <= j < 15 ==> Slot(r, L, ino, j) == Slot(img, L, ino, j)
  }

  lemma SameInode(img: seq<byte>, r: seq<byte>, L: Layout, ino: nat)
    requires Geometry(img, L) && Geometry(r, L) && IsInode(L, ino) && InodeAt(img, L, ino).Some?
    requires InodeAt(r, L, ino) == InodeAt(img, L, ino) && SameBytes(img, r, InodeAt(img, L, ino).value, L.inodeSize)
    ensures SameHeader(img, r, L, ino)
  {
    hide Geometry, InodeAt;
    var at := InodeAt(img, L, ino).value;
    assert r[at] == img[at] && r[at + 1] == img[at + 1];
    SubRange(img, r, at, L.inodeSize, 4, 4);
    SameSlot(img, r, at + 4);
    forall j | 0 <= j < 15 ensures Slot(r, L, ino, j) == Slot(img, L, ino, j) {
      SubRange(img, r, at, L.inodeSize, SlotAt(0, j), 4);
      SameSlot(img, r, SlotAt(at, j));
    }
  }

  /** Everything the directory is made of is the same in `r`. */
  ghost predicate DirSame(img: seq<byte>, r: seq<byte>, L: Layout, dir: nat, k: nat)
    requires Dir(img, L, dir, k)
  {
    && Geometry(r, L) && SamePointers(img, r, L) && InodeAt(r, L, dir) == InodeAt(img, L, dir)
    && SameHeader(img, r, L, dir)
    && forall j :: 0 <= j < k ==>
         Linked(r, L, Slot(img, L, dir, j)) && SameBytes(img, r, BlockAt(L, Slot(img, L, dir, j)), L.bs)
  }

  lemma SameBlockTiling(img: seq<byte>, r: seq<byte>, L: Layout, b: nat)
    requires LayoutOf(|img|, L) && |r| == |img| && InRange(L, b) && TiledBlock(img, L, b)
    requires SameBytes(img, r, BlockAt(L, b), L.bs)
    ensures TiledBlock(r, L, b) && BlockEntries(r, L, b) == BlockEntries(img, L, b)
  {
    DataBlockInside(img, L, b);
    SameTiling(img, r, BlockAt(L, b), BlockAt(L, b) + L.bs);
  }

  lemma DirSameIsDir(img: seq<byte>, r: seq<byte>, L: Layout, dir: nat, k: nat)
    requires Dir(img, L, dir, k) && DirSame(img, r, L, dir, k)
    ensures Dir(r, L, dir, k)
    ensures forall j :: 0 <= j < 15 ==> Slot(r, L, dir, j) == Slot(img, L, dir, j)
    ensures forall j :: 0 <= j < k ==>
      BlockEntries(r, L, Slot(r, L, dir, j)) == BlockEntries(img, L, Slot(img, L, dir, j))
  {
    hide Geometry, InodeAt, U16, U32, Times, BlockEntries, TiledBlock, SameBytes, Slot, DataBlock, BlockUsed;
    forall j | 0 <= j < k
      ensures TiledBlock(r, L, Slot(r, L, dir, j))
      ensures BlockEntries(r, L, Slot(r, L, dir, j)) == BlockEntries(img, L, Slot(img, L, dir, j))
    {
      DirBlock(img, L, dir, k, j);
      SameBlockTiling(img, r, L, Slot(img, L, dir, j));
    }
  }

  lemma {:induction false} DirSameNames(img: seq<byte>, r: seq<byte>, L: Layout, dir: nat, k: nat, n: nat)
    requires Dir(img, L, dir, k) && Dir(r, L, dir, k) && DirSame(img, r, L, dir, k) && n <= k
    ensures Names(r, L, dir, k, n) == Names(img, L, dir, k, n)
  {
    hide Dir, DirSame, BlockEntries, Slot;
    DirSameIsDir(img, r, L, dir, k);
    if n > 0 { DirSameNames(img, r, L, dir, k, n - 1); }
  }

  /** The scan sees only the directory itself. */
  lemma {:induction false} ScanFromSame(img: seq<byte>, r: seq<byte>, L: Layout, dir: nat, k: nat, index: nat,
      name: seq<byte>, want: nat, acc: Scan)
    requires Dir(img, L, dir, k) && Dir(r, L, dir, k) && DirSame(img, r, L, dir, k) && index <= k
    ensures ScanFrom(r, L, InodeAt(img, L, dir).value, index, k, name, want, acc)
      == ScanFrom(img, L, InodeAt(img, L, dir).value, index, k, name, want, acc)
    decreases k - index
  {
    hide Dense, InodeAt, U16, U32, Times, ScanBlock, Tiled, Geometry, DataBlock, BlockUsed;
    if index < k {
      DirBlock(img, L, dir, k, index);
      DirSameIsDir(img, r, L, dir, k);
      assert Slot(r, L, dir, index) == Slot(img, L, dir, index);
      var base := BlockAt(L, Slot(img, L, dir, index));
      SameScan(img, r, base, base + L.bs, None, name, want, acc);
      var x := ScanBlock(img, base, base + L.bs, None, name, want, acc);
      if x.Ok? { ScanFromSame(img, r, L, dir, k, index + 1, name, want, x.value); }
    }
  }
}
