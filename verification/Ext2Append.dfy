/** What appending keeps: the file stays dense, free blocks stay clean, everything that
    belongs to somebody else stays, and cutting the file back undoes it. */
module Ext2Append {
  import opened Wrappers
  import opened Bytes
  import opened Ext2Layout
  import opened Ext2Alloc
  import opened Ext2Areas
  import opened Ext2File
  import opened Ext2Unwind

  ghost predicate Ready(img: seq<byte>, L: Layout, ino: nat, n: nat)
    ensures Ready(img, L, ino, n) ==> n <= DIRECT_BLOCK_COUNT
  {
    && Geometry(img, L) && IsInode(L, ino) && InodeAt(img, L, ino).Some?
    && Dense(img, L, ino, n) && FreeIsData(img, L)
  }

  ghost predicate Owns(img: seq<byte>, L: Layout, ino: nat, n: nat, b: nat)
    requires Geometry(img, L) && IsInode(L, ino) && n <= DIRECT_BLOCK_COUNT
  {
    exists j :: 0 <= j < n && Slot(img, L, ino, j) == b
  }

  /** A used data block that is not the file's. */
  ghost predicate Foreign(img: seq<byte>, L: Layout, ino: nat, n: nat, b: nat)
    requires Geometry(img, L) && IsInode(L, ino) && n <= DIRECT_BLOCK_COUNT
  {
    Linked(img, L, b) && !Owns(img, L, ino, n, b)
  }

  /** Nothing of anybody else changed: foreign blocks, other inode slots, the head and tail of
      the file's own slot, and the inode bitmap. */
  ghost predicate KeepsOthers(img: seq<byte>, r: seq<byte>, L: Layout, ino: nat, n: nat, m: nat)
    requires Ready(img, L, ino, n) && Ready(r, L, ino, m)
  {
    && (forall b :: Foreign(img, L, ino, n, b) ==> Foreign(r, L, ino, m, b) && SameBytes(img, r, BlockAt(L, b), L.bs))
    && (forall i :: IsInode(L, i) && i != ino && InodeAt(img, L, i).Some? ==>
          SameBytes(img, r, InodeAt(img, L, i).value, L.inodeSize))
    && SameBytes(img, r, InodeAt(img, L, ino).value, 40)
    && SameBytes(img, r, InodeAt(img, L, ino).value + 88, L.inodeSize - 88)
    && (forall i {:trigger InodeUsed(r, L, i)} :: IsInode(L, i) ==> (InodeUsed(r, L, i) <==> InodeUsed(img, L, i)))
  }

  /** `r` is `img` with the file grown from `n` to `m` blocks. */
  ghost predicate Grown(img: seq<byte>, r: seq<byte>, L: Layout, ino: nat, n: nat, m: nat)
    ensures Grown(img, r, L, ino, n, m) ==>
      && Ready(img, L, ino, n) && Ready(r, L, ino, m) && SamePointers(img, r, L)
      && InodeAt(r, L, ino) == InodeAt(img, L, ino)
  {
    && Ready(img, L, ino, n) && Ready(r, L, ino, m) && SamePointers(img, r, L)
    && InodeAt(r, L, ino) == InodeAt(img, L, ino)
    && KeepsOthers(img, r, L, ino, n, m)
    && (FreeIsZero(img, L) ==>
          && FreeIsZero(r, L)
          && FreeDown(r, L, InodeAt(img, L, ino).value, 0, m) == FreeDown(img, L, InodeAt(img, L, ino).value, 0, n))
  }

  lemma GrownTrans(a: seq<byte>, b: seq<byte>, c: seq<byte>, L: Layout, ino: nat, n: nat, m: nat, k: nat)
    requires Grown(a, b, L, ino, n, m) && Grown(b, c, L, ino, m, k)
    ensures Grown(a, c, L, ino, n, k)
  {
    hide Geometry, Dense, FreeIsData, FreeIsZero, FreeDown, Foreign, DataBlock, BlockUsed, InodeUsed;
    SamePointersTrans(a, b, c, L);
    SameAreas(a, b, L);
    assert KeepsOthers(a, c, L, ino, n, k) by {
      forall i | IsInode(L, i) && i != ino && InodeAt(a, L, i).Some?
        ensures SameBytes(a, c, InodeAt(a, L, i).value, L.inodeSize)
      {
        assert InodeAt(b, L, i) == InodeAt(a, L, i);
      }
    }
  }

  // ----- filling the last block -----

  lemma FillStep(img: seq<byte>, L: Layout, ino: nat, n: nat, off: nat, chunk: seq<byte>)
    requires Ready(img, L, ino, n) && 0 < n && off + |chunk| <= L.bs
    ensures var b := Slot(img, L, ino, n - 1);
      && BlockAt(L, b) + L.bs <= |img|
      && Grown(img, Put(img, BlockAt(L, b) + off, chunk), L, ino, n, n)
  {
    hide Geometry, Put, U16, U32, Bit, Times, FreeSlot, InodeAt, DataBlock, BlockUsed, InodeUsed;
    var at := InodeAt(img, L, ino).value;
    var b := Slot(img, L, ino, n - 1);
    assert Linked(img, L, b);
    DataBlockInside(img, L, b);
    var p := BlockAt(L, b) + off;
    var r := Put(img, p, chunk);
    DataRangePlain(img, L, b, p, |chunk|);
    PlainPutUsed(img, L, p, chunk);
    SlotsStay(img, r, L, ino, b, p, chunk);
    assert Dense(r, L, ino, n);
    assert FreeIsData(r, L);
    OthersAfterBlockWrite(img, L, ino, n, b, p, chunk);
    FreeSlotIgnoresContent(img, L, ino, n - 1, off, chunk);
    if FreeIsZero(img, L) { FreeZeroAfterBlockWrite(img, L, b, p, chunk); }
  }

  lemma SlotsStay(img: seq<byte>, r: seq<byte>, L: Layout, ino: nat, b: nat, p: nat, chunk: seq<byte>)
    requires Geometry(img, L) && Geometry(r, L) && IsInode(L, ino) && DataBlock(img, L, b)
    requires BlockAt(L, b) <= p && p + |chunk| <= BlockAt(L, b) + L.bs && p + |chunk| <= |img|
    requires r == Put(img, p, chunk) && InodeAt(r, L, ino) == InodeAt(img, L, ino)
    ensures forall j :: 0 <= j < 15 ==> Slot(r, L, ino, j) == Slot(img, L, ino, j)
  {
    hide Geometry, Put, U32, InodeAt, DataBlock, Times;
    InodeSlot(img, L, ino);
    var at := InodeAt(img, L, ino).value;
    forall j | 0 <= j < 15 ensures Slot(r, L, ino, j) == Slot(img, L, ino, j) {
      InodeRangeApartFromData(img, L, ino, SlotAt(at, j), 4, b);
      Read32Apart(img, p, chunk, SlotAt(at, j));
    }
  }

  lemma SameBytesAfterPut(img: seq<byte>, p: nat, x: seq<byte>, at: nat, n: nat)
    requires p + |x| <= |img| && at + n <= |img| && Apart(p, |x|, at, n)
    ensures SameBytes(img, Put(img, p, x), at, n)
  {
  }

  lemma OthersAfterBlockWrite(img: seq<byte>, L: Layout, ino: nat, n: nat, b: nat, p: nat, chunk: seq<byte>)
    requires Ready(img, L, ino, n) && DataBlock(img, L, b) && Owns(img, L, ino, n, b)
    requires BlockAt(L, b) <= p && p + |chunk| <= BlockAt(L, b) + L.bs && p + |chunk| <= |img|
    requires Ready(Put(img, p, chunk), L, ino, n) && InodeAt(Put(img, p, chunk), L, ino) == InodeAt(img, L, ino)
    ensures KeepsOthers(img, Put(img, p, chunk), L, ino, n, n)
  {
    hide Geometry, Put, U32, InodeAt, DataBlock, Times, BlockUsed, InodeUsed, SameBytes, Dense, FreeIsData;
    var r := Put(img, p, chunk);
    DataRangePlain(img, L, b, p, |chunk|);
    PlainPutUsed(img, L, p, chunk);
    SlotsStay(img, r, L, ino, b, p, chunk);
    forall c | Foreign(img, L, ino, n, c)
      ensures Foreign(r, L, ino, n, c) && SameBytes(img, r, BlockAt(L, c), L.bs)
    {
      DataBlockInside(img, L, c);
      BlocksApart(L, b, c);
      SameBytesAfterPut(img, p, chunk, BlockAt(L, c), L.bs);
      assert Linked(r, L, c);
    }
    forall i | IsInode(L, i) && InodeAt(img, L, i).Some?
      ensures SameBytes(img, r, InodeAt(img, L, i).value, L.inodeSize)
    {
      InodeRangeApartFromData(img, L, i, InodeAt(img, L, i).value, L.inodeSize, b);
      SameBytesAfterPut(img, p, chunk, InodeAt(img, L, i).value, L.inodeSize);
    }
    SubRange(img, r, InodeAt(img, L, ino).value, L.inodeSize, 0, 40);
    SubRange(img, r, InodeAt(img, L, ino).value, L.inodeSize, 88, L.inodeSize - 88);
  }

  lemma SubRange(img: seq<byte>, r: seq<byte>, at: nat, n: nat, from: nat, k: nat)
    requires SameBytes(img, r, at, n) && from + k <= n
    ensures SameBytes(img, r, at + from, k)
  {
  }

  lemma FreeZeroAfterBlockWrite(img: seq<byte>, L: Layout, b: nat, p: nat, chunk: seq<byte>)
    requires Geometry(img, L) && Linked(img, L, b) && FreeIsZero(img, L)
    requires BlockAt(L, b) <= p && p + |chunk| <= BlockAt(L, b) + L.bs && p + |chunk| <= |img|
    requires Geometry(Put(img, p, chunk), L)
    ensures FreeIsZero(Put(img, p, chunk), L)
  {
    hide Geometry, Put, DataBlock, Times, BlockUsed;
    var r := Put(img, p, chunk);
    DataRangePlain(img, L, b, p, |chunk|);
    PlainPutUsed(img, L, p, chunk);
    forall c | InRange(L, c) && !BlockUsed(r, L, c)
      ensures ZeroBlock(r, L, c)
    {
      DataBlockInside(img, L, c);
      BlocksApart(L, b, c);
      SameBytesAfterPut(img, p, chunk, BlockAt(L, c), L.bs);
    }
  }

  // ----- writing the head of the slot -----

  /** A write before `i_block` leaves the file's slots, and what is free and zero, alone. */
  lemma HeadPutReady(y: seq<byte>, L: Layout, ino: nat, n: nat, p: nat, x: seq<byte>)
    requires Ready(y, L, ino, n)
    requires var at := InodeAt(y, L, ino).value; at <= p && p + |x| <= at + 40
    ensures p + |x| <= |y|
    ensures var z := Put(y, p, x);
      && Ready(z, L, ino, n) && SamePointers(y, z, L) && InodeAt(z, L, ino) == InodeAt(y, L, ino)
      && (forall j :: 0 <= j < 15 ==> Slot(z, L, ino, j) == Slot(y, L, ino, j))
      && (FreeIsZero(y, L) ==> FreeIsZero(z, L))
  {
    hide Geometry, InodeAt, Put, DataBlock, U16, U32, Times, BlockUsed, InodeUsed;
    var at := InodeAt(y, L, ino).value;
    InodeSlot(y, L, ino);
    var z := Put(y, p, x);
    InodeRangePlain(y, L, ino, p, |x|);
    PlainPutUsed(y, L, p, x);
    forall j | 0 <= j < 15 ensures Slot(z, L, ino, j) == Slot(y, L, ino, j) { Read32Apart(y, p, x, SlotAt(at, j)); }
    forall b | InRange(L, b) && DataBlock(y, L, b) ensures SameBytes(y, z, BlockAt(L, b), L.bs) {
      DataBlockInside(y, L, b);
      InodeRangeApartFromData(y, L, ino, p, |x|, b);
      SameBytesAfterPut(y, p, x, BlockAt(L, b), L.bs);
    }
  }

  // ----- linking a fresh block -----

  /** Block `b` can be taken and linked into slot `index` of inode `ino`. */
  ghost predicate CanLink(img: seq<byte>, L: Layout, ino: nat, index: nat, b: nat) {
    && Geometry(img, L) && IsInode(L, ino) && InodeAt(img, L, ino).Some? && index < DIRECT_BLOCK_COUNT
    && InRange(L, b) && Takable(img, SiteOfBlock(img, L, b))
  }

  ghost function LinkedImage(img: seq<byte>, L: Layout, ino: nat, index: nat, b: nat, chunk: seq<byte>): (r: seq<byte>)
    requires CanLink(img, L, ino, index, b) && |chunk| <= L.bs
    ensures |r| == |img|
  {
    DataBlockInside(img, L, b);
    Put(Put(Take(img, SiteOfBlock(img, L, b)), SlotAt(InodeAt(img, L, ino).value, index), Le32(b)), BlockAt(L, b),
          chunk)
  }

  /** Which blocks and inodes are used after linking `b`, and where the pointers are. */
  lemma LinkUsed(img: seq<byte>, L: Layout, ino: nat, index: nat, b: nat, chunk: seq<byte>)
    requires Geometry(img, L) && IsInode(L, ino) && InodeAt(img, L, ino).Some? && index < DIRECT_BLOCK_COUNT
    requires InRange(L, b) && DataBlock(img, L, b) && Takable(img, SiteOfBlock(img, L, b)) && |chunk| <= L.bs
    ensures var r := LinkedImage(img, L, ino, index, b, chunk);
      && SamePointers(img, r, L) && Geometry(r, L)
      && (forall c {:trigger BlockUsed(r, L, c)} :: InRange(L, c) ==>
            (BlockUsed(r, L, c) <==> c == b || BlockUsed(img, L, c)))
      && (forall i {:trigger InodeUsed(r, L, i)} :: IsInode(L, i) ==> (InodeUsed(r, L, i) <==> InodeUsed(img, L, i)))
      && (forall c: nat {:trigger DataBlock(r, L, c)} :: DataBlock(r, L, c) <==> DataBlock(img, L, c))
      && (forall i: nat {:trigger InodeAt(r, L, i)} :: InodeAt(r, L, i) == InodeAt(img, L, i))
  {
    hide Geometry, Put, Take, U32, U16, InodeAt, DataBlock, Times, SiteOfBlock, BitOn, GroupOfBlock, IndexOfBlock,
      GroupOfInode, IndexOfInode;
    var at := InodeAt(img, L, ino).value;
    var slot := SlotAt(at, index);
    BlockPosition(img, L, b);
    var g, i := GroupOfBlock(L, b), IndexOfBlock(L, b);
    TakeBit(img, L, BlockKind, g, i);
    var taken := Take(img, SiteOfBlock(img, L, b));
    SameAreas(img, taken, L);
    InodeRangePlain(taken, L, ino, slot, 4);
    PlainPutUsed(taken, L, slot, Le32(b));
    var linked := Put(taken, slot, Le32(b));
    DataBlockInside(img, L, b);
    DataRangePlain(linked, L, b, BlockAt(L, b), |chunk|);
    PlainPutUsed(linked, L, BlockAt(L, b), chunk);
    var r := Put(linked, BlockAt(L, b), chunk);
    SamePointersTrans(img, taken, linked, L);
    SamePointersTrans(img, linked, r, L);
    forall c {:trigger BlockUsed(r, L, c)} | InRange(L, c)
      ensures BlockUsed(r, L, c) <==> c == b || BlockUsed(img, L, c)
    {
      BlockPosition(img, L, c);
      if c != b { BlockPositionsDiffer(img, L, b, c); }
      assert BlockUsed(r, L, c) <==> BlockUsed(linked, L, c);
      assert BlockUsed(linked, L, c) <==> BlockUsed(taken, L, c);
    }
    forall j {:trigger InodeUsed(r, L, j)} | IsInode(L, j)
      ensures InodeUsed(r, L, j) <==> InodeUsed(img, L, j)
    {
      InodePosition(img, L, j);
      assert InodeUsed(r, L, j) <==> InodeUsed(linked, L, j);
      assert InodeUsed(linked, L, j) <==> InodeUsed(taken, L, j);
    }
  }

  /** Every range away from the bitmaps, the slot and the new block keeps its bytes. */
  lemma LinkBytes(img: seq<byte>, L: Layout, ino: nat, index: nat, b: nat, chunk: seq<byte>, q: nat, k: nat)
    requires Geometry(img, L) && IsInode(L, ino) && InodeAt(img, L, ino).Some? && index < DIRECT_BLOCK_COUNT
    requires InRange(L, b) && Takable(img, SiteOfBlock(img, L, b)) && |chunk| <= L.bs
    requires q + k <= |img| && Plain(img, L, q, k)
    requires Apart(SlotAt(InodeAt(img, L, ino).value, index), 4, q, k) && Apart(BlockAt(L, b), L.bs, q, k)
    ensures SameBytes(img, LinkedImage(img, L, ino, index, b, chunk), q, k)
  {
    hide Geometry, Put, Take, U32, U16, InodeAt, DataBlock, Times, SiteOfBlock, BitOn, GroupOfBlock, IndexOfBlock,
      Plain;
    BlockPosition(img, L, b);
    DataBlockInside(img, L, b);
    var g, i := GroupOfBlock(L, b), IndexOfBlock(L, b);
    TakeBit(img, L, BlockKind, g, i);
    PlainClear(img, L, BlockKind, g, i, q, k);
    var s := SiteOfBlock(img, L, b);
    var taken := Take(img, s);
    Unwritten(img, taken, s, q, k);
    SameSlice(img, taken, q, k);
    var slot := SlotAt(InodeAt(img, L, ino).value, index);
    SameBytesAfterPut(taken, slot, Le32(b), q, k);
    SameBytesAfterPut(Put(taken, slot, Le32(b)), BlockAt(L, b), chunk, q, k);
  }

  lemma LinkSlots(img: seq<byte>, L: Layout, ino: nat, index: nat, b: nat, chunk: seq<byte>)
    requires Geometry(img, L) && IsInode(L, ino) && InodeAt(img, L, ino).Some? && index < DIRECT_BLOCK_COUNT
    requires InRange(L, b) && DataBlock(img, L, b) && Takable(img, SiteOfBlock(img, L, b)) && |chunk| <= L.bs
    requires Geometry(LinkedImage(img, L, ino, index, b, chunk), L)
    requires InodeAt(LinkedImage(img, L, ino, index, b, chunk), L, ino) == InodeAt(img, L, ino)
    ensures var r := LinkedImage(img, L, ino, index, b, chunk);
      && Slot(r, L, ino, index) == b
      && forall j :: 0 <= j < 15 && j != index ==> Slot(r, L, ino, j) == Slot(img, L, ino, j)
  {
    hide Geometry, Put, Take, U32, U16, InodeAt, DataBlock, Times, SiteOfBlock, BitOn;
    var r := LinkedImage(img, L, ino, index, b, chunk);
    var at := InodeAt(img, L, ino).value;
    var slot := SlotAt(at, index);
    var taken := Take(img, SiteOfBlock(img, L, b));
    DataBlockInside(img, L, b);
    InodeRangeApartFromData(img, L, ino, slot, 4, b);
    Put32Read(taken, slot, b);
    Read32Apart(Put(taken, slot, Le32(b)), BlockAt(L, b), chunk, slot);
    forall j | 0 <= j < 15 && j != index
      ensures Slot(r, L, ino, j) == Slot(img, L, ino, j)
    {
      var q := SlotAt(at, j);
      InodeRangePlain(img, L, ino, q, 4);
      InodeRangeApartFromData(img, L, ino, q, 4, b);
      LinkBytes(img, L, ino, index, b, chunk, q, 4);
      SameSlot(img, r, q);
    }
  }

  lemma LinkStep(img: seq<byte>, L: Layout, ino: nat, n: nat, b: nat, chunk: seq<byte>)
    requires Ready(img, L, ino, n) && n < DIRECT_BLOCK_COUNT && InRange(L, b) && |chunk| <= L.bs
    requires Takable(img, SiteOfBlock(img, L, b)) && !BlockUsed(img, L, b)
    ensures Grown(img, LinkedImage(img, L, ino, n, b, chunk), L, ino, n, n + 1)
  {
    hide Geometry, Put, Take, U32, U16, InodeAt, DataBlock, Times, SiteOfBlock, BitOn, Plain, BlockUsed, InodeUsed,
      LinkedImage, FreeSlot;
    var r := LinkedImage(img, L, ino, n, b, chunk);
    var at := InodeAt(img, L, ino).value;
    assert DataBlock(img, L, b);
    LinkUsed(img, L, ino, n, b, chunk);
    LinkSlots(img, L, ino, n, b, chunk);
    assert InodeAt(r, L, ino) == InodeAt(img, L, ino);
    forall j | 0 <= j < n
      ensures Slot(img, L, ino, j) != b && Linked(r, L, Slot(r, L, ino, j))
    {
      assert Linked(img, L, Slot(img, L, ino, j));
      assert BlockUsed(r, L, Slot(img, L, ino, j));
    }
    assert Linked(r, L, b) by { assert BlockUsed(r, L, b); }
    assert Dense(r, L, ino, n + 1);
    assert FreeIsData(r, L);
    LinkOthers(img, L, ino, n, b, chunk);
    if FreeIsZero(img, L) {
      LinkFreeZero(img, L, ino, n, b, chunk);
      DataBlockInside(img, L, b);
      LinkUndone(img, L, ino, n, b, chunk);
    }
  }

  lemma LinkUndone(img: seq<byte>, L: Layout, ino: nat, n: nat, b: nat, chunk: seq<byte>)
    requires Ready(img, L, ino, n) && n < DIRECT_BLOCK_COUNT && InRange(L, b) && |chunk| <= L.bs
    requires Takable(img, SiteOfBlock(img, L, b)) && !BlockUsed(img, L, b) && FreeIsZero(img, L)
    ensures FreeDown(LinkedImage(img, L, ino, n, b, chunk), L, InodeAt(img, L, ino).value, 0, n + 1)
         == FreeDown(img, L, InodeAt(img, L, ino).value, 0, n)
  {
    hide Geometry, Put, Take, U32, U16, InodeAt, DataBlock, Times, SiteOfBlock, BitOn, Plain, BlockUsed, InodeUsed,
      FreeSlot;
    DataBlockInside(img, L, b);
    assert Slot(img, L, ino, n) == 0;
    FreeSlotUndoesLink(img, L, ino, n, b, chunk);
  }

  lemma LinkFreeZero(img: seq<byte>, L: Layout, ino: nat, n: nat, b: nat, chunk: seq<byte>)
    requires Ready(img, L, ino, n) && n < DIRECT_BLOCK_COUNT && InRange(L, b) && |chunk| <= L.bs
    requires Takable(img, SiteOfBlock(img, L, b)) && !BlockUsed(img, L, b) && FreeIsZero(img, L)
    requires Geometry(LinkedImage(img, L, ino, n, b, chunk), L)
    ensures FreeIsZero(LinkedImage(img, L, ino, n, b, chunk), L)
  {
    hide Geometry, Put, Take, U32, U16, InodeAt, DataBlock, Times, SiteOfBlock, BitOn, Plain, BlockUsed, InodeUsed,
      LinkedImage, Dense;
    var r := LinkedImage(img, L, ino, n, b, chunk);
    assert DataBlock(img, L, b);
    LinkUsed(img, L, ino, n, b, chunk);
    var slot := SlotAt(InodeAt(img, L, ino).value, n);
    forall c | InRange(L, c) && !BlockUsed(r, L, c)
      ensures ZeroBlock(r, L, c)
    {
      assert c != b && !BlockUsed(img, L, c) && DataBlock(img, L, c) && ZeroBlock(img, L, c);
      DataBlockInside(img, L, c);
      BlocksApart(L, b, c);
      DataRangePlain(img, L, c, BlockAt(L, c), L.bs);
      InodeRangeApartFromData(img, L, ino, slot, 4, c);
      LinkBytes(img, L, ino, n, b, chunk, BlockAt(L, c), L.bs);
    }
  }

  lemma LinkOthers(img: seq<byte>, L: Layout, ino: nat, n: nat, b: nat, chunk: seq<byte>)
    requires Ready(img, L, ino, n) && n < DIRECT_BLOCK_COUNT && InRange(L, b) && |chunk| <= L.bs
    requires Takable(img, SiteOfBlock(img, L, b)) && !BlockUsed(img, L, b)
    requires Ready(LinkedImage(img, L, ino, n, b, chunk), L, ino, n + 1)
    ensures KeepsOthers(img, LinkedImage(img, L, ino, n, b, chunk), L, ino, n, n + 1)
  {
    hide Geometry, Put, Take, U32, U16, InodeAt, DataBlock, Times, SiteOfBlock, BitOn, Plain, BlockUsed, InodeUsed,
      LinkedImage, Dense, SameBytes;
    var r := LinkedImage(img, L, ino, n, b, chunk);
    assert DataBlock(img, L, b);
    LinkUsed(img, L, ino, n, b, chunk);
    LinkSlots(img, L, ino, n, b, chunk);
    var at := InodeAt(img, L, ino).value;
    var slot := SlotAt(at, n);
    forall c | Foreign(img, L, ino, n, c)
      ensures Foreign(r, L, ino, n + 1, c) && SameBytes(img, r, BlockAt(L, c), L.bs)
    {
      assert Linked(img, L, c) && c != b;
      DataBlockInside(img, L, c);
      BlocksApart(L, b, c);
      DataRangePlain(img, L, c, BlockAt(L, c), L.bs);
      InodeRangeApartFromData(img, L, ino, slot, 4, c);
      LinkBytes(img, L, ino, n, b, chunk, BlockAt(L, c), L.bs);
      assert Linked(r, L, c) by { assert BlockUsed(r, L, c); }
    }
    forall i | IsInode(L, i) && i != ino && InodeAt(img, L, i).Some?
      ensures SameBytes(img, r, InodeAt(img, L, i).value, L.inodeSize)
    {
      InodeRangeApartFromData(img, L, i, InodeAt(img, L, i).value, L.inodeSize, b);
      InodeRangePlain(img, L, i, InodeAt(img, L, i).value, L.inodeSize);
      InodeSlotsApart(img, L, i, ino);
      LinkBytes(img, L, ino, n, b, chunk, InodeAt(img, L, i).value, L.inodeSize);
    }
    InodeRangeApartFromData(img, L, ino, at, 40, b);
    InodeRangePlain(img, L, ino, at, 40);
    LinkBytes(img, L, ino, n, b, chunk, at, 40);
    InodeRangeApartFromData(img, L, ino, at + 88, L.inodeSize - 88, b);
    InodeRangePlain(img, L, ino, at + 88, L.inodeSize - 88);
    LinkBytes(img, L, ino, n, b, chunk, at + 88, L.inodeSize - 88);
  }

  // ----- the loop -----

  lemma CeilStep(size: nat, unit: nat, take: nat)
    requires unit > 0 && 0 < take <= unit - Rem(size, unit)
    ensures Rem(size, unit) == 0 ==> CeilQuot(size, unit) == Quot(size, unit)
    ensures Rem(size, unit) != 0 ==> CeilQuot(size, unit) == Quot(size, unit) + 1
    ensures CeilQuot(size + take, unit) == Quot(size, unit) + 1
  {
    hide Quot, Rem;
    var q, r := Quot(size, unit), Rem(size, unit);
    QuotRem(size, unit);
    assert Times(q + 1, unit) == Times(q, unit) + unit;
    if r == 0 { QuotOf(q, unit - 1, unit); } else { QuotOf(q + 1, r - 1, unit); }
    QuotOf(q + 1, r + take - 1, unit);
  }

  /** The append loop grows the file by exactly the blocks the new size needs. */
  lemma {:induction false} AppendLoopGrows(img: seq<byte>, L: Layout, ino: nat, size: nat, data: seq<byte>)
    requires LayoutOf(|img|, L) && Ready(img, L, ino, CeilQuot(size, L.bs))
    requires AppendLoop(img, L, InodeAt(img, L, ino).value, size, data).0.Ok?
    ensures Grown(img, AppendLoop(img, L, InodeAt(img, L, ino).value, size, data).1, L, ino, CeilQuot(size, L.bs),
          CeilQuot(size + |data|, L.bs))
    decreases |data|
  {
    hide Geometry, Put, Take, U32, U16, InodeAt, DataBlock, Times, SiteOfBlock, BitOn, Plain, LinkedImage, FreeSlot,
      FreeDown, Dense, Grown, Quot, Rem, CeilQuot;
    var n := CeilQuot(size, L.bs);
    if data == [] {
      GrownRefl(img, L, ino, n);
    } else {
      var at := InodeAt(img, L, ino).value;
      QuotRem(size, L.bs);
      var off := Rem(size, L.bs);
      var take := if L.bs - off < |data| then L.bs - off else |data|;
      CeilStep(size, L.bs, take);
      var img2 := StepImage(img, L, ino, size, data[..take]);
      AppendLoopGrows(img2, L, ino, size + take, data[take..]);
      GrownTrans(img, img2, AppendLoop(img2, L, at, size + take, data[take..]).1, L, ino, n,
        CeilQuot(size + take, L.bs), CeilQuot(size + |data|, L.bs));
    }
  }

  lemma GrownRefl(img: seq<byte>, L: Layout, ino: nat, n: nat)
    requires Ready(img, L, ino, n)
    ensures Grown(img, img, L, ino, n, n)
  {
    hide Geometry, Dense, FreeIsData, FreeIsZero, BlockUsed;
    forall b | Foreign(img, L, ino, n, b) ensures SameBytes(img, img, BlockAt(L, b), L.bs) {
      DataBlockInside(img, L, b);
    }
  }

  lemma TakableIsFree(img: seq<byte>, L: Layout, b: nat)
    requires Geometry(img, L) && InRange(L, b) && Takable(img, SiteOfBlock(img, L, b))
    ensures !BlockUsed(img, L, b)
  {
    BlockPosition(img, L, b);
  }

  /** One turn of the loop, as the image it leaves. */
  lemma StepImage(img: seq<byte>, L: Layout, ino: nat, size: nat, chunk: seq<byte>) returns (img2: seq<byte>)
    requires LayoutOf(|img|, L) && Ready(img, L, ino, CeilQuot(size, L.bs)) && 0 < |chunk| <= L.bs - Rem(size, L.bs)
    requires Quot(size, L.bs) < DIRECT_BLOCK_COUNT && Target(img, L, InodeAt(img, L, ino).value, size).0.Ok?
    ensures var (b, img1) := Target(img, L, InodeAt(img, L, ino).value, size);
      && BlockAt(L, b.value) + L.bs <= |img|
      && img2 == Put(img1, BlockAt(L, b.value) + Rem(size, L.bs), chunk)
    ensures Grown(img, img2, L, ino, CeilQuot(size, L.bs), CeilQuot(size + |chunk|, L.bs))
  {
    hide Geometry, Put, Take, U16, InodeAt, DataBlock, Times, SiteOfBlock, BitOn, Plain, FreeSlot, FreeDown, Dense,
      Grown, Quot, Rem, CeilQuot, GroupOfBlock, IndexOfBlock;
    var at := InodeAt(img, L, ino).value;
    var n := CeilQuot(size, L.bs);
    CeilStep(size, L.bs, |chunk|);
    var (b, img1) := Target(img, L, at, size);
    if Rem(size, L.bs) != 0 {
      FillStep(img, L, ino, n, Rem(size, L.bs), chunk);
      img2 := Put(img1, BlockAt(L, b.value) + Rem(size, L.bs), chunk);
    } else {
      AllocBlockTakes(img, L, 0);
      DataBlockInside(img, L, b.value);
      img2 := Put(img1, BlockAt(L, b.value) + Rem(size, L.bs), chunk);
      TakableIsFree(img, L, b.value);
      LinkStep(img, L, ino, n, b.value, chunk);
    }
  }
}
