/** Cutting a file back to nothing undoes, byte for byte, everything appending did to it. */
module Ext2Unwind {
  import opened Wrappers
  import opened Bytes
  import opened Ext2Layout
  import opened Ext2Alloc
  import opened Ext2Areas
  import opened Ext2File

  ghost predicate ZeroBlock(img: seq<byte>, L: Layout, b: nat)
    requires LayoutOf(|img|, L) && InRange(L, b)
  {
    DataBlockInside(img, L, b);
    img[BlockAt(L, b)..BlockAt(L, b) + L.bs] == Zeros(L.bs)
  }

  /** Free blocks hold no metadata. */
  ghost predicate FreeIsData(img: seq<byte>, L: Layout)
    requires Geometry(img, L)
  {
    forall b :: InRange(L, b) && !BlockUsed(img, L, b) ==> DataBlock(img, L, b)
  }

  /** Free blocks hold zeros. */
  ghost predicate FreeIsZero(img: seq<byte>, L: Layout)
    requires Geometry(img, L)
  {
    forall b :: InRange(L, b) && !BlockUsed(img, L, b) ==> ZeroBlock(img, L, b)
  }

  /** The number in slot `j` of inode `ino`. */
  ghost function Slot(img: seq<byte>, L: Layout, ino: nat, j: nat): nat
    requires Geometry(img, L) && IsInode(L, ino) && j < 15
  {
    InodeSlot(img, L, ino);
    U32(img, SlotAt(InodeAt(img, L, ino).value, j))
  }

  ghost predicate Linked(img: seq<byte>, L: Layout, b: nat)
    requires Geometry(img, L)
  {
    InRange(L, b) && DataBlock(img, L, b) && BlockUsed(img, L, b)
  }

  /** Inode `ino` has exactly its first `n` direct slots linked, each to a block of its own. */
  ghost predicate Dense(img: seq<byte>, L: Layout, ino: nat, n: nat)
    requires Geometry(img, L) && IsInode(L, ino)
    ensures Dense(img, L, ino, n) ==> n <= DIRECT_BLOCK_COUNT
  {
    && n <= DIRECT_BLOCK_COUNT
    && (forall j :: 0 <= j < n ==> Linked(img, L, Slot(img, L, ino, j)))
    && (forall i, j :: 0 <= i < j < n ==> Slot(img, L, ino, i) != Slot(img, L, ino, j))
    && (forall j :: n <= j < DIRECT_BLOCK_COUNT ==> Slot(img, L, ino, j) == 0)
  }

  // ----- equal ranges -----

  ghost predicate SameBytes(img: seq<byte>, r: seq<byte>, at: nat, n: nat) {
    |img| == |r| && at + n <= |img| && forall p :: at <= p < at + n ==> img[p] == r[p]
  }

  lemma SameSlice(img: seq<byte>, r: seq<byte>, at: nat, n: nat)
    requires |r| == |img| && at + n <= |img| && r[at..at + n] == img[at..at + n]
    ensures SameBytes(img, r, at, n)
  {
    forall p | at <= p < at + n ensures img[p] == r[p] {
      assert img[at..at + n][p - at] == r[at..at + n][p - at];
    }
  }

  lemma SameSlot(img: seq<byte>, r: seq<byte>, at: nat)
    requires SameBytes(img, r, at, 4)
    ensures U32(r, at) == U32(img, at)
  {
  }

  // ----- places -----

  /** A range inside the slot of an inode is apart from every area but the inode table. */
  lemma InodeRangeApart(img: seq<byte>, L: Layout, ino: nat, at: nat, n: nat, m: Meta)
    requires Geometry(img, L) && IsInode(L, ino) && InodeAt(img, L, ino).Some?
    requires InodeAt(img, L, ino).value <= at && at + n <= InodeAt(img, L, ino).value + L.inodeSize
    requires ValidMeta(L, m) && !m.Inodes?
    ensures ApartFrom(img, L, m, at, n)
  {
    InodeSlot(img, L, ino);
    InsideApart(img, L, Inodes(GroupOfInode(L, ino)), m, at, n);
  }

  lemma InodeRangeApartFromData(img: seq<byte>, L: Layout, ino: nat, at: nat, n: nat, b: nat)
    requires Geometry(img, L) && IsInode(L, ino) && InodeAt(img, L, ino).Some? && DataBlock(img, L, b)
    requires InodeAt(img, L, ino).value <= at && at + n <= InodeAt(img, L, ino).value + L.inodeSize
    ensures Apart(at, n, BlockAt(L, b), L.bs)
  {
    InodeSlot(img, L, ino);
    assert ValidMeta(L, Inodes(GroupOfInode(L, ino)));
  }

  /** A range apart from the superblock, the group table and both bitmaps of every group. */
  ghost predicate Plain(img: seq<byte>, L: Layout, at: nat, n: nat)
    requires LayoutOf(|img|, L)
  {
    forall m {:trigger ValidMeta(L, m)} :: ValidMeta(L, m) && !m.Inodes? ==> ApartFrom(img, L, m, at, n)
  }

  lemma InodeRangePlain(img: seq<byte>, L: Layout, ino: nat, at: nat, n: nat)
    requires Geometry(img, L) && IsInode(L, ino) && InodeAt(img, L, ino).Some?
    requires InodeAt(img, L, ino).value <= at && at + n <= InodeAt(img, L, ino).value + L.inodeSize
    ensures Plain(img, L, at, n)
  {
    forall m {:trigger ValidMeta(L, m)} | ValidMeta(L, m) && !m.Inodes?
      ensures ApartFrom(img, L, m, at, n)
    {
      InodeRangeApart(img, L, ino, at, n, m);
    }
  }

  lemma DataRangePlain(img: seq<byte>, L: Layout, b: nat, at: nat, n: nat)
    requires Geometry(img, L) && DataBlock(img, L, b) && BlockAt(L, b) <= at && at + n <= BlockAt(L, b) + L.bs
    ensures Plain(img, L, at, n)
  {
  }

  lemma PlainClear(img: seq<byte>, L: Layout, k: Kind, g: nat, i: nat, at: nat, n: nat)
    requires Geometry(img, L) && Position(L, g, i) && Plain(img, L, at, n)
    ensures ClearOf(SiteAt(img, L, k, g, i), at, n)
  {
    assert ValidMeta(L, Super) && ValidMeta(L, Table) && ValidMeta(L, MapOf(k, g));
    SiteClear(img, L, k, g, i, at, n);
  }

  /** A plain write changes no pointer and no bit. */
  lemma PlainPut(img: seq<byte>, L: Layout, at: nat, x: seq<byte>)
    requires Geometry(img, L) && at + |x| <= |img| && Plain(img, L, at, |x|)
    ensures var r := Put(img, at, x);
      && SamePointers(img, r, L) && Geometry(r, L)
      && forall k: Kind, h: nat, j: nat {:trigger BitOn(r, L, k, h, j)} :: Position(L, h, j) ==>
           (BitOn(r, L, k, h, j) <==> BitOn(img, L, k, h, j))
  {
    hide Bit, U16, U32, Geometry, SiteAt;
    var r := Put(img, at, x);
    assert ValidMeta(L, Table);
    PutKeepsPointers(img, L, at, x);
    SameAreas(img, r, L);
    forall k: Kind, h: nat, j: nat {:trigger BitOn(r, L, k, h, j)} | Position(L, h, j)
      ensures BitOn(r, L, k, h, j) <==> BitOn(img, L, k, h, j)
    {
      SiteStays(img, r, L, k, h, j);
      SitePlaces(img, L, k, h, j);
      PlainClear(img, L, k, h, j, at, |x|);
    }
  }

  lemma PlainPutUsed(img: seq<byte>, L: Layout, at: nat, x: seq<byte>)
    requires Geometry(img, L) && at + |x| <= |img| && Plain(img, L, at, |x|)
    ensures var r := Put(img, at, x);
      && SamePointers(img, r, L) && Geometry(r, L)
      && (forall b {:trigger BlockUsed(r, L, b)} :: InRange(L, b) ==> (BlockUsed(r, L, b) <==> BlockUsed(img, L, b)))
      && (forall ino {:trigger InodeUsed(r, L, ino)} :: IsInode(L, ino) ==>
            (InodeUsed(r, L, ino) <==> InodeUsed(img, L, ino)))
      && (forall b: nat {:trigger DataBlock(r, L, b)} :: DataBlock(r, L, b) <==> DataBlock(img, L, b))
      && (forall ino: nat {:trigger InodeAt(r, L, ino)} :: InodeAt(r, L, ino) == InodeAt(img, L, ino))
  {
    hide Put, Geometry, BitOn, Plain;
    PlainPut(img, L, at, x);
    var r := Put(img, at, x);
    SameAreas(img, r, L);
    forall b {:trigger BlockUsed(r, L, b)} | InRange(L, b) ensures BlockUsed(r, L, b) <==> BlockUsed(img, L, b) {
      BlockPosition(img, L, b);
    }
    forall ino {:trigger InodeUsed(r, L, ino)} | IsInode(L, ino)
      ensures InodeUsed(r, L, ino) <==> InodeUsed(img, L, ino)
    {
      InodePosition(img, L, ino);
    }
  }

  // ----- one block -----

  /** A number written into an empty slot and bytes written over zeros: the number reads back,
      wiping the bytes gives the linked image and clearing the slot the first one. */
  lemma LinkUnwinds(taken: seq<byte>, slot: nat, base: nat, bs: nat, b: nat, chunk: seq<byte>)
    requires slot + 4 <= |taken| && base + bs <= |taken| && |chunk| <= bs && b < 0x1_0000_0000
    requires slot + 4 <= base || base + bs <= slot
    requires taken[base..base + bs] == Zeros(bs) && U32(taken, slot) == 0
    ensures var linked := Put(taken, slot, Le32(b));
      var filled := Put(linked, base, chunk);
      && U32(filled, slot) == b && Put(filled, base, Zeros(bs)) == linked && Put(linked, slot, Le32(0)) == taken
  {
    hide Put;
    var linked := Put(taken, slot, Le32(b));
    Put32Read(taken, slot, b);
    Read32Apart(linked, base, chunk, slot);
    PutCovers(linked, base, chunk, base, Zeros(bs));
    PutCommute(taken, slot, Le32(b), base, Zeros(bs));
    PutSame(taken, base, Zeros(bs));
    PutCovers(taken, slot, Le32(b), slot, Le32(0));
    Le32Of(taken, slot);
    PutSame(taken, slot, Le32(0));
  }

  /** Taking a zeroed free block, linking it and filling it is undone by one `FreeSlot`. */
  lemma FreeSlotUndoesLink(img: seq<byte>, L: Layout, ino: nat, index: nat, b: nat, chunk: seq<byte>)
    requires Geometry(img, L) && IsInode(L, ino) && InodeAt(img, L, ino).Some? && index < DIRECT_BLOCK_COUNT
    requires InRange(L, b) && DataBlock(img, L, b) && ZeroBlock(img, L, b)
    requires Takable(img, SiteOfBlock(img, L, b)) && |chunk| <= L.bs
    requires U32(img, SlotAt(InodeAt(img, L, ino).value, index)) == 0
    requires BlockAt(L, b) + L.bs <= |img|
    ensures var slot := SlotAt(InodeAt(img, L, ino).value, index);
      FreeSlot(Put(Put(Take(img, SiteOfBlock(img, L, b)), slot, Le32(b)), BlockAt(L, b), chunk), L,
            InodeAt(img, L, ino).value, index)
      == (Ok(()), img)
  {
    hide Geometry, Put, Take, Give, Written, U16, Bit, SetBit, SiteOfBlock, GroupOfBlock, IndexOfBlock, InodeAt,
      DataBlock, Times, Takable;
    var at := InodeAt(img, L, ino).value;
    var slot, base := SlotAt(at, index), BlockAt(L, b);
    var g, i := GroupOfBlock(L, b), IndexOfBlock(L, b);
    BlockPosition(img, L, b);
    var s := SiteOfBlock(img, L, b);
    TakeBit(img, L, BlockKind, g, i);
    var taken := Take(img, s);
    var linked := Put(taken, slot, Le32(b));
    var filled := Put(linked, base, chunk);

    InodeRangePlain(img, L, ino, slot, 4);
    DataRangePlain(img, L, b, base, L.bs);
    PlainClear(img, L, BlockKind, g, i, slot, 4);
    PlainClear(img, L, BlockKind, g, i, base, L.bs);
    InodeRangeApartFromData(img, L, ino, slot, 4, b);
    DataNotZero(img, L, b);

    assert taken[base..base + L.bs] == Zeros(L.bs) by { Unwritten(img, taken, s, base, L.bs); }
    assert U32(taken, slot) == 0 by { Unwritten(img, taken, s, slot, 4); }
    LinkUnwinds(taken, slot, base, L.bs, b, chunk);
    // and freeing it gives the image itself
    BlockSiteStays(img, taken, L, b);
    GiveUndoesTake(img, s);
  }

  lemma BlockSiteStays(img: seq<byte>, r: seq<byte>, L: Layout, b: nat)
    requires Geometry(img, L) && SamePointers(img, r, L) && Geometry(r, L) && InRange(L, b)
    ensures SiteOfBlock(r, L, b) == SiteOfBlock(img, L, b)
  {
    BlockPosition(img, L, b);
    BlockPosition(r, L, b);
    SiteStays(img, r, L, BlockKind, GroupOfBlock(L, b), IndexOfBlock(L, b));
  }

  /** Block 0 is never data. */
  lemma DataNotZero(img: seq<byte>, L: Layout, b: nat)
    requires Geometry(img, L) && DataBlock(img, L, b)
    ensures b != 0
  {
    assert ValidMeta(L, Super);
    assert Times(0, L.bs) == 0;
  }

  lemma Unwritten(img: seq<byte>, r: seq<byte>, s: Site, at: nat, n: nat)
    requires |r| == |img| && at + n <= |img| && ClearOf(s, at, n)
    requires forall p :: 0 <= p < |img| && ClearOf(s, p, 1) ==> r[p] == img[p]
    ensures r[at..at + n] == img[at..at + n]
  {
    forall p | at <= p < at + n ensures r[p] == img[p] { assert ClearOf(s, p, 1); }
  }

  /** What a slot's block holds does not matter to `FreeSlot`. */
  lemma FreeSlotIgnoresContent(img: seq<byte>, L: Layout, ino: nat, index: nat, off: nat, chunk: seq<byte>)
    requires Geometry(img, L) && IsInode(L, ino) && InodeAt(img, L, ino).Some? && index < DIRECT_BLOCK_COUNT
    requires var b := U32(img, SlotAt(InodeAt(img, L, ino).value, index));
      InRange(L, b) && DataBlock(img, L, b) && off + |chunk| <= L.bs && BlockAt(L, b) + L.bs <= |img|
    ensures var at := InodeAt(img, L, ino).value; var b := U32(img, SlotAt(at, index));
      FreeSlot(Put(img, BlockAt(L, b) + off, chunk), L, at, index) == FreeSlot(img, L, at, index)
  {
    hide Geometry, Put, FreeBlock, U32, InodeAt, DataBlock, Times;
    var at := InodeAt(img, L, ino).value;
    var slot := SlotAt(at, index);
    var b := U32(img, slot);
    var base := BlockAt(L, b);
    InodeRangeApartFromData(img, L, ino, slot, 4, b);
    DataNotZero(img, L, b);
    Read32Apart(img, base + off, chunk, slot);
    PutCovers(img, base + off, chunk, base, Zeros(L.bs));
  }

  /** A successful `FreeSlot` on a linked block, spelled out. */
  lemma FreeSlotIs(img: seq<byte>, L: Layout, ino: nat, index: nat)
    requires Geometry(img, L) && IsInode(L, ino) && InodeAt(img, L, ino).Some? && index < DIRECT_BLOCK_COUNT
    requires var at := InodeAt(img, L, ino).value; var b := U32(img, SlotAt(at, index));
      DataBlock(img, L, b) && FreeSlot(img, L, at, index).0.Ok?
    ensures var at := InodeAt(img, L, ino).value; var b := U32(img, SlotAt(at, index));
      && InRange(L, b) && BlockAt(L, b) + L.bs <= |img| && b != 0
      && var wiped := Put(Put(img, BlockAt(L, b), Zeros(L.bs)), SlotAt(at, index), Le32(0));
         && Geometry(wiped, L) && SamePointers(img, wiped, L)
         && SiteOk(|img|, SiteOfBlock(img, L, b)) && SiteOfBlock(wiped, L, b) == SiteOfBlock(img, L, b)
         && Givable(wiped, SiteOfBlock(img, L, b))
         && FreeSlot(img, L, at, index) == (Ok(()), Give(wiped, SiteOfBlock(img, L, b)))
  {
    hide Geometry, Put, Give, Written, U16, Bit, InodeAt, Times, SiteOfBlock;
    var at := InodeAt(img, L, ino).value;
    var slot := SlotAt(at, index);
    var b := U32(img, slot);
    DataNotZero(img, L, b);
    DataBlockInside(img, L, b);
    var x := Put(img, BlockAt(L, b), Zeros(L.bs));
    DataRangePlain(img, L, b, BlockAt(L, b), L.bs);
    PlainPutUsed(img, L, BlockAt(L, b), Zeros(L.bs));
    InodeRangePlain(x, L, ino, slot, 4);
    PlainPutUsed(x, L, slot, Le32(0));
    var wiped := Put(x, slot, Le32(0));
    SamePointersTrans(img, x, wiped, L);
    BlockSiteStays(img, wiped, L, b);
    BlockPosition(img, L, b);
    SitePlaces(img, L, BlockKind, GroupOfBlock(L, b), IndexOfBlock(L, b));
  }

  /** A write away from the slot, its block and the bitmaps commutes with `FreeSlot`. */
  lemma FreeSlotAfterPut(img: seq<byte>, L: Layout, ino: nat, index: nat, p: nat, x: seq<byte>)
    requires Geometry(img, L) && IsInode(L, ino) && InodeAt(img, L, ino).Some? && index < DIRECT_BLOCK_COUNT
    requires p + |x| <= |img| && Plain(img, L, p, |x|)
    requires var at := InodeAt(img, L, ino).value; var slot := SlotAt(at, index); var b := U32(img, slot);
      && DataBlock(img, L, b) && FreeSlot(img, L, at, index).0.Ok?
      && Apart(p, |x|, slot, 4) && Apart(p, |x|, BlockAt(L, b), L.bs)
    ensures var at := InodeAt(img, L, ino).value;
      FreeSlot(Put(img, p, x), L, at, index) == (Ok(()), Put(FreeSlot(img, L, at, index).1, p, x))
  {
    hide Geometry, Put, Give, Written, U16, U32, Bit, InodeAt, Times, SiteOfBlock, DataBlock, FreeSlot;
    var at := InodeAt(img, L, ino).value;
    var slot := SlotAt(at, index);
    var b := U32(img, slot);
    FreeSlotIs(img, L, ino, index);
    var s, base := SiteOfBlock(img, L, b), BlockAt(L, b);
    var y := Put(img, base, Zeros(L.bs));
    var wiped := Put(y, slot, Le32(0));
    var img' := Put(img, p, x);
    PlainPutUsed(img, L, p, x);
    Read32Apart(img, p, x, slot);
    PutCommute(img, p, x, base, Zeros(L.bs));
    PutCommute(y, p, x, slot, Le32(0));
    BlockPosition(img, L, b);
    PlainClear(img, L, BlockKind, GroupOfBlock(L, b), IndexOfBlock(L, b), p, |x|);
    GiveAfterPut(wiped, s, p, x);
    BlockSiteStays(img, img', L, b);
    PlainStays(img, wiped, L, p, |x|);
    PlainPutUsed(wiped, L, p, x);
    BlockSiteStays(wiped, Put(wiped, p, x), L, b);
    FreeSlotBy(img', L, at, index, b, Put(wiped, p, x));
  }

  lemma PlainStays(img: seq<byte>, r: seq<byte>, L: Layout, at: nat, n: nat)
    requires Geometry(img, L) && SamePointers(img, r, L) && Plain(img, L, at, n)
    ensures Plain(r, L, at, n)
  {
    hide Geometry;
    SameAreas(img, r, L);
  }

  lemma FreeSlotBy(img: seq<byte>, L: Layout, at: nat, index: nat, b: nat, wiped: seq<byte>)
    requires LayoutOf(|img|, L) && SlotAt(at, index) + 4 <= |img| && b == U32(img, SlotAt(at, index))
    requires b != 0 && InRange(L, b) && BlockAt(L, b) + L.bs <= |img|
    requires wiped == Put(Put(img, BlockAt(L, b), Zeros(L.bs)), SlotAt(at, index), Le32(0))
    requires Givable(wiped, SiteOfBlock(wiped, L, b))
    ensures FreeSlot(img, L, at, index) == (Ok(()), Give(wiped, SiteOfBlock(wiped, L, b)))
  {
    hide Put, Give, Bit;
  }

  /** The image `FreeSlot` of slot `n - 1` leaves: the block wiped, the slot cleared, one bit
      and its two counters given back, and no pointer moved. */
  lemma FreeSlotLeaves(img: seq<byte>, L: Layout, ino: nat, n: nat) returns (wiped: seq<byte>, r: seq<byte>)
    requires Geometry(img, L) && IsInode(L, ino) && 0 < n <= DIRECT_BLOCK_COUNT
    requires Linked(img, L, Slot(img, L, ino, n - 1)) && InodeAt(img, L, ino).Some?
    requires FreeSlot(img, L, InodeAt(img, L, ino).value, n - 1).0.Ok?
    ensures var b := Slot(img, L, ino, n - 1); var slot := SlotAt(InodeAt(img, L, ino).value, n - 1);
      && BlockAt(L, b) + L.bs <= |img| && slot + 4 <= |img|
      && wiped == Put(Put(img, BlockAt(L, b), Zeros(L.bs)), slot, Le32(0))
      && r == FreeSlot(img, L, InodeAt(img, L, ino).value, n - 1).1
      && Geometry(wiped, L) && SamePointers(img, wiped, L) && Geometry(r, L) && SamePointers(img, r, L)
      && Position(L, GroupOfBlock(L, b), IndexOfBlock(L, b))
      && OnlySite(wiped, r, L, BlockKind, GroupOfBlock(L, b), IndexOfBlock(L, b))
      && (forall c {:trigger BlockUsed(wiped, L, c)} :: InRange(L, c) ==>
            (BlockUsed(wiped, L, c) <==> BlockUsed(img, L, c)))
      && (forall c: nat {:trigger DataBlock(r, L, c)} :: DataBlock(r, L, c) <==> DataBlock(img, L, c))
      && (forall i: nat {:trigger InodeAt(r, L, i)} :: InodeAt(r, L, i) == InodeAt(img, L, i))
      && (forall i: nat {:trigger InodeAt(wiped, L, i)} :: InodeAt(wiped, L, i) == InodeAt(img, L, i))
  {
    hide Geometry, Put, Give, Written, U16, U32, Bit, Times, SiteOfBlock, FreeSlot, InodeAt, DataBlock, BitOn, Plain,
      BlockUsed, InodeUsed, Givable, GroupOfBlock, IndexOfBlock;
    var slot := SlotAt(InodeAt(img, L, ino).value, n - 1);
    var b := Slot(img, L, ino, n - 1);
    FreeSlotIs(img, L, ino, n - 1);
    var base := BlockAt(L, b);
    var y := Put(img, base, Zeros(L.bs));
    wiped := Put(y, slot, Le32(0));
    DataRangePlain(img, L, b, base, L.bs);
    PlainPutUsed(img, L, base, Zeros(L.bs));
    InodeRangePlain(y, L, ino, slot, 4);
    PlainPutUsed(y, L, slot, Le32(0));
    forall c {:trigger BlockUsed(wiped, L, c)} | InRange(L, c)
      ensures BlockUsed(wiped, L, c) <==> BlockUsed(img, L, c)
    {
      assert BlockUsed(wiped, L, c) <==> BlockUsed(y, L, c);
    }
    BlockPosition(wiped, L, b);
    GiveBit(wiped, L, BlockKind, GroupOfBlock(L, b), IndexOfBlock(L, b));
    r := Give(wiped, SiteOfBlock(img, L, b));
    SamePointersTrans(img, wiped, r, L);
    SameAreas(img, r, L);
  }

  /** `FreeSlot` of slot `n - 1` clears it and no other. */
  lemma FreeSlotSlots(img: seq<byte>, L: Layout, ino: nat, n: nat)
    requires Geometry(img, L) && IsInode(L, ino) && 0 < n <= DIRECT_BLOCK_COUNT
    requires Linked(img, L, Slot(img, L, ino, n - 1)) && InodeAt(img, L, ino).Some?
    requires FreeSlot(img, L, InodeAt(img, L, ino).value, n - 1).0.Ok?
    ensures var r := FreeSlot(img, L, InodeAt(img, L, ino).value, n - 1).1;
      && Geometry(r, L) && SamePointers(img, r, L) && InodeAt(r, L, ino) == InodeAt(img, L, ino)
      && Slot(r, L, ino, n - 1) == 0
      && (forall j :: 0 <= j < DIRECT_BLOCK_COUNT && j != n - 1 ==> Slot(r, L, ino, j) == Slot(img, L, ino, j))
  {
    hide Geometry, Put, U16, U32, Times, FreeSlot, InodeAt, DataBlock, BitOn, Plain, BlockUsed, InodeUsed,
      GroupOfBlock, IndexOfBlock, SiteAt;
    var wiped, r := FreeSlotLeaves(img, L, ino, n);
    var at, b := InodeAt(img, L, ino).value, Slot(img, L, ino, n - 1);
    var slot, base, g, i := SlotAt(at, n - 1), BlockAt(L, b), GroupOfBlock(L, b), IndexOfBlock(L, b);
    var y := Put(img, base, Zeros(L.bs));
    forall j | 0 <= j < DIRECT_BLOCK_COUNT
      ensures j == n - 1 ==> Slot(r, L, ino, j) == 0
      ensures j != n - 1 ==> Slot(r, L, ino, j) == Slot(img, L, ino, j)
    {
      var p := SlotAt(at, j);
      InodeRangeApartFromData(img, L, ino, p, 4, b);
      InodeRangePlain(wiped, L, ino, p, 4);
      PlainClear(wiped, L, BlockKind, g, i, p, 4);
      Unwritten(wiped, r, SiteAt(wiped, L, BlockKind, g, i), p, 4);
      SameSlice(wiped, r, p, 4);
      SameSlot(wiped, r, p);
      if j == n - 1 {
        Put32Read(y, slot, 0);
      } else {
        Read32Apart(y, slot, Le32(0), p);
        Read32Apart(img, base, Zeros(L.bs), p);
      }
    }
  }

  /** And frees no block but its own. */
  lemma FreeSlotLinks(img: seq<byte>, L: Layout, ino: nat, n: nat, c: nat)
    requires Geometry(img, L) && IsInode(L, ino) && 0 < n <= DIRECT_BLOCK_COUNT
    requires Linked(img, L, Slot(img, L, ino, n - 1)) && InodeAt(img, L, ino).Some?
    requires FreeSlot(img, L, InodeAt(img, L, ino).value, n - 1).0.Ok?
    requires Linked(img, L, c) && c != Slot(img, L, ino, n - 1)
    ensures var r := FreeSlot(img, L, InodeAt(img, L, ino).value, n - 1).1; Geometry(r, L) && Linked(r, L, c)
  {
    hide Geometry, Put, U16, U32, Times, FreeSlot, InodeAt, DataBlock, BitOn, BlockUsed, GroupOfBlock, IndexOfBlock,
      OnlySite;
    var wiped, r := FreeSlotLeaves(img, L, ino, n);
    var b := Slot(img, L, ino, n - 1);
    assert BlockUsed(wiped, L, c);
    BlockPosition(img, L, c);
    BlockPositionsDiffer(img, L, b, c);
    BlockUsedIs(wiped, L, c);
    BlockUsedIs(r, L, c);
    OtherBitStays(wiped, r, L, GroupOfBlock(L, b), IndexOfBlock(L, b), GroupOfBlock(L, c), IndexOfBlock(L, c));
    assert DataBlock(r, L, c);
  }

  lemma BlockUsedIs(img: seq<byte>, L: Layout, c: nat)
    requires Geometry(img, L) && InRange(L, c)
    ensures Position(L, GroupOfBlock(L, c), IndexOfBlock(L, c))
    ensures (BlockUsed(img, L, c) <==> BitOn(img, L, BlockKind, GroupOfBlock(L, c), IndexOfBlock(L, c)))
  {
    hide Geometry, BitOn, GroupOfBlock, IndexOfBlock;
    BlockPosition(img, L, c);
  }

  lemma OtherBitStays(img: seq<byte>, r: seq<byte>, L: Layout, g: nat, i: nat, h: nat, j: nat)
    requires Geometry(img, L) && Position(L, g, i) && Position(L, h, j) && (h, j) != (g, i)
    requires OnlySite(img, r, L, BlockKind, g, i)
    ensures Geometry(r, L) && (BitOn(r, L, BlockKind, h, j) <==> BitOn(img, L, BlockKind, h, j))
  {
    hide Geometry, BitOn, SiteAt;
  }

  /** After `FreeSlot` of the last slot, the file is dense with one block less. */
  lemma FreeSlotDense(img: seq<byte>, L: Layout, ino: nat, n: nat)
    requires Geometry(img, L) && IsInode(L, ino) && 0 < n && Dense(img, L, ino, n) && InodeAt(img, L, ino).Some?
    requires FreeSlot(img, L, InodeAt(img, L, ino).value, n - 1).0.Ok?
    ensures var r := FreeSlot(img, L, InodeAt(img, L, ino).value, n - 1).1;
      && Geometry(r, L) && SamePointers(img, r, L) && InodeAt(r, L, ino) == InodeAt(img, L, ino)
      && Dense(r, L, ino, n - 1)
      && (forall j :: 0 <= j < n - 1 ==> Slot(r, L, ino, j) == Slot(img, L, ino, j))
  {
    hide Geometry, FreeSlot, InodeAt, DataBlock, BlockUsed, Slot;
    var r := FreeSlot(img, L, InodeAt(img, L, ino).value, n - 1).1;
    assert Linked(img, L, Slot(img, L, ino, n - 1));
    FreeSlotSlots(img, L, ino, n);
    forall j | 0 <= j < n - 1 ensures Linked(r, L, Slot(r, L, ino, j)) {
      assert Linked(img, L, Slot(img, L, ino, j));
      FreeSlotLinks(img, L, ino, n, Slot(img, L, ino, j));
    }
  }

  /** A write to the head of the inode (before `i_block`) commutes with the whole loop. */
  lemma {:induction false} FreeDownAfterHead(img: seq<byte>, L: Layout, ino: nat, keep: nat, n: nat, p: nat,
      x: seq<byte>)
    requires Geometry(img, L) && IsInode(L, ino) && InodeAt(img, L, ino).Some? && Dense(img, L, ino, n)
    requires InodeAt(img, L, ino).value <= p && p + |x| <= InodeAt(img, L, ino).value + 40
    requires FreeDown(img, L, InodeAt(img, L, ino).value, keep, n).0.Ok?
    ensures var at := InodeAt(img, L, ino).value;
      FreeDown(Put(img, p, x), L, at, keep, n) == (Ok(()), Put(FreeDown(img, L, at, keep, n).1, p, x))
    decreases n
  {
    hide Geometry, Put, FreeSlot, InodeAt, DataBlock, Times, BlockUsed;
    if n > keep {
      var at := InodeAt(img, L, ino).value;
      assert Linked(img, L, Slot(img, L, ino, n - 1));
      InodeRangePlain(img, L, ino, p, |x|);
      InodeRangeApartFromData(img, L, ino, p, |x|, Slot(img, L, ino, n - 1));
      FreeSlotAfterPut(img, L, ino, n - 1, p, x);
      FreeSlotDense(img, L, ino, n);
      FreeDownAfterHead(FreeSlot(img, L, at, n - 1).1, L, ino, keep, n - 1, p, x);
    }
  }
}
