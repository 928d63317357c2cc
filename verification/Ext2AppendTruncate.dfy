/** Cutting a file back to the size it had before some appends: the appends leave no trace. */
module Ext2AppendTruncate {
  import opened Wrappers
  import opened Bytes
  import opened Ext2Layout
  import opened Ext2Alloc
  import opened Ext2Areas
  import opened Ext2File
  import opened Ext2Unwind
  import opened Ext2Append
  import opened Ext2FsFile

  /** Position `p` lies in the last block of a file of `size` bytes, past its last byte. */
  ghost predicate InTail(img: seq<byte>, L: Layout, ino: nat, size: nat, p: nat)
    requires LayoutOf(|img|, L) && Ready(img, L, ino, CeilQuot(size, L.bs))
  {
    var n := CeilQuot(size, L.bs);
    && 0 < n && Rem(size, L.bs) != 0
    && BlockAt(L, Slot(img, L, ino, n - 1)) + Rem(size, L.bs) <= p < BlockAt(L, Slot(img, L, ino, n - 1)) + L.bs
  }

  /** Position `p` is in the `i_size` or the `i_blocks` of the slot at `at`. */
  predicate InSize(at: nat, p: nat) {
    at + 4 <= p < at + 8 || at + 28 <= p < at + 32
  }

  /** Equal but for the size fields and the tail of the last block. */
  ghost predicate Near(img: seq<byte>, z: seq<byte>, L: Layout, ino: nat, size: nat)
    requires LayoutOf(|img|, L) && Ready(img, L, ino, CeilQuot(size, L.bs))
  {
    && |z| == |img|
    && forall p :: 0 <= p < |img| && z[p] != img[p] ==>
         InSize(InodeAt(img, L, ino).value, p) || InTail(img, L, ino, size, p)
  }

  /** `y` has `m` blocks, and freeing those past the `size` bytes of `img` gives `img` again, up to
      what `truncate_to` writes afterwards. */
  ghost predicate CutsBack(img: seq<byte>, y: seq<byte>, L: Layout, ino: nat, size: nat, m: nat)
    ensures CutsBack(img, y, L, ino, size, m) ==>
      && LayoutOf(|img|, L) && |y| == |img| && IsInode(L, ino)
      && InodeAt(img, L, ino).Some? && InodeAt(y, L, ino) == InodeAt(img, L, ino)
      && Ready(img, L, ino, CeilQuot(size, L.bs)) && Ready(y, L, ino, m) && CeilQuot(size, L.bs) <= m
  {
    && LayoutOf(|img|, L)
    && var n := CeilQuot(size, L.bs);
    && Ready(img, L, ino, n) && Ready(y, L, ino, m) && n <= m && FreeIsZero(y, L) && |y| == |img|
    && InodeAt(img, L, ino).Some? && InodeAt(y, L, ino) == InodeAt(img, L, ino)
    && (forall j :: 0 <= j < n ==> Slot(y, L, ino, j) == Slot(img, L, ino, j))
    && var cut := FreeDown(y, L, InodeAt(img, L, ino).value, n, m);
       cut.0.Ok? && Near(img, cut.1, L, ino, size)
  }

  /** Linking a fresh block at the end. */
  lemma CutsLinked(img: seq<byte>, y: seq<byte>, L: Layout, ino: nat, size: nat, m: nat, b: nat, chunk: seq<byte>)
    requires CutsBack(img, y, L, ino, size, m) && m < DIRECT_BLOCK_COUNT && InRange(L, b) && |chunk| <= L.bs
    requires Takable(y, SiteOfBlock(y, L, b)) && !BlockUsed(y, L, b)
    ensures CutsBack(img, LinkedImage(y, L, ino, m, b, chunk), L, ino, size, m + 1)
  {
    hide Geometry, Put, Take, U32, U16, InodeAt, DataBlock, Times, SiteOfBlock, BitOn, BlockUsed, FreeSlot, Dense,
      Near, CeilQuot;
    var at := InodeAt(img, L, ino).value;
    var r := LinkedImage(y, L, ino, m, b, chunk);
    LinkStep(y, L, ino, m, b, chunk);
    assert DataBlock(y, L, b);
    DataBlockInside(y, L, b);
    LinkSlots(y, L, ino, m, b, chunk);
    EmptySlot(y, L, ino, m);
    FreeSlotUndoesLink(y, L, ino, m, b, chunk);
    assert FreeSlot(r, L, at, m) == (Ok(()), y);
  }

  lemma EmptySlot(y: seq<byte>, L: Layout, ino: nat, m: nat)
    requires Geometry(y, L) && IsInode(L, ino) && Dense(y, L, ino, m) && m < DIRECT_BLOCK_COUNT
    ensures Slot(y, L, ino, m) == 0
  {
    hide Slot, Linked;
  }

  /** Filling the last block, past `size` bytes. */
  lemma CutsFilled(img: seq<byte>, y: seq<byte>, L: Layout, ino: nat, size: nat, m: nat, off: nat, chunk: seq<byte>)
    requires CutsBack(img, y, L, ino, size, m) && 0 < m && off + |chunk| <= L.bs
    requires m == CeilQuot(size, L.bs) ==> 0 < Rem(size, L.bs) <= off
    ensures var b := Slot(y, L, ino, m - 1);
      BlockAt(L, b) + L.bs <= |y| && CutsBack(img, Put(y, BlockAt(L, b) + off, chunk), L, ino, size, m)
  {
    hide Geometry, Put, U32, U16, InodeAt, DataBlock, Times, BlockUsed, FreeSlot, Dense, Near, CeilQuot, Rem;
    var b, n := Slot(y, L, ino, m - 1), CeilQuot(size, L.bs);
    FillStep(y, L, ino, m, off, chunk);
    var p := BlockAt(L, b) + off;
    var r := Put(y, p, chunk);
    LastLinked(y, L, ino, m);
    SlotsStay(y, r, L, ino, b, p, chunk);
    FreeSlotIgnoresContent(y, L, ino, m - 1, off, chunk);
    if m == n { NearFilled(img, y, L, ino, size, p, chunk); }
  }

  lemma LastLinked(y: seq<byte>, L: Layout, ino: nat, m: nat)
    requires Geometry(y, L) && IsInode(L, ino) && Dense(y, L, ino, m) && 0 < m
    ensures m <= DIRECT_BLOCK_COUNT && Linked(y, L, Slot(y, L, ino, m - 1))
  {
    hide Slot, Linked;
  }

  lemma NearFilled(img: seq<byte>, z: seq<byte>, L: Layout, ino: nat, size: nat, p: nat, chunk: seq<byte>)
    requires LayoutOf(|img|, L) && Ready(img, L, ino, CeilQuot(size, L.bs)) && Near(img, z, L, ino, size)
    requires p + |chunk| <= |img|
    requires var n := CeilQuot(size, L.bs);
      && 0 < n && Rem(size, L.bs) != 0
      && BlockAt(L, Slot(img, L, ino, n - 1)) + Rem(size, L.bs) <= p
      && p + |chunk| <= BlockAt(L, Slot(img, L, ino, n - 1)) + L.bs
    ensures Near(img, Put(z, p, chunk), L, ino, size)
  {
    hide Ready, Slot, InodeAt, Times, CeilQuot, Rem;
  }

  /** Writing a size field. */
  lemma CutsSized(img: seq<byte>, y: seq<byte>, L: Layout, ino: nat, size: nat, m: nat, p: nat, x: seq<byte>)
    requires CutsBack(img, y, L, ino, size, m) && |x| == 4
    requires var at := InodeAt(img, L, ino).value; p == at + 4 || p == at + 28
    ensures p + 4 <= |y| && CutsBack(img, Put(y, p, x), L, ino, size, m)
  {
    hide Geometry, Put, U32, U16, InodeAt, DataBlock, Times, BlockUsed, FreeDown, Dense, Near, CeilQuot, Ready,
      FreeIsZero;
    var at, n := InodeAt(img, L, ino).value, CeilQuot(size, L.bs);
    ReadyMeans(y, L, ino, m);
    HeadPutReady(y, L, ino, m, p, x);
    FreeDownAfterHead(y, L, ino, n, m, p, x);
    NearSized(img, FreeDown(y, L, at, n, m).1, L, ino, size, p, x);
  }

  lemma ReadyMeans(y: seq<byte>, L: Layout, ino: nat, m: nat)
    requires Ready(y, L, ino, m)
    ensures LayoutOf(|y|, L) && Geometry(y, L) && IsInode(L, ino) && InodeAt(y, L, ino).Some? && Dense(y, L, ino, m)
    ensures InodeAt(y, L, ino).value + L.inodeSize <= |y|
  {
    hide Geometry, InodeAt, Dense, FreeIsData;
    InodeSlot(y, L, ino);
  }

  lemma NearSized(img: seq<byte>, z: seq<byte>, L: Layout, ino: nat, size: nat, p: nat, x: seq<byte>)
    requires LayoutOf(|img|, L) && Ready(img, L, ino, CeilQuot(size, L.bs)) && Near(img, z, L, ino, size)
    requires p + |x| <= |img| && |x| == 4
    requires var at := InodeAt(img, L, ino).value; p == at + 4 || p == at + 28
    ensures Near(img, Put(z, p, x), L, ino, size)
  {
    hide Ready, InTail, InodeAt, CeilQuot, Rem;
  }

  /** Sizes with the same number of blocks, the larger off a boundary: so is the smaller, and
      its last byte comes first. */
  lemma SameLastBlock(size: nat, now: nat, unit: nat)
    requires unit > 0 && size <= now && CeilQuot(size, unit) == CeilQuot(now, unit) && Rem(now, unit) != 0
    ensures 0 < Rem(size, unit) <= Rem(now, unit) && 0 < CeilQuot(now, unit)
  {
    hide Quot, Rem;
    QuotRem(size, unit);
    QuotRem(now, unit);
    CeilStep(size, unit, 1);
    CeilStep(now, unit, 1);
    assert Times(Quot(now, unit) + 1, unit) == Times(Quot(now, unit), unit) + unit;
  }

  /** The append loop. */
  lemma {:induction false} CutsLoop(img: seq<byte>, y: seq<byte>, L: Layout, ino: nat, size: nat, now: nat,
      data: seq<byte>)
    requires LayoutOf(|y|, L) && size <= now && CutsBack(img, y, L, ino, size, CeilQuot(now, L.bs))
    requires AppendLoop(y, L, InodeAt(img, L, ino).value, now, data).0.Ok?
    ensures CutsBack(img, AppendLoop(y, L, InodeAt(img, L, ino).value, now, data).1, L, ino, size,
          CeilQuot(now + |data|, L.bs))
    decreases |data|
  {
    hide Geometry, Put, U32, InodeAt, Target, CutsBack, Quot, Rem, CeilQuot;
    if data != [] {
      QuotRem(now, L.bs);
      var off := Rem(now, L.bs);
      var take := if L.bs - off < |data| then L.bs - off else |data|;
      var y2 := CutsTurn(img, y, L, ino, size, now, data[..take]);
      CutsLoop(img, y2, L, ino, size, now + take, data[take..]);
    }
  }

  /** One turn of it. */
  lemma CutsTurn(img: seq<byte>, y: seq<byte>, L: Layout, ino: nat, size: nat, now: nat,
      chunk: seq<byte>) returns (y2: seq<byte>)
    requires LayoutOf(|y|, L) && size <= now && CutsBack(img, y, L, ino, size, CeilQuot(now, L.bs))
    requires Quot(now, L.bs) < DIRECT_BLOCK_COUNT && 0 < |chunk| <= L.bs - Rem(now, L.bs)
    requires Target(y, L, InodeAt(img, L, ino).value, now).0.Ok?
    ensures var (b, y1) := Target(y, L, InodeAt(img, L, ino).value, now);
      && BlockAt(L, b.value) + L.bs <= |y|
      && y2 == Put(y1, BlockAt(L, b.value) + Rem(now, L.bs), chunk)
    ensures CutsBack(img, y2, L, ino, size, CeilQuot(now + |chunk|, L.bs))
  {
    hide Geometry, Put, Take, U16, InodeAt, DataBlock, Times, SiteOfBlock, BitOn, FreeDown, Dense, Near, Quot, Rem,
      CeilQuot, GroupOfBlock, IndexOfBlock, FreeIsZero;
    var at, m := InodeAt(img, L, ino).value, CeilQuot(now, L.bs);
    CeilStep(now, L.bs, |chunk|);
    var (b, y1) := Target(y, L, at, now);
    if Rem(now, L.bs) != 0 {
      if m == CeilQuot(size, L.bs) { SameLastBlock(size, now, L.bs); }
      CutsFilled(img, y, L, ino, size, m, Rem(now, L.bs), chunk);
    } else {
      AllocBlockTakes(y, L, 0);
      DataBlockInside(y, L, b.value);
      TakableIsFree(y, L, b.value);
      CutsLinked(img, y, L, ino, size, m, b.value, chunk);
    }
    y2 := Put(y1, BlockAt(L, b.value) + Rem(now, L.bs), chunk);
  }

  /** One append, and then any number of them. */
  lemma CutsAppend(img: seq<byte>, y: seq<byte>, L: Layout, ino: nat, size: nat, now: nat, data: seq<byte>)
    requires LayoutOf(|y|, L) && size <= now && CutsBack(img, y, L, ino, size, CeilQuot(now, L.bs))
    requires InodeAt(img, L, ino).value + 8 <= |y| && now == U32(y, InodeAt(img, L, ino).value + 4)
    requires Append(y, L, ino, data).0.Ok?
    ensures var r := Append(y, L, ino, data).1;
      && CutsBack(img, r, L, ino, size, CeilQuot(now + |data|, L.bs))
      && U32(r, InodeAt(img, L, ino).value + 4) == now + |data|
  {
    hide Geometry, Put, U32, U16, InodeAt, Times, AppendLoop, CutsBack, CeilQuot, Le32;
    var at := InodeAt(img, L, ino).value;
    CutsLoop(img, y, L, ino, size, now, data);
    var z, end := AppendLoop(y, L, at, now, data).1, now + |data|;
    SectorsFit(L, end);
    var sectors := Le32(Times(CeilQuot(end, L.bs), SectorsPerBlock(L)));
    CutsSized(img, z, L, ino, size, CeilQuot(end, L.bs), at + 4, Le32(end));
    CutsSized(img, Put(z, at + 4, Le32(end)), L, ino, size, CeilQuot(end, L.bs), at + 28, sectors);
    Put32Read(z, at + 4, end);
    Read32Apart(Put(z, at + 4, Le32(end)), at + 28, sectors, at + 4);
  }

  lemma {:induction false} CutsAppends(img: seq<byte>, y: seq<byte>, L: Layout, ino: nat, size: nat,
      datas: seq<seq<byte>>)
    requires LayoutOf(|y|, L) && IsInode(L, ino) && Geometry(img, L) && InodeAt(img, L, ino).Some?
    requires InodeAt(img, L, ino).value + 8 <= |y|
    requires var now := U32(y, InodeAt(img, L, ino).value + 4);
      size <= now && CutsBack(img, y, L, ino, size, CeilQuot(now, L.bs))
    requires AppendAll(y, L, ino, datas).0.Ok?
    ensures var r := AppendAll(y, L, ino, datas).1; var now := U32(r, InodeAt(img, L, ino).value + 4);
      size <= now && CutsBack(img, r, L, ino, size, CeilQuot(now, L.bs))
    decreases |datas|
  {
    hide Geometry, InodeAt, U32, Append, CutsBack, CeilQuot;
    if datas != [] {
      CutsAppend(img, y, L, ino, size, U32(y, InodeAt(img, L, ino).value + 4), datas[0]);
      CutsAppends(img, Append(y, L, ino, datas[0]).1, L, ino, size, datas[1..]);
    }
  }

  // ----- the theorem -----

  /** A dense file whose blocks are those its `i_size` needs, on an image whose free blocks are
      zeroed data blocks. */
  ghost predicate DenseFile(img: seq<byte>, L: Layout, ino: nat) {
    && Geometry(img, L) && IsInode(L, ino) && InodeAt(img, L, ino).Some?
    && InodeAt(img, L, ino).value + L.inodeSize <= |img|
    && Ready(img, L, ino, CeilQuot(SizeOf(img, L, ino), L.bs)) && FreeIsZero(img, L)
  }

  /** What `truncate_to` to the current size would leave as it is: zeros after the last byte,
      and an `i_blocks` that counts the blocks of the size. */
  ghost predicate Tidy(img: seq<byte>, L: Layout, ino: nat)
    requires DenseFile(img, L, ino)
  {
    var size := SizeOf(img, L, ino);
    && U32(img, InodeAt(img, L, ino).value + 28) == Times(CeilQuot(size, L.bs), SectorsPerBlock(L))
    && forall p :: 0 <= p < |img| && InTail(img, L, ino, size, p) ==> img[p] == 0
  }

  /** `truncate_to` in three steps. */
  lemma TruncateIs(y: seq<byte>, L: Layout, ino: nat, at: nat, target: nat)
    requires LayoutOf(|y|, L) && InodeAt(y, L, ino) == Some(at) && target <= U32(y, at + 4)
    requires SlotAt(at, CeilQuot(U32(y, at + 4), L.bs)) <= |y|
    requires CeilQuot(target, L.bs) <= CeilQuot(U32(y, at + 4), L.bs)
    requires FreeDown(y, L, at, CeilQuot(target, L.bs), CeilQuot(U32(y, at + 4), L.bs)).0.Ok?
    ensures var z := FreeDown(y, L, at, CeilQuot(target, L.bs), CeilQuot(U32(y, at + 4), L.bs)).1;
      Truncate(y, L, ino, target) == (Ok(()), Sized(WipeTail(z, L, at, target), L, at, target))
  {
    hide InodeAt, U32, Times, FreeDown, CeilQuot, WipeTail, Sized;
  }

  /** Cutting back to the size of `img` only depends on `img`. */
  lemma TruncateNear(img: seq<byte>, y: seq<byte>, L: Layout, ino: nat)
    requires DenseFile(img, L, ino) && |y| == |img|
    requires var size := SizeOf(img, L, ino); var now := U32(y, InodeAt(img, L, ino).value + 4);
      size <= now && CutsBack(img, y, L, ino, size, CeilQuot(now, L.bs))
    ensures SlotAt(InodeAt(img, L, ino).value, CeilQuot(U32(y, InodeAt(img, L, ino).value + 4), L.bs)) <= |y|
    ensures InodeAt(y, L, ino) == InodeAt(img, L, ino)
    ensures Truncate(y, L, ino, SizeOf(img, L, ino))
      == (Ok(()), Sized(Wiped(img, L, ino), L, InodeAt(img, L, ino).value, SizeOf(img, L, ino)))
  {
    hide Geometry, InodeAt, U32, Dense, FreeDown, CeilQuot, FreeIsZero, FreeIsData, WipeTail, Sized, Truncate, Slot,
      Near;
    var at, size := InodeAt(img, L, ino).value, SizeOf(img, L, ino);
    var now := U32(y, at + 4);
    TruncateIs(y, L, ino, at, size);
    WipeNear(img, FreeDown(y, L, at, CeilQuot(size, L.bs), CeilQuot(now, L.bs)).1, L, ino, size);
  }

  /** The image with the tail of the last block cleared. */
  ghost function Wiped(img: seq<byte>, L: Layout, ino: nat): (r: seq<byte>)
    requires DenseFile(img, L, ino)
    ensures |r| == |img|
  {
    WipeTail(img, L, InodeAt(img, L, ino).value, SizeOf(img, L, ino))
  }

  lemma WipeNear(img: seq<byte>, z: seq<byte>, L: Layout, ino: nat, size: nat)
    requires LayoutOf(|img|, L) && Ready(img, L, ino, CeilQuot(size, L.bs)) && Near(img, z, L, ino, size)
    requires size < 0x1_0000_0000
    requires var at := InodeAt(img, L, ino).value; at + L.inodeSize <= |img|
    ensures var at := InodeAt(img, L, ino).value;
      && SlotAt(at, CeilQuot(size, L.bs)) <= |img|
      && Sized(WipeTail(z, L, at, size), L, at, size) == Sized(WipeTail(img, L, at, size), L, at, size)
  {
    hide Geometry, Dense, FreeIsData, InodeAt, CeilQuot, Sized, WipeTail, InTail;
    var at := InodeAt(img, L, ino).value;
    WipeReads(img, img, L, ino, size);
    WipeReads(img, z, L, ino, size);
    SizedEqual(WipeTail(z, L, at, size), WipeTail(img, L, at, size), L, at, size);
  }

  /** What wiping the tail does to an image near `img`. */
  lemma WipeReads(img: seq<byte>, z: seq<byte>, L: Layout, ino: nat, size: nat)
    requires LayoutOf(|img|, L) && Ready(img, L, ino, CeilQuot(size, L.bs)) && Near(img, z, L, ino, size)
    requires InodeAt(img, L, ino).value + L.inodeSize <= |img|
    ensures var at := InodeAt(img, L, ino).value;
      && SlotAt(at, CeilQuot(size, L.bs)) <= |img|
      && (forall p :: 0 <= p < |img| ==>
            WipeTail(z, L, at, size)[p] == if InTail(img, L, ino, size, p) then 0 else z[p])
      && (forall p :: InTail(img, L, ino, size, p) ==> !InSize(at, p))
  {
    hide Geometry, InodeAt, U16, U32, Times, FreeIsData, DataBlock, BlockUsed, CeilQuot, Rem, Quot;
    var at, n := InodeAt(img, L, ino).value, CeilQuot(size, L.bs);
    QuotRem(size, L.bs);
    if n > 0 {
      LastLinked(img, L, ino, n);
      var b := Slot(img, L, ino, n - 1);
      DataNotZero(img, L, b);
      DataBlockInside(img, L, b);
      InodeRangeApartFromData(img, L, ino, at, L.inodeSize, b);
      SameSlot(img, z, SlotAt(at, n - 1));
      WipeTailIs(z, L, at, size, b);
    }
  }

  lemma WipeTailIs(z: seq<byte>, L: Layout, at: nat, size: nat, b: nat)
    requires LayoutOf(|z|, L) && 0 < CeilQuot(size, L.bs) && SlotAt(at, CeilQuot(size, L.bs)) <= |z|
    requires U32(z, SlotAt(at, CeilQuot(size, L.bs) - 1)) == b && b != 0 && BlockAt(L, b) + L.bs <= |z|
    ensures var base := BlockAt(L, b); var tail := Rem(size, L.bs); var w := WipeTail(z, L, at, size);
      forall p :: 0 <= p < |z| ==> w[p] == if tail != 0 && base + tail <= p < base + L.bs then 0 else z[p]
  {
    hide U32, Times, CeilQuot, Rem;
    QuotRem(size, L.bs);
  }

  lemma SizedEqual(w: seq<byte>, v: seq<byte>, L: Layout, at: nat, size: nat)
    requires LayoutOf(|w|, L) && |v| == |w| && at + L.inodeSize <= |w| && size < 0x1_0000_0000
    requires forall p :: 0 <= p < |w| && !InSize(at, p) ==> v[p] == w[p]
    ensures Sized(w, L, at, size) == Sized(v, L, at, size)
  {
    hide Times, CeilQuot, Le32;
    SectorsFit(L, size);
    assert Sized(w, L, at, size) == Sized(v, L, at, size);
  }

  /** Appending any number of times and cutting back to the old size is the same as cutting the
      file to the size it has, whatever was in its tail. */
  lemma AppendTruncate(img: seq<byte>, L: Layout, ino: nat, datas: seq<seq<byte>>)
    requires DenseFile(img, L, ino) && AppendAll(img, L, ino, datas).0.Ok?
    ensures var x := AppendAll(img, L, ino, datas).1; var size := SizeOf(img, L, ino);
      && InodeAt(x, L, ino) == InodeAt(img, L, ino)
      && SlotAt(InodeAt(img, L, ino).value, CeilQuot(size, L.bs)) <= |img|
      && SlotAt(InodeAt(img, L, ino).value, CeilQuot(U32(x, InodeAt(img, L, ino).value + 4), L.bs)) <= |img|
      && Truncate(x, L, ino, size).0.Ok?
      && Truncate(x, L, ino, size) == Truncate(img, L, ino, size)
  {
    hide Geometry, InodeAt, U32, Times, CeilQuot, Truncate, AppendAll, CutsBack, Wiped, Sized, DenseFile;
    CutsItself(img, L, ino);
    CutsAppends(img, img, L, ino, SizeOf(img, L, ino), datas);
    TruncateNear(img, img, L, ino);
    var x, size := AppendAll(img, L, ino, datas).1, SizeOf(img, L, ino);
    TruncateNear(img, x, L, ino);
  }

  lemma CutsItself(img: seq<byte>, L: Layout, ino: nat)
    requires DenseFile(img, L, ino)
    ensures LayoutOf(|img|, L) && Geometry(img, L) && IsInode(L, ino) && InodeAt(img, L, ino).Some?
    ensures InodeAt(img, L, ino).value + L.inodeSize <= |img|
    ensures CutsBack(img, img, L, ino, SizeOf(img, L, ino), CeilQuot(SizeOf(img, L, ino), L.bs))
  {
    hide Geometry, InodeAt, U32, Times, CeilQuot, Dense, FreeIsZero, FreeIsData;
  }

  /** Append, then cut back: every byte is restored if and only if the file was tidy. */
  lemma AppendTruncateRestores(img: seq<byte>, L: Layout, ino: nat, datas: seq<seq<byte>>)
    requires DenseFile(img, L, ino) && AppendAll(img, L, ino, datas).0.Ok?
    ensures var x := AppendAll(img, L, ino, datas).1; var size := SizeOf(img, L, ino);
      && InodeAt(x, L, ino) == InodeAt(img, L, ino)
      && SlotAt(InodeAt(img, L, ino).value, CeilQuot(U32(x, InodeAt(img, L, ino).value + 4), L.bs)) <= |img|
      && Truncate(x, L, ino, size).0.Ok?
      && (Truncate(x, L, ino, size).1 == img <==> Tidy(img, L, ino))
  {
    hide Geometry, InodeAt, U32, Times, CeilQuot, Truncate, AppendAll, CutsBack, Wiped, Sized, DenseFile, Tidy;
    AppendTruncate(img, L, ino, datas);
    CutsItself(img, L, ino);
    TruncateNear(img, img, L, ino);
    TidyIsFixed(img, L, ino);
  }

  lemma TidyIsFixed(img: seq<byte>, L: Layout, ino: nat)
    requires DenseFile(img, L, ino)
    ensures Sized(Wiped(img, L, ino), L, InodeAt(img, L, ino).value, SizeOf(img, L, ino)) == img <==>
      Tidy(img, L, ino)
  {
    hide Geometry, InodeAt, U16, U32, Times, FreeIsData, CeilQuot, FreeIsZero, Dense, Sized, WipeTail, InTail;
    var at, size := InodeAt(img, L, ino).value, SizeOf(img, L, ino);
    var w, r := Wiped(img, L, ino), Sized(Wiped(img, L, ino), L, at, size);
    WipeReads(img, img, L, ino, size);
    SizedReads(w, L, at, size);
    if Tidy(img, L, ino) {
      assert w == img;
      SizedFixed(img, L, at);
    }
  }

  lemma SizedFixed(img: seq<byte>, L: Layout, at: nat)
    requires LayoutOf(|img|, L) && at + L.inodeSize <= |img|
    requires U32(img, at + 28) == Times(CeilQuot(U32(img, at + 4), L.bs), SectorsPerBlock(L))
    ensures Sized(img, L, at, U32(img, at + 4)) == img
  {
    hide U32, Times, CeilQuot, Le32;
    Le32Of(img, at + 4);
    Le32Of(img, at + 28);
    SectorsFit(L, U32(img, at + 4));
    assert Put(img, at + 4, Le32(U32(img, at + 4))) == img;
    assert Put(img, at + 28, Le32(U32(img, at + 28))) == img;
  }

  lemma SizedReads(w: seq<byte>, L: Layout, at: nat, size: nat)
    requires LayoutOf(|w|, L) && at + L.inodeSize <= |w| && size < 0x1_0000_0000
    ensures var r := Sized(w, L, at, size);
      && U32(r, at + 4) == size && U32(r, at + 28) == Times(CeilQuot(size, L.bs), SectorsPerBlock(L))
      && forall p :: 0 <= p < |w| && !InSize(at, p) ==> r[p] == w[p]
  {
    hide Times, CeilQuot, U32;
    SectorsFit(L, size);
    var a, b := Le32(size), Le32(Times(CeilQuot(size, L.bs), SectorsPerBlock(L)));
    Put32Read(w, at + 4, size);
    Read32Apart(Put(w, at + 4, a), at + 28, b, at + 4);
    Put32Read(Put(w, at + 4, a), at + 28, Times(CeilQuot(size, L.bs), SectorsPerBlock(L)));
  }
}
