/** Exactly when an append succeeds, and what a refused one leaves behind. */
module Ext2AppendOutcome {
  import opened Wrappers
  import opened Bytes
  import opened Ext2Layout
  import opened Ext2Alloc
  import opened Ext2Areas
  import opened Ext2File
  import opened Ext2Unwind
  import opened Ext2Append
  import opened Ext2Accounting
  import opened Ext2Steps
  import opened Ext2Fs
  import opened Ext2FsAppend
  import opened Ext2FsFile

  /** The free-block count of the superblock. */
  function FreeBlocks(img: seq<byte>): nat
    requires FREE_BLOCKS_AT + 4 <= |img|
  {
    U32(img, FREE_BLOCKS_AT)
  }

  // ----- the count is zero exactly when no block is free -----

  lemma {:induction false} ClearBitExists(img: seq<byte>, L: Layout, g: nat, n: nat) returns (i: nat)
    requires Geometry(img, L) && g < L.groupCount && n <= 8 * L.bs && ClearBits(img, L, BlockKind, g, n) > 0
    ensures i < n && !BitOn(img, L, BlockKind, g, i)
  {
    hide Geometry, BitOn;
    if BitOn(img, L, BlockKind, g, n - 1) { i := ClearBitExists(img, L, g, n - 1); } else { i := n - 1; }
  }

  lemma {:induction false} FreeGroupExists(img: seq<byte>, L: Layout, n: nat) returns (g: nat)
    requires Geometry(img, L) && n <= L.groupCount && FreeUpTo(img, L, BlockKind, n) > 0
    ensures g < n && FreeIn(img, L, BlockKind, g) > 0
  {
    hide Geometry, FreeIn;
    if FreeIn(img, L, BlockKind, n - 1) > 0 { g := n - 1; } else { g := FreeGroupExists(img, L, n - 1); }
  }

  lemma CountMeansFree(img: seq<byte>, L: Layout)
    requires Geometry(img, L) && Accounts(img, L) && FreeBlocks(img) > 0
    ensures !NoFreeBlock(img, L, 0)
  {
    hide Geometry, ClearBits, BitOn, BlockUsed, U32, GroupBalanced, Times;
    var g := FreeGroupExists(img, L, L.groupCount);
    GroupStarts(|img|, L, g);
    var i := ClearBitExists(img, L, g, SpanOf(|img|, L, BlockKind, g));
    LocateOf(|img|, L, g, i);
    var b := L.firstData + Times(g, L.bpg) + i;
    BlockUsedIs(img, L, b);
    assert InRange(L, b) && !BlockUsed(img, L, b);
  }

  /** Under the accounting invariant an allocation succeeds exactly when the count is not zero,
      and lowers it by one. */
  lemma AllocCounts(img: seq<byte>, L: Layout)
    requires Geometry(img, L) && Accounts(img, L)
    ensures FreeBlocks(img) == 0 ==> AllocBlock(img, L) == (Err(Full), img)
    ensures FreeBlocks(img) > 0 ==> AllocBlock(img, L).0.Ok? && FreeBlocks(AllocBlock(img, L).1) == FreeBlocks(img) - 1
  {
    hide Geometry, Accounts, NoFreeBlock, AllocBlockFrom, Take, U32, GroupOfBlock, IndexOfBlock;
    AllocBlockComplete(img, L, 0);
    AllocBlockTakes(img, L, 0);
    if FreeBlocks(img) > 0 { CountMeansFree(img, L); }
    if AllocBlock(img, L).0.Ok? {
      var b := AllocBlock(img, L).0.value;
      BlockPosition(img, L, b);
      TakeBit(img, L, BlockKind, GroupOfBlock(L, b), IndexOfBlock(L, b));
    }
  }

  /** A write to a data block or an inode slot leaves the count. */
  lemma PlainKeepsCount(img: seq<byte>, L: Layout, at: nat, x: seq<byte>)
    requires Geometry(img, L) && at + |x| <= |img| && Plain(img, L, at, |x|)
    ensures FreeBlocks(Put(img, at, x)) == FreeBlocks(img)
  {
    hide Geometry, Put, U32;
    assert ValidMeta(L, Super);
    Read32Apart(img, at, x, FREE_BLOCKS_AT);
  }

  // ----- one turn -----

  /** `r` is `img` with the file at `m` blocks instead of `n`, paid for out of the free blocks. */
  ghost predicate Paid(img: seq<byte>, r: seq<byte>, L: Layout, ino: nat, n: nat, m: nat)
    ensures Paid(img, r, L, ino, n, m) ==>
      Ready(img, L, ino, n) && Ready(r, L, ino, m) && InodeAt(r, L, ino) == InodeAt(img, L, ino) && |r| == |img|
  {
    && Grown(img, r, L, ino, n, m) && n <= m && Accounts(img, L) && Accounts(r, L)
    && |r| == |img| && FREE_BLOCKS_AT + 4 <= |img| && FreeBlocks(img) == FreeBlocks(r) + (m - n)
  }

  lemma PaidTrans(a: seq<byte>, b: seq<byte>, c: seq<byte>, L: Layout, ino: nat, n: nat, m: nat, k: nat)
    requires Paid(a, b, L, ino, n, m) && Paid(b, c, L, ino, m, k)
    ensures Paid(a, c, L, ino, n, k)
  {
    hide Grown, Accounts, Ready, U32;
    GrownTrans(a, b, c, L, ino, n, m, k);
  }

  lemma FillPaid(img: seq<byte>, L: Layout, ino: nat, n: nat, off: nat, chunk: seq<byte>)
    requires Ready(img, L, ino, n) && Accounts(img, L) && 0 < n && off + |chunk| <= L.bs
    ensures var b := Slot(img, L, ino, n - 1);
      BlockAt(L, b) + L.bs <= |img| && Paid(img, Put(img, BlockAt(L, b) + off, chunk), L, ino, n, n)
  {
    hide Geometry, Dense, Times, Accounts, Within, U32, InodeAt, Slot, FreeIsData, DataBlock, BlockUsed, Plain, Grown,
      Put;
    FillStep(img, L, ino, n, off, chunk);
    FillTurn(img, L, ino, n, off, chunk);
    var b := Slot(img, L, ino, n - 1);
    var r := Put(img, BlockAt(L, b) + off, chunk);
    WithinMeans(img, r, L, {b}, {ino});
    LastBlock(img, L, ino, n);
    DataRangePlain(img, L, b, BlockAt(L, b) + off, |chunk|);
    PlainKeepsCount(img, L, BlockAt(L, b) + off, chunk);
  }

  lemma LastBlock(img: seq<byte>, L: Layout, ino: nat, n: nat)
    requires Ready(img, L, ino, n) && 0 < n
    ensures DataBlock(img, L, Slot(img, L, ino, n - 1))
  {
    hide Geometry, Slot, FreeIsData, DataBlock, BlockUsed;
    assert Linked(img, L, Slot(img, L, ino, n - 1));
  }

  lemma LinkPaid(img: seq<byte>, L: Layout, ino: nat, n: nat, chunk: seq<byte>)
    requires Ready(img, L, ino, n) && Accounts(img, L) && n < DIRECT_BLOCK_COUNT && |chunk| <= L.bs
    requires AllocBlock(img, L).0.Ok?
    ensures var b := AllocBlock(img, L).0.value;
      && CanLink(img, L, ino, n, b) && AllocBlock(img, L).1 == Take(img, SiteOfBlock(img, L, b))
      && Paid(img, LinkedImage(img, L, ino, n, b, chunk), L, ino, n, n + 1)
  {
    hide Geometry, Dense, Times, Accounts, Within, U32, InodeAt, Slot, DataBlock, BlockUsed, Plain, Grown, Put, Take,
      Takable, AllocBlockFrom, SiteOfBlock, LinkedImage;
    AllocBlockTakes(img, L, 0);
    AllocCounts(img, L);
    var b := AllocBlock(img, L).0.value;
    TakableIsFree(img, L, b);
    LinkStep(img, L, ino, n, b, chunk);
    LinkTurn(img, L, ino, n, b, chunk);
    var r := LinkedImage(img, L, ino, n, b, chunk);
    WithinMeans(img, r, L, {b}, {ino});
    LinkCount(img, L, ino, n, b, chunk);
  }

  lemma LinkCount(img: seq<byte>, L: Layout, ino: nat, n: nat, b: nat, chunk: seq<byte>)
    requires CanLink(img, L, ino, n, b) && DataBlock(img, L, b) && |chunk| <= L.bs
    ensures FreeBlocks(LinkedImage(img, L, ino, n, b, chunk)) == FreeBlocks(Take(img, SiteOfBlock(img, L, b)))
  {
    hide Geometry, Times, U32, InodeAt, DataBlock, BlockUsed, Plain, Put, Take, Takable, SiteOfBlock, GroupOfBlock,
      IndexOfBlock, Le32;
    DataBlockInside(img, L, b);
    BlockPosition(img, L, b);
    TakeBit(img, L, BlockKind, GroupOfBlock(L, b), IndexOfBlock(L, b));
    var t := Take(img, SiteOfBlock(img, L, b));
    SameAreas(img, t, L);
    var slot := SlotAt(InodeAt(img, L, ino).value, n);
    InodeRangePlain(t, L, ino, slot, 4);
    PlainKeepsCount(t, L, slot, Le32(b));
    PlainPutUsed(t, L, slot, Le32(b));
    var u := Put(t, slot, Le32(b));
    DataRangePlain(u, L, b, BlockAt(L, b), |chunk|);
    PlainKeepsCount(u, L, BlockAt(L, b), chunk);
  }

  // ----- the loop -----

  /** How many blocks the file has when the loop stops. */
  function Reached(n: nat, want: nat, free: nat): nat {
    if want <= DIRECT_BLOCK_COUNT && want <= n + free then want
    else if n + free <= DIRECT_BLOCK_COUNT then n + free
    else DIRECT_BLOCK_COUNT
  }

  lemma {:induction false} LoopOutcome(img: seq<byte>, L: Layout, ino: nat, size: nat, data: seq<byte>)
    requires LayoutOf(|img|, L) && Ready(img, L, ino, CeilQuot(size, L.bs)) && Accounts(img, L)
    ensures var r := AppendLoop(img, L, InodeAt(img, L, ino).value, size, data);
      var n, want, free := CeilQuot(size, L.bs), CeilQuot(size + |data|, L.bs), FreeBlocks(img);
      && (r.0.Ok? <==> want <= DIRECT_BLOCK_COUNT && want <= n + free)
      && (r.0.Err? ==> r.0 == Err(Full))
      && Paid(img, r.1, L, ino, n, Reached(n, want, free))
    decreases |data|
  {
    hide Geometry, Put, Take, U32, InodeAt, Times, SiteOfBlock, LinkedImage, Dense, Grown, Quot, Rem, CeilQuot,
      Accounts, FreeIsData, Paid, CanLink, Target, LayoutOf, IsInode;
    var n, free := CeilQuot(size, L.bs), FreeBlocks(img);
    var want := CeilQuot(size + |data|, L.bs);
    var at := InodeAt(img, L, ino).value;
    if data == [] {
      PaidSelf(img, L, ino, n);
    } else {
      QuotRem(size, L.bs);
      var off := Rem(size, L.bs);
      var take := if L.bs - off < |data| then L.bs - off else |data|;
      CeilStep(size, L.bs, take);
      CeilMonotone(size + take, size + |data|, L.bs);
      if Quot(size, L.bs) >= DIRECT_BLOCK_COUNT || (off == 0 && free == 0) {
        Stuck(img, L, ino, size, data);
        PaidSelf(img, L, ino, n);
      } else {
        var img2 := TurnPaid(img, L, ino, size, data[..take]);
        PaidMeans(img, img2, L, ino, n, CeilQuot(size + take, L.bs));
        LoopOutcome(img2, L, ino, size + take, data[take..]);
        var r := AppendLoop(img2, L, at, size + take, data[take..]);
        LoopStep(img, img2, L, at, size, data);
        PaidTrans(img, img2, r.1, L, ino, n, CeilQuot(size + take, L.bs), Reached(n, want, free));
      }
    }
  }

  lemma PaidSelf(img: seq<byte>, L: Layout, ino: nat, n: nat)
    requires Ready(img, L, ino, n) && Accounts(img, L)
    ensures Paid(img, img, L, ino, n, n)
  {
    hide Grown, Accounts, Geometry, Dense, FreeIsData, U32;
    GrownRefl(img, L, ino, n);
  }

  lemma PaidMeans(img: seq<byte>, r: seq<byte>, L: Layout, ino: nat, n: nat, m: nat)
    requires Paid(img, r, L, ino, n, m)
    ensures Accounts(r, L) && n <= m && FREE_BLOCKS_AT + 4 <= |img| && FreeBlocks(img) == FreeBlocks(r) + (m - n)
  {
    hide Grown, Accounts, U32;
  }

  /** No slot or no block left: the loop answers Full at once. */
  lemma Stuck(img: seq<byte>, L: Layout, ino: nat, size: nat, data: seq<byte>)
    requires LayoutOf(|img|, L) && Ready(img, L, ino, CeilQuot(size, L.bs)) && Accounts(img, L) && data != []
    requires Quot(size, L.bs) >= DIRECT_BLOCK_COUNT || (Rem(size, L.bs) == 0 && FreeBlocks(img) == 0)
    ensures AppendLoop(img, L, InodeAt(img, L, ino).value, size, data) == (Err(Full), img)
  {
    hide Geometry, Put, U32, InodeAt, Dense, Quot, Rem, CeilQuot, Accounts, FreeIsData, AllocBlock;
    AllocCounts(img, L);
  }

  lemma TurnPaid(img: seq<byte>, L: Layout, ino: nat, size: nat, chunk: seq<byte>) returns (img2: seq<byte>)
    requires LayoutOf(|img|, L) && Ready(img, L, ino, CeilQuot(size, L.bs)) && Accounts(img, L)
    requires 0 < |chunk| <= L.bs - Rem(size, L.bs) && Quot(size, L.bs) < DIRECT_BLOCK_COUNT
    requires Rem(size, L.bs) != 0 || FreeBlocks(img) > 0
    ensures var (b, img1) := Target(img, L, InodeAt(img, L, ino).value, size);
      && b.Ok? && BlockAt(L, b.value) + L.bs <= |img|
      && img2 == Put(img1, BlockAt(L, b.value) + Rem(size, L.bs), chunk)
    ensures Paid(img, img2, L, ino, CeilQuot(size, L.bs), CeilQuot(size + |chunk|, L.bs))
  {
    hide Geometry, Put, Take, U16, InodeAt, Times, SiteOfBlock, Dense, Grown, Quot, Rem, CeilQuot, Accounts,
      FreeIsData, AllocBlock, Paid, Takable;
    CeilStep(size, L.bs, |chunk|);
    var n := CeilQuot(size, L.bs);
    var (b, img1) := Target(img, L, InodeAt(img, L, ino).value, size);
    if Rem(size, L.bs) != 0 {
      FillPaid(img, L, ino, n, Rem(size, L.bs), chunk);
    } else {
      AllocCounts(img, L);
      LinkPaid(img, L, ino, n, chunk);
      DataBlockInside(img, L, b.value);
    }
    img2 := Put(img1, BlockAt(L, b.value) + Rem(size, L.bs), chunk);
  }

  /** The loop goes on from the image of its first turn. */
  lemma LoopStep(img: seq<byte>, img2: seq<byte>, L: Layout, at: nat, size: nat, data: seq<byte>)
    requires LayoutOf(|img|, L) && at + L.inodeSize <= |img| && data != [] && Quot(size, L.bs) < DIRECT_BLOCK_COUNT
    requires Rem(size, L.bs) < L.bs
    requires var (b, img1) := Target(img, L, at, size);
      var take := if L.bs - Rem(size, L.bs) < |data| then L.bs - Rem(size, L.bs) else |data|;
      && b.Ok? && BlockAt(L, b.value) + L.bs <= |img|
      && img2 == Put(img1, BlockAt(L, b.value) + Rem(size, L.bs), data[..take])
    ensures var take := if L.bs - Rem(size, L.bs) < |data| then L.bs - Rem(size, L.bs) else |data|;
      AppendLoop(img, L, at, size, data) == AppendLoop(img2, L, at, size + take, data[take..])
  {
    hide Put, Target, Quot, Rem, Times;
  }

  // ----- the theorem -----

  /** The data fits: there are slots and free blocks enough for it. */
  ghost predicate Fits(img: seq<byte>, L: Layout, ino: nat, data: seq<byte>)
    requires FileOk(img, L, ino)
  {
    var want := CeilQuot(SizeOf(img, L, ino) + |data|, L.bs);
    want <= DIRECT_BLOCK_COUNT && want <= CeilQuot(SizeOf(img, L, ino), L.bs) + FreeBlocks(img)
  }

  /** `append_to_file` on a sound image succeeds exactly when the data fits and answers Full
      otherwise. A refused append has linked every block it could get: the size is still the old
      one, and the blocks past it are gone from the free ones. */
  lemma AppendOutcome(img: seq<byte>, L: Layout, ino: nat, data: seq<byte>)
    requires FileOk(img, L, ino)
    ensures var r := Append(img, L, ino, data);
      var n, free := CeilQuot(SizeOf(img, L, ino), L.bs), FreeBlocks(img);
      && (r.0.Ok? <==> Fits(img, L, ino, data))
      && (r.0.Err? ==>
            && r.0 == Err(Full) && Geometry(r.1, L) && SizeOf(r.1, L, ino) == SizeOf(img, L, ino)
            && var m := if n + free <= DIRECT_BLOCK_COUNT then n + free else DIRECT_BLOCK_COUNT;
               n <= m && Dense(r.1, L, ino, m) && FreeBlocks(r.1) == free - (m - n))
  {
    hide Geometry, U32, U16, InodeAt, Fs, Dense, FreeIsData, AppendLoop, Sized, CeilQuot, FileOk, Accounts, Paid,
      SamePointers, KeepsOthers;
    FileReady(img, L, ino);
    FileOkMeans(img, L, ino);
    FsMeans(img, L);
    var at, size := InodeAt(img, L, ino).value, SizeOf(img, L, ino);
    LoopOutcome(img, L, ino, size, data);
    var r := AppendLoop(img, L, at, size, data);
    var n := CeilQuot(size, L.bs);
    if r.0.Err? { PaidFile(img, r.1, L, ino, n, Reached(n, CeilQuot(size + |data|, L.bs), FreeBlocks(img))); }
  }

  lemma PaidFile(img: seq<byte>, r: seq<byte>, L: Layout, ino: nat, n: nat, m: nat)
    requires Paid(img, r, L, ino, n, m)
    ensures Geometry(r, L) && IsInode(L, ino) && Geometry(img, L) && SizeOf(r, L, ino) == SizeOf(img, L, ino)
    ensures Dense(r, L, ino, m) && n <= m && FREE_BLOCKS_AT + 4 <= |img| && FreeBlocks(img) == FreeBlocks(r) + (m - n)
  {
    hide Geometry, InodeAt, Dense, FreeIsData, Accounts, FreeDown;
    var at := InodeAt(img, L, ino).value;
    InodeSlot(img, L, ino);
    SubRange(img, r, at, 40, 4, 4);
    SameSlot(img, r, at + 4);
  }

  // ----- what a refused append leaves -----

  /** The loop that runs out leaves what it would leave of the bytes that fill the blocks it got. */
  lemma {:induction false} RefusedPrefix(img: seq<byte>, L: Layout, ino: nat, size: nat, data: seq<byte>)
    requires LayoutOf(|img|, L) && Ready(img, L, ino, CeilQuot(size, L.bs)) && Accounts(img, L)
    requires AppendLoop(img, L, InodeAt(img, L, ino).value, size, data).0.Err?
    ensures var at, m := InodeAt(img, L, ino).value,
          Reached(CeilQuot(size, L.bs), CeilQuot(size + |data|, L.bs), FreeBlocks(img));
      && size <= Times(m, L.bs) <= size + |data|
      && AppendLoop(img, L, at, size, data[..Times(m, L.bs) - size])
         == (Ok(Times(m, L.bs)), AppendLoop(img, L, at, size, data).1)
    decreases |data|
  {
    hide Geometry, Put, U32, InodeAt, Dense, Quot, Rem, CeilQuot, Accounts, FreeIsData, Paid, Target, Times,
      AppendLoop, LayoutOf;
    LoopOutcome(img, L, ino, size, data);
    var n, free, at := CeilQuot(size, L.bs), FreeBlocks(img), InodeAt(img, L, ino).value;
    var want := CeilQuot(size + |data|, L.bs);
    assert data != [];
    QuotRem(size, L.bs);
    var off := Rem(size, L.bs);
    var take := if L.bs - off < |data| then L.bs - off else |data|;
    CeilStep(size, L.bs, take);
    if Quot(size, L.bs) >= DIRECT_BLOCK_COUNT || (off == 0 && free == 0) {
      CeilMonotone(size + take, size + |data|, L.bs);
      Stuck(img, L, ino, size, data);
      AtTheEnd(n, Quot(size, L.bs), off, free, want, L.bs);
      EmptyLoop(img, L, at, size);
    } else {
      var img2 := TurnPaid(img, L, ino, size, data[..take]);
      PaidMeans(img, img2, L, ino, n, CeilQuot(size + take, L.bs));
      LoopStep(img, img2, L, at, size, data);
      assert take == L.bs - off;
      RefusedPrefix(img2, L, ino, size + take, data[take..]);
      var p := Times(Reached(n, want, free), L.bs) - size;
      Prefixes(data, p, take);
      LoopStep(img, img2, L, at, size, data[..p]);
    }
  }

  lemma EmptyLoop(img: seq<byte>, L: Layout, at: nat, size: nat)
    requires LayoutOf(|img|, L) && at + L.inodeSize <= |img|
    ensures AppendLoop(img, L, at, size, []) == (Ok(size), img)
  {
  }

  lemma Prefixes(data: seq<byte>, p: nat, take: nat)
    requires take <= p <= |data|
    ensures data[..p][..take] == data[..take] && data[..p][take..] == data[take..][..p - take]
  {
  }

  lemma AtTheEnd(n: nat, q: nat, off: nat, free: nat, want: nat, unit: nat)
    requires off < unit && n <= DIRECT_BLOCK_COUNT && want > n && n == (if off == 0 then q else q + 1)
    requires q >= DIRECT_BLOCK_COUNT || (off == 0 && free == 0)
    ensures Reached(n, want, free) == n == q && off == 0
  {
  }

  /** The file has grown past its size into blocks that were free, and its content is the old one
      followed by as much of the data as fits into them. */
  ghost predicate Overgrown(img: seq<byte>, r: seq<byte>, L: Layout, ino: nat, m: nat, data: seq<byte>)
    requires FileOk(img, L, ino)
  {
    var n := CeilQuot(SizeOf(img, L, ino), L.bs);
    && Geometry(r, L) && n <= m && Ready(r, L, ino, m) && SizeOf(r, L, ino) == SizeOf(img, L, ino)
    && (forall j :: 0 <= j < n ==> Slot(r, L, ino, j) == Slot(img, L, ino, j))
    && (forall j :: n <= j < m ==> InRange(L, Slot(r, L, ino, j)) && !BlockUsed(img, L, Slot(r, L, ino, j)))
    && FreeBlocks(img) == FreeBlocks(r) + (m - n)
    && SizeOf(img, L, ino) <= Times(m, L.bs) <= SizeOf(img, L, ino) + |data|
    && Body(r, L, ino, m, m) == Content(img, L, ino) + data[..Times(m, L.bs) - SizeOf(img, L, ino)]
  }

  /** A refused append: the image is sound, nobody else is touched, and the file has taken every
      block it could get, up to its twelve slots, beyond the size it still says. */
  lemma AppendRefused(img: seq<byte>, L: Layout, ino: nat, data: seq<byte>)
    requires FileOk(img, L, ino) && !Fits(img, L, ino, data)
    ensures var r := Append(img, L, ino, data);
      var n, free := CeilQuot(SizeOf(img, L, ino), L.bs), FreeBlocks(img);
      && r.0 == Err(Full) && Fs(r.1, L) && OthersKept(img, r.1, L, {ino})
      && Overgrown(img, r.1, L, ino, if n + free <= DIRECT_BLOCK_COUNT then n + free else DIRECT_BLOCK_COUNT, data)
  {
    hide Geometry, U32, U16, InodeAt, Fs, Dense, FreeIsData, AppendLoop, Sized, CeilQuot, FileOk, Accounts, Paid,
      Extended, OthersKept, Body, Within, Slot, Times, BlockUsed, InodeUsed, DirectoryInode;
    FileReady(img, L, ino);
    FileOkMeans(img, L, ino);
    FsMeans(img, L);
    var at, size := InodeAt(img, L, ino).value, SizeOf(img, L, ino);
    LoopOutcome(img, L, ino, size, data);
    RefusedPrefix(img, L, ino, size, data);
    var r := AppendLoop(img, L, at, size, data).1;
    var n := CeilQuot(size, L.bs);
    var m := Reached(n, CeilQuot(size + |data|, L.bs), FreeBlocks(img));
    var part := data[..Times(m, L.bs) - size];
    AppendLoopExtends(img, L, ino, size, part);
    CeilExact(m, L.bs);
    PaidFile(img, r, L, ino, n, m);
    OvergrownStep(img, r, L, ino, n, m, data, part);
  }

  lemma CeilExact(m: nat, unit: nat)
    requires unit > 0
    ensures CeilQuot(Times(m, unit), unit) == m
  {
    QuotOf(m, unit - 1, unit);
  }

  lemma OvergrownStep(img: seq<byte>, r: seq<byte>, L: Layout, ino: nat, n: nat, m: nat, data: seq<byte>,
      part: seq<byte>)
    requires FileOk(img, L, ino) && n == CeilQuot(SizeOf(img, L, ino), L.bs) && Extended(img, r, L, ino, n, m)
    requires Geometry(r, L) && SizeOf(r, L, ino) == SizeOf(img, L, ino) && Paid(img, r, L, ino, n, m)
    requires SizeOf(img, L, ino) <= Times(m, L.bs) <= SizeOf(img, L, ino) + |data|
    requires part == data[..Times(m, L.bs) - SizeOf(img, L, ino)] && SizeOf(img, L, ino) <= Times(n, L.bs)
    requires Body(r, L, ino, m, m)[..Times(m, L.bs)] == Body(img, L, ino, n, n)[..SizeOf(img, L, ino)] + part
    ensures Fs(r, L) && OthersKept(img, r, L, {ino}) && Overgrown(img, r, L, ino, m, data)
  {
    hide Geometry, U32, U16, InodeAt, Fs, Dense, FreeIsData, CeilQuot, Accounts, Grown, OthersKept, Within, Slot,
      Times, BlockUsed, InodeUsed, DirectoryInode, Linked;
    FileReady(img, L, ino);
    FileOkMeans(img, L, ino);
    PaidMode(img, r, L, ino, n, m);
    AppendSelf(img, r, L, ino, n, m);
  }

  lemma PaidMode(img: seq<byte>, r: seq<byte>, L: Layout, ino: nat, n: nat, m: nat)
    requires Paid(img, r, L, ino, n, m)
    ensures Geometry(img, L) && Geometry(r, L) && IsInode(L, ino)
    ensures DirectoryInode(r, L, ino) <==> DirectoryInode(img, L, ino)
    ensures Slot(r, L, ino, 12) == Slot(img, L, ino, 12)
  {
    hide Geometry, InodeAt, Dense, FreeIsData, Accounts, FreeDown;
    var at := InodeAt(img, L, ino).value;
    InodeSlot(img, L, ino);
    assert r[at] == img[at] && r[at + 1] == img[at + 1];
    SubRange(img, r, at + 88, L.inodeSize - 88, 0, 4);
    SameSlot(img, r, at + 88);
  }

  /** The loop alone, as one step of the invariant. */
  lemma AppendSelf(img: seq<byte>, r: seq<byte>, L: Layout, ino: nat, n: nat, m: nat)
    requires Fs(img, L) && Extended(img, r, L, ino, n, m) && IsUsed(img, L, ino) && !DirectoryInode(r, L, ino)
    requires Slot(r, L, ino, 12) == 0
    ensures Fs(r, L) && OthersKept(img, r, L, {ino})
  {
    hide Geometry, DataBlock, BlockUsed, Slot, InodeUsed, Within, Dense, FreeIsData, InodeAt, Fs, OthersKept;
    WithinSelf(r, L);
    WithinMore(r, r, L, {}, {}, {}, {ino});
    AppendStep(img, r, r, L, ino, n, m);
  }

  /** The last block past the size holds what the data would put there, if there is such a part. */
  ghost predicate TailHolds(img: seq<byte>, L: Layout, ino: nat, data: seq<byte>)
    requires FileOk(img, L, ino)
  {
    var size := SizeOf(img, L, ino);
    var n, off := CeilQuot(size, L.bs), Rem(size, L.bs);
    off == 0 ||
    (0 < n <= DIRECT_BLOCK_COUNT && off <= L.bs && L.bs - off <= |data| &&
     var base := BlockAt(L, Slot(img, L, ino, n - 1));
     base + L.bs <= |img| && img[base + off..base + L.bs] == data[..L.bs - off])
  }

  /** A refused append leaves the image alone exactly when there was no block or no slot for it to
      take and the rest of the last block held the first bytes of the data already. */
  lemma RefusedAppendUnchanged(img: seq<byte>, L: Layout, ino: nat, data: seq<byte>)
    requires FileOk(img, L, ino) && !Fits(img, L, ino, data)
    ensures Append(img, L, ino, data).1 == img <==>
      && (CeilQuot(SizeOf(img, L, ino), L.bs) == DIRECT_BLOCK_COUNT || FreeBlocks(img) == 0)
      && TailHolds(img, L, ino, data)
  {
    hide Geometry, U32, U16, InodeAt, Fs, Dense, FreeIsData, AppendLoop, Sized, CeilQuot, Quot, Rem, FileOk, Accounts,
      Paid, Slot, Times, TailHolds;
    FileReady(img, L, ino);
    FileOkMeans(img, L, ino);
    FsMeans(img, L);
    AppendOutcome(img, L, ino, data);
    var at, size := InodeAt(img, L, ino).value, SizeOf(img, L, ino);
    LoopOutcome(img, L, ino, size, data);
    var n, free := CeilQuot(size, L.bs), FreeBlocks(img);
    if n == DIRECT_BLOCK_COUNT || free == 0 { NoBlockTaken(img, L, ino, data); }
  }

  /** With no block to take, only the rest of the last block is written. */
  lemma TailWritten(img: seq<byte>, L: Layout, ino: nat, size: nat, data: seq<byte>)
    requires LayoutOf(|img|, L) && Ready(img, L, ino, CeilQuot(size, L.bs)) && Accounts(img, L)
    requires CeilQuot(size, L.bs) == DIRECT_BLOCK_COUNT || FreeBlocks(img) == 0
    requires Rem(size, L.bs) != 0 && CeilQuot(size + |data|, L.bs) > CeilQuot(size, L.bs)
    ensures var n, off := CeilQuot(size, L.bs), Rem(size, L.bs);
      && 0 < n && off < L.bs && L.bs - off <= |data|
      && var base := BlockAt(L, Slot(img, L, ino, n - 1));
         && base + L.bs <= |img|
         && AppendLoop(img, L, InodeAt(img, L, ino).value, size, data)
            == (Err(Full), Put(img, base + off, data[..L.bs - off]))
  {
    hide Geometry, U32, InodeAt, Dense, FreeIsData, AppendLoop, CeilQuot, Quot, Rem, Accounts, Paid, Slot, Times, Put,
      Target, LayoutOf;
    var at, n, off := InodeAt(img, L, ino).value, CeilQuot(size, L.bs), Rem(size, L.bs);
    QuotRem(size, L.bs);
    CeilStep(size, L.bs, 1);
    var rest := L.bs - off;
    TailIsShort(size, |data|, L.bs);
    FillPaid(img, L, ino, n, off, data[..rest]);
    var img2 := Put(img, BlockAt(L, Slot(img, L, ino, n - 1)) + off, data[..rest]);
    FillTarget(img, L, ino, size);
    LoopStep(img, img2, L, at, size, data);
    PaidMeans(img, img2, L, ino, n, n);
    BoundaryAfter(size, rest, L.bs);
    Stuck(img2, L, ino, size + rest, data[rest..]);
  }

  lemma NoBlockTaken(img: seq<byte>, L: Layout, ino: nat, data: seq<byte>)
    requires FileOk(img, L, ino) && !Fits(img, L, ino, data)
    requires CeilQuot(SizeOf(img, L, ino), L.bs) == DIRECT_BLOCK_COUNT || FreeBlocks(img) == 0
    ensures AppendLoop(img, L, InodeAt(img, L, ino).value, SizeOf(img, L, ino), data).1 == img <==>
      TailHolds(img, L, ino, data)
  {
    hide Geometry, U32, U16, InodeAt, Fs, Dense, FreeIsData, AppendLoop, CeilQuot, Quot, Rem, FileOk, Accounts, Slot,
      Times, Put;
    FileReady(img, L, ino);
    FileOkMeans(img, L, ino);
    FsMeans(img, L);
    var size := SizeOf(img, L, ino);
    var n, off := CeilQuot(size, L.bs), Rem(size, L.bs);
    assert data != [];
    CeilMonotone(size, size + |data|, L.bs);
    if off == 0 {
      Stuck(img, L, ino, size, data) by { QuotRem(size, L.bs); CeilStep(size, L.bs, 1); }
    } else {
      TailWritten(img, L, ino, size, data);
      PutSameIff(img, BlockAt(L, Slot(img, L, ino, n - 1)) + off, data[..L.bs - off]);
    }
  }

  lemma PutSameIff(img: seq<byte>, at: nat, x: seq<byte>)
    requires at + |x| <= |img|
    ensures Put(img, at, x) == img <==> img[at..at + |x|] == x
  {
    if img[at..at + |x|] == x { assert Put(img, at, x) == img; }
    if Put(img, at, x) == img { assert Put(img, at, x)[at..at + |x|] == x; }
  }

  /** Off a boundary the target is the last block. */
  lemma FillTarget(img: seq<byte>, L: Layout, ino: nat, size: nat)
    requires LayoutOf(|img|, L) && Geometry(img, L) && IsInode(L, ino) && InodeAt(img, L, ino).Some?
    requires Rem(size, L.bs) != 0 && 0 < CeilQuot(size, L.bs) <= DIRECT_BLOCK_COUNT
    requires CeilQuot(size, L.bs) == Quot(size, L.bs) + 1
    ensures Target(img, L, InodeAt(img, L, ino).value, size) == (Ok(Slot(img, L, ino, CeilQuot(size, L.bs) - 1)), img)
  {
    hide Geometry, InodeAt, Quot, Rem, CeilQuot, U32;
  }

  /** Data that does not fit reaches past the last block. */
  lemma TailIsShort(size: nat, len: nat, unit: nat)
    requires unit > 0 && Rem(size, unit) != 0 && CeilQuot(size + len, unit) > CeilQuot(size, unit)
    ensures len > unit - Rem(size, unit)
  {
    hide Quot, Rem, CeilQuot;
    QuotRem(size, unit);
    if 0 < len <= unit - Rem(size, unit) { CeilStep(size, unit, len); }
    CeilStep(size, unit, 1);
  }

  lemma BoundaryAfter(size: nat, rest: nat, unit: nat)
    requires unit > 0 && Rem(size, unit) != 0 && rest == unit - Rem(size, unit)
    ensures Rem(size + rest, unit) == 0
    ensures Quot(size + rest, unit) == CeilQuot(size + rest, unit) == CeilQuot(size, unit)
  {
    hide Quot, Rem, CeilQuot;
    QuotRem(size, unit);
    var q := Quot(size, unit);
    assert Times(q + 1, unit) == Times(q, unit) + unit;
    QuotOf(q + 1, 0, unit);
    CeilStep(size, unit, rest);
    CeilStep(size + rest, unit, 1);
  }
}
