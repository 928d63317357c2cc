/** `truncate_to`, and giving a file back altogether, on a sound image. */
module Ext2FsCut {
  import opened Wrappers
  import opened Bytes
  import opened Ext2Layout
  import opened Ext2Alloc
  import opened Ext2Areas
  import opened Ext2File
  import opened Ext2Unwind
  import opened Ext2Append
  import opened Ext2Accounting
  import opened Ext2Dirent
  import opened Ext2Directory
  import opened Ext2Ops
  import opened Ext2Steps
  import opened Ext2Fs
  import opened Ext2FsAppend
  import opened Ext2FsFile
  import opened Ext2Giving

  /** The blocks in slots `keep` up to `n`. */
  ghost function Tail(img: seq<byte>, L: Layout, ino: nat, keep: nat, n: nat): set<nat>
    requires Geometry(img, L) && IsInode(L, ino) && n <= DIRECT_BLOCK_COUNT
  {
    set j | keep <= j < n :: Slot(img, L, ino, j)
  }

  /** The slot around the 12 direct block numbers is the same. */
  ghost predicate SameAround(img: seq<byte>, r: seq<byte>, L: Layout, ino: nat)
    requires Geometry(img, L) && Geometry(r, L) && IsInode(L, ino)
  {
    && |r| == |img| && InodeAt(img, L, ino).Some? && InodeAt(r, L, ino) == InodeAt(img, L, ino)
    && SameBytes(img, r, InodeAt(img, L, ino).value, 40)
    && SameBytes(img, r, InodeAt(img, L, ino).value + 88, L.inodeSize - 88)
    && (InodeUsed(r, L, ino) <==> InodeUsed(img, L, ino))
  }

  /** `r` is `img` with the file cut from `n` blocks to `keep`. */
  ghost predicate Cut(img: seq<byte>, r: seq<byte>, L: Layout, ino: nat, keep: nat, n: nat)
    ensures Cut(img, r, L, ino, keep, n) ==>
      Geometry(img, L) && Geometry(r, L) && IsInode(L, ino) && keep <= n <= DIRECT_BLOCK_COUNT && Dense(r, L, ino, keep)
  {
    && Geometry(img, L) && Geometry(r, L) && IsInode(L, ino) && keep <= n && Dense(img, L, ino, n)
    && Dense(r, L, ino, keep)
    && Within(img, r, L, Tail(img, L, ino, keep, n), {ino}) && SameAround(img, r, L, ino)
    && (forall j :: 0 <= j < keep ==> Slot(r, L, ino, j) == Slot(img, L, ino, j))
    && (forall j :: keep <= j < n ==> InRange(L, Slot(img, L, ino, j)) && !BlockUsed(r, L, Slot(img, L, ino, j)))
  }

  /** One turn: wipe, unlink and free the last block. It cannot fail. */
  lemma FreeSlotCuts(img: seq<byte>, L: Layout, ino: nat, n: nat)
    requires Geometry(img, L) && Accounts(img, L) && IsInode(L, ino) && 0 < n && Dense(img, L, ino, n)
    requires InodeAt(img, L, ino).Some?
    ensures var r := FreeSlot(img, L, InodeAt(img, L, ino).value, n - 1);
      r.0.Ok? && Cut(img, r.1, L, ino, n - 1, n) && Accounts(r.1, L)
  {
    hide Geometry, Put, Give, U16, U32, Bit, Times, SiteOfBlock, FreeSlot, InodeAt, DataBlock, Within, Accounts,
      BlockUsed, InodeUsed, Givable, Le32, Slot, SameBytes, Dense;
    var at := InodeAt(img, L, ino).value;
    SlotIsLinked(img, L, ino, n, n - 1);
    var b := Slot(img, L, ino, n - 1);
    var r := FreeSlotSteps(img, L, ino, n - 1, b);
    FreeSlotDense(img, L, ino, n);
    assert Tail(img, L, ino, n - 1, n) == {b};
    WithinMeans(img, r, L, {b}, {ino});
  }

  lemma FreeSlotSteps(img: seq<byte>, L: Layout, ino: nat, index: nat, b: nat) returns (r: seq<byte>)
    requires Geometry(img, L) && Accounts(img, L) && IsInode(L, ino) && index < DIRECT_BLOCK_COUNT
    requires InodeAt(img, L, ino).Some?
    requires b == Slot(img, L, ino, index) && Linked(img, L, b) && b != 0
    ensures FreeSlot(img, L, InodeAt(img, L, ino).value, index) == (Ok(()), r)
    ensures Within(img, r, L, {b}, {ino}) && SameAround(img, r, L, ino) && Accounts(r, L) && !BlockUsed(r, L, b)
  {
    hide Geometry, Put, Give, U16, Bit, Times, SiteOfBlock, InodeAt, DataBlock, Within, Accounts, BlockUsed,
      InodeUsed, Givable, Le32, FreeBlock;
    var at := InodeAt(img, L, ino).value;
    var slot, base := SlotAt(at, index), BlockAt(L, b);
    DataBlockInside(img, L, b);
    PutBlock(img, L, b, base, Zeros(L.bs));
    var x := Put(img, base, Zeros(L.bs));
    WithinMeans(img, x, L, {b}, {});
    PutInode(x, L, ino, slot, Le32(0));
    var y := Put(x, slot, Le32(0));
    WithinMeans(x, y, L, {}, {ino});
    FreeBlockSucceeds(y, L, b);
    GiveBlockWithin(y, L, b);
    r := Give(y, SiteOfBlock(y, L, b));
    WithinMeans(y, r, L, {b}, {});
    WithinTrans(img, x, y, L, {b}, {}, {}, {ino});
    WithinTrans(img, y, r, L, {b} + {}, {} + {ino}, {b}, {});
    assert ({b} + {}) + {b} == {b} && ({} + {ino}) + {} == {ino};
    FreeSlotBy(img, L, at, index, b, y);
    AroundKept(img, x, y, r, L, ino, index, b);
  }

  lemma SlotPlace(at: nat, index: nat)
    requires index < DIRECT_BLOCK_COUNT
    ensures at + 40 <= SlotAt(at, index) && SlotAt(at, index) + 4 <= at + 88
  {
  }

  /** A step on one block leaves an inode alone. */
  lemma LeavesInode(img: seq<byte>, x: seq<byte>, L: Layout, ino: nat, b: nat)
    requires Within(img, x, L, {b}, {}) && IsInode(L, ino)
    ensures InodeAt(img, L, ino).Some? && InodeAt(x, L, ino) == InodeAt(img, L, ino)
    ensures SameBytes(img, x, InodeAt(img, L, ino).value, L.inodeSize)
    ensures InodeUsed(x, L, ino) <==> InodeUsed(img, L, ino)
  {
    hide Geometry, InodeAt, Within, InodeUsed, SameBytes;
    WithinMeans(img, x, L, {b}, {});
    InodeSlot(img, L, ino);
    assert InodeUsed(x, L, ino) <==> InodeUsed(img, L, ino);
  }

  lemma RangeKept(img: seq<byte>, x: seq<byte>, y: seq<byte>, r: seq<byte>, at: nat, size: nat, slot: nat, o: nat,
      n: nat)
    requires SameBytes(img, x, at, size) && SameBytes(y, r, at, size) && o + n <= size && slot + 4 <= |x|
    requires Apart(slot, 4, at + o, n)
    requires y == Put(x, slot, Le32(0))
    ensures SameBytes(img, r, at + o, n)
  {
    hide Put, Le32, SameBytes;
    SubRange(img, x, at, size, o, n);
    SameLength(img, x, at, size);
    SameBytesAfterPut(x, slot, Le32(0), at + o, n);
    SubRange(y, r, at, size, o, n);
    Chain(img, x, y, at + o, n);
    Chain(img, y, r, at + o, n);
  }

  lemma SameLength(img: seq<byte>, x: seq<byte>, at: nat, n: nat)
    requires SameBytes(img, x, at, n)
    ensures |x| == |img| && at + n <= |img|
  {
  }

  lemma AroundKept(img: seq<byte>, x: seq<byte>, y: seq<byte>, r: seq<byte>, L: Layout, ino: nat, index: nat, b: nat)
    requires Geometry(img, L) && IsInode(L, ino) && InodeAt(img, L, ino).Some? && index < DIRECT_BLOCK_COUNT
    requires Within(img, x, L, {b}, {}) && Within(y, r, L, {b}, {}) && Within(x, y, L, {}, {ino})
    requires (InodeUsed(y, L, ino) <==> InodeUsed(x, L, ino))
    requires SlotAt(InodeAt(img, L, ino).value, index) + 4 <= |x|
    requires y == Put(x, SlotAt(InodeAt(img, L, ino).value, index), Le32(0))
    ensures SameAround(img, r, L, ino)
  {
    hide Geometry, Put, InodeAt, Within, InodeUsed, Le32, SameBytes, SlotAt;
    var at := InodeAt(img, L, ino).value;
    SlotPlace(at, index);
    LeavesInode(img, x, L, ino, b);
    LeavesInode(y, r, L, ino, b);
    WithinMeans(x, y, L, {}, {ino});
    RangeKept(img, x, y, r, at, L.inodeSize, SlotAt(at, index), 0, 40);
    RangeKept(img, x, y, r, at, L.inodeSize, SlotAt(at, index), 88, L.inodeSize - 88);
  }

  lemma CutSelf(img: seq<byte>, L: Layout, ino: nat, n: nat)
    requires Geometry(img, L) && IsInode(L, ino) && Dense(img, L, ino, n) && InodeAt(img, L, ino).Some?
    ensures Cut(img, img, L, ino, n, n)
  {
    hide Geometry, Within, InodeUsed, Dense, InodeAt, BlockUsed, DataBlock;
    WithinSelf(img, L);
    assert Tail(img, L, ino, n, n) == {};
    WithinMore(img, img, L, {}, {}, {}, {ino});
  }

  lemma CutTrans(a: seq<byte>, b: seq<byte>, c: seq<byte>, L: Layout, ino: nat, keep: nat, n: nat)
    requires 0 < n && Cut(a, b, L, ino, n - 1, n) && Cut(b, c, L, ino, keep, n - 1)
    ensures Cut(a, c, L, ino, keep, n)
  {
    hide Geometry, Within, InodeUsed, InodeAt, BlockUsed, DataBlock, Slot, SameBytes;
    var B, B' := Tail(a, L, ino, n - 1, n), Tail(b, L, ino, keep, n - 1);
    WithinTrans(a, b, c, L, B, {ino}, B', {ino});
    TailSplit(a, b, L, ino, keep, n);
    assert {ino} + {ino} == {ino};
    WithinMeans(b, c, L, B', {ino});
    var at := InodeAt(a, L, ino).value;
    Chain(a, b, c, at, 40);
    Chain(a, b, c, at + 88, L.inodeSize - 88);
    var last := Slot(a, L, ino, n - 1);
    assert last !in B';
    forall j | keep <= j < n
      ensures InRange(L, Slot(a, L, ino, j)) && !BlockUsed(c, L, Slot(a, L, ino, j))
    {
      if j == n - 1 { assert !BlockUsed(b, L, last); } else { assert Slot(b, L, ino, j) == Slot(a, L, ino, j); }
    }
  }

  lemma TailSplit(a: seq<byte>, b: seq<byte>, L: Layout, ino: nat, keep: nat, n: nat)
    requires Geometry(a, L) && Geometry(b, L) && IsInode(L, ino) && keep < n <= DIRECT_BLOCK_COUNT
    requires forall j :: 0 <= j < n - 1 ==> Slot(b, L, ino, j) == Slot(a, L, ino, j)
    ensures Tail(a, L, ino, n - 1, n) + Tail(b, L, ino, keep, n - 1) == Tail(a, L, ino, keep, n)
  {
    hide Geometry, Slot;
    var x, y, z := Tail(a, L, ino, n - 1, n), Tail(b, L, ino, keep, n - 1), Tail(a, L, ino, keep, n);
    forall v | v in z ensures v in x + y {
      var j :| keep <= j < n && Slot(a, L, ino, j) == v;
      if j < n - 1 { assert Slot(b, L, ino, j) == v; }
    }
    forall v | v in x + y ensures v in z {
      if v in y { var j :| keep <= j < n - 1 && Slot(b, L, ino, j) == v; assert Slot(a, L, ino, j) == v; }
    }
  }

  /** The loop of `truncate_to` on a sound image succeeds and cuts the file to `keep` blocks. */
  lemma {:induction false} FreeDownCuts(img: seq<byte>, L: Layout, ino: nat, keep: nat, n: nat)
    requires Geometry(img, L) && Accounts(img, L) && IsInode(L, ino) && keep <= n && Dense(img, L, ino, n)
    requires InodeAt(img, L, ino).Some?
    ensures var r := FreeDown(img, L, InodeAt(img, L, ino).value, keep, n);
      r.0.Ok? && Cut(img, r.1, L, ino, keep, n) && Accounts(r.1, L)
    decreases n
  {
    hide Geometry, InodeAt, Accounts, Dense, FreeSlot, Cut;
    if n == keep {
      CutSelf(img, L, ino, n);
    } else {
      var at := InodeAt(img, L, ino).value;
      FreeSlotCuts(img, L, ino, n);
      var x := FreeSlot(img, L, at, n - 1).1;
      CutPlace(img, x, L, ino, n - 1, n);
      FreeDownCuts(x, L, ino, keep, n - 1);
      CutTrans(img, x, FreeDown(x, L, at, keep, n - 1).1, L, ino, keep, n);
    }
  }

  lemma CutPlace(img: seq<byte>, r: seq<byte>, L: Layout, ino: nat, keep: nat, n: nat)
    requires Cut(img, r, L, ino, keep, n)
    ensures |r| == |img| && InodeAt(img, L, ino).Some? && InodeAt(r, L, ino) == InodeAt(img, L, ino)
  {
    hide Geometry, InodeAt, Within, Dense;
  }

  // ----- truncate_to -----

  /** The head and the indirect slots, read back. */
  lemma AroundReads(img: seq<byte>, r: seq<byte>, L: Layout, ino: nat)
    requires Geometry(img, L) && Geometry(r, L) && IsInode(L, ino) && SameAround(img, r, L, ino)
    ensures SameRest(img, r, L, ino) && SizeOf(r, L, ino) == SizeOf(img, L, ino)
    ensures NodeOf(r, L, ino) == NodeOf(img, L, ino)
  {
    hide Geometry, U32, InodeAt, InodeUsed;
    var at := InodeAt(img, L, ino).value;
    assert r[at] == img[at] && r[at + 1] == img[at + 1] && r[at + 26] == img[at + 26] && r[at + 27] == img[at + 27];
    SubRange(img, r, at, 40, 4, 4);
    SameSlot(img, r, at + 4);
    SubRange(img, r, at + 88, L.inodeSize - 88, 20, 4);
    SameSlot(img, r, at + 108);
    forall j | 12 <= j < 15 ensures Slot(r, L, ino, j) == Slot(img, L, ino, j) {
      SubRange(img, r, at + 88, L.inodeSize - 88, 4 * (j - 12), 4);
      SameSlot(img, r, SlotAt(at, j));
    }
  }

  /** The kept blocks hold what they held. */
  lemma CutBody(img: seq<byte>, r: seq<byte>, L: Layout, ino: nat, keep: nat, n: nat)
    requires Cut(img, r, L, ino, keep, n) && FreeIsData(img, L) && FreeIsData(r, L)
    ensures Body(r, L, ino, keep, keep) == Body(img, L, ino, n, keep)
  {
    hide Geometry, DataBlock, BlockUsed, InodeUsed, Within, FreeIsData, InodeAt, SameBytes, Body, Slot;
    WithinMeans(img, r, L, Tail(img, L, ino, keep, n), {ino});
    forall j | 0 <= j < keep ensures SameBytes(img, r, BlockAt(L, Slot(img, L, ino, j)), L.bs) {
      SlotIsLinked(img, L, ino, n, j);
      assert Slot(img, L, ino, j) !in Tail(img, L, ino, keep, n);
    }
    BodySame(img, r, L, ino, n, keep, keep);
  }

  /** Wiping the rest of the last block touches that block, past the target. */
  lemma WipeTailKeeps(img: seq<byte>, L: Layout, ino: nat, target: nat)
    requires LayoutOf(|img|, L) && Ready(img, L, ino, CeilQuot(target, L.bs))
    requires SlotAt(InodeAt(img, L, ino).value, CeilQuot(target, L.bs)) <= |img|
    ensures var n := CeilQuot(target, L.bs); var r := WipeTail(img, L, InodeAt(img, L, ino).value, target);
      && Ready(r, L, ino, n) && Within(img, r, L, OwnSet(img, L, ino, n), {})
      && (forall j :: 0 <= j < 15 ==> Slot(r, L, ino, j) == Slot(img, L, ino, j))
      && target <= Times(n, L.bs) && Body(r, L, ino, n, n)[..target] == Body(img, L, ino, n, n)[..target]
  {
    hide Geometry, DataBlock, BlockUsed, InodeUsed, Within, FreeIsData, InodeAt, Body, Dense, Put, Times, CeilQuot,
      Quot, Rem, U32;
    var n, tail := CeilQuot(target, L.bs), Rem(target, L.bs);
    var at := InodeAt(img, L, ino).value;
    QuotRem(target, L.bs);
    CeilCovers(target, L.bs);
    var r := WipeTail(img, L, at, target);
    if n == 0 || tail == 0 {
      ExtendedSelf(img, L, ino, n);
      WithinSelf(img, L);
      OwnSetData(img, L, ino, n);
      WithinMore(img, img, L, {}, {}, OwnSet(img, L, ino, n), {});
    } else {
      var b := Slot(img, L, ino, n - 1);
      SlotIsLinked(img, L, ino, n, n - 1);
      DataBlockInside(img, L, b);
      var p, z := BlockAt(L, b) + tail, Zeros(L.bs - tail);
      FillStep(img, L, ino, n, tail, z);
      PutBlock(img, L, b, p, z);
      SlotsStay(img, r, L, ino, b, p, z);
      OwnSetData(img, L, ino, n);
      assert b in OwnSet(img, L, ino, n);
      WithinMore(img, r, L, {b}, {}, OwnSet(img, L, ino, n), {});
      WipedBody(img, L, ino, n, tail, target);
    }
  }

  lemma OwnSetData(img: seq<byte>, L: Layout, ino: nat, n: nat)
    requires Geometry(img, L) && IsInode(L, ino) && Dense(img, L, ino, n)
    ensures forall b :: b in OwnSet(img, L, ino, n) ==> DataBlock(img, L, b)
  {
    hide Geometry, DataBlock, BlockUsed, Slot, Dense;
    forall b | b in OwnSet(img, L, ino, n) ensures DataBlock(img, L, b) {
      var j :| 0 <= j < n && Slot(img, L, ino, j) == b;
      SlotIsLinked(img, L, ino, n, j);
    }
  }

  lemma WipedBody(img: seq<byte>, L: Layout, ino: nat, n: nat, tail: nat, target: nat)
    requires Ready(img, L, ino, n) && 0 < n && tail == Rem(target, L.bs) && 0 < tail < L.bs
    requires n == CeilQuot(target, L.bs)
    requires BlockAt(L, Slot(img, L, ino, n - 1)) + L.bs <= |img|
    requires Ready(Put(img, BlockAt(L, Slot(img, L, ino, n - 1)) + tail, Zeros(L.bs - tail)), L, ino, n)
    ensures target <= Times(n, L.bs)
    ensures var r := Put(img, BlockAt(L, Slot(img, L, ino, n - 1)) + tail, Zeros(L.bs - tail));
      Body(r, L, ino, n, n)[..target] == Body(img, L, ino, n, n)[..target]
  {
    hide Geometry, DataBlock, BlockUsed, FreeIsData, InodeAt, Body, Dense, Times, CeilQuot, Quot, Rem, Within, Put,
      Slot, Turned;
    var b := Slot(img, L, ino, n - 1);
    var r := Put(img, BlockAt(L, b) + tail, Zeros(L.bs - tail));
    FillTurn(img, L, ino, n, tail, Zeros(L.bs - tail));
    TurnedBody(img, r, L, ino, n, n, b, tail, Zeros(L.bs - tail));
    CeilStep(target, L.bs, L.bs - tail);
    QuotRem(target, L.bs);
    CeilCovers(target, L.bs);
    PrefixOfBoth(Body(r, L, ino, n, n), Body(img, L, ino, n, n), target, Zeros(L.bs - tail));
  }

  lemma PrefixOfBoth(x: seq<byte>, y: seq<byte>, target: nat, z: seq<byte>)
    requires target + |z| <= |x| && target <= |y| && x[..target + |z|] == y[..target] + z
    ensures x[..target] == y[..target]
  {
    var all := x[..target + |z|];
    assert all[..target] == x[..target];
  }

  lemma CutClaim(img: seq<byte>, L: Layout, ino: nat, keep: nat, n: nat, B: set<nat>)
    requires Geometry(img, L) && IsUsed(img, L, ino) && Dense(img, L, ino, n) && keep <= n
    requires B <= OwnSet(img, L, ino, n)
    ensures Claim(img, L, B, {ino})
  {
    hide Geometry, DataBlock, BlockUsed, Slot, Dense, Owned, InodeUsed;
    forall b | b in B ensures b != 0 && InRange(L, b) && Owned(img, L, {ino}, b) {
      var j :| 0 <= j < n && Slot(img, L, ino, j) == b;
      SlotIsOwned(img, L, ino, n, j);
    }
  }

  lemma TruncateParts(img: seq<byte>, L: Layout, ino: nat, target: nat)
    requires FileOk(img, L, ino) && target <= SizeOf(img, L, ino)
    ensures var at, size := InodeAt(img, L, ino).value, SizeOf(img, L, ino);
      var keep, n := CeilQuot(target, L.bs), CeilQuot(size, L.bs);
      && keep <= n && SlotAt(at, n) <= |img| && InodeAt(img, L, ino).Some?
      && var x := FreeDown(img, L, at, keep, n);
         x.0.Ok? ==> Truncate(img, L, ino, target) == (Ok(()), Sized(WipeTail(x.1, L, at, target), L, at, target))
  {
    hide Geometry, FileOk, U32, FreeDown, Sized, InodeAt, WipeTail, CeilQuot, Dense;
    FileReady(img, L, ino);
    CeilMonotone(target, SizeOf(img, L, ino), L.bs);
  }

  ghost predicate Shortened(img: seq<byte>, r: seq<byte>, L: Layout, ino: nat, target: nat)
    requires Geometry(img, L) && Geometry(r, L) && IsInode(L, ino) && Direct(img, L, ino) && Direct(r, L, ino)
    requires target <= SizeOf(img, L, ino)
  {
    ContentLength(img, L, ino);
    SizeOf(r, L, ino) == target && Content(r, L, ino) == Content(img, L, ino)[..target]
  }

  lemma ContentLength(img: seq<byte>, L: Layout, ino: nat)
    requires Geometry(img, L) && IsInode(L, ino) && Direct(img, L, ino)
    ensures |Content(img, L, ino)| == SizeOf(img, L, ino)
  {
    hide Geometry, Direct, SizeOf, Body;
    CeilCovers(SizeOf(img, L, ino), L.bs);
  }

  /** Cutting a direct file of a sound image back always succeeds, keeps the image sound,
      leaves exactly the first `target` bytes, and touches nobody else. */
  lemma TruncateKeepsFs(img: seq<byte>, L: Layout, ino: nat, target: nat)
    requires FileOk(img, L, ino) && target <= SizeOf(img, L, ino)
    ensures var at := InodeAt(img, L, ino);
      at.Some? && SlotAt(at.value, CeilQuot(U32(img, at.value + 4), L.bs)) <= |img|
    ensures var t := Truncate(img, L, ino, target);
      && t.0.Ok? && FileOk(t.1, L, ino) && Shortened(img, t.1, L, ino, target) && OthersKept(img, t.1, L, {ino})
      && NodeOf(t.1, L, ino) == NodeOf(img, L, ino) && SectorsRight(t.1, L, ino)
  {
    hide Geometry, DataBlock, BlockUsed, Slot, InodeUsed, Within, Dense, FreeIsData, Owned, U32, U16, FreeDown, Sized,
      InodeAt, Fs, Exclusive, Untouched, CeilQuot, Body, Truncate, FileOk, Cut, OwnRefs, Claim, WipeTail, Accounts,
      Direct, Dirs, SectorsRight;
    FileReady(img, L, ino);
    FileOkMeans(img, L, ino);
    FsMeans(img, L);
    TruncateParts(img, L, ino, target);
    var at, size := InodeAt(img, L, ino).value, SizeOf(img, L, ino);
    var keep, n := CeilQuot(target, L.bs), CeilQuot(size, L.bs);
    var x := FreeDown(img, L, at, keep, n).1;
    FreeDownCuts(img, L, ino, keep, n);
    CutPlace(img, x, L, ino, keep, n);
    CutSame(img, x, L, ino, keep, n);
    CutBody(img, x, L, ino, keep, n);
    WipeTailKeeps(x, L, ino, target);
    var y := WipeTail(x, L, at, target);
    WithinMeans(x, y, L, OwnSet(x, L, ino, keep), {});
    KindStays(x, y, L, OwnSet(x, L, ino, keep), {}, ino);
    SizedWithin(y, L, ino, target);
    var r := Sized(y, L, at, target);
    TruncateStep(img, x, y, r, L, ino, keep, n);
    FsMeans(r, L);
    BodyKept(y, r, L, ino, keep);
    DirectIs(r, L, ino, target);
    FileOkIs(r, L, ino);
    PrefixBody(img, L, ino, n, keep);
    ShortContent(img, r, L, ino, target, keep, n);
  }

  /** Cutting a file back succeeds exactly when it would not lengthen it, and is refused otherwise with
      nothing changed. */
  lemma TruncateOutcome(img: seq<byte>, L: Layout, ino: nat, target: nat)
    requires FileOk(img, L, ino)
    ensures var at := InodeAt(img, L, ino);
      at.Some? && SlotAt(at.value, CeilQuot(U32(img, at.value + 4), L.bs)) <= |img|
    ensures Truncate(img, L, ino, target).0.Ok? <==> target <= SizeOf(img, L, ino)
    ensures target > SizeOf(img, L, ino) ==> Truncate(img, L, ino, target) == (Err(NotAllocated(ino)), img)
  {
    hide Geometry, Fs, FileOk, InodeAt, U32, FreeDown, CeilQuot, Sized, WipeTail, OthersKept, Shortened, SectorsRight,
      NodeOf, Dense;
    FileReady(img, L, ino);
    if target <= SizeOf(img, L, ino) {
      TruncateKeepsFs(img, L, ino, target);
    } else {
      TruncateKeepsFs(img, L, ino, 0);
    }
  }

  lemma KindStays(x: seq<byte>, y: seq<byte>, L: Layout, B: set<nat>, I: set<nat>, ino: nat)
    requires Within(x, y, L, B, I) && IsInode(L, ino) && ino !in I
    ensures NodeOf(y, L, ino) == NodeOf(x, L, ino) && (IsUsed(y, L, ino) <==> IsUsed(x, L, ino))
  {
    hide Geometry, Within, InodeAt, InodeUsed;
    WithinMeans(x, y, L, B, I);
    InodeSlot(x, L, ino);
    var at := InodeAt(x, L, ino).value;
    assert SameBytes(x, y, at, L.inodeSize);
    assert y[at] == x[at] && y[at + 1] == x[at + 1] && y[at + 26] == x[at + 26] && y[at + 27] == x[at + 27];
    assert InodeUsed(y, L, ino) <==> InodeUsed(x, L, ino);
  }

  lemma CutSame(img: seq<byte>, x: seq<byte>, L: Layout, ino: nat, keep: nat, n: nat)
    requires Cut(img, x, L, ino, keep, n) && FreeIsData(img, L)
    ensures SameRest(img, x, L, ino) && NodeOf(x, L, ino) == NodeOf(img, L, ino)
    ensures Ready(x, L, ino, keep) && (IsUsed(x, L, ino) <==> IsUsed(img, L, ino))
  {
    hide Geometry, Within, Dense, FreeIsData, DataBlock, BlockUsed, InodeAt, Slot, InodeUsed, U16, U32;
    AroundReads(img, x, L, ino);
    FreeDataStep(img, x, L, Tail(img, L, ino, keep, n), {ino});
  }

  lemma DirectIs(r: seq<byte>, L: Layout, ino: nat, target: nat)
    requires Geometry(r, L) && IsInode(L, ino) && Dense(r, L, ino, CeilQuot(target, L.bs))
    requires SizeOf(r, L, ino) == target && Slot(r, L, ino, 12) == 0
    ensures Direct(r, L, ino)
  {
  }

  lemma PrefixBody(img: seq<byte>, L: Layout, ino: nat, n: nat, keep: nat)
    requires Geometry(img, L) && IsInode(L, ino) && Dense(img, L, ino, n) && keep <= n
    ensures |Body(img, L, ino, n, keep)| <= |Body(img, L, ino, n, n)|
    ensures Body(img, L, ino, n, keep) == Body(img, L, ino, n, n)[..|Body(img, L, ino, n, keep)|]
    decreases n - keep
  {
    hide Geometry, Dense, Times;
    BodyGrows(img, L, ino, n, keep, n);
  }

  lemma {:induction false} BodyGrows(img: seq<byte>, L: Layout, ino: nat, n: nat, keep: nat, k: nat)
    requires Geometry(img, L) && IsInode(L, ino) && Dense(img, L, ino, n) && keep <= k <= n
    ensures |Body(img, L, ino, n, keep)| <= |Body(img, L, ino, n, k)|
    ensures Body(img, L, ino, n, keep) == Body(img, L, ino, n, k)[..|Body(img, L, ino, n, keep)|]
    decreases k
  {
    hide Geometry, Times, BlockUsed, DataBlock, Slot;
    if keep < k {
      BodyGrows(img, L, ino, n, keep, k - 1);
      assert Linked(img, L, Slot(img, L, ino, k - 1));
      DataBlockInside(img, L, Slot(img, L, ino, k - 1));
    }
  }

  lemma ShortContent(img: seq<byte>, r: seq<byte>, L: Layout, ino: nat, target: nat, keep: nat, n: nat)
    requires Geometry(img, L) && Geometry(r, L) && IsInode(L, ino) && Direct(img, L, ino) && Direct(r, L, ino)
    requires SizeOf(r, L, ino) == target <= SizeOf(img, L, ino)
    requires keep == CeilQuot(target, L.bs) <= n == CeilQuot(SizeOf(img, L, ino), L.bs)
    requires Dense(img, L, ino, n) && Dense(r, L, ino, keep) && target <= Times(keep, L.bs)
    requires Body(r, L, ino, keep, keep)[..target] == Body(img, L, ino, n, keep)[..target]
    requires |Body(img, L, ino, n, keep)| <= |Body(img, L, ino, n, n)|
    requires Body(img, L, ino, n, keep) == Body(img, L, ino, n, n)[..|Body(img, L, ino, n, keep)|]
    ensures Shortened(img, r, L, ino, target)
  {
    hide Geometry, Dense, Times, Body, CeilQuot, SizeOf;
    ContentLength(img, L, ino);
  }

  lemma TruncateStep(img: seq<byte>, x: seq<byte>, y: seq<byte>, r: seq<byte>, L: Layout, ino: nat, keep: nat, n: nat)
    requires Fs(img, L) && IsUsed(img, L, ino) && Cut(img, x, L, ino, keep, n) && Ready(y, L, ino, keep)
    requires Within(x, y, L, OwnSet(x, L, ino, keep), {}) && Within(y, r, L, {}, {ino}) && !DirectoryInode(r, L, ino)
    requires forall j :: 0 <= j < 15 ==> Slot(r, L, ino, j) == Slot(y, L, ino, j) == Slot(x, L, ino, j)
    requires Slot(x, L, ino, 12) == 0
    ensures Fs(r, L) && OthersKept(img, r, L, {ino}) && Dense(r, L, ino, keep)
  {
    hide Geometry, DataBlock, BlockUsed, Slot, InodeUsed, Within, FreeIsData, Owned, InodeAt, Exclusive, Untouched,
      Fs, Claim, OwnRefs, SameAround, Dense;
    var A, B := Tail(img, L, ino, keep, n), OwnSet(x, L, ino, keep);
    WithinTrans(img, x, y, L, A, {ino}, B, {});
    WithinTrans(img, y, r, L, A + B, {ino} + {}, {}, {ino});
    assert (A + B) + {} == A + B && ({ino} + {}) + {ino} == {ino};
    assert A + B <= OwnSet(img, L, ino, n) by {
      forall b | b in A + B ensures b in OwnSet(img, L, ino, n) {
        if b in A { var j :| keep <= j < n && Slot(img, L, ino, j) == b; }
        else { var j :| 0 <= j < keep && Slot(x, L, ino, j) == b; assert Slot(img, L, ino, j) == b; }
      }
    }
    assert Dense(img, L, ino, n);
    CutClaim(img, L, ino, keep, n, A + B);
    DenseMoves(y, r, L, ino, keep);
    FsMeans(img, L);
    forall j | 0 <= j < keep
      ensures InRange(L, Slot(r, L, ino, j)) && Owned(img, L, {ino}, Slot(r, L, ino, j))
    {
      SlotIsOwned(img, L, ino, n, j);
    }
    DirectRefs(img, r, L, ino, keep);
    FsStepAlone(img, r, L, A + B, ino);
  }
}
