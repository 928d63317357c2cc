/** Appending on a sound image: what is written, what it is written to, and that nothing else
    moves. */
module Ext2FsAppend {
  import opened Bytes
  import opened Ext2Layout
  import opened Ext2Alloc
  import opened Ext2Areas
  import opened Ext2File
  import opened Ext2Unwind
  import opened Ext2Append
  import opened Ext2Dirent
  import opened Ext2Directory
  import opened Ext2Steps
  import opened Ext2Fs

  // ----- the bytes of a dense file -----

  /** The first `k` blocks of a file that has `n`, end to end. */
  ghost function Body(img: seq<byte>, L: Layout, ino: nat, n: nat, k: nat): (s: seq<byte>)
    requires Geometry(img, L) && IsInode(L, ino) && Dense(img, L, ino, n) && k <= n
    ensures |s| == Times(k, L.bs)
  {
    if k == 0 then []
    else
      assert Linked(img, L, Slot(img, L, ino, k - 1));
      var b := Slot(img, L, ino, k - 1);
      DataBlockInside(img, L, b);
      Body(img, L, ino, n, k - 1) + img[BlockAt(L, b)..BlockAt(L, b) + L.bs]
  }

  lemma {:induction false} BodySame(img: seq<byte>, r: seq<byte>, L: Layout, ino: nat, n: nat, m: nat, k: nat)
    requires Ready(img, L, ino, n) && Ready(r, L, ino, m) && k <= n && k <= m
    requires forall j :: 0 <= j < k ==>
      Slot(r, L, ino, j) == Slot(img, L, ino, j) && SameBytes(img, r, BlockAt(L, Slot(img, L, ino, j)), L.bs)
    ensures Body(r, L, ino, m, k) == Body(img, L, ino, n, k)
  {
    hide Geometry, Dense, Slot, Times, FreeIsData, BlockUsed, DataBlock;
    if k > 0 {
      BodySame(img, r, L, ino, n, m, k - 1);
      BodyStep(img, L, ino, n, k);
      BodyStep(r, L, ino, m, k);
      var b := Slot(img, L, ino, k - 1);
      assert img[BlockAt(L, b)..BlockAt(L, b) + L.bs] == r[BlockAt(L, b)..BlockAt(L, b) + L.bs];
    }
  }

  lemma BodyStep(img: seq<byte>, L: Layout, ino: nat, n: nat, k: nat)
    requires Ready(img, L, ino, n) && 0 < k <= n
    ensures var b := Slot(img, L, ino, k - 1);
      && Linked(img, L, b) && b != 0 && BlockAt(L, b) + L.bs <= |img|
      && Body(img, L, ino, n, k) == Body(img, L, ino, n, k - 1) + img[BlockAt(L, b)..BlockAt(L, b) + L.bs]
  {
    hide Geometry, Times, FreeIsData, BlockUsed, DataBlock, Slot;
    var b := Slot(img, L, ino, k - 1);
    assert Linked(img, L, b);
    DataBlockInside(img, L, b);
    DataNotZero(img, L, b);
  }

  // ----- one turn of the loop -----

  /** `r` is `img` after one turn: `chunk` went into block `b`, at the end of the file. */
  ghost predicate Turned(img: seq<byte>, r: seq<byte>, L: Layout, ino: nat, n: nat, m: nat, b: nat, off: nat,
      chunk: seq<byte>)
    ensures Turned(img, r, L, ino, n, m, b, off, chunk) ==> Ready(img, L, ino, n) && Ready(r, L, ino, m)
  {
    && Ready(img, L, ino, n) && Ready(r, L, ino, m) && Within(img, r, L, {b}, {ino})
    && (m == n || (m == n + 1 && off == 0 && InRange(L, b) && !BlockUsed(img, L, b))) && 0 < m
    && b == Slot(r, L, ino, m - 1)
    && (forall j :: 0 <= j < n ==> Slot(r, L, ino, j) == Slot(img, L, ino, j))
    && off + |chunk| <= L.bs && BlockAt(L, b) + L.bs <= |img|
    && SameBytes(img, r, BlockAt(L, b), off) && r[BlockAt(L, b) + off..BlockAt(L, b) + off + |chunk|] == chunk
  }

  /** After a turn the file reads as before, with the chunk at its end. */
  lemma TurnedBody(img: seq<byte>, r: seq<byte>, L: Layout, ino: nat, n: nat, m: nat, b: nat, off: nat,
      chunk: seq<byte>)
    requires Turned(img, r, L, ino, n, m, b, off, chunk)
    ensures var size := Times(m - 1, L.bs) + off;
      && size <= Times(n, L.bs) && size + |chunk| <= Times(m, L.bs)
      && Body(r, L, ino, m, m)[..size + |chunk|] == Body(img, L, ino, n, n)[..size] + chunk
  {
    hide Geometry, Dense, Slot, Times, FreeIsData, BlockUsed, DataBlock, Within, Body, InodeAt, U32, LayoutOf,
      SameBytes;
    WithinMeans(img, r, L, {b}, {ino});
    OtherBlocksSame(img, r, L, ino, n, m, b, off, chunk);
    BodySame(img, r, L, ino, n, m, m - 1);
    BodyStep(r, L, ino, m, m);
    var base := BlockAt(L, b);
    TimesStep(m, L.bs);
    var prefix, before := Body(img, L, ino, n, m - 1), Body(img, L, ino, n, n);
    if m == n {
      BodyStep(img, L, ino, n, n);
      assert before == prefix + img[base..base + L.bs];
    } else {
      assert before == prefix + [];
    }
    Spliced(prefix, Body(r, L, ino, m, m), before, img, r, base, L.bs, off, chunk);
  }

  /** The same in terms of sequences: a last block that keeps `off` bytes and takes `chunk`. */
  lemma Spliced(prefix: seq<byte>, after: seq<byte>, before: seq<byte>, img: seq<byte>, r: seq<byte>, base: nat,
      bs: nat, off: nat, chunk: seq<byte>)
    requires off + |chunk| <= bs && base + bs <= |r| == |img| && after == prefix + r[base..base + bs]
    requires before == prefix + img[base..base + bs] || (off == 0 && before == prefix + [])
    requires SameBytes(img, r, base, off) && r[base + off..base + off + |chunk|] == chunk
    ensures |prefix| + off <= |before| && |prefix| + off + |chunk| <= |after|
    ensures after[..|prefix| + off + |chunk|] == before[..|prefix| + off] + chunk
  {
    var x := after[..|prefix| + off + |chunk|];
    assert before[..|prefix| + off] == prefix + img[base..base + off];
    assert x == prefix + (r[base..base + off] + r[base + off..base + off + |chunk|]);
    assert r[base..base + off] == img[base..base + off];
  }

  lemma TimesStep(m: nat, unit: nat)
    requires m > 0
    ensures Times(m, unit) == Times(m - 1, unit) + unit
  {
  }

  lemma OtherBlocksSame(img: seq<byte>, r: seq<byte>, L: Layout, ino: nat, n: nat, m: nat, b: nat, off: nat,
      chunk: seq<byte>)
    requires Turned(img, r, L, ino, n, m, b, off, chunk)
    ensures m - 1 <= n
    ensures forall j :: 0 <= j < m - 1 ==> SameBytes(img, r, BlockAt(L, Slot(img, L, ino, j)), L.bs)
  {
    hide Geometry, Slot, Times, FreeIsData, BlockUsed, DataBlock, Within, SameBytes;
    WithinMeans(img, r, L, {b}, {ino});
    forall j | 0 <= j < m - 1 ensures SameBytes(img, r, BlockAt(L, Slot(img, L, ino, j)), L.bs) {
      assert Slot(r, L, ino, j) != Slot(r, L, ino, m - 1);
      assert Linked(img, L, Slot(img, L, ino, j));
    }
  }

  lemma FillTurn(img: seq<byte>, L: Layout, ino: nat, n: nat, off: nat, chunk: seq<byte>)
    requires Ready(img, L, ino, n) && 0 < n && off + |chunk| <= L.bs
    ensures var b := Slot(img, L, ino, n - 1);
      BlockAt(L, b) + L.bs <= |img| && Turned(img, Put(img, BlockAt(L, b) + off, chunk), L, ino, n, n, b, off, chunk)
  {
    hide Geometry, Dense, Times, FreeIsData, BlockUsed, DataBlock, Within, KeepsOthers, U32, InodeAt, FreeDown,
      FreeIsZero;
    FillStep(img, L, ino, n, off, chunk);
    BodyStep(img, L, ino, n, n);
    var b := Slot(img, L, ino, n - 1);
    var p := BlockAt(L, b) + off;
    var r := Put(img, p, chunk);
    PutBlock(img, L, b, p, chunk);
    WithinMore(img, r, L, {b}, {}, {b}, {ino});
    SlotsStay(img, r, L, ino, b, p, chunk);
  }

  lemma LinkTurn(img: seq<byte>, L: Layout, ino: nat, n: nat, b: nat, chunk: seq<byte>)
    requires Ready(img, L, ino, n) && n < DIRECT_BLOCK_COUNT && InRange(L, b) && |chunk| <= L.bs
    requires Takable(img, SiteOfBlock(img, L, b)) && !BlockUsed(img, L, b)
    ensures Turned(img, LinkedImage(img, L, ino, n, b, chunk), L, ino, n, n + 1, b, 0, chunk)
  {
    hide Geometry, Dense, Times, BlockUsed, DataBlock, Within, KeepsOthers, U32, InodeAt, FreeDown, FreeIsZero, Take,
      Takable, SiteOfBlock, Put, Le32, LinkedImage;
    LinkStep(img, L, ino, n, b, chunk);
    var r := LinkedImage(img, L, ino, n, b, chunk);
    assert DataBlock(img, L, b);
    LinkWithin(img, L, ino, n, b, chunk);
    LinkSlots(img, L, ino, n, b, chunk);
  }

  lemma LinkWithin(img: seq<byte>, L: Layout, ino: nat, n: nat, b: nat, chunk: seq<byte>)
    requires CanLink(img, L, ino, n, b) && DataBlock(img, L, b) && |chunk| <= L.bs
    ensures var r := LinkedImage(img, L, ino, n, b, chunk);
      Within(img, r, L, {b}, {ino}) && BlockAt(L, b) + L.bs <= |img| && SameBytes(img, r, BlockAt(L, b), 0)
      && r[BlockAt(L, b)..BlockAt(L, b) + |chunk|] == chunk
  {
    hide Geometry, Times, BlockUsed, DataBlock, Within, U32, InodeAt, Take, Takable, SiteOfBlock, Le32;
    DataBlockInside(img, L, b);
    TakeBlockWithin(img, L, b);
    var t := Take(img, SiteOfBlock(img, L, b));
    WithinMeans(img, t, L, {b}, {});
    var slot := SlotAt(InodeAt(img, L, ino).value, n);
    PutInode(t, L, ino, slot, Le32(b));
    var u := Put(t, slot, Le32(b));
    WithinMeans(t, u, L, {}, {ino});
    PutBlock(u, L, b, BlockAt(L, b), chunk);
    WithinTrans(img, t, u, L, {b}, {}, {}, {ino});
    var r := Put(u, BlockAt(L, b), chunk);
    WithinTrans(img, u, r, L, {b} + {}, {} + {ino}, {b}, {});
    assert {b} + {} + {b} == {b} && ({} + {ino}) + {} == {ino};
  }

  // ----- the whole loop -----

  ghost function OwnSet(img: seq<byte>, L: Layout, ino: nat, n: nat): set<nat>
    requires Geometry(img, L) && IsInode(L, ino) && n <= DIRECT_BLOCK_COUNT
  {
    set j | 0 <= j < n :: Slot(img, L, ino, j)
  }

  /** From `n` to `m` blocks: only the file's own blocks are touched, old ones stay where they
      are, new ones were free. */
  ghost predicate Extended(img: seq<byte>, r: seq<byte>, L: Layout, ino: nat, n: nat, m: nat)
    ensures Extended(img, r, L, ino, n, m) ==> Ready(img, L, ino, n) && Ready(r, L, ino, m) && n <= m
  {
    && Ready(img, L, ino, n) && Ready(r, L, ino, m) && n <= m
    && Within(img, r, L, OwnSet(r, L, ino, m), {ino})
    && (forall j :: 0 <= j < n ==> Slot(r, L, ino, j) == Slot(img, L, ino, j))
    && (forall j :: n <= j < m ==> InRange(L, Slot(r, L, ino, j)) && !BlockUsed(img, L, Slot(r, L, ino, j)))
  }

  lemma ExtendedSelf(img: seq<byte>, L: Layout, ino: nat, n: nat)
    requires Ready(img, L, ino, n)
    ensures Extended(img, img, L, ino, n, n)
  {
    hide Geometry, Times, BlockUsed, DataBlock, Within, Slot, FreeIsData;
    WithinSelf(img, L);
    forall b | b in OwnSet(img, L, ino, n) ensures DataBlock(img, L, b) {
      var j :| 0 <= j < n && Slot(img, L, ino, j) == b;
      assert Linked(img, L, Slot(img, L, ino, j));
    }
    WithinMore(img, img, L, {}, {}, OwnSet(img, L, ino, n), {ino});
  }

  lemma ExtendedStep(img: seq<byte>, x: seq<byte>, r: seq<byte>, L: Layout, ino: nat, n: nat, m: nat, k: nat, b: nat,
      off: nat, chunk: seq<byte>)
    requires Turned(img, x, L, ino, n, m, b, off, chunk) && Extended(x, r, L, ino, m, k)
    ensures Extended(img, r, L, ino, n, k)
  {
    hide Geometry, Times, BlockUsed, DataBlock, Within, Slot, FreeIsData, Dense;
    var B := OwnSet(r, L, ino, k);
    assert Slot(r, L, ino, m - 1) == b;
    assert b in B;
    WithinTrans(img, x, r, L, {b}, {ino}, B, {ino});
    assert {b} + B == B && {ino} + {ino} == {ino};
    WithinMeans(img, x, L, {b}, {ino});
    forall j | n <= j < k
      ensures InRange(L, Slot(r, L, ino, j)) && !BlockUsed(img, L, Slot(r, L, ino, j))
    {
      if j >= m {
        var c := Slot(r, L, ino, j);
        assert !BlockUsed(x, L, c);
        TurnedUses(img, x, L, ino, n, m, b, off, chunk);
      }
    }
  }

  lemma TurnedUses(img: seq<byte>, x: seq<byte>, L: Layout, ino: nat, n: nat, m: nat, b: nat, off: nat,
      chunk: seq<byte>)
    requires Turned(img, x, L, ino, n, m, b, off, chunk)
    ensures InRange(L, b) && BlockUsed(x, L, b)
  {
    hide Geometry, Times, BlockUsed, DataBlock, Within, Slot, FreeIsData;
    assert Linked(x, L, Slot(x, L, ino, m - 1));
  }

  /** One turn of `AppendLoop`, as the image it leaves. */
  lemma TurnImage(img: seq<byte>, L: Layout, ino: nat, size: nat,
      chunk: seq<byte>) returns (img2: seq<byte>, block: nat)
    requires LayoutOf(|img|, L) && Ready(img, L, ino, CeilQuot(size, L.bs)) && 0 < |chunk| <= L.bs - Rem(size, L.bs)
    requires Quot(size, L.bs) < DIRECT_BLOCK_COUNT && Target(img, L, InodeAt(img, L, ino).value, size).0.Ok?
    ensures var (b, img1) := Target(img, L, InodeAt(img, L, ino).value, size);
      && BlockAt(L, b.value) + L.bs <= |img|
      && img2 == Put(img1, BlockAt(L, b.value) + Rem(size, L.bs), chunk)
    ensures Turned(img, img2, L, ino, CeilQuot(size, L.bs), CeilQuot(size + |chunk|, L.bs), block, Rem(size, L.bs),
          chunk)
    ensures size == Times(CeilQuot(size + |chunk|, L.bs) - 1, L.bs) + Rem(size, L.bs)
  {
    hide Geometry, Put, Take, U16, InodeAt, DataBlock, Times, SiteOfBlock, BitOn, Plain, Dense, Turned, Quot, Rem,
      CeilQuot, GroupOfBlock, IndexOfBlock;
    var at := InodeAt(img, L, ino).value;
    var n := CeilQuot(size, L.bs);
    CeilStep(size, L.bs, |chunk|);
    QuotRem(size, L.bs);
    var (b, img1) := Target(img, L, at, size);
    block := b.value;
    if Rem(size, L.bs) != 0 {
      FillTurn(img, L, ino, n, Rem(size, L.bs), chunk);
      img2 := Put(img1, BlockAt(L, b.value) + Rem(size, L.bs), chunk);
    } else {
      AllocBlockTakes(img, L, 0);
      DataBlockInside(img, L, b.value);
      img2 := Put(img1, BlockAt(L, b.value) + Rem(size, L.bs), chunk);
      TakableIsFree(img, L, b.value);
      LinkTurn(img, L, ino, n, b.value, chunk);
    }
  }

  /** The loop of `append_to_file` writes exactly `data` after the first `size` bytes, into
      blocks that were the file's own or free. */
  lemma {:induction false} AppendLoopExtends(img: seq<byte>, L: Layout, ino: nat, size: nat, data: seq<byte>)
    requires LayoutOf(|img|, L) && Ready(img, L, ino, CeilQuot(size, L.bs))
    requires AppendLoop(img, L, InodeAt(img, L, ino).value, size, data).0.Ok?
    ensures var r := AppendLoop(img, L, InodeAt(img, L, ino).value, size, data).1;
      var n, m := CeilQuot(size, L.bs), CeilQuot(size + |data|, L.bs);
      && Extended(img, r, L, ino, n, m)
      && size <= Times(n, L.bs) && size + |data| <= Times(m, L.bs)
      && Body(r, L, ino, m, m)[..size + |data|] == Body(img, L, ino, n, n)[..size] + data
    decreases |data|
  {
    hide Geometry, Put, Take, U32, U16, InodeAt, DataBlock, Times, SiteOfBlock, BitOn, Extended, Turned, Dense, Quot,
      Rem, CeilQuot, Body, Target, FreeIsData, LayoutOf, IsInode;
    var n := CeilQuot(size, L.bs);
    if data == [] {
      ExtendedSelf(img, L, ino, n);
      CeilCovers(size, L.bs);
      assert Body(img, L, ino, n, n)[..size] + data == Body(img, L, ino, n, n)[..size];
    } else {
      var at := InodeAt(img, L, ino).value;
      QuotRem(size, L.bs);
      var off := Rem(size, L.bs);
      var take := if L.bs - off < |data| then L.bs - off else |data|;
      var chunk, rest := data[..take], data[take..];
      var m := CeilQuot(size + take, L.bs);
      var img2, block := TurnImage(img, L, ino, size, chunk);
      SameInodeAt(img, img2, L, ino, n, m, block, off, chunk);
      TurnedBody(img, img2, L, ino, n, m, block, off, chunk);
      AppendLoopExtends(img2, L, ino, size + take, rest);
      var r := AppendLoop(img2, L, at, size + take, rest).1;
      var k := CeilQuot(size + take + |rest|, L.bs);
      ExtendedStep(img, img2, r, L, ino, n, m, k, block, off, chunk);
      assert chunk + rest == data;
      Assemble(Body(r, L, ino, k, k), Body(img2, L, ino, m, m), Body(img, L, ino, n, n), size, chunk, rest, data);
    }
  }

  lemma Assemble(r: seq<byte>, x: seq<byte>, s: seq<byte>, size: nat, chunk: seq<byte>, rest: seq<byte>,
      data: seq<byte>)
    requires size <= |s| && size + |chunk| <= |x| && size + |chunk| + |rest| <= |r| && chunk + rest == data
    requires x[..size + |chunk|] == s[..size] + chunk && r[..size + |chunk| + |rest|] == x[..size + |chunk|] + rest
    ensures size + |data| <= |r| && r[..size + |data|] == s[..size] + data
  {
  }

  lemma CeilCovers(size: nat, unit: nat)
    requires unit > 0
    ensures size <= Times(CeilQuot(size, unit), unit)
  {
    QuotRem(size + (unit - 1), unit);
  }

  lemma SameInodeAt(img: seq<byte>, r: seq<byte>, L: Layout, ino: nat, n: nat, m: nat, b: nat, off: nat,
      chunk: seq<byte>)
    requires Turned(img, r, L, ino, n, m, b, off, chunk)
    ensures |r| == |img| && InodeAt(r, L, ino) == InodeAt(img, L, ino)
  {
    hide Geometry, Within, InodeAt, Dense, FreeIsData;
    WithinMeans(img, r, L, {b}, {ino});
  }
}
