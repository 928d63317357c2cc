/** Appending to a file and cutting it back, on direct blocks. */
module Ext2File {
  import opened Wrappers
  import opened Bytes
  import opened Ext2Layout
  import opened Ext2Alloc

  /** Offset of `i_block[index]` for the inode at `inode`. */
  function SlotAt(inode: nat, index: nat): nat {
    inode + 40 + index * 4
  }

  /** `used * sectors_per_block` fits the `u32` field for every `u32` size. */
  lemma SectorsFit(L: Layout, size: nat)
    requires L.bs in {1024, 2048, 4096, 8192, 16384, 32768, 65536} && size < 0x1_0000_0000
    ensures Times(CeilQuot(size, L.bs), SectorsPerBlock(L)) < 0x1_0000_0000
  {
    var used := CeilQuot(size, L.bs);
    QuotRem(size + (L.bs - 1), L.bs);
    TimesScale(used, SectorsPerBlock(L), 512);
  }

  lemma {:induction false} TimesScale(k: nat, unit: nat, c: nat)
    ensures Times(k, c * unit) == c * Times(k, unit)
  {
    if k > 0 { TimesScale(k - 1, unit, c); }
  }

  /** The block the next byte goes into: a fresh one, linked into its slot, when the size is
      on a block boundary; otherwise the one already linked. */
  function Target(img: seq<byte>, L: Layout, inode: nat, size: nat): (r: (Res<nat>, seq<byte>))
    requires LayoutOf(|img|, L) && inode + L.inodeSize <= |img|
    requires Quot(size, L.bs) < DIRECT_BLOCK_COUNT
    ensures |r.1| == |img|
  {
    var slot := SlotAt(inode, Quot(size, L.bs));
    if Rem(size, L.bs) != 0 then (Ok(U32(img, slot)), img)
    else
      var (b, img1) := AllocBlock(img, L);
      if b.Err? then (b, img1)
      else (b, Put(img1, slot, Le32(b.value)))
  }

  /** The loop of `append_to_file`; the value is the size reached. */
  function AppendLoop(img: seq<byte>, L: Layout, inode: nat, size: nat, data: seq<byte>): (r: (Res<nat>, seq<byte>))
    requires LayoutOf(|img|, L) && inode + L.inodeSize <= |img|
    ensures |r.1| == |img|
    ensures r.0.Ok? ==> r.0.value == size + |data|
    ensures r.0.Ok? && size < 0x1_0000_0000 ==> r.0.value < 0x1_0000_0000
    decreases |data|
  {
    if data == [] then (Ok(size), img)
    else if Quot(size, L.bs) >= DIRECT_BLOCK_COUNT then (Err(Full), img)
    else
      var (b, img1) := Target(img, L, inode, size);
      if b.Err? then (b, img1)
      else
        QuotRem(size, L.bs);
        DirectSize(L, size);
        var off := Rem(size, L.bs);
        var take := if L.bs - off < |data| then L.bs - off else |data|;
        var at := BlockAt(L, b.value) + off;
        if at + take > |img| then (Err(ImageTooSmall), img1)
        else AppendLoop(Put(img1, at, data[..take]), L, inode, size + take, data[take..])
  }

  lemma DirectSize(L: Layout, size: nat)
    requires L.bs in {1024, 2048, 4096, 8192, 16384, 32768, 65536} && Quot(size, L.bs) < DIRECT_BLOCK_COUNT
    ensures size < 12 * 65536
  {
    QuotRem(size, L.bs);
    TimesIsProduct(Quot(size, L.bs), L.bs);
    assert Quot(size, L.bs) * L.bs <= 11 * L.bs;
  }

  /** `i_size` and `i_blocks` of the inode at `inode`. */
  function Sized(img: seq<byte>, L: Layout, inode: nat, size: nat): (r: seq<byte>)
    requires LayoutOf(|img|, L) && inode + L.inodeSize <= |img| && size < 0x1_0000_0000
    ensures |r| == |img|
  {
    SectorsFit(L, size);
    Put(Put(img, inode + 4, Le32(size)), inode + 28, Le32(Times(CeilQuot(size, L.bs), SectorsPerBlock(L))))
  }

  /** `append_to_file`. */
  function Append(img: seq<byte>, L: Layout, ino: nat, data: seq<byte>): (r: (Res<()>, seq<byte>))
    requires LayoutOf(|img|, L)
    ensures |r.1| == |img|
  {
    var at := InodeAt(img, L, ino);
    if at.None? then (Err(BlockOutOfRange(ino)), img)
    else
      var (size, img1) := AppendLoop(img, L, at.value, U32(img, at.value + 4), data);
      if size.Err? then (Err(size.error), img1)
      else (Ok(()), Sized(img1, L, at.value, size.value))
  }

  /** The appends of `datas`, in order, to file `ino`. */
  function AppendAll(img: seq<byte>, L: Layout, ino: nat, datas: seq<seq<byte>>): (r: (Res<()>, seq<byte>))
    requires LayoutOf(|img|, L)
    ensures |r.1| == |img|
    decreases |datas|
  {
    if datas == [] then (Ok(()), img)
    else
      var (a, img1) := Append(img, L, ino, datas[0]);
      if a.Err? then (a, img1) else AppendAll(img1, L, ino, datas[1..])
  }

  /** One turn of the loop of `truncate_to`: wipe the block, unlink it, free it. */
  function FreeSlot(img: seq<byte>, L: Layout, inode: nat, index: nat): (r: (Res<()>, seq<byte>))
    requires LayoutOf(|img|, L) && SlotAt(inode, index) + 4 <= |img|
    ensures |r.1| == |img|
  {
    var slot := SlotAt(inode, index);
    var b := U32(img, slot);
    if b == 0 then (Ok(()), img)
    else
      var at := BlockAt(L, b);
      var img1 := if at + L.bs <= |img| then Put(img, at, Zeros(L.bs)) else img;
      FreeBlock(Put(img1, slot, Le32(0)), L, b)
  }

  /** The loop of `truncate_to`: slots `have - 1` down to `keep`. */
  function FreeDown(img: seq<byte>, L: Layout, inode: nat, keep: nat, have: nat): (r: (Res<()>, seq<byte>))
    requires LayoutOf(|img|, L) && SlotAt(inode, have) <= |img|
    ensures |r.1| == |img|
    decreases have
  {
    if have <= keep then (Ok(()), img)
    else
      var (r, img1) := FreeSlot(img, L, inode, have - 1);
      if r.Err? then (r, img1) else FreeDown(img1, L, inode, keep, have - 1)
  }

  /** The bytes of the last kept block past the target become zero. */
  function WipeTail(img: seq<byte>, L: Layout, inode: nat, target: nat): (r: seq<byte>)
    requires LayoutOf(|img|, L) && SlotAt(inode, CeilQuot(target, L.bs)) <= |img|
    ensures |r| == |img|
  {
    var keep := CeilQuot(target, L.bs);
    var tail := Rem(target, L.bs);
    QuotRem(target, L.bs);
    if keep == 0 then img
    else
      var last := U32(img, SlotAt(inode, keep - 1));
      var at := BlockAt(L, last) + tail;
      if last != 0 && tail != 0 && at + (L.bs - tail) <= |img| then Put(img, at, Zeros(L.bs - tail)) else img
  }

  /** `truncate_to`. The source indexes `i_block` up to the block count of the old size, so
      that many slots have to be inside the image. */
  function Truncate(img: seq<byte>, L: Layout, ino: nat, target: nat): (r: (Res<()>, seq<byte>))
    requires LayoutOf(|img|, L)
    requires InodeAt(img, L, ino).Some? ==>
      SlotAt(InodeAt(img, L, ino).value, CeilQuot(U32(img, InodeAt(img, L, ino).value + 4), L.bs)) <= |img|
    ensures |r.1| == |img|
  {
    var at := InodeAt(img, L, ino);
    if at.None? then (Err(BlockOutOfRange(ino)), img)
    else
      var size := U32(img, at.value + 4);
      if target > size then (Err(NotAllocated(ino)), img)
      else
        CeilMonotone(target, size, L.bs);
        var (r, img1) := FreeDown(img, L, at.value, CeilQuot(target, L.bs), CeilQuot(size, L.bs));
        if r.Err? then (r, img1)
        else (Ok(()), Sized(WipeTail(img1, L, at.value, target), L, at.value, target))
  }

  lemma {:induction false} QuotMonotone(a: nat, b: nat, unit: nat)
    requires unit > 0 && a <= b
    ensures Quot(a, unit) <= Quot(b, unit)
  {
    if a >= unit { QuotMonotone(a - unit, b - unit, unit); }
  }

  lemma CeilMonotone(a: nat, b: nat, unit: nat)
    requires unit > 0 && a <= b
    ensures CeilQuot(a, unit) <= CeilQuot(b, unit)
  {
    QuotMonotone(a + (unit - 1), b + (unit - 1), unit);
  }
}
