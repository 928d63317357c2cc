/** What `file_block` and a reader of whole files return, byte for byte, on any image `parse`
    accepts: holes and the indirect table included. */
module Ext2ReadFile {
  import opened Wrappers
  import opened Bytes
  import opened Ext2Layout
  import opened Ext2File
  import opened Ext2Dirent
  import opened Ext2Alloc
  import opened Ext2Areas
  import opened Ext2Reader
  import opened Ext2Unwind
  import opened Ext2Directory
  import opened Ext2Lookup
  import opened Ext2Fs
  import opened Ext2FsReads

  /** An inode as `inode` returns it. */
  ghost predicate Decoded(img: seq<byte>, L: Layout, inode: Inode)
    ensures Decoded(img, L, inode) ==> LayoutOf(|img|, L) && |inode.blocks| == 15
  {
    LayoutOf(|img|, L) && |inode.blocks| == 15 && forall j :: 0 <= j < 15 ==> inode.blocks[j] < L.blocksCount
  }

  lemma {:induction false} GoodSlots(img: seq<byte>, L: Layout, at: nat, j: nat, k: nat)
    requires LayoutOf(|img|, L) && at + INODE_CORE_LEN <= |img| && j <= k < 15 && BadSlot(img, L, at, j).None?
    ensures U32(img, SlotAt(at, k)) < L.blocksCount
    decreases k - j
  {
    hide U32, Times;
    if j < k { GoodSlots(img, L, at, j + 1, k); }
  }

  lemma InodesDecode(img: seq<byte>, L: Layout, ino: nat)
    requires LayoutOf(|img|, L) && InodeOf(img, L, ino).Got?
    ensures Decoded(img, L, InodeOf(img, L, ino).value)
  {
    hide U32, U16, Times, TableOf, BadSlot;
    var inode := InodeOf(img, L, ino).value;
    var at := BlockAt(L, TableOf(img, L, GroupOfInode(L, ino)).value) + Times(IndexOfInode(L, ino), L.inodeSize);
    forall j | 0 <= j < 15 ensures inode.blocks[j] < L.blocksCount { GoodSlots(img, L, at, 0, j); }
  }

  /** The block behind file block `index`: slot `index` of the inode for the first 12, then word
      `index - 12` of the block slot 12 names. 0 is a hole, and so is all behind a missing table. */
  ghost function Behind(img: seq<byte>, L: Layout, inode: Inode, index: nat): nat
    requires Decoded(img, L, inode) && index < 12 + L.bs / 4
  {
    if index < 12 then inode.blocks[index]
    else if inode.blocks[12] == 0 then 0
    else
      DataBlockInside(img, L, inode.blocks[12]);
      U32(img, Times(inode.blocks[12], L.bs) + 4 * (index - 12))
  }

  lemma NumberIsBehind(img: seq<byte>, L: Layout, inode: Inode, index: nat)
    requires Decoded(img, L, inode) && index < 12 + L.bs / 4
    ensures BlockNumber(img, L, inode, index) == Got(Behind(img, L, inode, index))
  {
    hide U32, Times;
    if index >= 12 && inode.blocks[12] != 0 {
      DataBlockInside(img, L, inode.blocks[12]);
      WordInBlock(img, BlockAt(L, inode.blocks[12]), L.bs, (index - 12) * 4);
    }
  }

  /** The same as the reference the invariant speaks of. */
  lemma BehindIsRef(img: seq<byte>, L: Layout, i: nat, inode: Inode, index: nat)
    requires Geometry(img, L) && IsInode(L, i) && InodeOf(img, L, i) == Got(inode) && index < 12 + L.bs / 4
    requires Slot(img, L, i, 12) != 0 ==> InRange(L, Slot(img, L, i, 12))
    ensures Decoded(img, L, inode)
    ensures Behind(img, L, inode, index) == Ref(img, L, i, if index < 12 then index else index + 1)
  {
    hide Geometry, U32, Times, InodeOf, Decoded, Behind, Ref;
    InodesDecode(img, L, i);
    NumberIsBehind(img, L, inode, index);
    NumberIsRef(img, L, i, inode, index);
  }

  /** File block `index` can be read: it starts before the end of the file, no slot for double or
      triple indirection is in use, the single table reaches it, and the block behind it exists. */
  ghost predicate Readable(img: seq<byte>, L: Layout, inode: Inode, index: nat)
    requires Decoded(img, L, inode)
  {
    && Times(index, L.bs) < inode.size && inode.blocks[13] == 0 && inode.blocks[14] == 0 && index < 12 + L.bs / 4
    && Behind(img, L, inode, index) < L.blocksCount
  }

  /** Byte `p` of the file. */
  ghost function ByteOf(img: seq<byte>, L: Layout, inode: Inode, p: nat): byte
    requires Decoded(img, L, inode) && Readable(img, L, inode, Quot(p, L.bs))
  {
    var b := Behind(img, L, inode, Quot(p, L.bs));
    DataBlockInside(img, L, b);
    QuotRem(p, L.bs);
    if b == 0 then 0 else img[Times(b, L.bs) + Rem(p, L.bs)]
  }

  /** `file_block` succeeds exactly for the blocks that can be read, and returns the bytes of the
      block behind, zeros for a hole, cut at the size. */
  lemma FileBlockExactly(img: seq<byte>, L: Layout, inode: Inode, index: nat)
    requires Decoded(img, L, inode)
    ensures FileBlock(img, L, inode, index).Got? <==> Readable(img, L, inode, index)
    ensures Readable(img, L, inode, index) ==>
      var b, left := Behind(img, L, inode, index), inode.size - Times(index, L.bs);
      var n := if left < L.bs then left else L.bs;
      && Times(b, L.bs) + L.bs <= |img|
      && FileBlock(img, L, inode, index)
          == Got(if b == 0 then seq(n, _ => 0) else img[Times(b, L.bs)..Times(b, L.bs) + n])
  {
    hide U32, Times, Behind, BlockNumber;
    if index < 12 + L.bs / 4 {
      NumberIsBehind(img, L, inode, index);
      var b := Behind(img, L, inode, index);
      if Readable(img, L, inode, index) {
        DataBlockInside(img, L, b);
        var left := inode.size - Times(index, L.bs);
        var n := if left < L.bs then left else L.bs;
        assert Zeros(L.bs)[..n] == seq(n, _ => 0);
        assert img[BlockAt(L, b)..BlockAt(L, b) + L.bs][..n] == img[BlockAt(L, b)..BlockAt(L, b) + n];
      }
    } else {
      TooFar(img, L, inode, index);
    }
  }

  /** A file that can be read to its end. */
  ghost predicate AllReadable(img: seq<byte>, L: Layout, inode: Inode)
    requires Decoded(img, L, inode)
  {
    forall p: nat :: p < inode.size ==> Readable(img, L, inode, Quot(p, L.bs))
  }

  /** The first `k` blocks of a file, end to end. */
  lemma {:induction false} ReadBlocksExactly(img: seq<byte>, L: Layout, inode: Inode, k: nat)
    requires Decoded(img, L, inode) && k <= BlockSpanOf(L, inode)
    ensures var r := ReadBlocks(img, L, inode, k);
      && (r.Got? <==> forall j: nat :: j < k ==> Readable(img, L, inode, j))
      && (r.Got? ==>
            && |r.value| == (if Times(k, L.bs) < inode.size then Times(k, L.bs) else inode.size)
            && forall p :: 0 <= p < |r.value| ==>
                 Readable(img, L, inode, Quot(p, L.bs)) && r.value[p] == ByteOf(img, L, inode, p))
  {
    hide U32, Times, Behind, FileBlock, Readable, Quot, Rem, CeilQuot;
    if k == 0 {
      assert Times(0, L.bs) == 0 by { TimesNone(L.bs); }
    } else {
      ReadBlocksExactly(img, L, inode, k - 1);
      FileBlockExactly(img, L, inode, k - 1);
      var before := ReadBlocks(img, L, inode, k - 1);
      if before.Got? && Readable(img, L, inode, k - 1) {
        LastBlock(img, L, inode, k, before.value);
      }
    }
  }

  lemma TimesNone(unit: nat)
    ensures Times(0, unit) == 0
  {
  }

  /** Block `k - 1` after the blocks before it. */
  lemma LastBlock(img: seq<byte>, L: Layout, inode: Inode, k: nat, before: seq<byte>)
    requires Decoded(img, L, inode) && 0 < k && Readable(img, L, inode, k - 1) && FileBlock(img, L, inode, k - 1).Got?
    requires |before| == (if Times(k - 1, L.bs) < inode.size then Times(k - 1, L.bs) else inode.size)
    requires forall p :: 0 <= p < |before| ==>
      Readable(img, L, inode, Quot(p, L.bs)) && before[p] == ByteOf(img, L, inode, p)
    ensures var s := before + FileBlock(img, L, inode, k - 1).value;
      && |s| == (if Times(k, L.bs) < inode.size then Times(k, L.bs) else inode.size)
      && forall p :: 0 <= p < |s| ==> Readable(img, L, inode, Quot(p, L.bs)) && s[p] == ByteOf(img, L, inode, p)
  {
    hide U32, Behind, FileBlock, Quot, Rem;
    FileBlockExactly(img, L, inode, k - 1);
    var last := FileBlock(img, L, inode, k - 1).value;
    var s, start := before + last, Times(k - 1, L.bs);
    assert Times(k, L.bs) == start + L.bs;
    assert |before| == start;
    forall p | 0 <= p < |s| ensures Readable(img, L, inode, Quot(p, L.bs)) && s[p] == ByteOf(img, L, inode, p) {
      if p >= start { QuotOf(k - 1, p - start, L.bs); }
    }
  }

  /** Reading a whole file block by block succeeds exactly when every byte's block can be read,
      and returns exactly the bytes: as many as the size says, each from the block behind it, zero
      in a hole. */
  lemma ReadAllExactly(img: seq<byte>, L: Layout, inode: Inode)
    requires Decoded(img, L, inode)
    ensures ReadAll(img, L, inode).Got? <==> AllReadable(img, L, inode)
    ensures AllReadable(img, L, inode) ==>
      var s := ReadAll(img, L, inode).value;
      |s| == inode.size && forall p :: 0 <= p < |s| ==> s[p] == ByteOf(img, L, inode, p)
  {
    hide U32, Times, Behind, Readable, Quot, Rem, CeilQuot, ReadBlocks, ByteOf;
    var n := BlockSpanOf(L, inode);
    ReadBlocksExactly(img, L, inode, n);
    SpanCovers(L, inode);
    if AllReadable(img, L, inode) {
      forall j: nat | j < n ensures Readable(img, L, inode, j) {
        SpanStarts(L, inode, j);
        QuotOf(j, 0, L.bs);
        assert Readable(img, L, inode, Quot(Times(j, L.bs), L.bs));
      }
    }
  }

  /** The blocks cover the file, and each starts before its end. */
  lemma SpanCovers(L: Layout, inode: Inode)
    requires L.bs > 0
    ensures inode.size <= Times(BlockSpanOf(L, inode), L.bs)
  {
    QuotRem(inode.size + (L.bs - 1), L.bs);
  }

  lemma SpanStarts(L: Layout, inode: Inode, j: nat)
    requires L.bs > 0 && j < BlockSpanOf(L, inode)
    ensures Times(j, L.bs) < inode.size
  {
    hide Quot, Rem;
    CeilPositive(inode.size, L.bs);
    CeilBounds(inode.size, L.bs);
    var n := CeilQuot(inode.size, L.bs);
    if j < n - 1 { TimesMonotone(j, n - 1, L.bs); }
  }

  /** On a sound image every file in use that is not longer than the single table reaches can be
      read to its end. */
  lemma SoundFilesRead(img: seq<byte>, L: Layout, i: nat, inode: Inode)
    requires Fs(img, L) && IsUsed(img, L, i) && InodeOf(img, L, i) == Got(inode)
    requires |inode.blocks| == 15 && inode.blocks[13] == 0 && inode.blocks[14] == 0
    requires inode.size <= Times(12 + L.bs / 4, L.bs)
    ensures Decoded(img, L, inode) && AllReadable(img, L, inode)
  {
    hide Geometry, U32, Times, InodeOf, Decoded, Behind, Slot, Quot, Rem, Dirs, FreeIsData, InodeUsed, Ref;
    InodesDecode(img, L, i);
    FirstSlots(img, L, i);
    assert Ref(img, L, i, 12) != 0 ==> Linked(img, L, Ref(img, L, i, 12));
    forall p: nat | p < inode.size ensures Readable(img, L, inode, Quot(p, L.bs)) {
      var index := Quot(p, L.bs);
      QuotRem(p, L.bs);
      if index > 12 + L.bs / 4 { TimesMonotone(12 + L.bs / 4, index, L.bs); }
      BehindIsRef(img, L, i, inode, index);
      var x := if index < 12 then index else index + 1;
      assert Ref(img, L, i, x) != 0 ==> Linked(img, L, Ref(img, L, i, x));
    }
  }

  lemma FirstSlots(img: seq<byte>, L: Layout, i: nat)
    requires Geometry(img, L) && IsInode(L, i)
    ensures Ref(img, L, i, 12) == Slot(img, L, i, 12)
  {
  }
}
