/** The invariant seen through the reader: what `inode` and `file_block` return. */
module Ext2FsReads {
  import opened Wrappers
  import opened Bytes
  import opened Ext2Layout
  import opened Ext2Alloc
  import opened Ext2Areas
  import opened Ext2File
  import opened Ext2Unwind
  import opened Ext2Append
  import opened Ext2Dirent
  import opened Ext2Directory
  import opened Ext2Reader
  import opened Ext2Lookup
  import opened Ext2Steps
  import opened Ext2Fs
  import opened Ext2FsAppend
  import opened Ext2FsFile

  // ----- an untouched inode reads the same -----

  lemma {:induction false} TimesInjective(a: nat, b: nat, unit: nat)
    requires unit > 0 && Times(a, unit) == Times(b, unit)
    ensures a == b
  {
    if a < b { TimesMonotone(a, b, unit); } else if b < a { TimesMonotone(b, a, unit); }
  }

  lemma TableSame(img: seq<byte>, r: seq<byte>, L: Layout, g: nat)
    requires LayoutOf(|img|, L) && SamePointers(img, r, L)
    ensures TableOf(r, L, g) == TableOf(img, L, g)
  {
    hide Times, U32;
    if g < L.groupCount {
      GroupStarts(|img|, L, g);
      assert SameDescriptor(img, r, L, g);
      var d := DescAt(L, g);
      TimesInjective(U32(img, d), U32(r, d), L.bs);
      TimesInjective(U32(img, d + 4), U32(r, d + 4), L.bs);
      TimesInjective(U32(img, d + 8), U32(r, d + 8), L.bs);
    }
  }

  lemma {:induction false} BadSlotSame(img: seq<byte>, r: seq<byte>, L: Layout, at: nat, j: nat)
    requires at + INODE_CORE_LEN <= |img| == |r| && j <= 15
    requires forall k :: 0 <= k < 15 ==> U32(r, SlotAt(at, k)) == U32(img, SlotAt(at, k))
    ensures BadSlot(r, L, at, j) == BadSlot(img, L, at, j)
    decreases 15 - j
  {
    hide U32;
    if j < 15 { BadSlotSame(img, r, L, at, j + 1); }
  }

  /** Equal slots decode to equal inodes. */
  lemma InodeSame(img: seq<byte>, r: seq<byte>, L: Layout, i: nat)
    requires Geometry(img, L) && Geometry(r, L) && SamePointers(img, r, L) && IsInode(L, i) && InodeAt(img, L, i).Some?
    requires SameBytes(img, r, InodeAt(img, L, i).value, L.inodeSize)
    ensures InodeOf(r, L, i) == InodeOf(img, L, i)
  {
    hide Geometry, U32, U16, BadSlot, TableOf, SamePointers;
    var at, g := InodeAt(img, L, i).value, GroupOfInode(L, i);
    TableSame(img, r, L, g);
    FieldsSame(img, r, L, at);
    InodeTableAt(img, L, i, at);
    BadSlotSame(img, r, L, at, 0);
    assert SlotsOf(r, at) == SlotsOf(img, at);
  }

  lemma InodeTableAt(img: seq<byte>, L: Layout, i: nat, at: nat)
    requires Geometry(img, L) && IsInode(L, i) && InodeAt(img, L, i) == Some(at)
    ensures GroupOfInode(L, i) < L.groupCount
    ensures TableOf(img, L, GroupOfInode(L, i)).Got? ==>
      at == BlockAt(L, TableOf(img, L, GroupOfInode(L, i)).value) + Times(IndexOfInode(L, i), L.inodeSize)
  {
    hide Geometry, U32, Times;
    InodePosition(img, L, i);
  }

  lemma FieldsSame(img: seq<byte>, r: seq<byte>, L: Layout, at: nat)
    requires SameBytes(img, r, at, L.inodeSize) && L.inodeSize >= 128
    ensures U16(r, at) == U16(img, at) && U32(r, at + 4) == U32(img, at + 4) && U16(r, at + 26) == U16(img, at + 26)
    ensures U32(r, at + 28) == U32(img, at + 28) && U32(r, at + 108) == U32(img, at + 108)
    ensures forall j :: 0 <= j < 15 ==> U32(r, SlotAt(at, j)) == U32(img, SlotAt(at, j))
  {
    assert r[at] == img[at] && r[at + 1] == img[at + 1] && r[at + 26] == img[at + 26] && r[at + 27] == img[at + 27];
    WordSame(img, r, at, L.inodeSize, 4);
    WordSame(img, r, at, L.inodeSize, 28);
    WordSame(img, r, at, L.inodeSize, 108);
    forall j | 0 <= j < 15 ensures U32(r, SlotAt(at, j)) == U32(img, SlotAt(at, j)) {
      WordSame(img, r, at, L.inodeSize, 40 + 4 * j);
    }
  }

  lemma WordSame(img: seq<byte>, r: seq<byte>, at: nat, n: nat, p: nat)
    requires SameBytes(img, r, at, n) && p + 4 <= n
    ensures U32(r, at + p) == U32(img, at + p)
  {
  }

  lemma BlockBytesSame(img: seq<byte>, r: seq<byte>, L: Layout, b: nat)
    requires LayoutOf(|img|, L) && |r| == |img| && (b < L.blocksCount ==> SameBytes(img, r, BlockAt(L, b), L.bs))
    ensures BlockBytes(r, L, b) == BlockBytes(img, L, b)
  {
    hide Times;
    if b < L.blocksCount {
      DataBlockInside(img, L, b);
      assert r[BlockAt(L, b)..BlockAt(L, b) + L.bs] == img[BlockAt(L, b)..BlockAt(L, b) + L.bs];
    }
  }

  /** The block behind an index, as the reader and as the reference sees it. */
  lemma NumberIsRef(img: seq<byte>, L: Layout, i: nat, inode: Inode, index: nat)
    requires Geometry(img, L) && IsInode(L, i) && InodeOf(img, L, i) == Got(inode) && index < 12 + L.bs / 4
    requires Slot(img, L, i, 12) != 0 ==> InRange(L, Slot(img, L, i, 12))
    ensures |inode.blocks| == 15
    ensures BlockNumber(img, L, inode, index) == Got(Ref(img, L, i, if index < 12 then index else index + 1))
  {
    hide Geometry, U16, U32, Times, InodeAt, InodeOf;
    InodeSlot(img, L, i);
    InodeOfFields(img, L, i, inode);
    if index >= 12 {
      var t := Slot(img, L, i, 12);
      if t != 0 {
        DataBlockInside(img, L, t);
        WordInBlock(img, BlockAt(L, t), L.bs, (index - 12) * 4);
      }
    }
  }

  lemma WordInBlock(img: seq<byte>, base: nat, n: nat, p: nat)
    requires base + n <= |img| && p + 4 <= n
    ensures U32(img[base..base + n], p) == U32(img, base + p)
  {
  }

  /** An untouched file reads the same: the same inode, and every block the same. */
  lemma UntouchedReads(img: seq<byte>, r: seq<byte>, L: Layout, i: nat)
    requires Geometry(img, L) && Geometry(r, L) && SamePointers(img, r, L) && IsInode(L, i) && Untouched(img, r, L, i)
    requires Exclusive(img, L) && IsUsed(img, L, i)
    ensures InodeOf(r, L, i) == InodeOf(img, L, i)
    ensures InodeOf(img, L, i).Got? ==>
      && |InodeOf(img, L, i).value.blocks| == 15
      && forall index: nat :: FileBlock(r, L, InodeOf(img, L, i).value, index)
          == FileBlock(img, L, InodeOf(img, L, i).value, index)
  {
    hide Geometry, U16, U32, Times, InodeAt, InodeOf, FileBlock, SameBytes, InodeUsed, Slot;
    InodeSame(img, r, L, i);
    if InodeOf(img, L, i).Got? {
      var inode := InodeOf(img, L, i).value;
      UntouchedRefs(img, r, L, i);
      assert Ref(img, L, i, 12) == Slot(img, L, i, 12) && Ref(r, L, i, 12) == Slot(r, L, i, 12);
      InodeSlot(img, L, i);
      InodeOfFields(img, L, i, inode);
      forall index: nat ensures FileBlock(r, L, inode, index) == FileBlock(img, L, inode, index) {
        UntouchedBlock(img, r, L, i, inode, index);
      }
    }
  }

  lemma UntouchedBlock(img: seq<byte>, r: seq<byte>, L: Layout, i: nat, inode: Inode, index: nat)
    requires Geometry(img, L) && Geometry(r, L) && |r| == |img| && IsInode(L, i) && Untouched(img, r, L, i)
    requires RefsSame(img, r, L, i)
    requires InodeOf(img, L, i) == Got(inode) && InodeOf(r, L, i) == Got(inode) && |inode.blocks| == 15
    requires Slot(img, L, i, 12) == Ref(img, L, i, 12) && Slot(r, L, i, 12) == Ref(r, L, i, 12)
    requires Ref(img, L, i, 12) != 0 ==> InRange(L, Ref(img, L, i, 12))
    ensures FileBlock(r, L, inode, index) == FileBlock(img, L, inode, index)
  {
    hide Geometry, U16, U32, Times, InodeAt, InodeOf, SameBytes, Slot, BlockNumber, BlockBytes, Ref;
    if index < 12 + L.bs / 4 {
      NumberIsRef(img, L, i, inode, index);
      NumberIsRef(r, L, i, inode, index);
      var x := if index < 12 then index else index + 1;
      var b := Ref(img, L, i, x);
      assert Ref(r, L, i, x) == b;
      if b != 0 { BlockBytesSame(img, r, L, b); }
    } else {
      TooFar(img, L, inode, index);
      TooFar(r, L, inode, index);
    }
  }

  lemma TooFar(img: seq<byte>, L: Layout, inode: Inode, index: nat)
    requires LayoutOf(|img|, L) && |inode.blocks| == 15 && index >= 12 + L.bs / 4
    ensures BlockNumber(img, L, inode, index) == Bad(IndirectBlockUnsupported(index))
  {
  }

  // ----- a direct file reads as its content -----

  /** The first `k` blocks of a file, as the reader returns them, end to end. */
  function ReadBlocks(img: seq<byte>, L: Layout, inode: Inode, k: nat): Read<seq<byte>>
    requires LayoutOf(|img|, L) && |inode.blocks| == 15
  {
    if k == 0 then Got([])
    else
      match ReadBlocks(img, L, inode, k - 1)
      case Bad(e) => Bad(e)
      case Got(before) =>
        match FileBlock(img, L, inode, k - 1)
        case Bad(e) => Bad(e)
        case Got(last) => Got(before + last)
  }

  /** Reading a whole file block by block. */
  function ReadAll(img: seq<byte>, L: Layout, inode: Inode): Read<seq<byte>>
    requires LayoutOf(|img|, L) && |inode.blocks| == 15
  {
    ReadBlocks(img, L, inode, BlockSpanOf(L, inode))
  }

  /** A direct regular file as the reader sees it. */
  ghost predicate ReadableFile(img: seq<byte>, L: Layout, ino: nat, inode: Inode)
    ensures ReadableFile(img, L, ino, inode) ==>
      |inode.blocks| == 15 && LayoutOf(|img|, L) && Geometry(img, L) && IsInode(L, ino)
  {
    && Geometry(img, L) && IsInode(L, ino) && Direct(img, L, ino) && FreeIsData(img, L)
    && InodeOf(img, L, ino) == Got(inode)
    && inode.size == SizeOf(img, L, ino) && inode.blocks[13] == 0 && inode.blocks[14] == 0
  }

  lemma FileBlockIs(img: seq<byte>, L: Layout, ino: nat, inode: Inode, n: nat, j: nat)
    requires ReadableFile(img, L, ino, inode) && n == CeilQuot(SizeOf(img, L, ino), L.bs) && j < n
    requires Dense(img, L, ino, n)
    ensures var b := Slot(img, L, ino, j); var left := inode.size - Times(j, L.bs);
      && BlockAt(L, b) + L.bs <= |img| && left > 0
      && FileBlock(img, L, inode, j) == Got(img[BlockAt(L, b)..BlockAt(L, b) + (if left < L.bs then left else L.bs)])
  {
    hide Geometry, U16, U32, Times, InodeAt, InodeOf, Slot, Dense, FreeIsData, CeilQuot, FileBlock, SizeOf, Direct,
      DataBlock, BlockUsed;
    SlotIsLinked(img, L, ino, n, j);
    InodeSlot(img, L, ino);
    InodeOfFields(img, L, ino, inode);
    CeilBounds(inode.size, L.bs) by { CeilPositive(inode.size, L.bs); }
    if j < n - 1 { TimesMonotone(j, n - 1, L.bs); }
    DirectBlock(img, L, inode, j, Slot(img, L, ino, j));
  }

  lemma CeilPositive(size: nat, unit: nat)
    requires unit > 0
    ensures CeilQuot(size, unit) > 0 ==> size > 0
  {
    hide Times;
    if size == 0 { assert Quot(unit - 1, unit) == 0; }
  }

  lemma {:induction false} ReadBlocksIs(img: seq<byte>, L: Layout, ino: nat, inode: Inode, n: nat, k: nat)
    requires ReadableFile(img, L, ino, inode) && n == CeilQuot(SizeOf(img, L, ino), L.bs) && k <= n
    requires Dense(img, L, ino, n)
    ensures var s := Body(img, L, ino, n, k);
      ReadBlocks(img, L, inode, k) == Got(if |s| <= inode.size then s else s[..inode.size])
  {
    hide Geometry, U16, U32, Times, InodeAt, InodeOf, Slot, Dense, FreeIsData, CeilQuot, FileBlock, Direct, Body;
    if k == 0 {
      BodyNone(img, L, ino, n);
    } else {
      ReadBlocksIs(img, L, ino, inode, n, k - 1);
      FileBlockIs(img, L, ino, inode, n, k - 1);
      InodeSlot(img, L, ino);
      BodyStep(img, L, ino, n, k);
      var b, before := Slot(img, L, ino, k - 1), Body(img, L, ino, n, k - 1);
      var block, s := img[BlockAt(L, b)..BlockAt(L, b) + L.bs], Body(img, L, ino, n, k);
      assert |before| == Times(k - 1, L.bs) < inode.size;
      if |s| > inode.size {
        assert s[..inode.size] == before + img[BlockAt(L, b)..BlockAt(L, b) + (inode.size - |before|)];
      }
    }
  }

  lemma BodyNone(img: seq<byte>, L: Layout, ino: nat, n: nat)
    requires Geometry(img, L) && IsInode(L, ino) && Dense(img, L, ino, n)
    ensures Body(img, L, ino, n, 0) == []
  {
  }

  /** Concatenating `file_block` over a direct file yields its content. */
  lemma ReadAllIs(img: seq<byte>, L: Layout, ino: nat, inode: Inode)
    requires ReadableFile(img, L, ino, inode)
    ensures Direct(img, L, ino) && ReadAll(img, L, inode) == Got(Content(img, L, ino))
  {
    hide Geometry, U16, U32, Times, InodeAt, InodeOf, Slot, Dense, FreeIsData, CeilQuot, Body, ReadBlocks, SizeOf;
    var n := CeilQuot(SizeOf(img, L, ino), L.bs);
    CeilCovers(SizeOf(img, L, ino), L.bs);
    ReadBlocksIs(img, L, ino, inode, n, n);
    var s := Body(img, L, ino, n, n);
    if |s| <= inode.size { assert s[..inode.size] == s; }
  }

  // ----- append, as the reader sees it -----

  /** The inode after an append decodes, with the new size and the same mode. */
  lemma AppendedInode(img: seq<byte>, r: seq<byte>, L: Layout, ino: nat, inode: Inode) returns (inode': Inode)
    requires Geometry(img, L) && Geometry(r, L) && SamePointers(img, r, L) && IsInode(L, ino)
    requires SameRest(img, r, L, ino)
    requires ReadableFile(img, L, ino, inode) && Direct(r, L, ino) && FreeIsData(r, L)
    requires inode.blocks[13] == 0 && inode.blocks[14] == 0
    ensures ReadableFile(r, L, ino, inode') && inode'.mode == inode.mode && inode'.size == SizeOf(r, L, ino)
  {
    hide Geometry, U16, U32, Times, InodeAt, Slot, FreeIsData, CeilQuot, BadSlot, TableOf, SamePointers, Direct,
      SizeOf;
    var at, g := InodeAt(img, L, ino).value, GroupOfInode(L, ino);
    InodeOfFields(img, L, ino, inode);
    TableSame(img, r, L, g);
    InodeTableAt(img, L, ino, at);
    NoBadSlot(r, L, ino, at, 0);
    inode' := InodeOf(r, L, ino).value;
    InodeOfFields(r, L, ino, inode');
    HighWord(img, L, ino, inode, at);
    SizeIs(r, L, ino, at);
  }

  lemma SizeIs(r: seq<byte>, L: Layout, ino: nat, at: nat)
    requires Geometry(r, L) && IsInode(L, ino) && InodeAt(r, L, ino) == Some(at)
    ensures SizeOf(r, L, ino) == U32(r, at + 4)
  {
  }

  lemma HighWord(img: seq<byte>, L: Layout, ino: nat, inode: Inode, at: nat)
    requires Geometry(img, L) && IsInode(L, ino) && InodeAt(img, L, ino) == Some(at)
    requires InodeOf(img, L, ino) == Got(inode) && inode.size == SizeOf(img, L, ino)
    ensures IsRegularMode(inode.mode) ==> U32(img, at + 108) == 0
  {
    hide Geometry, U16, U32, Times, InodeAt, InodeOf;
    InodeOfFields(img, L, ino, inode);
  }

  lemma {:induction false} NoBadSlot(r: seq<byte>, L: Layout, ino: nat, at: nat, j: nat)
    requires Geometry(r, L) && IsInode(L, ino) && InodeAt(r, L, ino) == Some(at) && Direct(r, L, ino) && j <= 15
    requires Slot(r, L, ino, 13) == 0 && Slot(r, L, ino, 14) == 0
    ensures BadSlot(r, L, at, j).None?
    decreases 15 - j
  {
    hide Geometry, U32, CeilQuot, InodeAt, SizeOf;
    if j < 15 {
      NoBadSlot(r, L, ino, at, j + 1);
      var n := CeilQuot(SizeOf(r, L, ino), L.bs);
      if j < n { SlotIsLinked(r, L, ino, n, j); }
    }
  }

  /** The reader's promise about append: concatenating `file_block` over the file yields the
      old content followed by the data, and every other inode in use reads back unchanged. */
  lemma AppendReads(img: seq<byte>, L: Layout, ino: nat, inode: Inode, data: seq<byte>) returns (inode': Inode)
    requires FileOk(img, L, ino) && ReadableFile(img, L, ino, inode) && Append(img, L, ino, data).0.Ok?
    ensures var r := Append(img, L, ino, data).1;
      && Geometry(r, L) && InodeOf(r, L, ino) == Got(inode') && inode'.size == inode.size + |data|
      && inode'.mode == inode.mode
      && |inode'.blocks| == 15 && ReadAll(img, L, inode).Got?
      && ReadAll(r, L, inode') == Got(ReadAll(img, L, inode).value + data)
      && OthersRead(img, r, L, {ino})
  {
    hide Geometry, InodeAt, Slot, FreeIsData, Exclusive, Dirs, FileOk, Fs, Append, Direct, SizeOf, Content, SameRest,
      OthersKept, InodeOf, ReadAll, InodeUsed, OthersRead, SamePointers;
    AppendKeepsFs(img, L, ino, data);
    var r := Append(img, L, ino, data).1;
    FileOkMeans(img, L, ino);
    FileOkMeans(r, L, ino);
    FsMeans(r, L);
    FsMeans(img, L);
    AppendPointers(img, L, ino, data);
    inode' := AppendedInode(img, r, L, ino, inode);
    ReadAllIs(img, L, ino, inode);
    ReadAllIs(r, L, ino, inode');
    OthersKeptRead(img, r, L, {ino});
  }

  /** Everybody outside `S` reads back the same. */
  ghost predicate OthersRead(img: seq<byte>, r: seq<byte>, L: Layout, S: set<nat>)
    requires Geometry(img, L) && |r| == |img|
  {
    forall i: nat {:trigger ReadsSame(img, r, L, i)} :: IsUsed(img, L, i) && i !in S ==> ReadsSame(img, r, L, i)
  }

  lemma OthersKeptRead(img: seq<byte>, r: seq<byte>, L: Layout, S: set<nat>)
    requires Geometry(img, L) && Geometry(r, L) && |r| == |img| && SamePointers(img, r, L) && Exclusive(img, L)
    requires OthersKept(img, r, L, S)
    ensures OthersRead(img, r, L, S)
  {
    hide Geometry, SamePointers, Exclusive, InodeUsed, OthersKept, InodeOf, FileBlock;
    forall i: nat {:trigger ReadsSame(img, r, L, i)} | IsUsed(img, L, i) && i !in S ensures ReadsSame(img, r, L, i) {
      KeptReads(img, r, L, S, i);
    }
  }

  /** Inode `i` decodes the same, and each of its blocks reads the same. */
  ghost predicate ReadsSame(img: seq<byte>, r: seq<byte>, L: Layout, i: nat)
    requires LayoutOf(|img|, L) && |r| == |img|
  {
    && InodeOf(r, L, i) == InodeOf(img, L, i)
    && (InodeOf(img, L, i).Got? && |InodeOf(img, L, i).value.blocks| == 15 ==>
          forall index: nat :: FileBlock(r, L, InodeOf(img, L, i).value, index)
              == FileBlock(img, L, InodeOf(img, L, i).value, index))
  }

  lemma KeptReads(img: seq<byte>, r: seq<byte>, L: Layout, S: set<nat>, i: nat)
    requires Geometry(img, L) && Geometry(r, L) && |r| == |img| && SamePointers(img, r, L) && Exclusive(img, L)
    requires OthersKept(img, r, L, S) && IsUsed(img, L, i) && i !in S
    ensures ReadsSame(img, r, L, i)
  {
    hide Geometry, InodeOf, FileBlock, SamePointers, Exclusive, InodeUsed, Ref, InodeAt, Linked, SameBytes;
    assert Untouched(img, r, L, i);
    UntouchedReads(img, r, L, i);
  }

  lemma AppendPointers(img: seq<byte>, L: Layout, ino: nat, data: seq<byte>)
    requires FileOk(img, L, ino) && Append(img, L, ino, data).0.Ok?
    ensures SamePointers(img, Append(img, L, ino, data).1, L)
  {
    hide Geometry, InodeAt, FileOk, Append, AppendLoop, Sized, Within, Extended, Body, CeilQuot, InodeUsed;
    FileReady(img, L, ino);
    AppendParts(img, L, ino, data);
    var at, size := InodeAt(img, L, ino).value, SizeOf(img, L, ino);
    AppendLoopGrows(img, L, ino, size, data);
    var x := AppendLoop(img, L, at, size, data).1;
    SizedWithin(x, L, ino, size + |data|);
    var r := Sized(x, L, at, size + |data|);
    WithinMeans(x, r, L, {}, {ino});
    SamePointersTrans(img, x, r, L);
  }
}
