/** What a write may touch. `Within(img, r, L, B, I)`: going from `img` to `r` nothing changed
    but data blocks in `B`, inode slots in `I`, their bits, and counters that still add up. */
module Ext2Steps {
  import opened Wrappers
  import opened Bytes
  import opened Ext2Layout
  import opened Ext2Alloc
  import opened Ext2Areas
  import opened Ext2File
  import opened Ext2Unwind
  import opened Ext2Append
  import opened Ext2Accounting
  import opened Ext2Directory
  import opened Ext2Mkdir

  ghost predicate KeepsBlocks(img: seq<byte>, r: seq<byte>, L: Layout, B: set<nat>)
    requires Geometry(img, L) && Geometry(r, L)
  {
    && (forall b :: b in B ==> DataBlock(img, L, b))
    && (forall b :: b !in B && DataBlock(img, L, b) ==> SameBytes(img, r, BlockAt(L, b), L.bs))
    && (forall b {:trigger BlockUsed(r, L, b)} :: InRange(L, b) && b !in B ==>
          (BlockUsed(r, L, b) <==> BlockUsed(img, L, b)))
  }

  ghost predicate KeepsInodes(img: seq<byte>, r: seq<byte>, L: Layout, I: set<nat>)
    requires Geometry(img, L) && Geometry(r, L)
  {
    && (forall i :: IsInode(L, i) && i !in I && InodeAt(img, L, i).Some? ==>
          SameBytes(img, r, InodeAt(img, L, i).value, L.inodeSize))
    && (forall i {:trigger InodeUsed(r, L, i)} :: IsInode(L, i) && i !in I ==>
          (InodeUsed(r, L, i) <==> InodeUsed(img, L, i)))
  }

  ghost predicate Within(img: seq<byte>, r: seq<byte>, L: Layout, B: set<nat>, I: set<nat>)
    ensures Within(img, r, L, B, I) ==> Geometry(img, L) && Geometry(r, L) && |r| == |img|
  {
    && Geometry(img, L) && Geometry(r, L) && SamePointers(img, r, L)
    && KeepsBlocks(img, r, L, B) && KeepsInodes(img, r, L, I)
    && (Accounts(img, L) ==> Accounts(r, L))
  }

  lemma WithinMeans(img: seq<byte>, r: seq<byte>, L: Layout, B: set<nat>, I: set<nat>)
    requires Within(img, r, L, B, I)
    ensures SamePointers(img, r, L) && KeepsBlocks(img, r, L, B) && KeepsInodes(img, r, L, I)
    ensures forall b: nat {:trigger DataBlock(r, L, b)} :: DataBlock(r, L, b) <==> DataBlock(img, L, b)
    ensures forall ino: nat {:trigger InodeAt(r, L, ino)} :: InodeAt(r, L, ino) == InodeAt(img, L, ino)
    ensures Accounts(img, L) ==> Accounts(r, L)
  {
    hide Geometry, Accounts, KeepsBlocks, KeepsInodes, DataBlock, InodeAt;
    SameAreas(img, r, L);
  }

  // ----- composition -----

  lemma WithinSelf(img: seq<byte>, L: Layout)
    requires Geometry(img, L)
    ensures Within(img, img, L, {}, {})
  {
    hide Geometry, Accounts, DataBlock, InodeAt, BlockUsed, InodeUsed, Times;
    forall b | DataBlock(img, L, b) ensures SameBytes(img, img, BlockAt(L, b), L.bs) { DataBlockInside(img, L, b); }
  }

  lemma WithinTrans(a: seq<byte>, b: seq<byte>, c: seq<byte>, L: Layout, B: set<nat>, I: set<nat>, B': set<nat>,
      I': set<nat>)
    requires Within(a, b, L, B, I) && Within(b, c, L, B', I')
    ensures Within(a, c, L, B + B', I + I')
  {
    hide Geometry, Accounts, DataBlock, InodeAt, BlockUsed, InodeUsed, Times, SameBytes, SamePointers;
    WithinMeans(a, b, L, B, I);
    WithinMeans(b, c, L, B', I');
    SamePointersTrans(a, b, c, L);
    forall x | x !in B + B' && DataBlock(a, L, x) ensures SameBytes(a, c, BlockAt(L, x), L.bs) {
      assert DataBlock(b, L, x);
      Chain(a, b, c, BlockAt(L, x), L.bs);
    }
    forall x | x in B + B' ensures DataBlock(a, L, x) { if x in B' { assert DataBlock(b, L, x); } }
    forall i | IsInode(L, i) && i !in I + I' && InodeAt(a, L, i).Some?
      ensures SameBytes(a, c, InodeAt(a, L, i).value, L.inodeSize)
    {
      assert InodeAt(b, L, i) == InodeAt(a, L, i);
      Chain(a, b, c, InodeAt(a, L, i).value, L.inodeSize);
    }
  }

  lemma WithinMore(img: seq<byte>, r: seq<byte>, L: Layout, B: set<nat>, I: set<nat>, B': set<nat>, I': set<nat>)
    requires Within(img, r, L, B, I) && B <= B' && I <= I' && forall b :: b in B' ==> DataBlock(img, L, b)
    ensures Within(img, r, L, B', I')
  {
    hide Geometry, Accounts, DataBlock, InodeAt, BlockUsed, InodeUsed, Times, SameBytes, SamePointers;
  }

  lemma Chain(a: seq<byte>, b: seq<byte>, c: seq<byte>, at: nat, n: nat)
    requires SameBytes(a, b, at, n) && SameBytes(b, c, at, n)
    ensures SameBytes(a, c, at, n)
  {
  }

  // ----- single writes -----

  /** A plain write inside the union of one data block or one inode slot. */
  lemma PutWithin(img: seq<byte>, L: Layout, p: nat, x: seq<byte>, B: set<nat>, I: set<nat>)
    requires Geometry(img, L) && p + |x| <= |img| && Plain(img, L, p, |x|)
    requires forall b :: b in B ==> DataBlock(img, L, b)
    requires forall b :: b !in B && DataBlock(img, L, b) ==> Apart(p, |x|, BlockAt(L, b), L.bs)
    requires forall i :: IsInode(L, i) && i !in I && InodeAt(img, L, i).Some? ==>
      Apart(p, |x|, InodeAt(img, L, i).value, L.inodeSize)
    ensures Within(img, Put(img, p, x), L, B, I)
  {
    hide Geometry, Accounts, DataBlock, InodeAt, BlockUsed, InodeUsed, Times, SameBytes, SamePointers, Put, Plain;
    var r := Put(img, p, x);
    PlainPutUsed(img, L, p, x);
    forall b | b !in B && DataBlock(img, L, b) ensures SameBytes(img, r, BlockAt(L, b), L.bs) {
      DataBlockInside(img, L, b);
      SameBytesAfterPut(img, p, x, BlockAt(L, b), L.bs);
    }
    forall i | IsInode(L, i) && i !in I && InodeAt(img, L, i).Some?
      ensures SameBytes(img, r, InodeAt(img, L, i).value, L.inodeSize)
    {
      SameBytesAfterPut(img, p, x, InodeAt(img, L, i).value, L.inodeSize);
    }
    if Accounts(img, L) { PlainAccounts(img, L, p, x); }
  }

  lemma PutBlock(img: seq<byte>, L: Layout, b: nat, p: nat, x: seq<byte>)
    requires Geometry(img, L) && DataBlock(img, L, b) && BlockAt(L, b) <= p && p + |x| <= BlockAt(L, b) + L.bs
    requires p + |x| <= |img|
    ensures Within(img, Put(img, p, x), L, {b}, {})
    ensures BlockUsed(Put(img, p, x), L, b) <==> BlockUsed(img, L, b)
  {
    hide Geometry, Accounts, DataBlock, InodeAt, BlockUsed, InodeUsed, Times, Put, Plain, Within;
    DataRangePlain(img, L, b, p, |x|);
    PlainPutUsed(img, L, p, x);
    forall c | c != b && DataBlock(img, L, c) ensures Apart(p, |x|, BlockAt(L, c), L.bs) { BlocksApart(L, b, c); }
    forall i | IsInode(L, i) && InodeAt(img, L, i).Some? ensures Apart(p, |x|, InodeAt(img, L, i).value, L.inodeSize) {
      InodeRangeApartFromData(img, L, i, InodeAt(img, L, i).value, L.inodeSize, b);
    }
    PutWithin(img, L, p, x, {b}, {});
  }

  lemma PutInode(img: seq<byte>, L: Layout, ino: nat, p: nat, x: seq<byte>)
    requires Geometry(img, L) && IsInode(L, ino) && InodeAt(img, L, ino).Some?
    requires InodeAt(img, L, ino).value <= p && p + |x| <= InodeAt(img, L, ino).value + L.inodeSize && p + |x| <= |img|
    ensures Within(img, Put(img, p, x), L, {}, {ino})
    ensures InodeUsed(Put(img, p, x), L, ino) <==> InodeUsed(img, L, ino)
  {
    hide Geometry, Accounts, DataBlock, InodeAt, BlockUsed, InodeUsed, Times, Put, Plain, Within;
    InodeRangePlain(img, L, ino, p, |x|);
    PlainPutUsed(img, L, p, x);
    forall c | DataBlock(img, L, c) ensures Apart(p, |x|, BlockAt(L, c), L.bs) {
      InodeRangeApartFromData(img, L, ino, p, |x|, c);
    }
    forall i | IsInode(L, i) && i != ino && InodeAt(img, L, i).Some?
      ensures Apart(p, |x|, InodeAt(img, L, i).value, L.inodeSize)
    {
      InodeSlotsApart(img, L, i, ino);
    }
    PutWithin(img, L, p, x, {}, {ino});
  }

  // ----- bits -----

  /** A change of one bit and its counters, seen as a set of touched blocks and inodes. */
  lemma SiteWithin(img: seq<byte>, r: seq<byte>, L: Layout, k: Kind, g: nat, x: nat, B: set<nat>, I: set<nat>)
    requires Geometry(img, L) && Position(L, g, x) && OnlySite(img, r, L, k, g, x) && Geometry(r, L)
    requires Accounts(img, L) ==> Accounts(r, L)
    requires forall b :: b in B ==> DataBlock(img, L, b)
    requires forall b :: InRange(L, b) && b !in B ==> (BlockKind, GroupOfBlock(L, b), IndexOfBlock(L, b)) != (k, g, x)
    requires forall i :: IsInode(L, i) && i !in I ==> (InodeKind, GroupOfInode(L, i), IndexOfInode(L, i)) != (k, g, x)
    ensures Within(img, r, L, B, I)
  {
    hide Geometry, Accounts, DataBlock, InodeAt, Times, Plain, SiteAt, BitOn, GroupOfBlock, IndexOfBlock,
      GroupOfInode, IndexOfInode;
    OnlySiteMeans(img, r, L, k, g, x);
    var s := SiteAt(img, L, k, g, x);
    forall b {:trigger BlockUsed(r, L, b)} | InRange(L, b) && b !in B
      ensures BlockUsed(r, L, b) <==> BlockUsed(img, L, b)
    {
      BlockPosition(img, L, b);
    }
    forall i {:trigger InodeUsed(r, L, i)} | IsInode(L, i) && i !in I
      ensures InodeUsed(r, L, i) <==> InodeUsed(img, L, i)
    {
      InodePosition(img, L, i);
    }
    forall b | DataBlock(img, L, b) ensures SameBytes(img, r, BlockAt(L, b), L.bs) {
      DataBlockInside(img, L, b);
      DataRangePlain(img, L, b, BlockAt(L, b), L.bs);
      PlainClear(img, L, k, g, x, BlockAt(L, b), L.bs);
      Unwritten(img, r, s, BlockAt(L, b), L.bs);
      SameSlice(img, r, BlockAt(L, b), L.bs);
    }
    forall i | IsInode(L, i) && InodeAt(img, L, i).Some?
      ensures SameBytes(img, r, InodeAt(img, L, i).value, L.inodeSize)
    {
      var at := InodeAt(img, L, i).value;
      InodeRangePlain(img, L, i, at, L.inodeSize);
      PlainClear(img, L, k, g, x, at, L.inodeSize);
      Unwritten(img, r, s, at, L.inodeSize);
      SameSlice(img, r, at, L.inodeSize);
    }
  }

  lemma BlockOnly(img: seq<byte>, r: seq<byte>, L: Layout, b: nat)
    requires Geometry(img, L) && Geometry(r, L) && DataBlock(img, L, b)
    requires Position(L, GroupOfBlock(L, b), IndexOfBlock(L, b))
    requires OnlySite(img, r, L, BlockKind, GroupOfBlock(L, b), IndexOfBlock(L, b))
    requires Accounts(img, L) ==> Accounts(r, L)
    ensures Within(img, r, L, {b}, {})
  {
    hide Geometry, Accounts, DataBlock, OnlySite, Within, GroupOfBlock, IndexOfBlock;
    forall c | InRange(L, c) && c !in {b}
      ensures (BlockKind, GroupOfBlock(L, c), IndexOfBlock(L, c)) != (BlockKind, GroupOfBlock(L, b), IndexOfBlock(L, b))
    {
      BlockPositionsDiffer(img, L, c, b);
    }
    SiteWithin(img, r, L, BlockKind, GroupOfBlock(L, b), IndexOfBlock(L, b), {b}, {});
  }

  lemma InodeOnly(img: seq<byte>, r: seq<byte>, L: Layout, ino: nat)
    requires Geometry(img, L) && Geometry(r, L) && IsInode(L, ino)
    requires Position(L, GroupOfInode(L, ino), IndexOfInode(L, ino))
    requires OnlySite(img, r, L, InodeKind, GroupOfInode(L, ino), IndexOfInode(L, ino))
    requires Accounts(img, L) ==> Accounts(r, L)
    ensures Within(img, r, L, {}, {ino})
  {
    hide Geometry, Accounts, DataBlock, OnlySite, Within, GroupOfInode, IndexOfInode;
    forall i | IsInode(L, i) && i !in {ino}
      ensures (InodeKind, GroupOfInode(L, i), IndexOfInode(L, i)) != (InodeKind, GroupOfInode(L, ino),
            IndexOfInode(L, ino))
    {
      InodePositionsDiffer(L, i, ino);
    }
    SiteWithin(img, r, L, InodeKind, GroupOfInode(L, ino), IndexOfInode(L, ino), {}, {ino});
  }

  lemma TakeBlockWithin(img: seq<byte>, L: Layout, b: nat)
    requires Geometry(img, L) && DataBlock(img, L, b) && Takable(img, SiteOfBlock(img, L, b))
    ensures Within(img, Take(img, SiteOfBlock(img, L, b)), L, {b}, {})
    ensures BlockUsed(Take(img, SiteOfBlock(img, L, b)), L, b)
  {
    hide Geometry, Accounts, DataBlock, OnlySite, Within, Take, Takable, BitOn, GroupOfBlock, IndexOfBlock;
    BlockPosition(img, L, b);
    BlockReal(img, L, b);
    var g, x := GroupOfBlock(L, b), IndexOfBlock(L, b);
    TakeBit(img, L, BlockKind, g, x);
    var r := Take(img, SiteOfBlock(img, L, b));
    OnlySiteMeans(img, r, L, BlockKind, g, x);
    BlockPosition(r, L, b);
    if Accounts(img, L) { TakeAccounts(img, L, BlockKind, g, x); }
    BlockOnly(img, r, L, b);
  }

  lemma GiveBlockWithin(img: seq<byte>, L: Layout, b: nat)
    requires Geometry(img, L) && DataBlock(img, L, b) && Givable(img, SiteOfBlock(img, L, b))
    ensures Within(img, Give(img, SiteOfBlock(img, L, b)), L, {b}, {})
    ensures !BlockUsed(Give(img, SiteOfBlock(img, L, b)), L, b)
  {
    hide Geometry, Accounts, DataBlock, OnlySite, Within, Give, Givable, BitOn, GroupOfBlock, IndexOfBlock;
    BlockPosition(img, L, b);
    BlockReal(img, L, b);
    var g, x := GroupOfBlock(L, b), IndexOfBlock(L, b);
    GiveBit(img, L, BlockKind, g, x);
    var r := Give(img, SiteOfBlock(img, L, b));
    OnlySiteMeans(img, r, L, BlockKind, g, x);
    BlockPosition(r, L, b);
    if Accounts(img, L) { GiveAccounts(img, L, BlockKind, g, x); }
    BlockOnly(img, r, L, b);
  }

  lemma TakeInodeWithin(img: seq<byte>, L: Layout, ino: nat)
    requires Geometry(img, L) && IsInode(L, ino) && GroupOfInode(L, ino) < L.groupCount
    requires Takable(img, SiteOfInode(img, L, ino))
    ensures Within(img, Take(img, SiteOfInode(img, L, ino)), L, {}, {ino})
    ensures InodeUsed(Take(img, SiteOfInode(img, L, ino)), L, ino)
  {
    hide Geometry, Accounts, DataBlock, OnlySite, Within, Take, Takable, BitOn, GroupOfInode, IndexOfInode;
    InodePosition(img, L, ino);
    InodeReal(img, L, ino);
    var g, x := GroupOfInode(L, ino), IndexOfInode(L, ino);
    TakeBit(img, L, InodeKind, g, x);
    var r := Take(img, SiteOfInode(img, L, ino));
    OnlySiteMeans(img, r, L, InodeKind, g, x);
    InodePosition(r, L, ino);
    if Accounts(img, L) { TakeAccounts(img, L, InodeKind, g, x); }
    InodeOnly(img, r, L, ino);
  }

  lemma GiveInodeWithin(img: seq<byte>, L: Layout, ino: nat)
    requires Geometry(img, L) && IsInode(L, ino) && GroupOfInode(L, ino) < L.groupCount
    requires Givable(img, SiteOfInode(img, L, ino))
    ensures Within(img, Give(img, SiteOfInode(img, L, ino)), L, {}, {ino})
    ensures !InodeUsed(Give(img, SiteOfInode(img, L, ino)), L, ino)
  {
    hide Geometry, Accounts, DataBlock, OnlySite, Within, Give, Givable, BitOn, GroupOfInode, IndexOfInode;
    InodePosition(img, L, ino);
    InodeReal(img, L, ino);
    var g, x := GroupOfInode(L, ino), IndexOfInode(L, ino);
    GiveBit(img, L, InodeKind, g, x);
    var r := Give(img, SiteOfInode(img, L, ino));
    OnlySiteMeans(img, r, L, InodeKind, g, x);
    InodePosition(r, L, ino);
    if Accounts(img, L) { GiveAccounts(img, L, InodeKind, g, x); }
    InodeOnly(img, r, L, ino);
  }

  /** A rewrite confined to one data block. */
  lemma OnlyBlockWithin(img: seq<byte>, r: seq<byte>, L: Layout, b: nat)
    requires Geometry(img, L) && DataBlock(img, L, b) && OnlyBlock(img, r, L, b)
    ensures Within(img, r, L, {b}, {}) && (BlockUsed(r, L, b) <==> BlockUsed(img, L, b))
  {
    hide Geometry, DataBlock, BlockUsed, Times, Put, Within;
    DataBlockInside(img, L, b);
    OnlyBlockIsPut(img, r, L, b);
    PutBlock(img, L, b, BlockAt(L, b), r[BlockAt(L, b)..BlockAt(L, b) + L.bs]);
  }

  /** The used-directories counter belongs to no block and no inode, and is no free count. */
  lemma DirsWithin(img: seq<byte>, L: Layout, g: nat, v: nat)
    requires Geometry(img, L) && g < L.groupCount && v < 0x1_0000
    ensures DescAt(L, g) + GROUP_DESCRIPTOR_SIZE <= |img|
    ensures Within(img, Put(img, DescAt(L, g) + 16, Le16(v)), L, {}, {})
  {
    hide Geometry, DataBlock, BlockUsed, InodeUsed, Times, Put, Accounts, InodeAt, Le16;
    DirsPut(img, L, g, v);
    var at := DescAt(L, g) + 16;
    var r := Put(img, at, Le16(v));
    forall b | DataBlock(img, L, b) ensures SameBytes(img, r, BlockAt(L, b), L.bs) {
      DirsApartFromData(img, L, g, b);
      DataBlockInside(img, L, b);
      SameBytesAfterPut(img, at, Le16(v), BlockAt(L, b), L.bs);
    }
    forall i | IsInode(L, i) && InodeAt(img, L, i).Some?
      ensures SameBytes(img, r, InodeAt(img, L, i).value, L.inodeSize)
    {
      DirsApartFromInode(img, L, g, i);
      SameBytesAfterPut(img, at, Le16(v), InodeAt(img, L, i).value, L.inodeSize);
    }
    if Accounts(img, L) { DirsAccounts(img, L, g, v); }
  }

  lemma DirsAccounts(img: seq<byte>, L: Layout, g: nat, v: nat)
    requires Geometry(img, L) && g < L.groupCount && v < 0x1_0000 && Accounts(img, L)
    requires DescAt(L, g) + GROUP_DESCRIPTOR_SIZE <= |img|
    ensures var r := Put(img, DescAt(L, g) + 16, Le16(v)); Geometry(r, L) && Accounts(r, L)
  {
    hide Geometry, BitOn, U16, U32, Put, Accounts, Le16;
    DirsPut(img, L, g, v);
    var at := DescAt(L, g) + 16;
    var r := Put(img, at, Le16(v));
    assert ValidMeta(L, Table) && ValidMeta(L, Super);
    forall k: Kind, h: nat, j: nat {:trigger BitOn(r, L, k, h, j)} | Position(L, h, j)
      ensures BitOn(r, L, k, h, j) <==> BitOn(img, L, k, h, j)
    {
      BitAwayFromTable(img, r, L, k, h, j, at, Le16(v));
    }
    forall k: Kind, h: nat {:trigger GroupCounter(L, k, h)} | h < L.groupCount && GroupCounter(L, k, h) + 2 <= |img|
      ensures U16(r, GroupCounter(L, k, h)) == U16(img, GroupCounter(L, k, h))
    {
      Read16Apart(img, at, Le16(v), GroupCounter(L, k, h));
    }
    InsideApart(img, L, Table, Super, at, 2);
    forall k: Kind {:trigger TotalCounter(k)} | TotalCounter(k) + 4 <= |img|
      ensures U32(r, TotalCounter(k)) == U32(img, TotalCounter(k))
    {
      Read32Apart(img, at, Le16(v), TotalCounter(k));
    }
    QuietAccounts(img, r, L);
  }
}
