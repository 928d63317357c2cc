/** The invariant of a whole image: sound geometry, counts that add up, free blocks that are
    data, no block referenced twice, and well-formed directories. */
module Ext2Fs {
  import opened Wrappers
  import opened Bytes
  import opened Ext2Layout
  import opened Ext2Alloc
  import opened Ext2Areas
  import opened Ext2File
  import opened Ext2Unwind
  import opened Ext2Append
  import opened Ext2Accounting
  import opened Ext2Dirent
  import opened Ext2Directory
  import opened Ext2Steps

  // ----- references -----

  /** Places an inode keeps block numbers in: 12 direct slots, the indirect slot, and the
      entries of the indirect table. */
  ghost function RefCount(L: Layout): nat { 13 + L.bs / 4 }

  ghost function Ref(img: seq<byte>, L: Layout, i: nat, x: nat): nat
    requires Geometry(img, L) && IsInode(L, i) && x < RefCount(L)
  {
    if x <= 12 then Slot(img, L, i, x)
    else
      var t := Slot(img, L, i, 12);
      if t == 0 || !InRange(L, t) then 0
      else
        DataBlockInside(img, L, t);
        U32(img, BlockAt(L, t) + 4 * (x - 13))
  }

  ghost predicate IsUsed(img: seq<byte>, L: Layout, i: nat)
    requires Geometry(img, L)
  {
    IsInode(L, i) && InodeUsed(img, L, i)
  }

  /** Every block a used inode references is a used data block, and is referenced once. */
  ghost predicate Exclusive(img: seq<byte>, L: Layout)
    requires Geometry(img, L)
  {
    && (forall i, x {:trigger Ref(img, L, i, x)} ::
          IsUsed(img, L, i) && 0 <= x < RefCount(L) && Ref(img, L, i, x) != 0 ==> Linked(img, L, Ref(img, L, i, x)))
    && (forall i, x, j, y {:trigger Ref(img, L, i, x), Ref(img, L, j, y)} ::
          IsUsed(img, L, i) && IsUsed(img, L, j) && 0 <= x < RefCount(L) && 0 <= y < RefCount(L) && (i, x) != (j, y)
              && Ref(img, L, i, x) != 0
          ==> Ref(img, L, i, x) != Ref(img, L, j, y))
  }

  /** `i_mode` and `i_links_count`. */
  ghost function NodeOf(img: seq<byte>, L: Layout, i: nat): Node
    requires Geometry(img, L) && IsInode(L, i)
  {
    InodeSlot(img, L, i);
    Node(U16(img, InodeAt(img, L, i).value), U16(img, InodeAt(img, L, i).value + 26))
  }

  ghost predicate DirectoryInode(img: seq<byte>, L: Layout, i: nat)
    requires Geometry(img, L) && IsInode(L, i)
  {
    IsDirectoryMode(NodeOf(img, L, i).mode)
  }

  ghost predicate DirOk(img: seq<byte>, L: Layout, i: nat) {
    exists k: nat :: Dir(img, L, i, k)
  }

  /** Every directory in use is dense and exactly tiled by records. */
  ghost predicate Dirs(img: seq<byte>, L: Layout)
    requires Geometry(img, L)
  {
    forall i {:trigger DirOk(img, L, i)} :: IsUsed(img, L, i) && DirectoryInode(img, L, i) ==> DirOk(img, L, i)
  }

  /** The invariant. */
  ghost predicate Fs(img: seq<byte>, L: Layout)
    ensures Fs(img, L) ==> Geometry(img, L)
  {
    Geometry(img, L) && Accounts(img, L) && FreeIsData(img, L) && Exclusive(img, L) && Dirs(img, L)
  }

  // ----- inodes a step leaves alone -----

  /** Inode `i` and everything it references is the same, byte for byte, and still in use. */
  ghost predicate Untouched(img: seq<byte>, r: seq<byte>, L: Layout, i: nat)
    requires Geometry(img, L) && Geometry(r, L) && IsInode(L, i)
  {
    && InodeAt(img, L, i).Some? && InodeAt(r, L, i) == InodeAt(img, L, i)
    && SameBytes(img, r, InodeAt(img, L, i).value, L.inodeSize)
    && forall x :: 0 <= x < RefCount(L) && Ref(img, L, i, x) != 0 ==>
         Linked(r, L, Ref(img, L, i, x)) && SameBytes(img, r, BlockAt(L, Ref(img, L, i, x)), L.bs)
  }

  ghost predicate RefsSame(img: seq<byte>, r: seq<byte>, L: Layout, i: nat)
    requires Geometry(img, L) && Geometry(r, L) && IsInode(L, i)
  {
    forall x {:trigger Ref(r, L, i, x)} :: 0 <= x < RefCount(L) ==>
      Ref(r, L, i, x) == Ref(img, L, i, x) && (Ref(img, L, i, x) != 0 ==> Linked(r, L, Ref(img, L, i, x)))
  }

  /** The references are the same when the slots and the indirect table are. */
  lemma RefsStay(img: seq<byte>, r: seq<byte>, L: Layout, i: nat, x: nat)
    requires Geometry(img, L) && Geometry(r, L) && |r| == |img| && IsInode(L, i) && x < RefCount(L)
    requires forall j :: 0 <= j < 15 ==> Slot(r, L, i, j) == Slot(img, L, i, j)
    requires var t := Slot(img, L, i, 12); t != 0 && InRange(L, t) ==> SameBytes(img, r, BlockAt(L, t), L.bs)
    ensures Ref(r, L, i, x) == Ref(img, L, i, x)
  {
    hide Geometry, Slot, U32, Times;
    var t := Slot(img, L, i, 12);
    if x > 12 && t != 0 && InRange(L, t) {
      DataBlockInside(img, L, t);
      SubRange(img, r, BlockAt(L, t), L.bs, 4 * (x - 13), 4);
      SameSlot(img, r, BlockAt(L, t) + 4 * (x - 13));
    }
  }

  lemma UntouchedRefs(img: seq<byte>, r: seq<byte>, L: Layout, i: nat)
    requires Geometry(img, L) && Geometry(r, L) && IsInode(L, i) && Untouched(img, r, L, i)
    ensures RefsSame(img, r, L, i) && SameHeader(img, r, L, i)
  {
    hide Geometry, Slot, U32, U16, Times, Linked, InodeAt;
    SameInode(img, r, L, i);
    forall x {:trigger Ref(r, L, i, x)} | 0 <= x < RefCount(L)
      ensures Ref(r, L, i, x) == Ref(img, L, i, x)
    {
      assert Ref(img, L, i, 12) == Slot(img, L, i, 12);
      RefsStay(img, r, L, i, x);
    }
  }

  /** An untouched directory is the same directory with the same names. */
  lemma UntouchedDir(img: seq<byte>, r: seq<byte>, L: Layout, i: nat, k: nat)
    requires Dir(img, L, i, k) && Geometry(r, L) && SamePointers(img, r, L) && Untouched(img, r, L, i)
    ensures DirSame(img, r, L, i, k) && Dir(r, L, i, k) && Names(r, L, i, k, k) == Names(img, L, i, k, k)
  {
    hide Geometry, Slot, U32, U16, Times, Linked, SameBytes, InodeAt, Dir, Names;
    UntouchedRefs(img, r, L, i);
    forall j | 0 <= j < k
      ensures Linked(r, L, Slot(img, L, i, j)) && SameBytes(img, r, BlockAt(L, Slot(img, L, i, j)), L.bs)
    {
      DirBlock(img, L, i, k, j);
      assert Ref(img, L, i, j) == Slot(img, L, i, j);
    }
    DirSameIsDir(img, r, L, i, k);
    DirSameNames(img, r, L, i, k, k);
  }

  // ----- whose blocks a step touches -----

  /** Block `b` is one of those the used inodes in `S` reference. */
  ghost predicate Owned(img: seq<byte>, L: Layout, S: set<nat>, b: nat)
    requires Geometry(img, L)
  {
    exists s, x :: s in S && IsUsed(img, L, s) && 0 <= x < RefCount(L) && Ref(img, L, s, x) == b
  }

  /** All of `B` is free, or belongs to an inode of `S`. */
  ghost predicate Claim(img: seq<byte>, L: Layout, B: set<nat>, S: set<nat>)
    requires Geometry(img, L)
  {
    forall b :: b in B ==> b != 0 && InRange(L, b) && (!BlockUsed(img, L, b) || Owned(img, L, S, b))
  }

  /** Whoever is not in `S` does not reference such a block. */
  lemma NotClaimed(img: seq<byte>, L: Layout, B: set<nat>, S: set<nat>, i: nat, x: nat)
    requires Geometry(img, L) && Exclusive(img, L) && Claim(img, L, B, S) && IsUsed(img, L, i) && i !in S
    requires x < RefCount(L)
    ensures Ref(img, L, i, x) !in B
  {
    hide Geometry, Ref, BlockUsed, InodeUsed, DataBlock, RefCount;
    if Ref(img, L, i, x) in B { assert false; }
  }

  lemma OthersUntouched(img: seq<byte>, r: seq<byte>, L: Layout, B: set<nat>, I: set<nat>, S: set<nat>, i: nat)
    requires Within(img, r, L, B, I) && Exclusive(img, L) && Claim(img, L, B, S) && I <= S && IsUsed(img, L, i)
    requires i !in S
    ensures Untouched(img, r, L, i) && IsUsed(r, L, i)
  {
    hide Geometry, Ref, BlockUsed, InodeUsed, DataBlock, RefCount, InodeAt, SameBytes, Within, Claim;
    WithinMeans(img, r, L, B, I);
    InodeSlot(img, L, i);
    forall x | 0 <= x < RefCount(L) && Ref(img, L, i, x) != 0
      ensures Linked(r, L, Ref(img, L, i, x)) && SameBytes(img, r, BlockAt(L, Ref(img, L, i, x)), L.bs)
    {
      NotClaimed(img, L, B, S, i, x);
      var b := Ref(img, L, i, x);
      assert Linked(img, L, b);
      assert BlockUsed(r, L, b) && DataBlock(r, L, b);
    }
  }

  // ----- the invariant over one step -----

  /** No inode but `ino` references block `b`. */
  ghost predicate NotOthers(img: seq<byte>, L: Layout, ino: nat, b: nat)
    requires Geometry(img, L)
  {
    forall i, x {:trigger Ref(img, L, i, x)} :: IsUsed(img, L, i) && i != ino && 0 <= x < RefCount(L) ==>
        Ref(img, L, i, x) != b
  }

  lemma FreeIsNotOthers(img: seq<byte>, L: Layout, ino: nat, b: nat)
    requires Geometry(img, L) && Exclusive(img, L) && b != 0 && InRange(L, b)
    requires !BlockUsed(img, L, b) || Owned(img, L, {ino}, b)
    ensures NotOthers(img, L, ino, b)
  {
    hide Geometry, BlockUsed, InodeUsed, DataBlock, RefCount, Slot, U32, Times;
    forall i, x {:trigger Ref(img, L, i, x)} | IsUsed(img, L, i) && i != ino && 0 <= x < RefCount(L)
      ensures Ref(img, L, i, x) != b
    {
      NotClaimed(img, L, {b}, {ino}, i, x);
    }
  }

  /** What the changed inode itself has to satisfy afterwards. */
  ghost predicate OwnRefs(img: seq<byte>, r: seq<byte>, L: Layout, ino: nat)
    requires Geometry(img, L) && Geometry(r, L) && IsInode(L, ino)
  {
    && (forall x {:trigger Ref(r, L, ino, x)} :: 0 <= x < RefCount(L) && Ref(r, L, ino, x) != 0 ==>
          Linked(r, L, Ref(r, L, ino, x)) && NotOthers(img, L, ino, Ref(r, L, ino, x)))
    && (forall x, y {:trigger Ref(r, L, ino, x), Ref(r, L, ino, y)} ::
          0 <= x < RefCount(L) && 0 <= y < RefCount(L) && x != y && Ref(r, L, ino, x) != 0 ==>
              Ref(r, L, ino, x) != Ref(r, L, ino, y))
  }

  lemma ExclusiveStep(img: seq<byte>, r: seq<byte>, L: Layout, ino: nat)
    requires Geometry(img, L) && Geometry(r, L) && Exclusive(img, L) && IsInode(L, ino)
    requires forall i {:trigger IsUsed(r, L, i)} :: IsUsed(r, L, i) && i != ino ==>
      IsUsed(img, L, i) && RefsSame(img, r, L, i)
    requires IsUsed(r, L, ino) ==> OwnRefs(img, r, L, ino)
    ensures Exclusive(r, L)
  {
    hide Geometry, BlockUsed, InodeUsed, DataBlock, RefCount, Linked, Slot, U32, Times;
    forall i, x, j, y {:trigger Ref(r, L, i, x), Ref(r, L, j, y)} |
        IsUsed(r, L, i) && IsUsed(r, L, j) && 0 <= x < RefCount(L) && 0 <= y < RefCount(L) && (i, x) != (j, y)
            && Ref(r, L, i, x) != 0
      ensures Ref(r, L, i, x) != Ref(r, L, j, y)
    {
      if i != ino { assert Ref(r, L, i, x) == Ref(img, L, i, x); }
      if j != ino { assert Ref(r, L, j, y) == Ref(img, L, j, y); }
    }
  }

  lemma FreeDataStep(img: seq<byte>, r: seq<byte>, L: Layout, B: set<nat>, I: set<nat>)
    requires Within(img, r, L, B, I) && FreeIsData(img, L)
    ensures FreeIsData(r, L)
  {
    hide Geometry, BlockUsed, InodeUsed, DataBlock, InodeAt, Within;
    WithinMeans(img, r, L, B, I);
    forall b | InRange(L, b) && !BlockUsed(r, L, b) ensures DataBlock(r, L, b) {
      if b !in B { assert DataBlock(img, L, b); }
    }
  }

  /** A directory that keeps its references and is well formed afterwards. */
  ghost predicate StillDir(img: seq<byte>, r: seq<byte>, L: Layout, d: nat)
    requires Geometry(img, L) && Geometry(r, L)
  {
    IsUsed(img, L, d) && IsInode(L, d) && RefsSame(img, r, L, d) && DirOk(r, L, d)
  }

  /** Everybody outside `S` is untouched and still in use, and nobody outside `S` is new. */
  ghost predicate OthersKept(img: seq<byte>, r: seq<byte>, L: Layout, S: set<nat>)
    requires Geometry(img, L) && Geometry(r, L)
  {
    && SamePointers(img, r, L)
    && (forall i: nat {:trigger Untouched(img, r, L, i)} :: IsUsed(img, L, i) && i !in S ==>
          Untouched(img, r, L, i) && IsUsed(r, L, i))
    && (forall i: nat {:trigger IsUsed(r, L, i)} :: IsUsed(r, L, i) && i !in S ==> IsUsed(img, L, i))
  }

  lemma AllOthersKept(img: seq<byte>, r: seq<byte>, L: Layout, B: set<nat>, I: set<nat>, S: set<nat>)
    requires Within(img, r, L, B, I) && Exclusive(img, L) && Claim(img, L, B, S) && I <= S
    ensures OthersKept(img, r, L, S)
  {
    hide Geometry, InodeUsed, Within, Claim, Exclusive, Untouched, SamePointers, KeepsInodes;
    WithinMeans(img, r, L, B, I);
    assert SamePointers(img, r, L);
    forall i: nat {:trigger IsUsed(img, L, i)} | IsUsed(img, L, i) && i !in S
      ensures Untouched(img, r, L, i) && IsUsed(r, L, i)
    {
      OthersUntouched(img, r, L, B, I, S, i);
    }
    forall i: nat {:trigger IsUsed(r, L, i)} | IsUsed(r, L, i) && i !in S
      ensures IsUsed(img, L, i)
    {
      UsedBefore(img, r, L, I, i);
    }
  }

  /** What is left to check after a step that touched blocks `B` and inodes `I`: the inode
      `ino` it worked on, and the directories `D` it wrote to. Everything else is untouched. */
  lemma FsStep(img: seq<byte>, r: seq<byte>, L: Layout, B: set<nat>, I: set<nat>, D: set<nat>, ino: nat)
    requires Fs(img, L) && Within(img, r, L, B, I) && IsInode(L, ino)
    requires Claim(img, L, B, D + {ino}) && I <= D + {ino}
    requires forall d :: d in D ==> StillDir(img, r, L, d)
    requires IsUsed(r, L, ino) && ino !in D ==>
      OwnRefs(img, r, L, ino) && (DirectoryInode(r, L, ino) ==> DirOk(r, L, ino))
    ensures Fs(r, L)
    ensures OthersKept(img, r, L, D + {ino})
  {
    hide Geometry, Ref, BlockUsed, InodeUsed, DataBlock, RefCount, InodeAt, Within, Claim, Untouched, RefsSame,
      OwnRefs, Exclusive, DirOk, FreeIsData, Accounts, U16, OthersKept;
    WithinMeans(img, r, L, B, I);
    FreeDataStep(img, r, L, B, I);
    AllOthersKept(img, r, L, B, I, D + {ino});
    forall i {:trigger IsUsed(r, L, i)} | IsUsed(r, L, i) && i != ino
      ensures IsUsed(img, L, i) && RefsSame(img, r, L, i)
    {
      if i !in D {
        UsedBefore(img, r, L, I, i);
        OthersUntouched(img, r, L, B, I, D + {ino}, i);
        UntouchedRefs(img, r, L, i);
      }
    }
    if ino in D { OwnRefsSame(img, r, L, ino); }
    ExclusiveStep(img, r, L, ino);
    forall i {:trigger DirOk(r, L, i)} | IsUsed(r, L, i) && DirectoryInode(r, L, i)
      ensures DirOk(r, L, i)
    {
      if i !in D && i != ino {
        UsedBefore(img, r, L, I, i);
        OthersUntouched(img, r, L, B, I, D + {ino}, i);
        UntouchedDirOk(img, r, L, i);
      }
    }
  }

  lemma UsedBefore(img: seq<byte>, r: seq<byte>, L: Layout, I: set<nat>, i: nat)
    requires Geometry(img, L) && Geometry(r, L) && KeepsInodes(img, r, L, I) && i !in I && IsUsed(r, L, i)
    ensures IsUsed(img, L, i)
  {
    hide Geometry, InodeUsed;
    assert InodeUsed(r, L, i);
  }

  lemma OwnRefsSame(img: seq<byte>, r: seq<byte>, L: Layout, d: nat)
    requires Geometry(img, L) && Geometry(r, L) && Exclusive(img, L) && IsUsed(img, L, d) && RefsSame(img, r, L, d)
    ensures OwnRefs(img, r, L, d)
  {
    hide Geometry, BlockUsed, InodeUsed, DataBlock, RefCount, Linked, Slot, U32, Times;
    forall x {:trigger Ref(r, L, d, x)} | 0 <= x < RefCount(L) && Ref(r, L, d, x) != 0
      ensures NotOthers(img, L, d, Ref(r, L, d, x))
    {
      forall i, y {:trigger Ref(img, L, i, y)} | IsUsed(img, L, i) && i != d && 0 <= y < RefCount(L)
        ensures Ref(img, L, i, y) != Ref(r, L, d, x)
      {
        assert Ref(r, L, d, x) == Ref(img, L, d, x);
        assert (d, x) != (i, y);
      }
    }
  }

  lemma UntouchedDirOk(img: seq<byte>, r: seq<byte>, L: Layout, i: nat)
    requires Fs(img, L) && Geometry(r, L) && SamePointers(img, r, L) && IsUsed(img, L, i) && Untouched(img, r, L, i)
    requires DirectoryInode(r, L, i)
    ensures DirOk(r, L, i) && DirOk(img, L, i)
  {
    hide Geometry, Ref, InodeUsed, DataBlock, RefCount, InodeAt, U16, Dir, Accounts, Exclusive, FreeIsData, Untouched;
    UntouchedRefs(img, r, L, i);
    assert DirectoryInode(img, L, i) by { UntouchedMode(img, r, L, i); }
    assert DirOk(img, L, i);
    var k: nat :| Dir(img, L, i, k);
    UntouchedDir(img, r, L, i, k);
  }

  lemma UntouchedMode(img: seq<byte>, r: seq<byte>, L: Layout, i: nat)
    requires Geometry(img, L) && Geometry(r, L) && IsInode(L, i) && Untouched(img, r, L, i)
    ensures NodeOf(r, L, i) == NodeOf(img, L, i) && (DirectoryInode(r, L, i) <==> DirectoryInode(img, L, i))
  {
    hide Geometry, InodeAt, Ref;
    var at := InodeAt(img, L, i).value;
    assert r[at] == img[at] && r[at + 1] == img[at + 1] && r[at + 26] == img[at + 26] && r[at + 27] == img[at + 27];
  }
}
