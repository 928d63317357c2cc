/** Giving back under the accounting invariant never fails: no counter is at its limit. */
module Ext2Giving {
  import opened Bytes
  import opened Ext2Layout
  import opened Ext2Alloc
  import opened Ext2Areas
  import opened Ext2Accounting

  /** How many blocks (inodes) the first `n` groups speak for. */
  ghost function Covered(L: Layout, k: Kind, n: nat): nat
    requires L.firstData <= L.blocksCount
  {
    var all := if k.BlockKind? then L.blocksCount - L.firstData else L.inodesCount;
    var most := Times(n, if k.BlockKind? then L.bpg else L.ipg);
    if most < all then most else all
  }

  lemma CoveredStep(len: nat, L: Layout, k: Kind, n: nat)
    requires LayoutOf(len, L) && n < L.groupCount && L.bpg <= 8 * L.bs && L.ipg <= 8 * L.bs
    ensures Covered(L, k, n) + SpanOf(len, L, k, n) <= Covered(L, k, n + 1)
  {
    GroupStarts(len, L, n);
    assert Times(n + 1, L.bpg) == Times(n, L.bpg) + L.bpg;
    assert Times(n + 1, L.ipg) == Times(n, L.ipg) + L.ipg;
  }

  /** The free ones are among them, and fewer when one is in use. */
  lemma {:induction false} FreeBelowCovered(img: seq<byte>, L: Layout, k: Kind, g: nat, i: nat, n: nat)
    requires Geometry(img, L) && n <= L.groupCount && Real(|img|, L, k, g, i) && BitOn(img, L, k, g, i)
    ensures FreeUpTo(img, L, k, n) + (if g < n then 1 else 0) <= Covered(L, k, n)
  {
    hide Geometry, BitOn, Times;
    if n > 0 {
      FreeBelowCovered(img, L, k, g, i, n - 1);
      CoveredStep(|img|, L, k, n - 1);
      if g == n - 1 { SomeClear(img, L, k, g, i, SpanOf(|img|, L, k, g)); }
    }
  }

  lemma SpanSmall(img: seq<byte>, L: Layout, k: Kind, g: nat)
    requires Geometry(img, L) && g < L.groupCount
    ensures SpanOf(|img|, L, k, g) < 0x1_0000
  {
  }

  /** What is in use can be given back: both counters are below their limits. */
  lemma BalancedGivable(img: seq<byte>, L: Layout, k: Kind, g: nat, i: nat)
    requires Geometry(img, L) && Balanced(img, L, k) && Position(L, g, i) && Real(|img|, L, k, g, i)
    requires BitOn(img, L, k, g, i)
    ensures Givable(img, SiteAt(img, L, k, g, i))
  {
    hide Geometry, U16, U32, Bit, FreeUpTo, ClearBits;
    SitePlaces(img, L, k, g, i);
    SomeClear(img, L, k, g, i, SpanOf(|img|, L, k, g));
    SpanSmall(img, L, k, g);
    assert GroupBalanced(img, L, k, g);
    FreeBelowCovered(img, L, k, g, i, L.groupCount);
  }

  /** `free_block` of a block in use succeeds, and gives exactly it back. */
  lemma FreeBlockSucceeds(img: seq<byte>, L: Layout, b: nat)
    requires Geometry(img, L) && Accounts(img, L) && InRange(L, b) && BlockUsed(img, L, b)
    ensures Givable(img, SiteOfBlock(img, L, b)) && FreeBlock(img, L, b) == (Ok(()), Give(img, SiteOfBlock(img, L, b)))
  {
    hide Geometry, U16, U32, Bit, Give, BitOn, Accounts, GroupOfBlock, IndexOfBlock;
    BlockPosition(img, L, b);
    BlockReal(img, L, b);
    AccountsMeans(img, L);
    BalancedGivable(img, L, BlockKind, GroupOfBlock(L, b), IndexOfBlock(L, b));
  }

  /** And of a free one it reports `NotAllocated` and changes nothing. */
  lemma FreeBlockRefuses(img: seq<byte>, L: Layout, b: nat)
    requires Geometry(img, L)
    ensures InRange(L, b) && !BlockUsed(img, L, b) ==> FreeBlock(img, L, b) == (Err(NotAllocated(b)), img)
    ensures !InRange(L, b) ==> FreeBlock(img, L, b) == (Err(BlockOutOfRange(b)), img)
  {
    hide Geometry, U16, U32, Bit, Give, GroupOfBlock, IndexOfBlock;
    if InRange(L, b) {
      BlockPosition(img, L, b);
      SitePlaces(img, L, BlockKind, GroupOfBlock(L, b), IndexOfBlock(L, b));
    }
  }

  lemma FreeInodeSucceeds(img: seq<byte>, L: Layout, ino: nat)
    requires Geometry(img, L) && Accounts(img, L) && IsInode(L, ino) && InodeUsed(img, L, ino)
    ensures GroupOfInode(L, ino) < L.groupCount && Givable(img, SiteOfInode(img, L, ino))
    ensures FreeInode(img, L, ino) == (Ok(()), Give(img, SiteOfInode(img, L, ino)))
  {
    hide Geometry, U16, U32, Bit, Give, BitOn, Accounts, GroupOfInode, IndexOfInode;
    InodePosition(img, L, ino);
    InodeReal(img, L, ino);
    AccountsMeans(img, L);
    BalancedGivable(img, L, InodeKind, GroupOfInode(L, ino), IndexOfInode(L, ino));
  }

  /** A free inode is refused, and nothing changes. */
  lemma FreeInodeRefuses(img: seq<byte>, L: Layout, ino: nat)
    requires Geometry(img, L) && IsInode(L, ino) && !InodeUsed(img, L, ino)
    ensures FreeInode(img, L, ino) == (Err(NotAllocated(ino)), img)
  {
    hide Geometry, U16, U32, Bit, Give, GroupOfInode, IndexOfInode;
    InodePosition(img, L, ino);
    SitePlaces(img, L, InodeKind, GroupOfInode(L, ino), IndexOfInode(L, ino));
  }

  lemma AccountsMeans(img: seq<byte>, L: Layout)
    requires Geometry(img, L) && Accounts(img, L)
    ensures Balanced(img, L, BlockKind) && Balanced(img, L, InodeKind)
  {
  }

  // ----- the inode allocator -----

  /** Every inode that may be handed out, from group `g` on, is used. */
  ghost predicate NoFreeInode(img: seq<byte>, L: Layout, g: nat)
    requires Geometry(img, L)
  {
    forall i: nat :: IsInode(L, i) && i >= L.firstInode && GroupOfInode(L, i) >= g ==> InodeUsed(img, L, i)
  }

  /** Under the invariant `allocate_inode` succeeds or reports `Full`, and `Full` exactly when
      no unreserved inode is free. */
  lemma {:induction false} AllocInodeComplete(img: seq<byte>, L: Layout, g: nat)
    requires Geometry(img, L) && Accounts(img, L)
    ensures AllocInodeFrom(img, L, g).0.Ok? || AllocInodeFrom(img, L, g).0 == Err(Full)
    ensures AllocInodeFrom(img, L, g).0 == Err(Full) <==> NoFreeInode(img, L, g)
    decreases L.groupCount - g
  {
    hide Geometry, Put, Take, Bit, FindClear, U16, U32, Accounts, BitOn, InodeUsed, Marked, Counted, GroupOfInode,
      IndexOfInode, InodeSpan;
    if g >= L.groupCount {
      forall i | IsInode(L, i) ensures GroupOfInode(L, i) < g { InodeGroup(L, i); }
    } else {
      GroupStarts(|img|, L, g);
      AllocInodeComplete(img, L, g + 1);
      InodeProbe(img, L, g);
      var p := FindClear(img, InodeBitmap(img, L, g), Reserved(L, g), InodeSpan(L, g));
      if p.Clear? {
        AccountsMeans(img, L);
        ClearInode(img, L, g, p.i);
      }
    }
  }

  lemma ClearInode(img: seq<byte>, L: Layout, g: nat, i: nat)
    requires Geometry(img, L) && Balanced(img, L, InodeKind) && g < L.groupCount && i < InodeSpan(L, g) && i < 8 * L.bs
    requires !BitOn(img, L, InodeKind, g, i)
    ensures var s := InodeSite(img, L, g, i);
      && SiteInside(|img|, s)
      && U16(Marked(img, s), s.groupAt) > 0 && U32(Marked(img, s), s.totalAt) > 0
  {
    hide Geometry, U16, U32, Marked, Bit;
    BalancedTakable(img, L, InodeKind, g, i);
    SitePlaces(img, L, InodeKind, g, i);
    MarkThenCount(img, InodeSite(img, L, g, i));
  }

  lemma InodeProbe(img: seq<byte>, L: Layout, g: nat)
    requires Geometry(img, L) && g < L.groupCount
    ensures var p := FindClear(img, InodeBitmap(img, L, g), Reserved(L, g), InodeSpan(L, g));
      && !p.Outside?
      && (p.Clear? ==>
            p.i < InodeSpan(L, g) && p.i < 8 * L.bs && !BitOn(img, L, InodeKind, g, p.i) && !NoFreeInode(img, L, g))
      && (p.AllUsed? ==> (NoFreeInode(img, L, g) <==> NoFreeInode(img, L, g + 1)))
  {
    var base, span := InodeBitmap(img, L, g), InodeSpan(L, g);
    assert ValidMeta(L, InodeMap(g));
    assert MetaStart(img, L, InodeMap(g)) + MetaLen(L, InodeMap(g)) <= |img|;
    hide Put, Take, Bit, FindClear, U16, U32, Geometry;
    var p := FindClear(img, base, Reserved(L, g), span);
    if p.Clear? {
      InodeGroupOf(L, g, p.i);
      var i := Times(g, L.ipg) + 1 + p.i;
      assert IsInode(L, i) && i >= L.firstInode && !InodeUsed(img, L, i);
    } else if p.AllUsed? {
      forall i: nat | IsInode(L, i) && i >= L.firstInode && GroupOfInode(L, i) == g
        ensures InodeUsed(img, L, i)
      {
        InodeGroup(L, i);
        assert BitAt(img, base, IndexOfInode(L, i));
      }
    }
  }
}
