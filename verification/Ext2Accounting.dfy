/** The accounting invariant: every free count equals the clear bits it counts. */
module Ext2Accounting {
  import opened Bytes
  import opened Ext2Layout
  import opened Ext2Alloc
  import opened Ext2Areas
  import opened Ext2File
  import opened Ext2Unwind

  /** How many blocks (inodes) a group's bitmap speaks for. */
  ghost function SpanOf(len: nat, L: Layout, k: Kind, g: nat): (n: nat)
    requires LayoutOf(len, L) && g < L.groupCount && L.bpg <= 8 * L.bs && L.ipg <= 8 * L.bs
    ensures n <= 8 * L.bs
  {
    GroupStarts(len, L, g);
    if k.BlockKind? then BlockSpan(L, g) else InodeSpan(L, g)
  }

  /** The clear bits among the first `n` of one bitmap. */
  ghost function ClearBits(img: seq<byte>, L: Layout, k: Kind, g: nat, n: nat): (c: nat)
    requires Geometry(img, L) && g < L.groupCount && n <= 8 * L.bs
    ensures c <= n
  {
    if n == 0 then 0
    else ClearBits(img, L, k, g, n - 1) + if BitOn(img, L, k, g, n - 1) then 0 else 1
  }

  ghost function FreeIn(img: seq<byte>, L: Layout, k: Kind, g: nat): nat
    requires Geometry(img, L) && g < L.groupCount
  {
    ClearBits(img, L, k, g, SpanOf(|img|, L, k, g))
  }

  ghost function FreeUpTo(img: seq<byte>, L: Layout, k: Kind, n: nat): nat
    requires Geometry(img, L) && n <= L.groupCount
  {
    if n == 0 then 0 else FreeUpTo(img, L, k, n - 1) + FreeIn(img, L, k, n - 1)
  }

  function GroupCounter(L: Layout, k: Kind, g: nat): nat {
    DescAt(L, g) + if k.BlockKind? then 12 else 14
  }

  function TotalCounter(k: Kind): nat {
    if k.BlockKind? then FREE_BLOCKS_AT else FREE_INODES_AT
  }

  ghost predicate GroupBalanced(img: seq<byte>, L: Layout, k: Kind, g: nat)
    requires Geometry(img, L) && g < L.groupCount
  {
    GroupStarts(|img|, L, g);
    U16(img, GroupCounter(L, k, g)) == FreeIn(img, L, k, g)
  }

  /** Each group's count is its clear bits, the superblock's the sum over the groups. */
  ghost predicate Balanced(img: seq<byte>, L: Layout, k: Kind)
    requires Geometry(img, L)
  {
    && (forall g :: 0 <= g < L.groupCount ==> GroupBalanced(img, L, k, g))
    && U32(img, TotalCounter(k)) == FreeUpTo(img, L, k, L.groupCount)
  }

  /** The accounting invariant of the image: blocks and inodes both balance. */
  ghost predicate Accounts(img: seq<byte>, L: Layout)
    requires Geometry(img, L)
  {
    Balanced(img, L, BlockKind) && Balanced(img, L, InodeKind)
  }

  // ----- counting -----

  lemma {:induction false} SameCount(img: seq<byte>, r: seq<byte>, L: Layout, k: Kind, g: nat, n: nat)
    requires Geometry(img, L) && Geometry(r, L) && g < L.groupCount && n <= 8 * L.bs
    requires forall i {:trigger BitOn(r, L, k, g, i)} :: 0 <= i < n && Position(L, g, i) ==>
      (BitOn(r, L, k, g, i) <==> BitOn(img, L, k, g, i))
    ensures ClearBits(r, L, k, g, n) == ClearBits(img, L, k, g, n)
  {
    hide Geometry, BitOn;
    if n > 0 { SameCount(img, r, L, k, g, n - 1); }
  }

  /** One bit on in `r` that was off in `img`: one clear bit less. */
  lemma {:induction false} OneLess(img: seq<byte>, r: seq<byte>, L: Layout, k: Kind, g: nat, i: nat, n: nat)
    requires Geometry(img, L) && Geometry(r, L) && g < L.groupCount && i < n <= 8 * L.bs
    requires !BitOn(img, L, k, g, i) && BitOn(r, L, k, g, i)
    requires forall j {:trigger BitOn(r, L, k, g, j)} :: 0 <= j < n && j != i && Position(L, g, j) ==>
      (BitOn(r, L, k, g, j) <==> BitOn(img, L, k, g, j))
    ensures ClearBits(r, L, k, g, n) + 1 == ClearBits(img, L, k, g, n)
  {
    hide Geometry, BitOn;
    if i < n - 1 { OneLess(img, r, L, k, g, i, n - 1); } else { SameCount(img, r, L, k, g, n - 1); }
  }

  lemma {:induction false} SumSame(img: seq<byte>, r: seq<byte>, L: Layout, k: Kind, n: nat)
    requires Geometry(img, L) && Geometry(r, L) && |r| == |img| && n <= L.groupCount
    requires forall g {:trigger FreeIn(r, L, k, g)} :: 0 <= g < n ==> FreeIn(r, L, k, g) == FreeIn(img, L, k, g)
    ensures FreeUpTo(r, L, k, n) == FreeUpTo(img, L, k, n)
  {
    hide Geometry, FreeIn;
    if n > 0 { SumSame(img, r, L, k, n - 1); }
  }

  lemma {:induction false} SumOneLess(img: seq<byte>, r: seq<byte>, L: Layout, k: Kind, g: nat, n: nat)
    requires Geometry(img, L) && Geometry(r, L) && |r| == |img| && g < n <= L.groupCount
    requires FreeIn(r, L, k, g) + 1 == FreeIn(img, L, k, g)
    requires forall h {:trigger FreeIn(r, L, k, h)} :: 0 <= h < n && h != g ==>
      FreeIn(r, L, k, h) == FreeIn(img, L, k, h)
    ensures FreeUpTo(r, L, k, n) + 1 == FreeUpTo(img, L, k, n)
  {
    hide Geometry, FreeIn;
    if g < n - 1 { SumOneLess(img, r, L, k, g, n - 1); } else { SumSame(img, r, L, k, n - 1); }
  }

  /** A group's free count is part of the total. */
  lemma {:induction false} PartOfSum(img: seq<byte>, L: Layout, k: Kind, g: nat, n: nat)
    requires Geometry(img, L) && g < n <= L.groupCount
    ensures FreeIn(img, L, k, g) <= FreeUpTo(img, L, k, n)
  {
    hide Geometry, FreeIn;
    if g < n - 1 { PartOfSum(img, L, k, g, n - 1); }
  }

  /** A clear bit inside the span makes the count positive. */
  lemma {:induction false} SomeClear(img: seq<byte>, L: Layout, k: Kind, g: nat, i: nat, n: nat)
    requires Geometry(img, L) && g < L.groupCount && i < n <= 8 * L.bs
    ensures !BitOn(img, L, k, g, i) ==> ClearBits(img, L, k, g, n) > 0
    ensures BitOn(img, L, k, g, i) ==> ClearBits(img, L, k, g, n) < n
  {
    hide Geometry, BitOn;
    if i < n - 1 { SomeClear(img, L, k, g, i, n - 1); }
  }

  // ----- the invariant under one site -----

  /** A real block or inode stands behind this position. */
  ghost predicate Real(len: nat, L: Layout, k: Kind, g: nat, i: nat) {
    && LayoutOf(len, L) && g < L.groupCount && L.bpg <= 8 * L.bs && L.ipg <= 8 * L.bs && i < SpanOf(len, L, k, g)
  }

  /** Under the invariant a clear bit can always be taken: the counters are not at zero. */
  lemma BalancedTakable(img: seq<byte>, L: Layout, k: Kind, g: nat, i: nat)
    requires Geometry(img, L) && Balanced(img, L, k) && Real(|img|, L, k, g, i) && !BitOn(img, L, k, g, i)
    ensures Takable(img, SiteAt(img, L, k, g, i))
  {
    hide Geometry, U16, U32, Bit;
    SitePlaces(img, L, k, g, i);
    SomeClear(img, L, k, g, i, SpanOf(|img|, L, k, g));
    assert GroupBalanced(img, L, k, g);
    PartOfSum(img, L, k, g, L.groupCount);
  }

  /** Writing one site and its counters, with the bit going from off to on. */
  lemma BalancedStep(img: seq<byte>, r: seq<byte>, L: Layout, k: Kind, g: nat, i: nat)
    requires Geometry(img, L) && Geometry(r, L) && |r| == |img| && Real(|img|, L, k, g, i)
    requires !BitOn(img, L, k, g, i) && BitOn(r, L, k, g, i)
    requires forall k': Kind, h: nat, j: nat {:trigger BitOn(r, L, k', h, j)} ::
      Position(L, h, j) && (k', h, j) != (k, g, i) ==>
      (BitOn(r, L, k', h, j) <==> BitOn(img, L, k', h, j))
    ensures FreeIn(r, L, k, g) + 1 == FreeIn(img, L, k, g)
    ensures forall k': Kind, h {:trigger FreeIn(r, L, k', h)} :: 0 <= h < L.groupCount && (k', h) != (k, g) ==>
      FreeIn(r, L, k', h) == FreeIn(img, L, k', h)
    ensures FreeUpTo(r, L, k, L.groupCount) + 1 == FreeUpTo(img, L, k, L.groupCount)
    ensures forall k': Kind {:trigger FreeUpTo(r, L, k', L.groupCount)} :: k' != k ==>
      FreeUpTo(r, L, k', L.groupCount) == FreeUpTo(img, L, k', L.groupCount)
  {
    hide Geometry, BitOn;
    OneLess(img, r, L, k, g, i, SpanOf(|img|, L, k, g));
    forall k': Kind, h {:trigger FreeIn(r, L, k', h)} | 0 <= h < L.groupCount && (k', h) != (k, g)
      ensures FreeIn(r, L, k', h) == FreeIn(img, L, k', h)
    {
      SameCount(img, r, L, k', h, SpanOf(|img|, L, k', h));
    }
    SumOneLess(img, r, L, k, g, L.groupCount);
    forall k': Kind {:trigger FreeUpTo(r, L, k', L.groupCount)} | k' != k
      ensures FreeUpTo(r, L, k', L.groupCount) == FreeUpTo(img, L, k', L.groupCount)
    {
      SumSame(img, r, L, k', L.groupCount);
    }
  }

  /** The counters of every other kind or group are clear of the site. */
  lemma OtherCounters(img: seq<byte>, L: Layout, k: Kind, g: nat, i: nat, k': Kind, h: nat)
    requires Geometry(img, L) && Position(L, g, i) && h < L.groupCount
    ensures (k', h) != (k, g) ==> ClearOf(SiteAt(img, L, k, g, i), GroupCounter(L, k', h), 2)
    ensures k' != k ==> ClearOf(SiteAt(img, L, k, g, i), TotalCounter(k'), 4)
    ensures SiteAt(img, L, k, g, i).groupAt == GroupCounter(L, k, g)
    ensures SiteAt(img, L, k, g, i).totalAt == TotalCounter(k)
    ensures GroupCounter(L, k', h) + 2 <= |img| && TotalCounter(k') + 4 <= |img|
  {
    hide Geometry;
    SitePlaces(img, L, k, g, i);
    GroupStarts(|img|, L, g);
    GroupStarts(|img|, L, h);
    var s := SiteAt(img, L, k, g, i);
    assert ValidMeta(L, Table) && ValidMeta(L, Super) && ValidMeta(L, MapOf(k, g));
    InsideApart(img, L, MapOf(k, g), Table, s.byteAt, 1);
    InsideApart(img, L, MapOf(k, g), Super, s.byteAt, 1);
    InsideApart(img, L, Super, Table, s.totalAt, 4);
    InsideApart(img, L, Super, Table, TotalCounter(k'), 4);
  }

  lemma CountersRead(img: seq<byte>, r: seq<byte>, s: Site, p: nat)
    requires |r| == |img| && forall q :: 0 <= q < |img| && ClearOf(s, q, 1) ==> r[q] == img[q]
    ensures p + 2 <= |img| && ClearOf(s, p, 2) ==> U16(r, p) == U16(img, p)
    ensures p + 4 <= |img| && ClearOf(s, p, 4) ==> U32(r, p) == U32(img, p)
  {
    if p + 2 <= |img| && ClearOf(s, p, 2) { assert ClearOf(s, p, 1) && ClearOf(s, p + 1, 1); }
    if p + 4 <= |img| && ClearOf(s, p, 4) {
      assert ClearOf(s, p, 1) && ClearOf(s, p + 1, 1) && ClearOf(s, p + 2, 1) && ClearOf(s, p + 3, 1);
    }
  }

  /** The invariant on both kinds moves along one flipped bit, up or down. */
  lemma BalancedFlip(img: seq<byte>, r: seq<byte>, L: Layout, k: Kind, g: nat, i: nat)
    requires Geometry(img, L) && Position(L, g, i) && Real(|img|, L, k, g, i) && OnlySite(img, r, L, k, g, i)
    requires !BitOn(img, L, k, g, i) && BitOn(r, L, k, g, i)
    requires var s := SiteAt(img, L, k, g, i);
      SiteOk(|img|, s) && U16(r, s.groupAt) + 1 == U16(img, s.groupAt) && U32(r, s.totalAt) + 1 == U32(img, s.totalAt)
    ensures Accounts(img, L) <==> Accounts(r, L)
  {
    hide Geometry, BitOn, U16, U32, FreeIn, FreeUpTo, SiteAt, GroupCounter;
    BalancedStep(img, r, L, k, g, i);
    var s := SiteAt(img, L, k, g, i);
    OtherCounters(img, L, k, g, i, k, g);
    forall k': Kind, h | 0 <= h < L.groupCount
      ensures GroupBalanced(r, L, k', h) <==> GroupBalanced(img, L, k', h)
    {
      OtherCounters(img, L, k, g, i, k', h);
      if (k', h) != (k, g) { CountersRead(img, r, s, GroupCounter(L, k', h)); }
    }
    forall k': Kind | k' != k
      ensures U32(r, TotalCounter(k')) == U32(img, TotalCounter(k'))
    {
      OtherCounters(img, L, k, g, i, k', g);
      CountersRead(img, r, s, TotalCounter(k'));
    }
    assert forall k': Kind {:trigger Balanced(r, L, k')} :: Balanced(r, L, k') <==> Balanced(img, L, k');
  }

  /** Taking a free block or inode keeps the invariant. */
  lemma TakeAccounts(img: seq<byte>, L: Layout, k: Kind, g: nat, i: nat)
    requires Geometry(img, L) && Position(L, g, i) && Real(|img|, L, k, g, i) && Takable(img, SiteAt(img, L, k, g, i))
    requires Accounts(img, L)
    ensures var r := Take(img, SiteAt(img, L, k, g, i)); Geometry(r, L) && Accounts(r, L)
  {
    hide Geometry, Take, U16, U32, FreeIn, FreeUpTo, SiteAt, OnlySite, Accounts;
    SitePlaces(img, L, k, g, i);
    TakeBit(img, L, k, g, i);
    OnlySiteMeans(img, Take(img, SiteAt(img, L, k, g, i)), L, k, g, i);
    BalancedFlip(img, Take(img, SiteAt(img, L, k, g, i)), L, k, g, i);
  }

  lemma OnlySiteMeans(img: seq<byte>, r: seq<byte>, L: Layout, k: Kind, g: nat, i: nat)
    requires Geometry(img, L) && Position(L, g, i) && OnlySite(img, r, L, k, g, i)
    ensures SamePointers(img, r, L) && Geometry(r, L) && |r| == |img|
  {
  }

  /** Giving one back keeps it too. */
  lemma GiveAccounts(img: seq<byte>, L: Layout, k: Kind, g: nat, i: nat)
    requires Geometry(img, L) && Position(L, g, i) && Real(|img|, L, k, g, i) && Givable(img, SiteAt(img, L, k, g, i))
    requires Accounts(img, L)
    ensures var r := Give(img, SiteAt(img, L, k, g, i)); Geometry(r, L) && Accounts(r, L)
  {
    hide Geometry, Give, U16, U32, FreeIn, FreeUpTo, SiteAt, OnlySite, Accounts;
    SitePlaces(img, L, k, g, i);
    GiveBit(img, L, k, g, i);
    var r := Give(img, SiteAt(img, L, k, g, i));
    OnlySiteMeans(img, r, L, k, g, i);
    OnlySiteSym(img, r, L, k, g, i);
    SiteStays(img, r, L, k, g, i);
    BalancedFlip(r, img, L, k, g, i);
  }

  lemma OnlySiteSym(img: seq<byte>, r: seq<byte>, L: Layout, k: Kind, g: nat, i: nat)
    requires Geometry(img, L) && Geometry(r, L) && Position(L, g, i) && OnlySite(img, r, L, k, g, i)
    ensures OnlySite(r, img, L, k, g, i)
  {
    hide Geometry, SiteAt, BitOn;
    SiteStays(img, r, L, k, g, i);
    forall h | 0 <= h < L.groupCount ensures SameDescriptor(r, img, L, h) { assert SameDescriptor(img, r, L, h); }
    forall k': Kind, h: nat, j: nat {:trigger BitOn(img, L, k', h, j)} | Position(L, h, j) && (k', h, j) != (k, g, i)
      ensures BitOn(img, L, k', h, j) <==> BitOn(r, L, k', h, j)
    {
    }
  }

  /** A write that moves no bit and touches none of the free counters keeps the invariant. */
  lemma QuietAccounts(img: seq<byte>, r: seq<byte>, L: Layout)
    requires Geometry(img, L) && Geometry(r, L) && |r| == |img| && Accounts(img, L)
    requires forall k: Kind, h: nat, j: nat {:trigger BitOn(r, L, k, h, j)} :: Position(L, h, j) ==>
      (BitOn(r, L, k, h, j) <==> BitOn(img, L, k, h, j))
    requires forall k: Kind, g: nat {:trigger GroupCounter(L, k, g)} ::
      g < L.groupCount && GroupCounter(L, k, g) + 2 <= |img| ==>
        U16(r, GroupCounter(L, k, g)) == U16(img, GroupCounter(L, k, g))
    requires forall k: Kind {:trigger TotalCounter(k)} :: TotalCounter(k) + 4 <= |img| ==>
      U32(r, TotalCounter(k)) == U32(img, TotalCounter(k))
    ensures Accounts(r, L)
  {
    hide Geometry, BitOn, U16, U32;
    forall k: Kind
      ensures Balanced(r, L, k)
    {
      assert Balanced(img, L, k);
      forall g {:trigger FreeIn(r, L, k, g)} | 0 <= g < L.groupCount
        ensures FreeIn(r, L, k, g) == FreeIn(img, L, k, g)
      {
        SameCount(img, r, L, k, g, SpanOf(|img|, L, k, g));
      }
      SumSame(img, r, L, k, L.groupCount);
      forall g | 0 <= g < L.groupCount ensures GroupBalanced(r, L, k, g) {
        assert GroupBalanced(img, L, k, g);
        GroupStarts(|img|, L, g);
      }
    }
  }

  /** Plain writes are quiet. */
  lemma PlainAccounts(img: seq<byte>, L: Layout, at: nat, x: seq<byte>)
    requires Geometry(img, L) && Accounts(img, L) && at + |x| <= |img| && Plain(img, L, at, |x|)
    ensures Geometry(Put(img, at, x), L) && Accounts(Put(img, at, x), L)
  {
    hide Geometry, BitOn, U16, U32, Put, Accounts, Plain;
    PlainPut(img, L, at, x);
    var r := Put(img, at, x);
    PlainMeans(img, L, at, |x|);
    forall k: Kind, g: nat {:trigger GroupCounter(L, k, g)} | g < L.groupCount && GroupCounter(L, k, g) + 2 <= |img|
      ensures U16(r, GroupCounter(L, k, g)) == U16(img, GroupCounter(L, k, g))
    {
      Read16Apart(img, at, x, GroupCounter(L, k, g));
    }
    forall k: Kind {:trigger TotalCounter(k)} | TotalCounter(k) + 4 <= |img|
      ensures U32(r, TotalCounter(k)) == U32(img, TotalCounter(k))
    {
      Read32Apart(img, at, x, TotalCounter(k));
    }
    QuietAccounts(img, r, L);
  }

  lemma PlainMeans(img: seq<byte>, L: Layout, at: nat, n: nat)
    requires Geometry(img, L) && Plain(img, L, at, n)
    ensures Apart(at, n, DescAt(L, 0), GROUP_DESCRIPTOR_SIZE * L.groupCount) && Apart(at, n, 0, 2048)
  {
    assert ValidMeta(L, Table) && ValidMeta(L, Super);
  }

  // ----- the allocator under the invariant -----

  lemma BlockReal(img: seq<byte>, L: Layout, b: nat)
    requires Geometry(img, L) && InRange(L, b)
    ensures Position(L, GroupOfBlock(L, b), IndexOfBlock(L, b))
    ensures Real(|img|, L, BlockKind, GroupOfBlock(L, b), IndexOfBlock(L, b))
  {
    Locate(|img|, L, b);
  }

  lemma InodeReal(img: seq<byte>, L: Layout, ino: nat)
    requires Geometry(img, L) && IsInode(L, ino)
    ensures Position(L, GroupOfInode(L, ino), IndexOfInode(L, ino))
    ensures Real(|img|, L, InodeKind, GroupOfInode(L, ino), IndexOfInode(L, ino))
  {
    InodeGroup(L, ino);
  }

  /** Every block from group `g` on is used. */
  ghost predicate NoFreeBlock(img: seq<byte>, L: Layout, g: nat)
    requires Geometry(img, L)
  {
    forall b :: InRange(L, b) && GroupOfBlock(L, b) >= g ==> BlockUsed(img, L, b)
  }

  /** Under the invariant `allocate_block` succeeds or reports `Full`, and `Full` exactly when
      no block is free: `FreeCountInconsistent` and `ImageTooSmall` cannot happen. */
  lemma {:induction false} AllocBlockComplete(img: seq<byte>, L: Layout, g: nat)
    requires Geometry(img, L) && Accounts(img, L)
    ensures AllocBlockFrom(img, L, g).0.Ok? || AllocBlockFrom(img, L, g).0 == Err(Full)
    ensures AllocBlockFrom(img, L, g).0 == Err(Full) <==> NoFreeBlock(img, L, g)
    decreases L.groupCount - g
  {
    hide Geometry, Put, Take, Bit, FindClear, U16, U32, Accounts, BitOn, BlockUsed;
    if g >= L.groupCount {
      forall b | InRange(L, b) ensures GroupOfBlock(L, b) < g { Locate(|img|, L, b); }
    } else {
      GroupStarts(|img|, L, g);
      AllocBlockComplete(img, L, g + 1);
      GroupProbe(img, L, g);
      var p := FindClear(img, BlockBitmap(img, L, g), 0, BlockSpan(L, g));
      if p.Clear? { ClearIsTakable(img, L, g, p.i); }
    }
  }

  lemma ClearIsTakable(img: seq<byte>, L: Layout, g: nat, i: nat)
    requires Geometry(img, L) && Accounts(img, L) && g < L.groupCount && L.firstData + Times(g, L.bpg) < L.blocksCount
    requires i < BlockSpan(L, g)
    requires !BitOn(img, L, BlockKind, g, i)
    ensures SiteInside(|img|, BlockSite(img, L, g, i))
    ensures U16(img, BlockSite(img, L, g, i).groupAt) > 0 && U32(img, BlockSite(img, L, g, i).totalAt) > 0
  {
    hide Geometry, BitOn, U16, U32;
    BalancedTakable(img, L, BlockKind, g, i);
  }

  lemma GroupProbe(img: seq<byte>, L: Layout, g: nat)
    requires Geometry(img, L) && g < L.groupCount && L.firstData + Times(g, L.bpg) < L.blocksCount
    ensures var p := FindClear(img, BlockBitmap(img, L, g), 0, BlockSpan(L, g));
      && !p.Outside?
      && (p.Clear? ==> p.i < BlockSpan(L, g) && !BitOn(img, L, BlockKind, g, p.i) && !NoFreeBlock(img, L, g))
      && (p.AllUsed? ==> (NoFreeBlock(img, L, g) <==> NoFreeBlock(img, L, g + 1)))
  {
    var base, span := BlockBitmap(img, L, g), BlockSpan(L, g);
    assert ValidMeta(L, BlockMap(g));
    assert MetaStart(img, L, BlockMap(g)) + MetaLen(L, BlockMap(g)) <= |img|;
    hide Put, Take, Bit, FindClear, U16, U32, Geometry;
    var p := FindClear(img, base, 0, span);
    if p.Clear? {
      LocateOf(|img|, L, g, p.i);
      assert !BlockUsed(img, L, L.firstData + Times(g, L.bpg) + p.i);
    } else if p.AllUsed? {
      forall b | InRange(L, b) && GroupOfBlock(L, b) == g
        ensures BlockUsed(img, L, b)
      {
        Locate(|img|, L, b);
        assert BitAt(img, base, IndexOfBlock(L, b));
      }
    }
  }
}
