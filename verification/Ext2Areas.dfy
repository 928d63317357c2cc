/** On a well-formed geometry: which bit belongs to which block or inode, and what an
    allocation does to the set of used ones. Blocks and inodes are treated alike: a bit is
    named by its kind, its group and its index in the group's bitmap. */
module Ext2Areas {
  import opened Wrappers
  import opened Bytes
  import opened Ext2Layout
  import opened Ext2Alloc

  /** [at, at+n) lies inside one metadata area. */
  ghost predicate Inside(img: seq<byte>, L: Layout, m: Meta, at: nat, n: nat)
    requires LayoutOf(|img|, L) && ValidMeta(L, m)
  {
    MetaStart(img, L, m) <= at && at + n <= MetaStart(img, L, m) + MetaLen(L, m)
  }

  ghost predicate ApartFrom(img: seq<byte>, L: Layout, m: Meta, at: nat, n: nat)
    requires LayoutOf(|img|, L) && ValidMeta(L, m)
  {
    Apart(at, n, MetaStart(img, L, m), MetaLen(L, m))
  }

  lemma InsideApart(img: seq<byte>, L: Layout, m: Meta, other: Meta, at: nat, n: nat)
    requires Geometry(img, L) && ValidMeta(L, m) && ValidMeta(L, other) && m != other
    requires Inside(img, L, m, at, n)
    ensures ApartFrom(img, L, other, at, n)
  {
  }

  // ----- bits -----

  datatype Kind = BlockKind | InodeKind

  /** A bit position of one of the bitmaps (whether or not a block or inode stands behind it). */
  ghost predicate Position(L: Layout, g: nat, i: nat) {
    g < L.groupCount && i < 8 * L.bs
  }

  function SiteAt(img: seq<byte>, L: Layout, k: Kind, g: nat, i: nat): Site
    requires LayoutOf(|img|, L) && g < L.groupCount
  {
    if k.BlockKind? then BlockSite(img, L, g, i) else InodeSite(img, L, g, i)
  }

  function MapOf(k: Kind, g: nat): Meta {
    if k.BlockKind? then BlockMap(g) else InodeMap(g)
  }

  lemma SitePlaces(img: seq<byte>, L: Layout, k: Kind, g: nat, i: nat)
    requires Geometry(img, L) && Position(L, g, i)
    ensures var s := SiteAt(img, L, k, g, i);
      && SiteOk(|img|, s)
      && Inside(img, L, MapOf(k, g), s.byteAt, 1) && Inside(img, L, Table, s.groupAt, 2)
      && Inside(img, L, Super, s.totalAt, 4)
      && DescAt(L, g) + 12 <= s.groupAt && s.groupAt + 2 <= DescAt(L, g) + GROUP_DESCRIPTOR_SIZE
  {
    GroupStarts(|img|, L, g);
    assert i / 8 < L.bs;
    assert ValidMeta(L, BlockMap(g)) && ValidMeta(L, InodeMap(g)) && ValidMeta(L, Table) && ValidMeta(L, Super);
  }

  ghost predicate BitOn(img: seq<byte>, L: Layout, k: Kind, g: nat, i: nat)
    requires Geometry(img, L) && Position(L, g, i)
  {
    SitePlaces(img, L, k, g, i);
    var s := SiteAt(img, L, k, g, i);
    Bit(img[s.byteAt], s.bit)
  }

  /** A range outside the three areas the site lives in is clear of the site. */
  lemma SiteClear(img: seq<byte>, L: Layout, k: Kind, g: nat, i: nat, at: nat, n: nat)
    requires Geometry(img, L) && Position(L, g, i)
    requires ApartFrom(img, L, Super, at, n) && ApartFrom(img, L, Table, at, n) && ApartFrom(img, L, MapOf(k, g), at, n)
    ensures ClearOf(SiteAt(img, L, k, g, i), at, n)
  {
    SitePlaces(img, L, k, g, i);
  }

  /** Two positions never share a bit, and no counter sits on a bitmap byte. */
  lemma BitsDiffer(img: seq<byte>, L: Layout, k: Kind, g: nat, i: nat, k': Kind, h: nat, j: nat)
    requires Geometry(img, L) && Position(L, g, i) && Position(L, h, j) && (k, g, i) != (k', h, j)
    ensures var s, t := SiteAt(img, L, k, g, i), SiteAt(img, L, k', h, j);
      && (s.byteAt != t.byteAt || s.bit != t.bit)
      && Apart(s.groupAt, 2, t.byteAt, 1) && Apart(s.totalAt, 4, t.byteAt, 1)
  {
    SitePlaces(img, L, k, g, i);
    SitePlaces(img, L, k', h, j);
    var s, t := SiteAt(img, L, k, g, i), SiteAt(img, L, k', h, j);
    InsideApart(img, L, MapOf(k', h), Table, t.byteAt, 1);
    InsideApart(img, L, MapOf(k', h), Super, t.byteAt, 1);
    if MapOf(k, g) != MapOf(k', h) { InsideApart(img, L, MapOf(k', h), MapOf(k, g), t.byteAt, 1); }
  }

  lemma SiteStays(img: seq<byte>, r: seq<byte>, L: Layout, k: Kind, g: nat, i: nat)
    requires LayoutOf(|img|, L) && SamePointers(img, r, L) && g < L.groupCount
    ensures SiteAt(r, L, k, g, i) == SiteAt(img, L, k, g, i)
  {
    assert SameDescriptor(img, r, L, g);
  }

  lemma WrittenIs(img: seq<byte>, s: Site, b: byte, groupFree: nat, total: nat)
    requires SiteInside(|img|, s) && groupFree < 0x1_0000 && total < 0x1_0000_0000
    ensures Written(img, s, b, groupFree, total)
      == Put(Put(Put(img, s.byteAt, [b]), s.groupAt, Le16(groupFree)), s.totalAt, Le32(total))
  {
  }

  lemma WrittenKeepsPointers(img: seq<byte>, L: Layout, k: Kind, g: nat, i: nat, b: byte, groupFree: nat, total: nat)
    requires Geometry(img, L) && Position(L, g, i) && groupFree < 0x1_0000 && total < 0x1_0000_0000
    requires SiteOk(|img|, SiteAt(img, L, k, g, i))
    ensures SamePointers(img, Written(img, SiteAt(img, L, k, g, i), b, groupFree, total), L)
  {
    hide Written, Put, Geometry, U16, U32, Le16, Le32;
    var s := SiteAt(img, L, k, g, i);
    SitePlaces(img, L, k, g, i);
    InsideApart(img, L, MapOf(k, g), Table, s.byteAt, 1);
    InsideApart(img, L, Super, Table, s.totalAt, 4);
    PutKeepsPointers(img, L, s.byteAt, [b]);
    var x := Put(img, s.byteAt, [b]);
    PutKeepsPointers(x, L, s.groupAt, Le16(groupFree));
    var y := Put(x, s.groupAt, Le16(groupFree));
    PutKeepsPointers(y, L, s.totalAt, Le32(total));
    SamePointersTrans(img, x, y, L);
    SamePointersTrans(img, y, Put(y, s.totalAt, Le32(total)), L);
    WrittenIs(img, s, b, groupFree, total);
  }

  /** `r` differs from `img` at most at one position and its counters. */
  ghost predicate OnlySite(img: seq<byte>, r: seq<byte>, L: Layout, k: Kind, g: nat, i: nat)
    requires Geometry(img, L) && Position(L, g, i)
  {
    && SamePointers(img, r, L) && Geometry(r, L)
    && (forall p :: 0 <= p < |img| && ClearOf(SiteAt(img, L, k, g, i), p, 1) ==> r[p] == img[p])
    && forall k': Kind, h: nat, j: nat {:trigger BitOn(r, L, k', h, j)} ::
         Position(L, h, j) && (k', h, j) != (k, g, i) ==>
         (BitOn(r, L, k', h, j) <==> BitOn(img, L, k', h, j))
  }

  /** A write to one site: pointers stay, and every other position keeps its bit. */
  lemma SiteWrite(img: seq<byte>, L: Layout, k: Kind, g: nat, i: nat, b: byte, groupFree: nat, total: nat)
    requires Geometry(img, L) && Position(L, g, i) && groupFree < 0x1_0000 && total < 0x1_0000_0000
    requires var s := SiteAt(img, L, k, g, i);
      && SiteOk(|img|, s)
      && forall j :: 0 <= j < 8 && j != s.bit ==> Bit(b, j) == Bit(img[s.byteAt], j)
    ensures var s := SiteAt(img, L, k, g, i); var r := Written(img, s, b, groupFree, total);
      && OnlySite(img, r, L, k, g, i)
      && U16(r, s.groupAt) == groupFree && U32(r, s.totalAt) == total
      && (BitOn(r, L, k, g, i) <==> Bit(b, s.bit))
  {
    hide Written, Put, Bit, U16, U32, Geometry, SiteAt;
    var s := SiteAt(img, L, k, g, i);
    var r := Written(img, s, b, groupFree, total);
    WrittenKeepsPointers(img, L, k, g, i, b, groupFree, total);
    SameAreas(img, r, L);
    WrittenReads(img, s, b, groupFree, total);
    SiteStays(img, r, L, k, g, i);
    forall k': Kind, h: nat, j: nat {:trigger BitOn(r, L, k', h, j)} | Position(L, h, j) && (k', h, j) != (k, g, i)
      ensures BitOn(r, L, k', h, j) <==> BitOn(img, L, k', h, j)
    {
      SiteStays(img, r, L, k', h, j);
      SitePlaces(img, L, k', h, j);
      BitsDiffer(img, L, k, g, i, k', h, j);
      var t := SiteAt(img, L, k', h, j);
      if t.byteAt != s.byteAt { assert ClearOf(s, t.byteAt, 1); }
    }
  }

  /** What taking a free position means: the same geometry, one more bit on. */
  lemma TakeBit(img: seq<byte>, L: Layout, k: Kind, g: nat, i: nat)
    requires Geometry(img, L) && Position(L, g, i) && Takable(img, SiteAt(img, L, k, g, i))
    ensures var s := SiteAt(img, L, k, g, i); var r := Take(img, s);
      && SiteOk(|img|, s) && OnlySite(img, r, L, k, g, i)
      && U16(r, s.groupAt) == U16(img, s.groupAt) - 1 && U32(r, s.totalAt) == U32(img, s.totalAt) - 1
      && BitOn(r, L, k, g, i)
  {
    hide Written, Put, Bit, U16, U32, Geometry, SiteAt, SetBit, OnlySite, BitOn;
    var s := SiteAt(img, L, k, g, i);
    SitePlaces(img, L, k, g, i);
    forall j | 0 <= j < 8
      ensures Bit(SetBit(img[s.byteAt], s.bit), j) == (j == s.bit || Bit(img[s.byteAt], j))
    {
      BitOfSet(img[s.byteAt], s.bit, j);
    }
    SiteWrite(img, L, k, g, i, SetBit(img[s.byteAt], s.bit), U16(img, s.groupAt) - 1, U32(img, s.totalAt) - 1);
  }

  lemma GiveBit(img: seq<byte>, L: Layout, k: Kind, g: nat, i: nat)
    requires Geometry(img, L) && Position(L, g, i) && Givable(img, SiteAt(img, L, k, g, i))
    ensures var s := SiteAt(img, L, k, g, i); var r := Give(img, s);
      && SiteOk(|img|, s) && OnlySite(img, r, L, k, g, i)
      && U16(r, s.groupAt) == U16(img, s.groupAt) + 1 && U32(r, s.totalAt) == U32(img, s.totalAt) + 1
      && !BitOn(r, L, k, g, i)
  {
    hide Written, Put, Bit, U16, U32, Geometry, SiteAt, ClearBit, OnlySite, BitOn;
    var s := SiteAt(img, L, k, g, i);
    SitePlaces(img, L, k, g, i);
    forall j | 0 <= j < 8
      ensures Bit(ClearBit(img[s.byteAt], s.bit), j) == (j != s.bit && Bit(img[s.byteAt], j))
    {
      BitOfClear(img[s.byteAt], s.bit, j);
    }
    SiteWrite(img, L, k, g, i, ClearBit(img[s.byteAt], s.bit), U16(img, s.groupAt) + 1, U32(img, s.totalAt) + 1);
  }

  // ----- blocks and inodes by number -----

  ghost predicate InRange(L: Layout, b: nat) {
    L.firstData <= b < L.blocksCount
  }

  lemma BlockPosition(img: seq<byte>, L: Layout, b: nat)
    requires Geometry(img, L) && InRange(L, b)
    ensures Position(L, GroupOfBlock(L, b), IndexOfBlock(L, b))
    ensures SiteOfBlock(img, L, b) == SiteAt(img, L, BlockKind, GroupOfBlock(L, b), IndexOfBlock(L, b))
  {
    Locate(|img|, L, b);
  }

  ghost predicate BlockUsed(img: seq<byte>, L: Layout, b: nat)
    requires Geometry(img, L) && InRange(L, b)
  {
    BlockPosition(img, L, b);
    BitOn(img, L, BlockKind, GroupOfBlock(L, b), IndexOfBlock(L, b))
  }

  ghost predicate IsInode(L: Layout, ino: nat) {
    0 < ino <= L.inodesCount
  }

  lemma InodePosition(img: seq<byte>, L: Layout, ino: nat)
    requires Geometry(img, L) && IsInode(L, ino)
    ensures Position(L, GroupOfInode(L, ino), IndexOfInode(L, ino))
    ensures SiteOfInode(img, L, ino) == SiteAt(img, L, InodeKind, GroupOfInode(L, ino), IndexOfInode(L, ino))
  {
    InodeGroup(L, ino);
  }

  ghost predicate InodeUsed(img: seq<byte>, L: Layout, ino: nat)
    requires Geometry(img, L) && IsInode(L, ino)
  {
    InodePosition(img, L, ino);
    BitOn(img, L, InodeKind, GroupOfInode(L, ino), IndexOfInode(L, ino))
  }

  /** Different numbers are different positions. */
  lemma BlockPositionsDiffer(img: seq<byte>, L: Layout, a: nat, b: nat)
    requires Geometry(img, L) && InRange(L, a) && InRange(L, b) && a != b
    ensures (GroupOfBlock(L, a), IndexOfBlock(L, a)) != (GroupOfBlock(L, b), IndexOfBlock(L, b))
  {
    Locate(|img|, L, a);
    Locate(|img|, L, b);
  }

  lemma InodePositionsDiffer(L: Layout, a: nat, b: nat)
    requires L.ipg > 0 && IsInode(L, a) && IsInode(L, b) && a != b
    ensures (GroupOfInode(L, a), IndexOfInode(L, a)) != (GroupOfInode(L, b), IndexOfInode(L, b))
  {
    InodeGroup(L, a);
    InodeGroup(L, b);
  }

  /** Every slot of the inode table is inside its group's table area, and slots are apart. */
  lemma InodeSlot(img: seq<byte>, L: Layout, ino: nat)
    requires Geometry(img, L) && IsInode(L, ino)
    ensures InodeAt(img, L, ino).Some? && GroupOfInode(L, ino) < L.groupCount
    ensures Inside(img, L, Inodes(GroupOfInode(L, ino)), InodeAt(img, L, ino).value, L.inodeSize)
  {
    InodeGroup(L, ino);
    QuotRem(ino - 1, L.ipg);
    TimesMonotone(IndexOfInode(L, ino), L.ipg, L.inodeSize);
    assert ValidMeta(L, Inodes(GroupOfInode(L, ino)));
  }

  lemma InodeSlotsApart(img: seq<byte>, L: Layout, a: nat, b: nat)
    requires Geometry(img, L) && IsInode(L, a) && IsInode(L, b) && a != b
    requires InodeAt(img, L, a).Some? && InodeAt(img, L, b).Some?
    ensures Apart(InodeAt(img, L, a).value, L.inodeSize, InodeAt(img, L, b).value, L.inodeSize)
  {
    InodeSlot(img, L, a);
    InodeSlot(img, L, b);
    InodePositionsDiffer(L, a, b);
    var g, h := GroupOfInode(L, a), GroupOfInode(L, b);
    var i, j := IndexOfInode(L, a), IndexOfInode(L, b);
    if g != h {
      assert ValidMeta(L, Inodes(g)) && ValidMeta(L, Inodes(h)) && Inodes(g) != Inodes(h);
    } else if i < j {
      TimesMonotone(i, j, L.inodeSize);
    } else {
      TimesMonotone(j, i, L.inodeSize);
    }
  }

  // ----- the allocators -----

  /** A successful allocation hands out a block that was free, and takes exactly it. */
  lemma {:induction false} AllocBlockTakes(img: seq<byte>, L: Layout, g: nat)
    requires Geometry(img, L)
    ensures var r := AllocBlockFrom(img, L, g);
      r.0.Ok? ==>
        && InRange(L, r.0.value) && Takable(img, SiteOfBlock(img, L, r.0.value))
        && r.1 == Take(img, SiteOfBlock(img, L, r.0.value))
    ensures AllocBlockFrom(img, L, g).0.Err? ==> AllocBlockFrom(img, L, g).1 == img
    decreases L.groupCount - g
  {
    hide Geometry, Put, Written, Take, FindClear, Times, U16, U32, Bit;
    if g < L.groupCount {
      GroupStarts(|img|, L, g);
      match FindClear(img, BlockBitmap(img, L, g), 0, BlockSpan(L, g))
      case Outside =>
      case AllUsed => AllocBlockTakes(img, L, g + 1);
      case Clear(i) =>
        LocateOf(|img|, L, g, i);
    }
  }

  lemma {:induction false} AllocInodeTakes(img: seq<byte>, L: Layout, g: nat)
    requires Geometry(img, L)
    ensures var r := AllocInodeFrom(img, L, g);
      r.0.Ok? ==>
        && IsInode(L, r.0.value) && GroupOfInode(L, r.0.value) < L.groupCount && r.0.value >= L.firstInode
        && Takable(img, SiteOfInode(img, L, r.0.value))
        && r.1 == Take(img, SiteOfInode(img, L, r.0.value))
    decreases L.groupCount - g
  {
    hide Geometry, Put, Written, Take, Marked, Counted, Bit, SetBit, U16, U32, FindClear;
    if g < L.groupCount {
      GroupStarts(|img|, L, g);
      match FindClear(img, InodeBitmap(img, L, g), Reserved(L, g), InodeSpan(L, g))
      case Outside =>
      case AllUsed => AllocInodeTakes(img, L, g + 1);
      case Clear(i) => AllocInodeHere(img, L, g, i);
    }
  }

  /** The group that has a clear bit. */
  lemma AllocInodeHere(img: seq<byte>, L: Layout, g: nat, i: nat)
    requires Geometry(img, L) && g < L.groupCount
    requires FindClear(img, InodeBitmap(img, L, g), Reserved(L, g), InodeSpan(L, g)) == Clear(i)
    ensures var r := AllocInodeFrom(img, L, g);
      r.0.Ok? ==>
        && IsInode(L, r.0.value) && GroupOfInode(L, r.0.value) < L.groupCount && r.0.value >= L.firstInode
        && Takable(img, SiteOfInode(img, L, r.0.value))
        && r.1 == Take(img, SiteOfInode(img, L, r.0.value))
  {
    hide Geometry, Put, Written, Take, Marked, Counted, Bit, SetBit, U16, U32, FindClear;
    GroupStarts(|img|, L, g);
    InodeGroupOf(L, g, i);
    SitePlaces(img, L, InodeKind, g, i);
    MarkThenCount(img, InodeSite(img, L, g, i));
  }

  /** Marking before counting is the same as `Take`. */
  lemma MarkThenCount(img: seq<byte>, s: Site)
    requires SiteOk(|img|, s) && !Bit(img[s.byteAt], s.bit)
    ensures U16(Marked(img, s), s.groupAt) == U16(img, s.groupAt)
    ensures U32(Marked(img, s), s.totalAt) == U32(img, s.totalAt)
    ensures U16(img, s.groupAt) > 0 && U32(img, s.totalAt) > 0 ==>
      && Takable(img, s)
      && Counted(Marked(img, s), s, U16(img, s.groupAt) - 1, U32(img, s.totalAt) - 1) == Take(img, s)
  {
    hide Put, Bit, SetBit, U16, U32;
    var b := [SetBit(img[s.byteAt], s.bit)];
    Read16Apart(img, s.byteAt, b, s.groupAt);
    Read32Apart(img, s.byteAt, b, s.totalAt);
  }
}
