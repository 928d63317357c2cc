/** Taking and giving back blocks and inodes: one bit, one group counter, one total. */
module Ext2Alloc {
  import opened Bytes
  import opened Ext2Layout

  // ----- one bit and its two counters -----

  predicate SiteInside(len: nat, s: Site) {
    s.byteAt < len && s.bit < 8 && s.groupAt + 2 <= len && s.totalAt + 4 <= len
  }

  /** The bit and the two counters are three different places. */
  predicate SiteOk(len: nat, s: Site) {
    && SiteInside(len, s)
    && Apart(s.byteAt, 1, s.groupAt, 2) && Apart(s.byteAt, 1, s.totalAt, 4) && Apart(s.groupAt, 2, s.totalAt, 4)
  }

  /** [at, at+n) touches none of the three places. */
  predicate ClearOf(s: Site, at: nat, n: nat) {
    Apart(s.byteAt, 1, at, n) && Apart(s.groupAt, 2, at, n) && Apart(s.totalAt, 4, at, n)
  }

  function Marked(img: seq<byte>, s: Site): (r: seq<byte>)
    requires SiteInside(|img|, s)
  {
    Put(img, s.byteAt, [SetBit(img[s.byteAt], s.bit)])
  }

  function Counted(img: seq<byte>, s: Site, groupFree: nat, total: nat): (r: seq<byte>)
    requires SiteInside(|img|, s) && groupFree < 0x1_0000 && total < 0x1_0000_0000
  {
    Put(Put(img, s.groupAt, Le16(groupFree)), s.totalAt, Le32(total))
  }

  /** All three places written at once. */
  function Written(img: seq<byte>, s: Site, b: byte, groupFree: nat, total: nat): (r: seq<byte>)
    requires SiteInside(|img|, s) && groupFree < 0x1_0000 && total < 0x1_0000_0000
    ensures |r| == |img|
  {
    Counted(Put(img, s.byteAt, [b]), s, groupFree, total)
  }

  lemma WrittenReads(img: seq<byte>, s: Site, b: byte, groupFree: nat, total: nat)
    requires SiteOk(|img|, s) && groupFree < 0x1_0000 && total < 0x1_0000_0000
    ensures var r := Written(img, s, b, groupFree, total);
      && r[s.byteAt] == b && U16(r, s.groupAt) == groupFree && U32(r, s.totalAt) == total
      && forall p :: 0 <= p < |img| && ClearOf(s, p, 1) ==> r[p] == img[p]
  {
    var x := Put(img, s.byteAt, [b]);
    var y := Put(x, s.groupAt, Le16(groupFree));
    Put16Read(x, s.groupAt, groupFree);
    Put32Read(y, s.totalAt, total);
    Read16Apart(y, s.totalAt, Le32(total), s.groupAt);
  }

  /** Writing the values an image already has gives the image back. */
  lemma WrittenBack(img: seq<byte>, r: seq<byte>, s: Site)
    requires SiteOk(|img|, s) && |r| == |img|
    requires forall p :: 0 <= p < |img| && ClearOf(s, p, 1) ==> r[p] == img[p]
    requires r[s.byteAt] == img[s.byteAt] && U16(r, s.groupAt) == U16(img, s.groupAt)
    requires U32(r, s.totalAt) == U32(img, s.totalAt)
    ensures r == img
  {
    Le16Of(img, s.groupAt); Le16Of(r, s.groupAt);
    Le32Of(img, s.totalAt); Le32Of(r, s.totalAt);
    forall p | 0 <= p < |img|
      ensures r[p] == img[p]
    {
      if s.groupAt <= p < s.groupAt + 2 {
        assert r[s.groupAt..s.groupAt + 2][p - s.groupAt] == img[s.groupAt..s.groupAt + 2][p - s.groupAt];
      } else if s.totalAt <= p < s.totalAt + 4 {
        assert r[s.totalAt..s.totalAt + 4][p - s.totalAt] == img[s.totalAt..s.totalAt + 4][p - s.totalAt];
      } else if p != s.byteAt {
        assert ClearOf(s, p, 1);
      }
    }
  }

  lemma WrittenAfterPut(img: seq<byte>, s: Site, b: byte, groupFree: nat, total: nat, at: nat, bs: seq<byte>)
    requires SiteOk(|img|, s) && groupFree < 0x1_0000 && total < 0x1_0000_0000
    requires at + |bs| <= |img| && ClearOf(s, at, |bs|)
    ensures Written(Put(img, at, bs), s, b, groupFree, total) == Put(Written(img, s, b, groupFree, total), at, bs)
  {
    var x := Put(img, s.byteAt, [b]);
    PutCommute(img, at, bs, s.byteAt, [b]);
    PutCommute(x, at, bs, s.groupAt, Le16(groupFree));
    PutCommute(Put(x, s.groupAt, Le16(groupFree)), at, bs, s.totalAt, Le32(total));
  }

  /** What a successful `allocate_block` does to the image. */
  function Take(img: seq<byte>, s: Site): (r: seq<byte>)
    requires Takable(img, s)
    ensures |r| == |img|
  {
    Written(img, s, SetBit(img[s.byteAt], s.bit), U16(img, s.groupAt) - 1, U32(img, s.totalAt) - 1)
  }

  /** What a successful `free_block` or `free_inode` does to the image. */
  function Give(img: seq<byte>, s: Site): (r: seq<byte>)
    requires Givable(img, s)
    ensures |r| == |img|
  {
    Written(img, s, ClearBit(img[s.byteAt], s.bit), U16(img, s.groupAt) + 1, U32(img, s.totalAt) + 1)
  }

  predicate Givable(img: seq<byte>, s: Site) {
    && SiteInside(|img|, s) && Bit(img[s.byteAt], s.bit)
    && U16(img, s.groupAt) < 0xFFFF && U32(img, s.totalAt) < 0xFFFF_FFFF
  }

  predicate Takable(img: seq<byte>, s: Site) {
    && SiteInside(|img|, s) && !Bit(img[s.byteAt], s.bit)
    && U16(img, s.groupAt) > 0 && U32(img, s.totalAt) > 0
  }

  /** Freeing what was just taken restores every byte. */
  lemma GiveUndoesTake(img: seq<byte>, s: Site)
    requires SiteOk(|img|, s) && Takable(img, s)
    ensures Givable(Take(img, s), s)
    ensures Give(Take(img, s), s) == img
  {
    hide Put, Written, Counted, U16, U32, Bit, SetBit, ClearBit;
    var b, g, n := SetBit(img[s.byteAt], s.bit), U16(img, s.groupAt) - 1, U32(img, s.totalAt) - 1;
    var t := Take(img, s);
    WrittenReads(img, s, b, g, n);
    BitOfSet(img[s.byteAt], s.bit, s.bit);
    ClearAfterSet(img[s.byteAt], s.bit);
    WrittenReads(t, s, img[s.byteAt], g + 1, n + 1);
    WrittenBack(img, Give(t, s), s);
  }

  /** A write elsewhere commutes with taking and with giving. */
  lemma TakeAfterPut(img: seq<byte>, s: Site, at: nat, bs: seq<byte>)
    requires SiteOk(|img|, s) && Takable(img, s) && at + |bs| <= |img| && ClearOf(s, at, |bs|)
    ensures Takable(Put(img, at, bs), s)
    ensures Take(Put(img, at, bs), s) == Put(Take(img, s), at, bs)
  {
    hide Put, Written, Counted, U16, U32, Bit, SetBit, ClearBit;
    Read16Apart(img, at, bs, s.groupAt);
    Read32Apart(img, at, bs, s.totalAt);
    WrittenAfterPut(img, s, SetBit(img[s.byteAt], s.bit), U16(img, s.groupAt) - 1, U32(img, s.totalAt) - 1, at, bs);
  }

  lemma GiveAfterPut(img: seq<byte>, s: Site, at: nat, bs: seq<byte>)
    requires SiteOk(|img|, s) && Givable(img, s) && at + |bs| <= |img| && ClearOf(s, at, |bs|)
    ensures Givable(Put(img, at, bs), s)
    ensures Give(Put(img, at, bs), s) == Put(Give(img, s), at, bs)
  {
    hide Put, Written, Counted, U16, U32, Bit, SetBit, ClearBit;
    Read16Apart(img, at, bs, s.groupAt);
    Read32Apart(img, at, bs, s.totalAt);
    WrittenAfterPut(img, s, ClearBit(img[s.byteAt], s.bit), U16(img, s.groupAt) + 1, U32(img, s.totalAt) + 1, at, bs);
  }

  // ----- searching a bitmap -----

  predicate BitAt(img: seq<byte>, base: nat, i: nat)
    requires base + i / 8 < |img|
  {
    Bit(img[base + i / 8], i % 8)
  }

  datatype Probe = Clear(i: nat) | AllUsed | Outside

  /** First clear bit in [from, span) of the bitmap at `base`; `Outside` when the search
      leaves the image first. */
  function FindClear(img: seq<byte>, base: nat, from: nat, span: nat): (p: Probe)
    ensures p.Clear? ==>
      && from <= p.i < span && base + p.i / 8 < |img| && !BitAt(img, base, p.i)
      && forall j :: from <= j < p.i ==> BitAt(img, base, j)
    ensures p.AllUsed? ==> forall j :: from <= j < span ==> base + j / 8 < |img| && BitAt(img, base, j)
    ensures p.Outside? ==> exists j :: from <= j < span && base + j / 8 >= |img|
    decreases span - from
  {
    if from >= span then AllUsed
    else if base + from / 8 >= |img| then Outside
    else if BitAt(img, base, from) then FindClear(img, base, from + 1, span)
    else Clear(from)
  }

  // ----- blocks -----

  /** `allocate_block`, from group `g` on. */
  function AllocBlockFrom(img: seq<byte>, L: Layout, g: nat): (r: (Res<nat>, seq<byte>))
    requires LayoutOf(|img|, L)
    ensures |r.1| == |img|
    ensures r.0.Ok? ==> L.firstData <= r.0.value < L.blocksCount
    decreases L.groupCount - g
  {
    if g >= L.groupCount then (Err(Full), img)
    else
      GroupStarts(|img|, L, g);
      match FindClear(img, BlockBitmap(img, L, g), 0, BlockSpan(L, g))
      case Outside => (Err(ImageTooSmall), img)
      case AllUsed => AllocBlockFrom(img, L, g + 1)
      case Clear(i) =>
        var s := BlockSite(img, L, g, i);
        if U16(img, s.groupAt) == 0 || U32(img, s.totalAt) == 0 then (Err(FreeCountInconsistent), img)
        else (Ok(L.firstData + Times(g, L.bpg) + i), Take(img, s))
  }

  function AllocBlock(img: seq<byte>, L: Layout): (r: (Res<nat>, seq<byte>))
    requires LayoutOf(|img|, L)
    ensures |r.1| == |img|
    ensures r.0.Ok? ==> L.firstData <= r.0.value < L.blocksCount
  {
    AllocBlockFrom(img, L, 0)
  }

  /** The site of a block by number. */
  function SiteOfBlock(img: seq<byte>, L: Layout, b: nat): Site
    requires LayoutOf(|img|, L) && L.firstData <= b < L.blocksCount
  {
    Locate(|img|, L, b);
    BlockSite(img, L, GroupOfBlock(L, b), IndexOfBlock(L, b))
  }

  function FreeBlock(img: seq<byte>, L: Layout, b: nat): (r: (Res<()>, seq<byte>))
    requires LayoutOf(|img|, L)
    ensures |r.1| == |img|
  {
    if b >= L.blocksCount || b < L.firstData then (Err(BlockOutOfRange(b)), img)
    else
      var s := SiteOfBlock(img, L, b);
      Locate(|img|, L, b);
      GroupStarts(|img|, L, GroupOfBlock(L, b));
      if s.byteAt >= |img| then (Err(ImageTooSmall), img)
      else if !Bit(img[s.byteAt], s.bit) then (Err(NotAllocated(b)), img)
      else if U16(img, s.groupAt) == 0xFFFF || U32(img, s.totalAt) == 0xFFFF_FFFF then (Err(FreeCountInconsistent), img)
      else (Ok(()), Give(img, s))
  }

  // ----- inodes -----

  /** `allocate_inode`, from group `g` on. Unlike the block side it sets the bit before it
      looks at the counters, so the last error leaves the bit set. */
  function AllocInodeFrom(img: seq<byte>, L: Layout, g: nat): (r: (Res<nat>, seq<byte>))
    requires LayoutOf(|img|, L)
    ensures |r.1| == |img|
    ensures r.0.Ok? ==> 0 < r.0.value <= L.inodesCount
    decreases L.groupCount - g
  {
    if g >= L.groupCount then (Err(Full), img)
    else
      GroupStarts(|img|, L, g);
      match FindClear(img, InodeBitmap(img, L, g), Reserved(L, g), InodeSpan(L, g))
      case Outside => (Err(ImageTooSmall), img)
      case AllUsed => AllocInodeFrom(img, L, g + 1)
      case Clear(i) =>
        var s := InodeSite(img, L, g, i);
        var marked := Marked(img, s);
        if U16(marked, s.groupAt) == 0 || U32(marked, s.totalAt) == 0 then (Err(FreeCountInconsistent), marked)
        else (Ok(Times(g, L.ipg) + 1 + i), Counted(marked, s, U16(marked, s.groupAt) - 1, U32(marked, s.totalAt) - 1))
  }

  /** How many indices of group `g` are numbers below `s_first_ino`. */
  function Reserved(L: Layout, g: nat): nat {
    var first := Times(g, L.ipg) + 1;
    if first < L.firstInode then L.firstInode - first else 0
  }

  function AllocInode(img: seq<byte>, L: Layout): (r: (Res<nat>, seq<byte>))
    requires LayoutOf(|img|, L)
    ensures |r.1| == |img|
  {
    AllocInodeFrom(img, L, 0)
  }

  lemma InodeGroup(L: Layout, ino: nat)
    requires L.ipg > 0 && 0 < ino <= L.inodesCount
    ensures ino == Times(GroupOfInode(L, ino), L.ipg) + 1 + IndexOfInode(L, ino)
    ensures IndexOfInode(L, ino) < InodeSpan(L, GroupOfInode(L, ino))
    ensures L.inodesCount <= Times(L.groupCount, L.ipg) ==> GroupOfInode(L, ino) < L.groupCount
  {
    QuotRem(ino - 1, L.ipg);
    var g := GroupOfInode(L, ino);
    if L.inodesCount <= Times(L.groupCount, L.ipg) && g >= L.groupCount {
      if g > L.groupCount { TimesMonotone(L.groupCount, g, L.ipg); }
      assert false;
    }
  }

  lemma InodeGroupOf(L: Layout, g: nat, i: nat)
    requires L.ipg > 0 && i < InodeSpan(L, g)
    ensures GroupOfInode(L, Times(g, L.ipg) + 1 + i) == g && IndexOfInode(L, Times(g, L.ipg) + 1 + i) == i
  {
    QuotOf(g, i, L.ipg);
  }

  function SiteOfInode(img: seq<byte>, L: Layout, ino: nat): Site
    requires LayoutOf(|img|, L) && 0 < ino <= L.inodesCount && GroupOfInode(L, ino) < L.groupCount
  {
    InodeSite(img, L, GroupOfInode(L, ino), IndexOfInode(L, ino))
  }

  function FreeInode(img: seq<byte>, L: Layout, ino: nat): (r: (Res<()>, seq<byte>))
    requires LayoutOf(|img|, L)
    ensures |r.1| == |img|
  {
    if ino == 0 || ino > L.inodesCount || GroupOfInode(L, ino) >= L.groupCount then (Err(InodeOutOfRange(ino)), img)
    else
      var s := SiteOfInode(img, L, ino);
      GroupStarts(|img|, L, GroupOfInode(L, ino));
      if s.byteAt >= |img| then (Err(ImageTooSmall), img)
      else if !Bit(img[s.byteAt], s.bit) then (Err(NotAllocated(ino)), img)
      else if U16(img, s.groupAt) == 0xFFFF || U32(img, s.totalAt) == 0xFFFF_FFFF then (Err(FreeCountInconsistent), img)
      else (Ok(()), Give(img, s))
  }
}
