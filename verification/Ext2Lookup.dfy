/** The reader's `lookup_in` and the writer's `scan_directory` agree on every name of a
    well-formed directory. */
module Ext2Lookup {
  import opened Wrappers
  import opened Bytes
  import opened Ext2Layout
  import opened Ext2Areas
  import opened Ext2File
  import opened Ext2Unwind
  import opened Ext2Dirent
  import opened Ext2DirBlock
  import opened Ext2Directory
  import opened Ext2Reader
  import opened Ext2Walk

  type Bindings = seq<Binding>

  /** The loop of `lookup_in` over what the walk hands out. */
  function Search(img: seq<byte>, L: Layout, items: seq<Item>, name: seq<byte>): (r: Read<Inode>)
    requires LayoutOf(|img|, L)
    ensures r.Got? ==> |r.value.blocks| == 15
  {
    if items == [] then Bad(NotFound)
    else
      match items[0]
      case Broken(e) => Bad(e)
      case Entry(e) => if e.name == name then InodeOf(img, L, e.inode) else Search(img, L, items[1..], name)
  }

  /** `lookup_in`. */
  function LookupIn(img: seq<byte>, L: Layout, dir: Inode, name: seq<byte>): (r: Read<Inode>)
    requires LayoutOf(|img|, L) && |dir.blocks| == 15
    ensures r.Got? ==> |r.value.blocks| == 15
  {
    if !IsDirectoryMode(dir.mode) then Bad(NotDirectory(dir.number))
    else Search(img, L, Walk(img, L, dir, Start(L, 0)), name)
  }

  // ----- the walk of a well-formed directory hands out its names, in order -----

  predicate AllEntries(items: seq<Item>) {
    forall i :: 0 <= i < |items| ==> items[i].Entry?
  }

  function Bound(items: seq<Item>): (r: Bindings)
    requires AllEntries(items)
    ensures |r| == |items| && forall i :: 0 <= i < |r| ==> r[i] == BoundBy(items[i].entry)
  {
    seq(|items|, i requires 0 <= i < |items| => BoundBy(items[i].entry))
  }

  function BoundBy(e: DirEntry): Binding { (e.name, e.inode, e.kind) }

  /** No binding names an inode past the last one. */
  ghost predicate RealInodes(L: Layout, es: Bindings) {
    forall i :: 0 <= i < |es| ==> es[i].1 <= L.inodesCount
  }

  /** Directory `dir` of `k` blocks as the reader sees it. */
  ghost predicate View(img: seq<byte>, L: Layout, dir: nat, k: nat, inode: Inode)
    ensures View(img, L, dir, k, inode) ==>
      |inode.blocks| == 15 && Geometry(img, L) && IsInode(L, dir) && k <= DIRECT_BLOCK_COUNT
  {
    && Dir(img, L, dir, k) && InodeOf(img, L, dir) == Got(inode)
    && inode.blocks[13] == 0 && inode.blocks[14] == 0
    && RealInodes(L, Names(img, L, dir, k, k))
  }

  ghost function NamesFrom(img: seq<byte>, L: Layout, dir: nat, k: nat, n: nat): Bindings
    requires Dir(img, L, dir, k) && n <= k
    decreases k - n
  {
    if n == k then [] else
      DirBlock(img, L, dir, k, n);
      BlockEntries(img, L, Slot(img, L, dir, n)) + NamesFrom(img, L, dir, k, n + 1)
  }

  lemma NamesNext(img: seq<byte>, L: Layout, dir: nat, k: nat, n: nat)
    requires Dir(img, L, dir, k) && n < k
    ensures InRange(L, Slot(img, L, dir, n)) && TiledBlock(img, L, Slot(img, L, dir, n))
    ensures Names(img, L, dir, k, n + 1) == Names(img, L, dir, k, n) + BlockEntries(img, L, Slot(img, L, dir, n))
    ensures NamesFrom(img, L, dir, k, n)
      == BlockEntries(img, L, Slot(img, L, dir, n)) + NamesFrom(img, L, dir, k, n + 1)
  {
    hide Dir, BlockEntries, Slot, TiledBlock;
    DirBlock(img, L, dir, k, n);
  }

  lemma {:induction false} NamesSplit(img: seq<byte>, L: Layout, dir: nat, k: nat, n: nat)
    requires Dir(img, L, dir, k) && n <= k
    ensures Names(img, L, dir, k, n) + NamesFrom(img, L, dir, k, n) == Names(img, L, dir, k, k)
    decreases k - n
  {
    if n == k {
      assert NamesFrom(img, L, dir, k, n) == [];
    } else {
      hide Dir, BlockEntries, Slot, Names, NamesFrom, TiledBlock;
      NamesSplit(img, L, dir, k, n + 1);
      NamesNext(img, L, dir, k, n);
      Assoc(Names(img, L, dir, k, n), BlockEntries(img, L, Slot(img, L, dir, n)), NamesFrom(img, L, dir, k, n + 1));
    }
  }

  lemma Assoc<T>(a: seq<T>, b: seq<T>, c: seq<T>)
    ensures (a + b) + c == a + (b + c)
  {
  }

  lemma InodeOfFields(img: seq<byte>, L: Layout, ino: nat, inode: Inode)
    requires Geometry(img, L) && IsInode(L, ino) && InodeOf(img, L, ino) == Got(inode) && InodeAt(img, L, ino).Some?
    ensures var at := InodeAt(img, L, ino).value;
      && inode.mode == U16(img, at) && inode.number == ino
      && inode.links == U16(img, at + 26) && inode.blocks512 == U32(img, at + 28)
      && (!IsRegularMode(inode.mode) ==> inode.size == U32(img, at + 4))
      && (IsRegularMode(inode.mode) ==> inode.size == U32(img, at + 4) + 0x1_0000_0000 * U32(img, at + 108))
      && |inode.blocks| == 15 && forall j :: 0 <= j < 15 ==> inode.blocks[j] == Slot(img, L, ino, j)
  {
    hide Geometry, U16, U32, Times, BadSlot;
  }

  lemma ViewFields(img: seq<byte>, L: Layout, dir: nat, k: nat, inode: Inode)
    requires View(img, L, dir, k, inode)
    ensures inode.size == Times(k, L.bs) < 0x1_0000_0000 && IsDirectoryMode(inode.mode)
    ensures forall j :: 0 <= j < 15 ==> inode.blocks[j] == Slot(img, L, dir, j)
    ensures BlockSpanOf(L, inode) == k
  {
    hide Geometry, U16, U32, Times, InodeAt, InodeOf, Dense, Slot, TiledBlock, Names;
    InodeOfFields(img, L, dir, inode);
    QuotOf(k, L.bs - 1, L.bs);
  }

  lemma ViewMeans(img: seq<byte>, L: Layout, dir: nat, k: nat, inode: Inode)
    requires View(img, L, dir, k, inode)
    ensures Dir(img, L, dir, k) && inode.blocks[13] == 0 && inode.blocks[14] == 0
    ensures RealInodes(L, Names(img, L, dir, k, k))
  {
  }

  /** A direct block reads as the bytes of its block, up to the size. */
  lemma DirectBlock(img: seq<byte>, L: Layout, inode: Inode, j: nat, b: nat)
    requires LayoutOf(|img|, L) && |inode.blocks| == 15 && inode.blocks[13] == 0 && inode.blocks[14] == 0
    requires j < 12 && inode.blocks[j] == b && 0 < b < L.blocksCount && Times(j, L.bs) < inode.size
    ensures var left := inode.size - Times(j, L.bs);
      && BlockAt(L, b) + L.bs <= |img|
      && FileBlock(img, L, inode, j) == Got(img[BlockAt(L, b)..BlockAt(L, b) + (if left < L.bs then left else L.bs)])
  {
    hide Times;
    DataBlockInside(img, L, b);
    var whole, left := img[BlockAt(L, b)..BlockAt(L, b) + L.bs], inode.size - Times(j, L.bs);
    var len := if left < L.bs then left else L.bs;
    assert whole[..len] == img[BlockAt(L, b)..BlockAt(L, b) + len];
  }

  lemma ViewBlock(img: seq<byte>, L: Layout, dir: nat, k: nat, inode: Inode, j: nat)
    requires View(img, L, dir, k, inode) && j < k
    ensures var base := BlockAt(L, Slot(img, L, dir, j));
      base + L.bs <= |img| && FileBlock(img, L, inode, j) == Got(img[base..base + L.bs])
  {
    hide Geometry, U16, U32, InodeAt, InodeOf, Dense, Slot, TiledBlock, Names, View, Dir, FileBlock, Times;
    ViewMeans(img, L, dir, k, inode);
    ViewFields(img, L, dir, k, inode);
    DirBlock(img, L, dir, k, j);
    TimesMonotone(j, k, L.bs);
    DirectBlock(img, L, inode, j, Slot(img, L, dir, j));
  }

  /** A record reads the same through the block as in the image. */
  lemma RecordInBlock(img: seq<byte>, base: nat, n: nat, off: nat)
    requires base + n <= |img| && off + DIRENT_HEADER_LEN <= n && RecordOk(img, base + off, base + n)
    ensures var bytes := img[base..base + n];
      && RecLen(bytes, off) == RecLen(img, base + off) && NameLen(bytes, off) == NameLen(img, base + off)
      && BindingAt(bytes, off) == BindingAt(img, base + off)
  {
    var bytes := img[base..base + n];
    assert bytes[off + 4] == img[base + off + 4] && bytes[off + 5] == img[base + off + 5]
        && bytes[off + 6] == img[base + off + 6] && bytes[off + 7] == img[base + off + 7];
    assert NameAt(bytes, off) == NameAt(img, base + off);
  }

  /** The cursor stands in the block at `base`, one of the directory's. */
  ghost predicate Standing(img: seq<byte>, L: Layout, dir: nat, k: nat, inode: Inode, c: Cursor, base: nat)
    ensures Standing(img, L, dir, k, inode, c, base) ==>
      && View(img, L, dir, k, inode) && Dir(img, L, dir, k) && base + L.bs <= |img| && c.blockIndex < k
      && c.offset <= L.bs && !c.finished
  {
    && View(img, L, dir, k, inode) && c.blockIndex < k && c.offset <= L.bs && !c.finished
    && base == BlockAt(L, Slot(img, L, dir, c.blockIndex)) && base + L.bs <= |img|
  }

  ghost predicate AtRecord(img: seq<byte>, L: Layout, dir: nat, k: nat, inode: Inode, c: Cursor, base: nat)
    ensures AtRecord(img, L, dir, k, inode, c, base) ==> LayoutOf(|img|, L) && |inode.blocks| == 15
    ensures AtRecord(img, L, dir, k, inode, c, base) ==>
      && base + c.offset + DIRENT_HEADER_LEN <= |img|
      && base + c.offset + DIRENT_HEADER_LEN + NameLen(img, base + c.offset) <= |img|
  {
    && Standing(img, L, dir, k, inode, c, base) && RealRecord(img, L, c.offset, base)
  }

  predicate RealRecord(img: seq<byte>, L: Layout, offset: nat, base: nat)
    requires base + L.bs <= |img|
    ensures RealRecord(img, L, offset, base) ==>
      && base + offset + DIRENT_HEADER_LEN <= |img|
      && base + offset + DIRENT_HEADER_LEN + NameLen(img, base + offset) <= |img|
  {
    offset + DIRENT_HEADER_LEN <= L.bs && RecordOk(img, base + offset, base + L.bs)
        && U32(img, base + offset) <= L.inodesCount
  }

  /** One turn of the walk at a record of a tiled block. */
  lemma RoundAtRecord(img: seq<byte>, L: Layout, dir: nat, k: nat, inode: Inode, c: Cursor, base: nat)
    requires AtRecord(img, L, dir, k, inode, c, base)
    ensures TurnsAt(img, L, inode, base + c.offset, c)
  {
    hide View, U16, U32, Slot, Times, NameAt, FileBlock, BlockSpanOf, RecLen, NameLen;
    ViewFields(img, L, dir, k, inode);
    ViewBlock(img, L, dir, k, inode, c.blockIndex);
    RecordInBlock(img, base, L.bs, c.offset);
  }

  ghost predicate TurnsAt(img: seq<byte>, L: Layout, inode: Inode, at: nat, c: Cursor) {
    && LayoutOf(|img|, L) && |inode.blocks| == 15
    && at + DIRENT_HEADER_LEN <= |img| && at + DIRENT_HEADER_LEN + NameLen(img, at) <= |img|
    && TurnAt(img, at, c, Round(img, L, inode, c))
  }

  /** The turn at a record: skip it when its inode is 0, hand it out otherwise. */
  ghost predicate TurnAt(img: seq<byte>, at: nat, c: Cursor, turn: Turn)
    requires at + DIRENT_HEADER_LEN <= |img| && at + DIRENT_HEADER_LEN + NameLen(img, at) <= |img|
  {
    && turn.next == c.(loaded := true, offset := c.offset + RecLen(img, at))
    && (turn.Again? <==> U32(img, at) == 0)
    && (turn.Yield? ==>
          && turn.item.Some? && turn.item.value.Entry?
          && BoundBy(turn.item.value.entry) == BindingAt(img, at))
  }

  lemma RoundAtEnd(img: seq<byte>, L: Layout, dir: nat, k: nat, inode: Inode, c: Cursor)
    requires View(img, L, dir, k, inode) && c.blockIndex < k && c.offset == L.bs && !c.finished
    ensures Round(img, L, inode, c) == Again(Cursor(c.blockIndex + 1, 0, false, false))
  {
    hide View, U16, U32, Slot, Times, NameAt, FileBlock, BlockSpanOf;
    ViewFields(img, L, dir, k, inode);
    ViewBlock(img, L, dir, k, inode, c.blockIndex);
  }

  lemma WalkPastLast(img: seq<byte>, L: Layout, dir: nat, k: nat, inode: Inode)
    requires View(img, L, dir, k, inode)
    ensures Walk(img, L, inode, Cursor(k, 0, false, false)) == []
  {
    hide View, BlockSpanOf;
    ViewFields(img, L, dir, k, inode);
  }

  /** The cursor stands at a record, or at the end, of one of the directory's blocks, and `es`
      is what is still to come. */
  ghost predicate Facing(img: seq<byte>, L: Layout, dir: nat, k: nat, inode: Inode, c: Cursor, base: nat, es: Bindings)
    ensures Facing(img, L, dir, k, inode, c, base, es) ==>
      LayoutOf(|img|, L) && |inode.blocks| == 15 && c.offset <= L.bs && c.blockIndex < k
  {
    && Standing(img, L, dir, k, inode, c, base) && RealInodes(L, es)
    && IsAhead(img, base + c.offset, base + L.bs, NamesFrom(img, L, dir, k, c.blockIndex + 1), es)
  }

  ghost predicate IsAhead(img: seq<byte>, at: nat, end: nat, later: Bindings, es: Bindings)
    requires end <= |img|
  {
    Tiled(img, at, end) && es == Entries(img, at, end) + later
  }

  ghost predicate Hands(items: seq<Item>, es: Bindings) {
    AllEntries(items) && Bound(items) == es
  }

  /** The start of block `j`, with everything from there on still to come. */
  lemma FacingBlock(img: seq<byte>, L: Layout, dir: nat, k: nat, inode: Inode, j: nat)
    requires View(img, L, dir, k, inode) && Dir(img, L, dir, k) && j < k && RealInodes(L, NamesFrom(img, L, dir, k, j))
    ensures var base := BlockAt(L, Slot(img, L, dir, j)); var c := Cursor(j, 0, false, false);
      Facing(img, L, dir, k, inode, c, base, NamesFrom(img, L, dir, k, j))
  {
    hide View, Dir, Slot, Times, NamesFrom, BlockEntries, TiledBlock, Tiled, Entries;
    NamesNext(img, L, dir, k, j);
    DirBlock(img, L, dir, k, j);
    BlockEntriesAre(img, L, Slot(img, L, dir, j));
  }

  /** From inside block `j` on, the walk hands out the rest of the block and the later blocks. */
  lemma {:induction false} WalkNames(img: seq<byte>, L: Layout, dir: nat, k: nat, inode: Inode, c: Cursor, base: nat,
      es: Bindings)
    requires Facing(img, L, dir, k, inode, c, base, es)
    ensures Hands(Walk(img, L, inode, c), es)
    decreases k - c.blockIndex, L.bs - c.offset
  {
    hide View, Dir, U16, U32, Slot, Times, NameAt, Round, Next, Walk, NamesFrom, BlockEntries, RecLen, NameLen,
      TiledBlock;
    var j := c.blockIndex;
    NextUnfolds(img, L, inode, c);
    if c.offset == L.bs {
      RoundAtEnd(img, L, dir, k, inode, c);
      var next := Cursor(j + 1, 0, false, false);
      WalkFollowsNext(img, L, inode, c, next);
      if j + 1 < k {
        assert Entries(img, base + L.bs, base + L.bs) + NamesFrom(img, L, dir, k, j + 1)
            == NamesFrom(img, L, dir, k, j + 1);
        FacingBlock(img, L, dir, k, inode, j + 1);
        WalkNames(img, L, dir, k, inode, next, BlockAt(L, Slot(img, L, dir, j + 1)), NamesFrom(img, L, dir, k, j + 1));
      } else {
        WalkPastLast(img, L, dir, k, inode);
        NamesFromEnd(img, L, dir, k);
      }
    } else {
      var at := base + c.offset;
      FirstReal(img, L, at, base + L.bs, NamesFrom(img, L, dir, k, j + 1));
      RoundAtRecord(img, L, dir, k, inode, c, base);
      var c' := c.(loaded := true, offset := c.offset + RecLen(img, at));
      WalkNames(img, L, dir, k, inode, c', base,
        Entries(img, base + c'.offset, base + L.bs) + NamesFrom(img, L, dir, k, j + 1));
      if U32(img, at) == 0 {
        WalkFollowsNext(img, L, inode, c, c');
      } else {
        WalkUnfolds(img, L, inode, c);
        var item := Next(img, L, inode, c).0.value;
        BoundCons(item, Walk(img, L, inode, c'));
        Assoc([BindingAt(img, at)], Entries(img, at + RecLen(img, at), base + L.bs),
          NamesFrom(img, L, dir, k, j + 1));
      }
    }
  }

  lemma BoundCons(item: Item, items: seq<Item>)
    requires item.Entry? && AllEntries(items)
    ensures AllEntries([item] + items) && Bound([item] + items) == [BoundBy(item.entry)] + Bound(items)
  {
  }

  lemma BlockEntriesAre(img: seq<byte>, L: Layout, b: nat)
    requires LayoutOf(|img|, L) && InRange(L, b) && TiledBlock(img, L, b) && BlockAt(L, b) + L.bs <= |img|
    ensures Tiled(img, BlockAt(L, b), BlockAt(L, b) + L.bs)
    ensures BlockEntries(img, L, b) == Entries(img, BlockAt(L, b), BlockAt(L, b) + L.bs)
  {
  }

  lemma NamesFromEnd(img: seq<byte>, L: Layout, dir: nat, k: nat)
    requires Dir(img, L, dir, k)
    ensures NamesFrom(img, L, dir, k, k) == []
  {
  }

  lemma FirstReal(img: seq<byte>, L: Layout, at: nat, end: nat, later: Bindings)
    requires at < end <= |img| && Tiled(img, at, end) && RealInodes(L, Entries(img, at, end) + later)
    ensures U32(img, at) <= L.inodesCount && RealInodes(L, Entries(img, at + RecLen(img, at), end) + later)
  {
    hide U32, RecLen, NameLen, NameAt;
    var es := Entries(img, at, end) + later;
    var rest := Entries(img, at + RecLen(img, at), end) + later;
    if U32(img, at) != 0 {
      assert es[0].1 == U32(img, at);
      assert forall i :: 0 <= i < |rest| ==> rest[i] == es[i + 1];
    }
  }

  /** The walk of a well-formed directory, from its start, is exactly its names in order. */
  lemma WalkIsNames(img: seq<byte>, L: Layout, dir: nat, k: nat, inode: Inode)
    requires View(img, L, dir, k, inode)
    ensures var items := Walk(img, L, inode, Start(L, 0));
      AllEntries(items) && Bound(items) == Names(img, L, dir, k, k)
  {
    hide View, Dir, U16, U32, Slot, Walk, NamesFrom, BlockEntries, Entries, TiledBlock, Tiled;
    ViewMeans(img, L, dir, k, inode);
    NamesSplit(img, L, dir, k, 0);
    assert Start(L, 0) == Cursor(0, 0, false, false);
    if k == 0 {
      WalkPastLast(img, L, dir, k, inode);
      NamesFromEnd(img, L, dir, k);
    } else {
      assert NamesFrom(img, L, dir, k, 0) == Names(img, L, dir, k, k);
      FacingBlock(img, L, dir, k, inode, 0);
      WalkNames(img, L, dir, k, inode, Start(L, 0), BlockAt(L, Slot(img, L, dir, 0)), NamesFrom(img, L, dir, k, 0));
    }
  }

  // ----- agreement -----

  ghost predicate DistinctNames(es: Bindings) {
    forall i, j :: 0 <= i < j < |es| ==> es[i].0 != es[j].0
  }

  /** Item `i` is the first of the name, and the search leads to its inode. */
  ghost predicate FirstOf(img: seq<byte>, L: Layout, items: seq<Item>, name: seq<byte>, i: int)
    requires LayoutOf(|img|, L) && AllEntries(items)
  {
    && 0 <= i < |items| && items[i].entry.name == name && (forall h :: 0 <= h < i ==> items[h].entry.name != name)
    && Search(img, L, items, name) == InodeOf(img, L, items[i].entry.inode)
  }

  /** The search leads to the inode of the first item of the name. */
  lemma {:induction false} SearchFinds(img: seq<byte>, L: Layout, items: seq<Item>, name: seq<byte>)
    requires LayoutOf(|img|, L) && AllEntries(items)
    ensures !Has(Bound(items), name) ==> Search(img, L, items, name) == Bad(NotFound)
    ensures Has(Bound(items), name) ==> exists i :: FirstOf(img, L, items, name, i)
  {
    hide InodeOf, LayoutOf;
    if items != [] {
      var rest := items[1..];
      SearchFinds(img, L, rest, name);
      if items[0].entry.name == name {
        assert Bound(items)[0].0 == name;
        assert FirstOf(img, L, items, name, 0);
      } else {
        HasLater(items, name);
        if Has(Bound(rest), name) {
          var i :| FirstOf(img, L, rest, name, i);
          FirstLater(img, L, items, name, i);
        }
      }
    }
  }

  lemma HasLater(items: seq<Item>, name: seq<byte>)
    requires items != [] && AllEntries(items) && items[0].entry.name != name
    ensures Has(Bound(items), name) <==> Has(Bound(items[1..]), name)
  {
    var rest := items[1..];
    assert forall i :: 0 <= i < |rest| ==> Bound(items)[i + 1] == Bound(rest)[i];
    if Has(Bound(items), name) {
      var i :| 0 <= i < |items| && Bound(items)[i].0 == name;
      assert Bound(rest)[i - 1].0 == name;
    }
  }

  lemma FirstLater(img: seq<byte>, L: Layout, items: seq<Item>, name: seq<byte>, i: int)
    requires LayoutOf(|img|, L) && items != [] && AllEntries(items) && items[0].entry.name != name
    requires FirstOf(img, L, items[1..], name, i)
    ensures FirstOf(img, L, items, name, i + 1)
  {
    hide InodeOf, LayoutOf;
    var rest := items[1..];
    forall h | 0 <= h < i + 1 ensures items[h].entry.name != name {
      if h > 0 { assert items[h] == rest[h - 1]; }
    }
  }

  /** A record the scan found is one of the names. */
  lemma {:induction false} StartsBinds(img: seq<byte>, at: nat, end: nat, p: nat)
    requires end <= |img| && Tiled(img, at, end) && Starts(img, at, end, p)
    ensures p + DIRENT_HEADER_LEN <= |img| && p + DIRENT_HEADER_LEN + NameLen(img, p) <= |img|
    ensures U32(img, p) != 0 ==> BindingAt(img, p) in Entries(img, at, end)
    decreases end - at
  {
    hide U32, NameAt;
    StartsInside(img, at, end, p);
    if at != p { StartsBinds(img, at + RecLen(img, at), end, p); }
  }

  lemma {:induction false} BlockNamesIn(img: seq<byte>, L: Layout, dir: nat, k: nat, j: nat, n: nat)
    requires Dir(img, L, dir, k) && j < n <= k
    ensures InRange(L, Slot(img, L, dir, j)) && TiledBlock(img, L, Slot(img, L, dir, j))
    ensures forall e :: e in BlockEntries(img, L, Slot(img, L, dir, j)) ==> e in Names(img, L, dir, k, n)
  {
    hide Dir, BlockEntries, Slot, Names, NamesFrom, TiledBlock;
    NamesNext(img, L, dir, k, n - 1);
    if j < n - 1 { BlockNamesIn(img, L, dir, k, j, n - 1); }
  }

  lemma {:induction false} NamesInBlocks(img: seq<byte>, L: Layout, dir: nat, k: nat, n: nat, name: seq<byte>)
    requires Dir(img, L, dir, k) && n <= k && Has(Names(img, L, dir, k, n), name)
    ensures exists j :: 0 <= j < n && InBlock(img, L, dir, k, j, name)
  {
    if n == 0 {
      assert false;
    } else {
      hide Dir, BlockEntries, Slot, Names, NamesFrom, TiledBlock, Has;
      NamesNext(img, L, dir, k, n - 1);
      var before, here := Names(img, L, dir, k, n - 1), BlockEntries(img, L, Slot(img, L, dir, n - 1));
      HasAppend(before, here, name);
      if Has(before, name) {
        NamesInBlocks(img, L, dir, k, n - 1, name);
      } else {
        assert InBlock(img, L, dir, k, n - 1, name);
      }
    }
  }

  lemma HasAppend(a: Bindings, b: Bindings, name: seq<byte>)
    ensures Has(a + b, name) ==> Has(a, name) || Has(b, name)
  {
    if Has(a + b, name) {
      var all := a + b;
      var i :| 0 <= i < |all| && all[i].0 == name;
      if i < |a| { assert a[i].0 == name; } else { assert b[i - |a|].0 == name; }
    }
  }

  lemma FoundIsName(img: seq<byte>, L: Layout, dir: nat, k: nat, j: nat, name: seq<byte>, s: Spot)
    requires Dir(img, L, dir, k) && FoundIn(img, L, dir, k, j, name, s)
    ensures s.entry + DIRENT_HEADER_LEN <= |img|
    ensures (name, U32(img, s.entry), KindAt(img, s.entry)) in Names(img, L, dir, k, k)
  {
    hide Dir, Slot, Names, U32, NameAt, Entries, Times, Starts;
    var b := Slot(img, L, dir, j);
    BlockNamesIn(img, L, dir, k, j, k);
    StartsBinds(img, BlockAt(L, b), BlockAt(L, b) + L.bs, s.entry);
    BlockEntriesAre(img, L, b);
  }

  /** On a well-formed directory with distinct names the writer's scan and the reader's lookup
      agree on every name: both miss it, or both lead to the same inode. */
  lemma ScanAgreesWithLookup(img: seq<byte>, L: Layout, dir: nat, k: nat, inode: Inode, name: seq<byte>, want: nat)
    requires View(img, L, dir, k, inode) && DistinctNames(Names(img, L, dir, k, k))
    ensures var scan := ScanDirectory(img, L, dir, name, want);
      && scan.Ok?
      && (scan.value.found.None? <==> LookupIn(img, L, inode, name) == Bad(NotFound))
      && (scan.value.found.Some? ==>
            && scan.value.found.value.entry + DIRENT_HEADER_LEN <= |img|
            && LookupIn(img, L, inode, name) == InodeOf(img, L, U32(img, scan.value.found.value.entry)))
  {
    hide View, Dir, Names, U32, InodeOf, Walk, ScanDirectory, InBlock, Start, LayoutOf;
    ViewMeans(img, L, dir, k, inode);
    ViewFields(img, L, dir, k, inode);
    ScanDirectoryFacts(img, L, dir, k, name, want);
    WalkIsNames(img, L, dir, k, inode);
    var items := Walk(img, L, inode, Start(L, 0));
    var names := Names(img, L, dir, k, k);
    SearchFinds(img, L, items, name);
    var found := ScanDirectory(img, L, dir, name, want).value.found;
    if found.None? {
      if Has(names, name) { NamesInBlocks(img, L, dir, k, k, name); }
    } else {
      var j :| 0 <= j < k && FoundIn(img, L, dir, k, j, name, found.value);
      FoundIsName(img, L, dir, k, j, name, found.value);
      var ino := U32(img, found.value.entry);
      var x :| 0 <= x < |names| && names[x] == (name, ino, KindAt(img, found.value.entry));
      assert Has(names, name);
      var i :| FirstOf(img, L, items, name, i);
      assert names[i] == BoundBy(items[i].entry);
      InodeOfIsNotNotFound(img, L, ino);
    }
  }

  lemma InodeOfIsNotNotFound(img: seq<byte>, L: Layout, ino: nat)
    requires LayoutOf(|img|, L)
    ensures InodeOf(img, L, ino) != Bad(NotFound)
  {
  }
}
