/** The directory walk `DirEntries`: it ends, it only moves forward, and it can be resumed. */
module Ext2Walk {
  import opened Wrappers
  import opened Bytes
  import opened Ext2Layout
  import opened Ext2Dirent
  import opened Ext2Reader

  /** One turn of the loop in `DirEntries::next`: hand out an item, or go round again. */
  datatype Turn = Yield(item: Option<Item>, next: Cursor) | Again(next: Cursor)

  function Round(img: seq<byte>, L: Layout, inode: Inode, c: Cursor): Turn
    requires LayoutOf(|img|, L) && |inode.blocks| == 15
  {
    if c.finished then Yield(None, c)
    else if !c.loaded && c.blockIndex >= BlockSpanOf(L, inode) then Yield(None, c.(finished := true))
    else
      match FileBlock(img, L, inode, c.blockIndex)
      case Bad(e) => Yield(Some(Broken(e)), c.(finished := true))
      case Got(bytes) => OnBlock(bytes, L, c)
  }

  /** The part of a turn that has the block at hand. */
  function OnBlock(bytes: seq<byte>, L: Layout, c: Cursor): Turn {
    if c.offset >= |bytes| then Again(Cursor(c.blockIndex + 1, 0, false, false))
    else
      match Check(bytes, L, c.blockIndex, c.offset)
      case Some(e) => Yield(Some(Broken(e)), c.(loaded := true, finished := true))
      case None =>
        var c' := c.(loaded := true, offset := c.offset + RecLen(bytes, c.offset));
        if U32(bytes, c.offset) == 0 then Again(c')
        else Yield(Some(Entry(DirEntry(U32(bytes, c.offset), bytes[c.offset + 7], NameAt(bytes, c.offset),
                                       Times(c.blockIndex, L.bs) + c'.offset))), c')
  }


  /** The rest of the walk is measured in two parts; a turn shrinks the first or keeps it
      and shrinks the second. */
  function BlocksLeft(L: Layout, inode: Inode, c: Cursor): nat
    requires L.bs > 0
  {
    if c.blockIndex < BlockSpanOf(L, inode) then BlockSpanOf(L, inode) - c.blockIndex else 0
  }

  function BytesLeft(L: Layout, c: Cursor): nat {
    if c.offset < L.bs then L.bs - c.offset else 0
  }

  /** The cursor stands inside, or at the end of, a block that was read. */
  predicate Inside(img: seq<byte>, L: Layout, inode: Inode, c: Cursor)
    requires LayoutOf(|img|, L) && |inode.blocks| == 15
  {
    && !c.finished && c.loaded && FileBlock(img, L, inode, c.blockIndex).Got?
    && c.offset <= |FileBlock(img, L, inode, c.blockIndex).value|
  }

  /** A record moves the walk by its length, at least 8, and leaves it inside the block. */
  lemma RoundMoves(img: seq<byte>, L: Layout, inode: Inode, c: Cursor)
    requires LayoutOf(|img|, L) && |inode.blocks| == 15
    ensures match Round(img, L, inode, c)
      case Again(c') =>
        && !c'.finished && !c.finished
        && BlocksLeft(L, inode, c) > 0
        && ((c'.blockIndex == c.blockIndex + 1 && c'.offset == 0)
            || (c'.blockIndex == c.blockIndex && c'.offset >= c.offset + 8 && c'.offset <= L.bs))
      case Yield(None, c') => c'.finished && c'.blockIndex == c.blockIndex && c'.offset == c.offset
      case Yield(Some(Broken(_)), c') => c'.finished && !c.finished && c'.blockIndex == c.blockIndex
          && c'.offset == c.offset
      case Yield(Some(Entry(e)), c') =>
        && Inside(img, L, inode, c') && !c.finished
        && c'.blockIndex == c.blockIndex && c'.offset >= c.offset + 8
        && e.nextOffset == Times(c'.blockIndex, L.bs) + c'.offset
        && 0 < e.inode <= L.inodesCount && c'.blockIndex < BlockSpanOf(L, inode)
  {
    if !c.finished && FileBlock(img, L, inode, c.blockIndex).Got? { IndexBelowSpan(L, inode, c.blockIndex); }
  }

  /** `DirEntries::next`. */
  function Next(img: seq<byte>, L: Layout, inode: Inode, c: Cursor): (r: (Option<Item>, Cursor))
    requires LayoutOf(|img|, L) && |inode.blocks| == 15
    decreases BlocksLeft(L, inode, c), BytesLeft(L, c)
  {
    RoundMoves(img, L, inode, c);
    match Round(img, L, inode, c)
    case Yield(item, c') => (item, c')
    case Again(c') => Next(img, L, inode, c')
  }

  lemma NextUnfolds(img: seq<byte>, L: Layout, inode: Inode, c: Cursor)
    requires LayoutOf(|img|, L) && |inode.blocks| == 15
    ensures match Round(img, L, inode, c)
      case Yield(item, c') => Next(img, L, inode, c) == (item, c')
      case Again(c') => Next(img, L, inode, c) == Next(img, L, inode, c')
  {
  }

  /** The position of the walk in the directory's bytes. */
  function Place(L: Layout, c: Cursor): nat { Times(c.blockIndex, L.bs) + c.offset }

  lemma {:induction false} NextMoves(img: seq<byte>, L: Layout, inode: Inode, c: Cursor)
    requires LayoutOf(|img|, L) && |inode.blocks| == 15 && c.offset <= L.bs
    ensures Next(img, L, inode, c).1.offset <= L.bs
    ensures match Next(img, L, inode, c)
      case (None, c') => c'.finished
      case (Some(Broken(_)), c') => c'.finished && !c.finished
      case (Some(Entry(e)), c') =>
        && !c.finished && Inside(img, L, inode, c') && e.nextOffset == Place(L, c') && Place(L, c') >= Place(L, c) + 8
        && 0 < e.inode <= L.inodesCount && c'.blockIndex < BlockSpanOf(L, inode)
    decreases BlocksLeft(L, inode, c), BytesLeft(L, c)
  {
    hide Round, FileBlock, BlockSpanOf, LayoutOf, Times;
    RoundMoves(img, L, inode, c);
    if Round(img, L, inode, c).Again? {
      NextMoves(img, L, inode, Round(img, L, inode, c).next);
      TimesMonotone(c.blockIndex, c.blockIndex + 1, L.bs);
    }
  }

  /** Bytes left before the end of the last block; 0 once the walk is over. */
  lemma PlaceBelowEnd(img: seq<byte>, L: Layout, inode: Inode, c: Cursor)
    requires LayoutOf(|img|, L) && |inode.blocks| == 15 && Inside(img, L, inode, c)
    ensures Place(L, c) <= inode.size
  {
  }

  /** What one walk hands out, from a cursor to the end. */
  function Walk(img: seq<byte>, L: Layout, inode: Inode, c: Cursor): (r: seq<Item>)
    requires LayoutOf(|img|, L) && |inode.blocks| == 15 && c.offset <= L.bs
    decreases !c.finished, if Place(L, c) <= inode.size then inode.size - Place(L, c) + 1 else 0
  {
    NextMoves(img, L, inode, c);
    var (item, c') := Next(img, L, inode, c);
    if item.Some? && item.value.Entry? then PlaceBelowEnd(img, L, inode, c'); [item.value] + Walk(img, L, inode, c')
    else if item.Some? then [item.value]
    else []
  }

  /** After an error or the end, `next` keeps answering `None`. */
  lemma NoItemAfterTheEnd(img: seq<byte>, L: Layout, inode: Inode, c: Cursor)
    requires LayoutOf(|img|, L) && |inode.blocks| == 15 && c.offset <= L.bs
    requires Next(img, L, inode, c).0.None? || Next(img, L, inode, c).0.value.Broken?
    ensures Next(img, L, inode, Next(img, L, inode, c).1) == (None, Next(img, L, inode, c).1)
  {
    NextMoves(img, L, inode, c);
  }

  /** Whether a block is already fetched makes no difference to what the walk hands out. */
  lemma LoadedOrNot(img: seq<byte>, L: Layout, inode: Inode, c: Cursor)
    requires LayoutOf(|img|, L) && |inode.blocks| == 15 && Inside(img, L, inode, c)
    ensures Next(img, L, inode, c.(loaded := false)) == Next(img, L, inode, c)
  {
    IndexBelowSpan(L, inode, c.blockIndex);
    var c0 := c.(loaded := false);
    var bytes := FileBlock(img, L, inode, c.blockIndex).value;
    if c.offset < |bytes| { assert Round(img, L, inode, c0) == Round(img, L, inode, c); }
  }

  /** A full block's end and the next block's start are the same place to the walk. */
  lemma EndOfBlock(img: seq<byte>, L: Layout, inode: Inode, c: Cursor)
    requires LayoutOf(|img|, L) && |inode.blocks| == 15 && Inside(img, L, inode, c) && c.offset == L.bs
    ensures Next(img, L, inode, c) == Next(img, L, inode, Cursor(c.blockIndex + 1, 0, false, false))
  {
    assert Round(img, L, inode, c) == Again(Cursor(c.blockIndex + 1, 0, false, false));
  }

  /** `directory_entries_from`: where a walk from byte `from` starts. */
  function Start(L: Layout, from: nat): (c: Cursor)
    requires L.bs > 0
    ensures c.offset <= L.bs
  {
    QuotRem(from, L.bs);
    Cursor(if Quot(from, L.bs) < 0x1_0000_0000 then Quot(from, L.bs) else 0xFFFF_FFFF, Rem(from, L.bs), false, false)
  }

  lemma WalkFollowsNext(img: seq<byte>, L: Layout, inode: Inode, c: Cursor, d: Cursor)
    requires LayoutOf(|img|, L) && |inode.blocks| == 15 && c.offset <= L.bs && d.offset <= L.bs
    requires Next(img, L, inode, c) == Next(img, L, inode, d)
    ensures Walk(img, L, inode, c) == Walk(img, L, inode, d)
  {
    hide Next, LayoutOf;
  }

  /** Starting again at an entry's `next_offset` goes on exactly where the walk stood. */
  lemma StartAtPlace(img: seq<byte>, L: Layout, inode: Inode, c: Cursor)
    requires LayoutOf(|img|, L) && |inode.blocks| == 15 && Inside(img, L, inode, c)
    requires inode.size < 0x1_0000_0000
    ensures Walk(img, L, inode, Start(L, Place(L, c))) == Walk(img, L, inode, c)
  {
    hide Next, Walk, Round, LayoutOf;
    var d := Start(L, Place(L, c));
    StartCursor(L, inode.size, c);
    if c.offset < L.bs {
      LoadedOrNot(img, L, inode, c);
    } else {
      EndOfBlock(img, L, inode, c);
    }
    WalkFollowsNext(img, L, inode, d, c);
  }

  lemma StartCursor(L: Layout, size: nat, c: Cursor)
    requires L.bs >= 1024 && c.offset <= L.bs && Times(c.blockIndex, L.bs) < size < 0x1_0000_0000 && !c.finished
    ensures Start(L, Place(L, c))
            == if c.offset < L.bs then c.(loaded := false) else Cursor(c.blockIndex + 1, 0, false, false)
  {
    BlockIndexBound(L, c.blockIndex, size);
    if c.offset < L.bs {
      QuotOf(c.blockIndex, c.offset, L.bs);
    } else {
      assert Place(L, c) == Times(c.blockIndex + 1, L.bs) + 0;
      QuotOf(c.blockIndex + 1, 0, L.bs);
    }
  }

  lemma {:induction false} BlockIndexBound(L: Layout, k: nat, size: nat)
    requires L.bs >= 2 && Times(k, L.bs) < size
    ensures k + k < size || k == 0
    ensures 2 * k <= Times(k, L.bs)
  {
    if k > 0 { BlockIndexBound(L, k - 1, size); }
  }

  /** The positions of a walk: errors only at the end, each entry at least 8 bytes on from the
      one before, none past the end of the directory. */
  ghost predicate Orderly(L: Layout, inode: Inode, from: nat, items: seq<Item>) {
    && (forall k :: 0 <= k < |items| && items[k].Broken? ==> k == |items| - 1)
    && (forall k :: 0 <= k < |items| && items[k].Entry? ==> 
          from + 8 * (k + 1) <= items[k].entry.nextOffset <= inode.size && 0 < items[k].entry.inode <= L.inodesCount)
    && (forall k :: 0 < k < |items| && items[k].Entry? ==>
          items[k - 1].entry.nextOffset + 8 <= items[k].entry.nextOffset)
  }

  lemma {:induction false} WalkOrderly(img: seq<byte>, L: Layout, inode: Inode, c: Cursor)
    requires LayoutOf(|img|, L) && |inode.blocks| == 15 && c.offset <= L.bs
    ensures Orderly(L, inode, Place(L, c), Walk(img, L, inode, c))
    decreases !c.finished, if Place(L, c) <= inode.size then inode.size - Place(L, c) + 1 else 0
  {
    hide Next, Walk, Round, LayoutOf;
    NextMoves(img, L, inode, c);
    WalkUnfolds(img, L, inode, c);
    var (item, c') := Next(img, L, inode, c);
    if item.Some? && item.value.Entry? {
      PlaceBelowEnd(img, L, inode, c');
      WalkOrderly(img, L, inode, c');
      OrderlyJoin(L, inode, Place(L, c), item.value, Walk(img, L, inode, c'));
    } else if item.Some? {
      NoItemAfterTheEnd(img, L, inode, c);
      WalkUnfolds(img, L, inode, c');
      assert Walk(img, L, inode, c) == [item.value];
    }
  }

  /** An entry in front of an orderly rest that starts where the entry says. */
  lemma OrderlyJoin(L: Layout, inode: Inode, from: nat, item: Item, rest: seq<Item>)
    requires item.Entry? && Orderly(L, inode, item.entry.nextOffset, rest)
    requires from + 8 <= item.entry.nextOffset <= inode.size && 0 < item.entry.inode <= L.inodesCount
    ensures Orderly(L, inode, from, [item] + rest)
  {
    var items := [item] + rest;
    assert forall k :: 0 < k < |items| ==> items[k] == rest[k - 1];
  }

  /** Restarting at any entry's `next_offset` yields exactly the rest of the walk, errors
      included. */
  lemma {:induction false} Resume(img: seq<byte>, L: Layout, inode: Inode, c: Cursor, k: nat)
    requires LayoutOf(|img|, L) && |inode.blocks| == 15 && c.offset <= L.bs && inode.size < 0x1_0000_0000
    requires k < |Walk(img, L, inode, c)| && Walk(img, L, inode, c)[k].Entry?
    ensures Walk(img, L, inode, Start(L, Walk(img, L, inode, c)[k].entry.nextOffset)) == Walk(img, L, inode, c)[k + 1..]
    decreases k
  {
    hide Next, Walk, Start, LayoutOf, Round;
    NextMoves(img, L, inode, c);
    WalkUnfolds(img, L, inode, c);
    var (item, c') := Next(img, L, inode, c);
    if k == 0 {
      StartAtPlace(img, L, inode, c');
    } else {
      var rest := Walk(img, L, inode, c');
      assert Walk(img, L, inode, c)[k] == rest[k - 1];
      Resume(img, L, inode, c', k - 1);
    }
  }

  /** The promise of `directory_entries_from`, on every image `parse` accepts, every directory
      inode and every starting byte: the walk ends after at most one item per 8 bytes and one
      more, moves forward by at least 8 bytes an entry, and can be resumed at any entry. */
  lemma DirectoryWalk(img: seq<byte>, ino: nat, from: nat)
    requires Parse(img).Got?
    requires LayoutOf(|img|, Parse(img).value) ==>
      InodeOf(img, Parse(img).value, ino).Got? && IsDirectoryMode(InodeOf(img, Parse(img).value, ino).value.mode)
    ensures LayoutOf(|img|, Parse(img).value)
    ensures var L := Parse(img).value; var inode := InodeOf(img, L, ino).value;
      var items := Walk(img, L, inode, Start(L, from));
      && 8 * |items| <= inode.size + 8
      && Orderly(L, inode, Place(L, Start(L, from)), items)
      && forall k :: 0 <= k < |items| && items[k].Entry? ==>
           Walk(img, L, inode, Start(L, items[k].entry.nextOffset)) == items[k + 1..]
  {
    ParseGivesLayout(img);
    var L := Parse(img).value;
    var inode := InodeOf(img, L, ino).value;
    var c := Start(L, from);
    WalkOrderly(img, L, inode, c);
    var items := Walk(img, L, inode, c);
    if |items| >= 2 { assert items[|items| - 2].Entry?; }
    forall k | 0 <= k < |items| && items[k].Entry?
      ensures Walk(img, L, inode, Start(L, items[k].entry.nextOffset)) == items[k + 1..]
    {
      Resume(img, L, inode, c, k);
    }
  }

  lemma WalkUnfolds(img: seq<byte>, L: Layout, inode: Inode, c: Cursor)
    requires LayoutOf(|img|, L) && |inode.blocks| == 15 && c.offset <= L.bs
    ensures Next(img, L, inode, c).1.offset <= L.bs
    ensures match Next(img, L, inode, c)
      case (None, _) => Walk(img, L, inode, c) == []
      case (Some(item), c') => Walk(img, L, inode, c) == [item] + Walk(img, L, inode, c')
  {
    NextMoves(img, L, inode, c);
    var (item, c') := Next(img, L, inode, c);
    if item.Some? && item.value.Broken? { NoItemAfterTheEnd(img, L, inode, c); }
  }

  /** The cases of `OnBlock`. */
  lemma OnBlockIs(bytes: seq<byte>, L: Layout, c: Cursor)
    ensures c.offset >= |bytes| ==> OnBlock(bytes, L, c) == Again(Cursor(c.blockIndex + 1, 0, false, false))
    ensures c.offset < |bytes| ==>
      match Check(bytes, L, c.blockIndex, c.offset)
      case Some(e) => OnBlock(bytes, L, c) == Yield(Some(Broken(e)), c.(loaded := true, finished := true))
      case None =>
        var c' := c.(loaded := true, offset := c.offset + RecLen(bytes, c.offset));
        OnBlock(bytes, L, c) ==
          if U32(bytes, c.offset) == 0 then Again(c')
          else Yield(Some(Entry(DirEntry(U32(bytes, c.offset), bytes[c.offset + 7], NameAt(bytes, c.offset),
                                         Times(c.blockIndex, L.bs) + c'.offset))), c')
  {
  }

  /** `DirEntries` as the object it is: a cursor that `next` moves. */
  class DirEntries {
    const image: seq<byte>
    const layout: Layout
    const inode: Inode
    var blockIndex: nat
    var block: Option<seq<byte>>
    var offset: nat
    var finished: bool

    ghost predicate Valid()
      reads this
    {
      && LayoutOf(|image|, layout) && |inode.blocks| == 15 && offset <= layout.bs
      && (block.Some? && !finished ==> FileBlock(image, layout, inode, blockIndex) == Got(block.value))
    }

    function At(): Cursor
      reads this
    {
      Cursor(blockIndex, offset, block.Some?, finished)
    }

    constructor (image: seq<byte>, layout: Layout, inode: Inode, from: nat)
      requires LayoutOf(|image|, layout) && |inode.blocks| == 15
      ensures Valid() && this.image == image && this.layout == layout && this.inode == inode
      ensures At() == Start(layout, from)
    {
      this.image, this.layout, this.inode := image, layout, inode;
      var c := Start(layout, from);
      blockIndex, block, offset, finished := c.blockIndex, None, c.offset, false;
    }

    /** One turn of the loop of `next`: whether it is the last, and what it hands out. */
    method TakeTurn() returns (last: bool, item: Option<Item>)
      requires Valid()
      modifies this
      ensures Valid()
      ensures Round(image, layout, inode, old(At())) == if last then Yield(item, At()) else Again(At())
    {
      hide FileBlock, Check, BlockSpanOf, NameAt, Times, U32, LayoutOf, OnBlock;
      ghost var c := At();
      if finished { return true, None; }
      if block.None? {
        if blockIndex >= BlockSpanOf(layout, inode) {
          finished := true;
          return true, None;
        }
        match FileBlock(image, layout, inode, blockIndex)
        case Bad(e) =>
          finished := true;
          return true, Some(Broken(e));
        case Got(bytes) =>
          block := Some(bytes);
      }
      var bytes := block.value;
      OnBlockIs(bytes, layout, c);
      if offset >= |bytes| {
        block, offset, blockIndex := None, 0, blockIndex + 1;
        return false, None;
      }
      match Check(bytes, layout, blockIndex, offset)
      case Some(e) =>
        finished := true;
        return true, Some(Broken(e));
      case None =>
        var start := offset;
        offset := offset + RecLen(bytes, start);
        if U32(bytes, start) == 0 { return false, None; }
        return true, Some(Entry(DirEntry(U32(bytes, start), bytes[start + 7], NameAt(bytes, start),
                                         Times(blockIndex, layout.bs) + offset)));
    }

    /** `next`: the object does what `Next` says, and what is left of the walk loses exactly
        the item handed out. */
    method Advance() returns (item: Option<Item>)
      requires Valid()
      modifies this
      ensures Valid() && (item, At()) == Next(image, layout, inode, old(At()))
      ensures Walk(image, layout, inode, old(At()))
              == (if item.None? then [] else [item.value] + Walk(image, layout, inode, At()))
    {
      hide Next, Walk, Round, FileBlock, BlockSpanOf, LayoutOf, Inside;
      ghost var c0 := At();
      WalkUnfolds(image, layout, inode, c0);
      var last := false;
      item := None;
      while !last
        invariant Valid()
        invariant !last ==> Next(image, layout, inode, At()) == Next(image, layout, inode, c0)
        invariant last ==> Next(image, layout, inode, c0) == (item, At())
        decreases !last, BlocksLeft(layout, inode, At()), BytesLeft(layout, At())
      {
        RoundMoves(image, layout, inode, At());
        NextUnfolds(image, layout, inode, At());
        last, item := TakeTurn();
      }
    }
  }
}
