/** Adding and removing one entry of a well-formed directory. */
module Ext2DirChange {
  import opened Wrappers
  import opened Bytes
  import opened Ext2Layout
  import opened Ext2Alloc
  import opened Ext2Areas
  import opened Ext2File
  import opened Ext2Unwind
  import opened Ext2Append
  import opened Ext2Dirent
  import opened Ext2DirBlock
  import opened Ext2Directory

  /** Rewriting block `j` into another tiled block keeps the directory well formed. */
  lemma DirChange(img: seq<byte>, r: seq<byte>, L: Layout, dir: nat, k: nat, j: nat)
    requires Dir(img, L, dir, k) && j < k && InRange(L, Slot(img, L, dir, j))
    requires OnlyBlock(img, r, L, Slot(img, L, dir, j)) && TiledBlock(r, L, Slot(img, L, dir, j))
    ensures Dir(r, L, dir, k) && SamePointers(img, r, L) && InodeAt(r, L, dir) == InodeAt(img, L, dir)
    ensures forall i :: 0 <= i < 15 ==> Slot(r, L, dir, i) == Slot(img, L, dir, i)
    ensures forall i :: 0 <= i < k && i != j ==>
      BlockEntries(r, L, Slot(r, L, dir, i)) == BlockEntries(img, L, Slot(img, L, dir, i))
  {
    hide Geometry, InodeAt, U16, U32, Times, BlockEntries, TiledBlock, SameBytes, Slot, DataBlock, BlockUsed,
      OnlyBlock;
    var b := Slot(img, L, dir, j);
    DirBlock(img, L, dir, k, j);
    OnlyBlockKeeps(img, r, L, b);
    SameInode(img, r, L, dir);
    forall i | 0 <= i < k
      ensures Linked(r, L, Slot(r, L, dir, i)) && TiledBlock(r, L, Slot(r, L, dir, i))
      ensures i != j ==> BlockEntries(r, L, Slot(r, L, dir, i)) == BlockEntries(img, L, Slot(img, L, dir, i))
    {
      DirBlock(img, L, dir, k, i);
      assert BlockUsed(r, L, Slot(img, L, dir, i)) && DataBlock(r, L, Slot(img, L, dir, i));
      if i != j {
        assert Slot(img, L, dir, i) != b;
        SameBlockTiling(img, r, L, Slot(img, L, dir, i));
      }
    }
  }

  /** One block gained `add` and lost `sub`; so did the directory. */
  lemma {:induction false} NamesChange(img: seq<byte>, r: seq<byte>, L: Layout, dir: nat, k: nat, j: nat, n: nat,
                                       add: multiset<Binding>, sub: multiset<Binding>)
    requires Dir(img, L, dir, k) && Dir(r, L, dir, k) && j < k && n <= k
    requires InRange(L, Slot(img, L, dir, j)) && InRange(L, Slot(r, L, dir, j))
    requires TiledBlock(img, L, Slot(img, L, dir, j)) && TiledBlock(r, L, Slot(r, L, dir, j))
    requires multiset(BlockEntries(r, L, Slot(r, L, dir, j))) + sub
      == multiset(BlockEntries(img, L, Slot(img, L, dir, j))) + add
    requires forall i :: 0 <= i < k && i != j ==>
      && InRange(L, Slot(img, L, dir, i)) && InRange(L, Slot(r, L, dir, i))
      && TiledBlock(img, L, Slot(img, L, dir, i)) && TiledBlock(r, L, Slot(r, L, dir, i))
      && BlockEntries(r, L, Slot(r, L, dir, i)) == BlockEntries(img, L, Slot(img, L, dir, i))
    ensures j < n ==> multiset(Names(r, L, dir, k, n)) + sub == multiset(Names(img, L, dir, k, n)) + add
    ensures j >= n ==> multiset(Names(r, L, dir, k, n)) == multiset(Names(img, L, dir, k, n))
  {
    hide Dir, BlockEntries, Slot, TiledBlock;
    if n > 0 {
      NamesChange(img, r, L, dir, k, j, n - 1, add, sub);
      NamesStep(img, L, dir, k, n);
      NamesStep(r, L, dir, k, n);
      var x, y := multiset(Names(img, L, dir, k, n - 1)), multiset(BlockEntries(img, L, Slot(img, L, dir, n - 1)));
      var u, v := multiset(Names(r, L, dir, k, n - 1)), multiset(BlockEntries(r, L, Slot(r, L, dir, n - 1)));
      if j == n - 1 { Regroup(u, x, v, y, sub, add); } else if j < n - 1 { Regroup(v, y, u, x, sub, add); }
    }
  }

  lemma NamesStep(img: seq<byte>, L: Layout, dir: nat, k: nat, n: nat)
    requires Dir(img, L, dir, k) && 0 < n <= k
    ensures InRange(L, Slot(img, L, dir, n - 1)) && TiledBlock(img, L, Slot(img, L, dir, n - 1))
    ensures multiset(Names(img, L, dir, k, n))
      == multiset(Names(img, L, dir, k, n - 1)) + multiset(BlockEntries(img, L, Slot(img, L, dir, n - 1)))
  {
    hide Dir, BlockEntries, Slot, TiledBlock;
    DirBlock(img, L, dir, k, n - 1);
    assert Names(img, L, dir, k, n) == Names(img, L, dir, k, n - 1) + BlockEntries(img, L, Slot(img, L, dir, n - 1));
    MultisetAppend(Names(img, L, dir, k, n - 1), BlockEntries(img, L, Slot(img, L, dir, n - 1)));
  }

  /** Equal parts stay equal around a part that changed. */
  lemma Regroup<T>(u: multiset<T>, x: multiset<T>, v: multiset<T>, y: multiset<T>, sub: multiset<T>, add: multiset<T>)
    requires u == x && v + sub == y + add
    ensures (u + v) + sub == (x + y) + add
    ensures (v + u) + sub == (y + x) + add
  {
    assert (u + v) + sub == u + (v + sub);
    assert (x + y) + add == x + (y + add);
    assert (v + u) + sub == (u + v) + sub;
    assert (y + x) + add == (x + y) + add;
  }

  lemma MultisetAppend<T>(a: seq<T>, b: seq<T>)
    ensures multiset(a + b) == multiset(a) + multiset(b)
  {
  }

  /** A split inside block `b` touches only block `b`. */
  lemma InsertOnlyBlock(img: seq<byte>, L: Layout, b: nat, previous: nat, ino: nat, name: seq<byte>, kind: byte)
    requires LayoutOf(|img|, L) && InRange(L, b) && TiledBlock(img, L, b) && BlockAt(L, b) + L.bs <= |img|
    requires Starts(img, BlockAt(L, b), BlockAt(L, b) + L.bs, previous)
    requires Splittable(img, previous, |name|) && 0 < ino < 0x1_0000_0000 && |name| <= MAX_NAME_LEN
    ensures var r := Insert(img, previous, ino, name, kind);
      && OnlyBlock(img, r, L, b) && TiledBlock(r, L, b)
      && multiset(BlockEntries(r, L, b)) == multiset(BlockEntries(img, L, b)) + multiset{(name, ino, kind)}
  {
    hide Insert, U16, U32, RecLen, NameLen, NameAt, Span, Entries;
    var base := BlockAt(L, b);
    StartsInside(img, base, base + L.bs, previous);
    InsertReads(img, previous, ino, name, kind);
    InsertTiles(img, base, base + L.bs, previous, ino, name, kind);
  }

  lemma RemoveOnlyBlock(img: seq<byte>, L: Layout, b: nat, entry: nat, previous: nat)
    requires LayoutOf(|img|, L) && InRange(L, b) && TiledBlock(img, L, b) && BlockAt(L, b) + L.bs <= |img|
    requires Starts(img, BlockAt(L, b), BlockAt(L, b) + L.bs, entry)
    requires Starts(img, BlockAt(L, b), BlockAt(L, b) + L.bs, previous)
    requires entry + DIRENT_HEADER_LEN <= |img| && previous + DIRENT_HEADER_LEN <= |img|
    requires entry + RecLen(img, entry) <= |img| && previous + RecLen(img, previous) == entry
    requires entry + DIRENT_HEADER_LEN + NameLen(img, entry) <= |img| && U32(img, entry) != 0
    requires Remove(img, entry, previous).0.Ok?
    ensures var r := Remove(img, entry, previous).1;
      && OnlyBlock(img, r, L, b) && TiledBlock(r, L, b)
      && multiset(BlockEntries(img, L, b))
          == multiset(BlockEntries(r, L, b)) + multiset{BindingAt(img, entry)}
  {
    hide Remove, U16, U32, RecLen, NameLen, NameAt, Span, Entries;
    var base := BlockAt(L, b);
    StartsInside(img, base, base + L.bs, previous);
    StartsInside(img, base, base + L.bs, entry);
    RemoveReads(img, entry, previous);
    RemoveTiles(img, base, base + L.bs, entry, previous);
  }

  /** A new entry in block `j`: the directory stays well formed and binds exactly one name more. */
  lemma DirInsert(img: seq<byte>, L: Layout, dir: nat, k: nat, j: nat, previous: nat, ino: nat, name: seq<byte>,
      kind: byte)
    requires Dir(img, L, dir, k) && j < k
    requires var b := Slot(img, L, dir, j);
      && InRange(L, b) && BlockAt(L, b) + L.bs <= |img| && TiledBlock(img, L, b)
      && Starts(img, BlockAt(L, b), BlockAt(L, b) + L.bs, previous)
    requires Splittable(img, previous, |name|) && 0 < ino < 0x1_0000_0000 && |name| <= MAX_NAME_LEN
    ensures var r := Insert(img, previous, ino, name, kind);
      && OnlyBlock(img, r, L, Slot(img, L, dir, j))
      && Dir(r, L, dir, k) && SamePointers(img, r, L) && InodeAt(r, L, dir) == InodeAt(img, L, dir)
      && (forall i :: 0 <= i < 15 ==> Slot(r, L, dir, i) == Slot(img, L, dir, i))
      && (forall i :: 0 <= i < k && i != j ==>
            BlockEntries(r, L, Slot(r, L, dir, i)) == BlockEntries(img, L, Slot(img, L, dir, i)))
      && multiset(Names(r, L, dir, k, k)) == multiset(Names(img, L, dir, k, k)) + multiset{(name, ino, kind)}
  {
    hide Dir, BlockEntries, Slot, TiledBlock, OnlyBlock, Insert, Splittable, Starts;
    var r := Insert(img, previous, ino, name, kind);
    var b := Slot(img, L, dir, j);
    InsertOnlyBlock(img, L, b, previous, ino, name, kind);
    DirChange(img, r, L, dir, k, j);
    forall i | 0 <= i < k
      ensures InRange(L, Slot(img, L, dir, i)) && InRange(L, Slot(r, L, dir, i))
      ensures TiledBlock(img, L, Slot(img, L, dir, i)) && TiledBlock(r, L, Slot(r, L, dir, i))
    {
      DirBlock(img, L, dir, k, i);
      DirBlock(r, L, dir, k, i);
    }
    NamesChange(img, r, L, dir, k, j, k, multiset{(name, ino, kind)}, multiset{});
  }

  lemma DirRemove(img: seq<byte>, L: Layout, dir: nat, k: nat, j: nat, name: seq<byte>, s: Spot)
    requires Dir(img, L, dir, k) && FoundIn(img, L, dir, k, j, name, s) && s.previous.Some?
    requires s.entry + RecLen(img, s.entry) <= |img| && s.previous.value + DIRENT_HEADER_LEN <= |img|
    requires Remove(img, s.entry, s.previous.value).0.Ok?
    ensures var r := Remove(img, s.entry, s.previous.value).1;
      && OnlyBlock(img, r, L, Slot(img, L, dir, j))
      && Dir(r, L, dir, k) && SamePointers(img, r, L) && InodeAt(r, L, dir) == InodeAt(img, L, dir)
      && (forall i :: 0 <= i < 15 ==> Slot(r, L, dir, i) == Slot(img, L, dir, i))
      && multiset(Names(img, L, dir, k, k))
         == multiset(Names(r, L, dir, k, k)) + multiset{(name, U32(img, s.entry), KindAt(img, s.entry))}
  {
    hide Dir, BlockEntries, Slot, TiledBlock, OnlyBlock, Remove, Splittable, Starts, RecLen, NameLen, U32, NameAt;
    var r := Remove(img, s.entry, s.previous.value).1;
    var b := Slot(img, L, dir, j);
    RemoveOnlyBlock(img, L, b, s.entry, s.previous.value);
    DirChange(img, r, L, dir, k, j);
    forall i | 0 <= i < k
      ensures InRange(L, Slot(img, L, dir, i)) && InRange(L, Slot(r, L, dir, i))
      ensures TiledBlock(img, L, Slot(img, L, dir, i)) && TiledBlock(r, L, Slot(r, L, dir, i))
    {
      DirBlock(img, L, dir, k, i);
      DirBlock(r, L, dir, k, i);
    }
    NamesChange(img, r, L, dir, k, j, k, multiset{}, multiset{(name, U32(img, s.entry), KindAt(img, s.entry))});
  }

  /** One block of the scan of a well-formed directory. */
  lemma ScanFromStep(r: seq<byte>, L: Layout, dir: nat, k: nat, index: nat, name: seq<byte>, want: nat, acc: Scan)
    requires Dir(r, L, dir, k) && index < k
    ensures var base, at := BlockAt(L, Slot(r, L, dir, index)), InodeAt(r, L, dir).value;
      && base + L.bs <= |r| && ScanBlock(r, base, base + L.bs, None, name, want, acc).Ok?
      && ScanFrom(r, L, at, index, k, name, want, acc)
         == ScanFrom(r, L, at, index + 1, k, name, want, ScanBlock(r, base, base + L.bs, None, name, want, acc).value)
  {
    hide Dense, InodeAt, U16, Times, ScanBlock, Geometry, DataBlock, BlockUsed, TiledBlock, InBlock;
    DirBlock(r, L, dir, k, index);
    ScanBlockAt(r, L, dir, k, index, name, want, acc);
  }

  lemma SameInBlock(img: seq<byte>, r: seq<byte>, L: Layout, dir: nat, k: nat, i: nat, name: seq<byte>)
    requires Dir(img, L, dir, k) && Dir(r, L, dir, k) && i < k
    requires InRange(L, Slot(img, L, dir, i)) && TiledBlock(img, L, Slot(img, L, dir, i))
    requires InRange(L, Slot(r, L, dir, i)) && TiledBlock(r, L, Slot(r, L, dir, i))
    requires BlockEntries(r, L, Slot(r, L, dir, i)) == BlockEntries(img, L, Slot(img, L, dir, i))
    ensures InBlock(r, L, dir, k, i, name) <==> InBlock(img, L, dir, k, i, name)
  {
    hide Dir, Slot, BlockEntries, TiledBlock, Has;
  }

  /** After the insertion the scan reports the new entry, after the record it was cut from. */
  lemma {:induction false} ScanAfterInsert(img: seq<byte>, L: Layout, dir: nat, k: nat, j: nat, previous: nat,
      ino: nat, name: seq<byte>, kind: byte, index: nat, want: nat, acc: Scan)
    requires Dir(img, L, dir, k) && j < k && index <= j
    requires var b := Slot(img, L, dir, j);
      && InRange(L, b) && BlockAt(L, b) + L.bs <= |img| && TiledBlock(img, L, b)
      && Starts(img, BlockAt(L, b), BlockAt(L, b) + L.bs, previous)
    requires Splittable(img, previous, |name|) && 0 < ino < 0x1_0000_0000 && |name| <= MAX_NAME_LEN
    requires forall i :: 0 <= i < k ==> !InBlock(img, L, dir, k, i, name)
    ensures var r, at := Insert(img, previous, ino, name, kind), InodeAt(img, L, dir).value;
      Finds(ScanFrom(r, L, at, index, k, name, want, acc), Spot(EntryOf(img, previous), Some(previous)))
    decreases j - index
  {
    hide Dir, InodeAt, Times, ScanBlock, ScanFrom, Insert, Splittable, Starts, Has, BlockEntries, TiledBlock, Slot,
      InBlock, OnlyBlock, EntryOf;
    var r := Insert(img, previous, ino, name, kind);
    DirInsert(img, L, dir, k, j, previous, ino, name, kind);
    var base := BlockAt(L, Slot(r, L, dir, index));
    ScanFromStep(r, L, dir, k, index, name, want, acc);
    var x := ScanBlock(r, base, base + L.bs, None, name, want, acc).value;
    if index < j {
      ScanAfterInsert(img, L, dir, k, j, previous, ino, name, kind, index + 1, want, x);
    } else {
      DirBlock(img, L, dir, k, j);
      assert !Has(BlockEntries(img, L, Slot(img, L, dir, j)), name) by { NotIn(img, L, dir, k, j, name); }
      InsertFoundHere(img, L, Slot(img, L, dir, j), previous, ino, name, kind, want, acc);
      forall i | index + 1 <= i < k ensures !InBlock(r, L, dir, k, i, name) {
        DirBlock(r, L, dir, k, i);
        DirBlock(img, L, dir, k, i);
        SameInBlock(img, r, L, dir, k, i, name);
      }
      ScanFromFacts(r, L, dir, k, index + 1, name, want, x);
    }
  }

  lemma NotIn(img: seq<byte>, L: Layout, dir: nat, k: nat, j: nat, name: seq<byte>)
    requires Dir(img, L, dir, k) && j < k && !InBlock(img, L, dir, k, j, name)
    requires InRange(L, Slot(img, L, dir, j)) && TiledBlock(img, L, Slot(img, L, dir, j))
    ensures !Has(BlockEntries(img, L, Slot(img, L, dir, j)), name)
  {
    hide Dir, Slot, BlockEntries, TiledBlock, Has;
  }

  lemma InsertFoundHere(img: seq<byte>, L: Layout, b: nat, previous: nat, ino: nat, name: seq<byte>, kind: byte,
      want: nat, acc: Scan)
    requires LayoutOf(|img|, L) && InRange(L, b) && BlockAt(L, b) + L.bs <= |img| && TiledBlock(img, L, b)
    requires Starts(img, BlockAt(L, b), BlockAt(L, b) + L.bs, previous)
    requires Splittable(img, previous, |name|) && 0 < ino < 0x1_0000_0000 && |name| <= MAX_NAME_LEN
    requires !Has(BlockEntries(img, L, b), name)
    ensures Finds(ScanBlock(Insert(img, previous, ino, name, kind), BlockAt(L, b), BlockAt(L, b) + L.bs, None,
          name, want, acc),
                  Spot(EntryOf(img, previous), Some(previous)))
  {
    hide U16, U32, Times, ScanBlock, Insert, Splittable, Starts, Has, Entries, Tiled, EntryOf, RecLen, NameLen;
    var base := BlockAt(L, b);
    ScanFindsInserted(img, base, base + L.bs, None, previous, ino, name, kind, want, acc);
  }
}
