/** Exactly when the writer's operations succeed, what they answer otherwise, and which refusals
    leave the image alone. */
module Ext2Outcomes {
  import opened Wrappers
  import opened Bytes
  import opened Ext2Layout
  import opened Ext2Alloc
  import opened Ext2Areas
  import opened Ext2File
  import opened Ext2Unwind
  import opened Ext2Append
  import opened Ext2Dirent
  import opened Ext2DirBlock
  import opened Ext2Directory
  import opened Ext2Ops
  import opened Ext2RoundTrip
  import opened Ext2Accounting
  import opened Ext2Giving
  import opened Ext2Mkdir
  import opened Ext2Steps
  import opened Ext2Fs
  import opened Ext2FsFile
  import Ext2FsCut
  import opened Ext2FsNames
  import opened Ext2FsTree

  // ----- the scan, exactly -----

  /** The record at `p` of [at, end) is live and binds `name`. */
  ghost predicate MatchAt(img: seq<byte>, at: nat, end: nat, name: seq<byte>, p: nat)
    requires end <= |img| && Tiled(img, at, end)
  {
    && Starts(img, at, end, p) && p + DIRENT_HEADER_LEN <= |img| && p + DIRENT_HEADER_LEN + NameLen(img, p) <= |img|
    && U32(img, p) != 0 && NameAt(img, p) == name
  }

  /** The record at `p` of [at, end) is live and has `want` bytes to spare. */
  ghost predicate GapAt(img: seq<byte>, at: nat, end: nat, want: nat, p: nat)
    requires end <= |img| && Tiled(img, at, end)
  {
    && Starts(img, at, end, p) && p + DIRENT_HEADER_LEN <= |img|
    && U32(img, p) != 0 && RecLen(img, p) >= Span(NameLen(img, p)) + want
  }

  lemma MatchStep(img: seq<byte>, at: nat, end: nat, name: seq<byte>, p: nat)
    requires end <= |img| && Tiled(img, at, end) && at != end
    ensures MatchAt(img, at, end, name, p) <==>
      (p == at && U32(img, at) != 0 && NameAt(img, at) == name) || MatchAt(img, at + RecLen(img, at), end, name, p)
    ensures MatchAt(img, at + RecLen(img, at), end, name, p) ==> at < p
  {
    hide U16, U32, NameLen, NameAt;
    var next := at + RecLen(img, at);
    if Starts(img, next, end, p) { StartsInside(img, next, end, p); }
  }

  lemma GapStep(img: seq<byte>, at: nat, end: nat, want: nat, p: nat)
    requires end <= |img| && Tiled(img, at, end) && at != end
    ensures GapAt(img, at, end, want, p) <==>
      (p == at && U32(img, at) != 0 && RecLen(img, at) >= Span(NameLen(img, at)) + want)
          || GapAt(img, at + RecLen(img, at), end, want, p)
    ensures GapAt(img, at + RecLen(img, at), end, want, p) ==> at < p
  {
    hide U16, U32, NameLen, Span;
    var next := at + RecLen(img, at);
    if Starts(img, next, end, p) { StartsInside(img, next, end, p); }
  }

  /** In a block the last match and the first gap are reported. */
  lemma {:induction false} ScanBlockExact(img: seq<byte>, at: nat, end: nat, previous: Option<nat>, name: seq<byte>,
      want: nat, acc: Scan)
    requires end <= |img| && Tiled(img, at, end)
    ensures var r := ScanBlock(img, at, end, previous, name, want, acc);
      && r.Ok?
      && (forall p: nat :: MatchAt(img, at, end, name, p) ==> r.value.found.Some? && p <= r.value.found.value.entry)
      && ((forall p: nat :: !MatchAt(img, at, end, name, p)) ==> r.value.found == acc.found)
      && (acc.room.None? ==> forall p: nat :: GapAt(img, at, end, want, p) ==>
            r.value.room.Some? && r.value.room.value.entry <= p)
      && (acc.room.Some? || (forall p: nat :: !GapAt(img, at, end, want, p)) ==> r.value.room == acc.room)
    decreases end - at
  {
    hide U16, U32, RecLen, NameLen, NameAt, Span, MatchAt, GapAt;
    if at == end {
      EmptyBlock(img, end, name, want);
    } else {
      var next := at + RecLen(img, at);
      var acc' := Noted(img, at, previous, name, want, acc);
      ScanBlockExact(img, next, end, Some(at), name, want, acc');
      forall p: nat
        ensures MatchAt(img, at, end, name, p) <==>
          (p == at && U32(img, at) != 0 && NameAt(img, at) == name) || MatchAt(img, next, end, name, p)
        ensures MatchAt(img, next, end, name, p) ==> at < p
      { MatchStep(img, at, end, name, p); }
      forall p: nat
        ensures GapAt(img, at, end, want, p) <==>
          (p == at && U32(img, at) != 0 && RecLen(img, at) >= Span(NameLen(img, at)) + want)
              || GapAt(img, next, end, want, p)
        ensures GapAt(img, next, end, want, p) ==> at < p
      { GapStep(img, at, end, want, p); }
      MatchStep(img, at, end, name, at);
      GapStep(img, at, end, want, at);
    }
  }

  lemma EmptyBlock(img: seq<byte>, end: nat, name: seq<byte>, want: nat)
    requires end <= |img|
    ensures Tiled(img, end, end)
    ensures forall p: nat :: !MatchAt(img, end, end, name, p) && !GapAt(img, end, end, want, p)
  {
  }

  /** The record at `p` of block `j` of the directory binds `name`. */
  ghost predicate MatchIn(img: seq<byte>, L: Layout, dir: nat, k: nat, j: nat, name: seq<byte>, p: nat)
    requires Dir(img, L, dir, k)
  {
    && j < k
    && var b := Slot(img, L, dir, j);
       && InRange(L, b) && BlockAt(L, b) + L.bs <= |img| && TiledBlock(img, L, b)
       && MatchAt(img, BlockAt(L, b), BlockAt(L, b) + L.bs, name, p)
  }

  /** The record at `p` of block `j` of the directory has `want` bytes to spare. */
  ghost predicate GapIn(img: seq<byte>, L: Layout, dir: nat, k: nat, j: nat, want: nat, p: nat)
    requires Dir(img, L, dir, k)
  {
    && j < k
    && var b := Slot(img, L, dir, j);
       && InRange(L, b) && BlockAt(L, b) + L.bs <= |img| && TiledBlock(img, L, b)
       && GapAt(img, BlockAt(L, b), BlockAt(L, b) + L.bs, want, p)
  }

  ghost predicate Matched(img: seq<byte>, L: Layout, dir: nat, k: nat, from: nat, name: seq<byte>)
    requires Dir(img, L, dir, k)
  {
    exists j: nat, p: nat :: from <= j < k && MatchIn(img, L, dir, k, j, name, p)
  }

  ghost predicate Gapped(img: seq<byte>, L: Layout, dir: nat, k: nat, from: nat, want: nat)
    requires Dir(img, L, dir, k)
  {
    exists j: nat, p: nat :: from <= j < k && GapIn(img, L, dir, k, j, want, p)
  }

  /** `p` is the last match: in its block, and no later block has one. */
  ghost predicate LastMatch(img: seq<byte>, L: Layout, dir: nat, k: nat, j: nat, name: seq<byte>, p: nat)
    requires Dir(img, L, dir, k)
  {
    && MatchIn(img, L, dir, k, j, name, p) && !Matched(img, L, dir, k, j + 1, name)
    && forall q: nat :: MatchIn(img, L, dir, k, j, name, q) ==> q <= p
  }

  /** `p` is the first gap of the blocks from `from`: in its block, and no earlier block has one. */
  ghost predicate FirstGap(img: seq<byte>, L: Layout, dir: nat, k: nat, from: nat, j: nat, want: nat, p: nat)
    requires Dir(img, L, dir, k)
  {
    && GapIn(img, L, dir, k, j, want, p)
    && (forall i: nat, q: nat :: from <= i < j ==> !GapIn(img, L, dir, k, i, want, q))
    && forall q: nat :: GapIn(img, L, dir, k, j, want, q) ==> p <= q
  }

  lemma ScanBlockExactAt(img: seq<byte>, L: Layout, dir: nat, k: nat, j: nat, name: seq<byte>, want: nat, acc: Scan)
    requires Dir(img, L, dir, k) && j < k && BlockAt(L, Slot(img, L, dir, j)) + L.bs <= |img|
    ensures var base := BlockAt(L, Slot(img, L, dir, j));
            var r := ScanBlock(img, base, base + L.bs, None, name, want, acc);
      && r.Ok?
      && ((forall p: nat :: !MatchIn(img, L, dir, k, j, name, p)) ==> r.value.found == acc.found)
      && (forall q: nat :: MatchIn(img, L, dir, k, j, name, q) ==>
            r.value.found.Some? && q <= r.value.found.value.entry
                && MatchIn(img, L, dir, k, j, name, r.value.found.value.entry))
      && ((forall p: nat :: !GapIn(img, L, dir, k, j, want, p)) ==> r.value.room == acc.room)
      && (acc.room.Some? ==> r.value.room == acc.room)
      && (acc.room.None? ==> forall q: nat :: GapIn(img, L, dir, k, j, want, q) ==>
            r.value.room.Some? && r.value.room.value.entry <= q
                && GapIn(img, L, dir, k, j, want, r.value.room.value.entry))
  {
    hide Geometry, Dense, InodeAt, U16, U32, Times, ScanBlock, Starts, RecLen, NameLen, NameAt, Span, Slot;
    DirBlock(img, L, dir, k, j);
    var base := BlockAt(L, Slot(img, L, dir, j));
    var end := base + L.bs;
    ScanBlockExact(img, base, end, None, name, want, acc);
    ScanBlockFacts(img, base, end, None, name, want, acc);
    if forall p: nat :: !MatchIn(img, L, dir, k, j, name, p) {
      forall p: nat ensures !MatchAt(img, base, end, name, p) { assert !MatchIn(img, L, dir, k, j, name, p); }
    }
    if forall p: nat :: !GapIn(img, L, dir, k, j, want, p) {
      forall p: nat ensures !GapAt(img, base, end, want, p) { assert !GapIn(img, L, dir, k, j, want, p); }
    }
    var r := ScanBlock(img, base, end, None, name, want, acc).value;
    forall q: nat | MatchIn(img, L, dir, k, j, name, q) ensures MatchIn(img, L, dir, k, j, name, r.found.value.entry) {
      MatchIsBound(img, base, end, name, q);
    }
  }

  /** A matching record shows in the list of entries. */
  lemma {:induction false} MatchIsBound(img: seq<byte>, at: nat, end: nat, name: seq<byte>, p: nat)
    requires end <= |img| && Tiled(img, at, end) && MatchAt(img, at, end, name, p)
    ensures Has(Entries(img, at, end), name)
    decreases end - at
  {
    hide U16, U32, RecLen, NameLen, NameAt, Has, Entries;
    HasStep(img, at, end, name);
    if p != at { MatchIsBound(img, at + RecLen(img, at), end, name, p); }
  }

  /** The outer loop. */
  lemma {:induction false} ScanFromExact(img: seq<byte>, L: Layout, dir: nat, k: nat, index: nat, name: seq<byte>,
      want: nat, acc: Scan)
    requires Dir(img, L, dir, k) && index <= k
    ensures var r := ScanFrom(img, L, InodeAt(img, L, dir).value, index, k, name, want, acc);
      && r.Ok?
      && (!Matched(img, L, dir, k, index, name) ==> r.value.found == acc.found)
      && (Matched(img, L, dir, k, index, name) ==>
            && r.value.found.Some?
            && exists j: nat :: index <= j < k && LastMatch(img, L, dir, k, j, name, r.value.found.value.entry))
      && (acc.room.Some? || !Gapped(img, L, dir, k, index, want) ==> r.value.room == acc.room)
      && (acc.room.None? && Gapped(img, L, dir, k, index, want) ==>
            && r.value.room.Some?
            && exists j: nat :: index <= j < k && FirstGap(img, L, dir, k, index, j, want, r.value.room.value.entry))
    decreases k - index
  {
    hide Geometry, Dense, InodeAt, U16, Times, ScanBlock, MatchIn, GapIn, TiledBlock;
    if index < k {
      DirBlock(img, L, dir, k, index);
      ScanBlockExactAt(img, L, dir, k, index, name, want, acc);
      var base := BlockAt(L, Slot(img, L, dir, index));
      var acc' := ScanBlock(img, base, base + L.bs, None, name, want, acc).value;
      ScanFromExact(img, L, dir, k, index + 1, name, want, acc');
      var r := ScanFrom(img, L, InodeAt(img, L, dir).value, index + 1, k, name, want, acc').value;
      if Matched(img, L, dir, k, index, name) && !Matched(img, L, dir, k, index + 1, name) {
        assert LastMatch(img, L, dir, k, index, name, r.found.value.entry);
      }
      if acc.room.None? && (exists p: nat :: GapIn(img, L, dir, k, index, want, p)) {
        assert FirstGap(img, L, dir, k, index, index, want, r.room.value.entry);
      } else if acc.room.None? && Gapped(img, L, dir, k, index, want) {
        var j: nat :| index + 1 <= j < k && FirstGap(img, L, dir, k, index + 1, j, want, r.room.value.entry);
        assert FirstGap(img, L, dir, k, index, j, want, r.room.value.entry);
      }
    }
  }

  /** `scan_directory` on a well-formed directory: the name is reported missing exactly when no
      live record binds it and otherwise its last record is reported; no room is reported exactly
      when no live record has the space and otherwise the first such record is. */
  lemma ScanDirectoryExact(img: seq<byte>, L: Layout, dir: nat, k: nat, name: seq<byte>, want: nat)
    requires Dir(img, L, dir, k)
    ensures var r := ScanDirectory(img, L, dir, name, want);
      && r.Ok?
      && (r.value.found.None? <==> !Matched(img, L, dir, k, 0, name))
      && (r.value.found.Some? ==>
            exists j: nat :: 0 <= j < k && LastMatch(img, L, dir, k, j, name, r.value.found.value.entry))
      && (r.value.room.None? <==> !Gapped(img, L, dir, k, 0, want))
      && (r.value.room.Some? ==>
            exists j: nat :: 0 <= j < k && FirstGap(img, L, dir, k, 0, j, want, r.value.room.value.entry))
  {
    hide Geometry, Dense, InodeAt, U16, U32, Times, ScanFrom, ScanDirectory, Dir, Matched, Gapped, LastMatch,
      FirstGap;
    ScanDirectoryIs(img, L, dir, k, name, want);
    ScanFromExact(img, L, dir, k, 0, name, want, Scan(None, None));
  }

  // ----- which block and which inode -----

  /** One group of the search: the lowest clear bit, or on to the next group. */
  lemma BlockSearchStep(img: seq<byte>, L: Layout, g: nat)
    requires LayoutOf(|img|, L) && AllocBlockFrom(img, L, g).0.Ok?
    ensures g < L.groupCount && L.firstData + Times(g, L.bpg) < L.blocksCount
    ensures var p := FindClear(img, BlockBitmap(img, L, g), 0, BlockSpan(L, g));
      || (p.AllUsed? && AllocBlockFrom(img, L, g) == AllocBlockFrom(img, L, g + 1))
      || (p.Clear? && AllocBlockFrom(img, L, g).0.value == L.firstData + Times(g, L.bpg) + p.i)
  {
    hide FindClear, Take, U16, U32, Times, BlockSpan, BlockBitmap;
    GroupStarts(|img|, L, g);
  }

  lemma BlockBit(img: seq<byte>, L: Layout, b: nat)
    requires Geometry(img, L) && InRange(L, b)
    ensures GroupOfBlock(L, b) < L.groupCount && IndexOfBlock(L, b) < L.bpg
    ensures L.firstData + Times(GroupOfBlock(L, b), L.bpg) <= L.blocksCount
    ensures IndexOfBlock(L, b) < BlockSpan(L, GroupOfBlock(L, b))
    ensures var base := BlockBitmap(img, L, GroupOfBlock(L, b));
      base + IndexOfBlock(L, b) / 8 < |img| && (BitAt(img, base, IndexOfBlock(L, b)) ==> BlockUsed(img, L, b))
  {
    hide Geometry, Bit, U32, Times, GroupOfBlock, IndexOfBlock;
    Locate(|img|, L, b);
    BlockPosition(img, L, b);
    SitePlaces(img, L, BlockKind, GroupOfBlock(L, b), IndexOfBlock(L, b));
  }

  /** `allocate_block` takes the lowest free block: every lower one is used. */
  lemma {:induction false} AllocBlockLowest(img: seq<byte>, L: Layout, g: nat, b: nat)
    requires Geometry(img, L) && AllocBlockFrom(img, L, g).0.Ok?
    requires InRange(L, b) && GroupOfBlock(L, b) >= g && b < AllocBlockFrom(img, L, g).0.value
    ensures BlockUsed(img, L, b)
    decreases L.groupCount - g
  {
    hide Geometry, BlockUsed, Bit, BitAt, FindClear, AllocBlockFrom, Times, GroupOfBlock, IndexOfBlock, BlockBitmap;
    BlockSearchStep(img, L, g);
    BlockBit(img, L, b);
    Locate(|img|, L, b);
    var h := GroupOfBlock(L, b);
    var p := FindClear(img, BlockBitmap(img, L, g), 0, BlockSpan(L, g));
    if p.AllUsed? && h > g {
      AllocBlockLowest(img, L, g + 1, b);
    } else if h > g {
      TimesMonotone(g, h, L.bpg);
      assert false;
    } else {
      assert BitAt(img, BlockBitmap(img, L, g), IndexOfBlock(L, b));
    }
  }

  lemma InodeSearchStep(img: seq<byte>, L: Layout, g: nat)
    requires LayoutOf(|img|, L) && AllocInodeFrom(img, L, g).0.Ok?
    ensures g < L.groupCount
    ensures var p := FindClear(img, InodeBitmap(img, L, g), Reserved(L, g), InodeSpan(L, g));
      || (p.AllUsed? && AllocInodeFrom(img, L, g) == AllocInodeFrom(img, L, g + 1))
      || (p.Clear? && AllocInodeFrom(img, L, g).0.value == Times(g, L.ipg) + 1 + p.i)
  {
    hide FindClear, Marked, Counted, U16, U32, Times, InodeSpan, InodeBitmap;
    if g < L.groupCount { GroupStarts(|img|, L, g); }
  }

  lemma InodeBit(img: seq<byte>, L: Layout, ino: nat)
    requires Geometry(img, L) && IsInode(L, ino)
    ensures GroupOfInode(L, ino) < L.groupCount
    ensures var base := InodeBitmap(img, L, GroupOfInode(L, ino));
      base + IndexOfInode(L, ino) / 8 < |img| && (BitAt(img, base, IndexOfInode(L, ino)) ==> InodeUsed(img, L, ino))
  {
    hide Geometry, Bit, U32, Times, GroupOfInode, IndexOfInode;
    InodeGroup(L, ino);
    InodePosition(img, L, ino);
    SitePlaces(img, L, InodeKind, GroupOfInode(L, ino), IndexOfInode(L, ino));
  }

  /** `allocate_inode` takes the lowest free unreserved inode. */
  lemma {:induction false} AllocInodeLowest(img: seq<byte>, L: Layout, g: nat, ino: nat)
    requires Geometry(img, L) && AllocInodeFrom(img, L, g).0.Ok?
    requires IsInode(L, ino) && ino >= L.firstInode && GroupOfInode(L, ino) >= g
    requires ino < AllocInodeFrom(img, L, g).0.value
    ensures InodeUsed(img, L, ino)
    decreases L.groupCount - g
  {
    hide Geometry, InodeUsed, Bit, BitAt, FindClear, AllocInodeFrom, Times, GroupOfInode, IndexOfInode, InodeBitmap;
    InodeSearchStep(img, L, g);
    InodeBit(img, L, ino);
    InodeGroup(L, ino);
    var h := GroupOfInode(L, ino);
    var p := FindClear(img, InodeBitmap(img, L, g), Reserved(L, g), InodeSpan(L, g));
    if p.AllUsed? && h > g {
      AllocInodeLowest(img, L, g + 1, ino);
    } else if h > g {
      TimesMonotone(g, h, L.ipg);
      assert false;
    } else {
      assert BitAt(img, InodeBitmap(img, L, g), IndexOfInode(L, ino));
    }
  }

  // ----- creating a file -----

  /** What stands in the way of a new entry `name`, as the source answers it. */
  ghost function EntryRefusal(img: seq<byte>, L: Layout, d: nat, k: nat, name: seq<byte>): Option<AllocError>
    requires Dir(img, L, d, k)
  {
    if !ValidName(name) then Some(BadName)
    else if Matched(img, L, d, k, 0, name) then Some(NameTaken)
    else if !Gapped(img, L, d, k, 0, Span(|name|)) then Some(NoRoomInDirectory)
    else None
  }

  lemma PlanCreateExact(img: seq<byte>, L: Layout, d: nat, k: nat, name: seq<byte>)
    requires Dir(img, L, d, k)
    ensures EntryRefusal(img, L, d, k, name).None? <==> PlanCreate(img, L, d, name).Ok?
    ensures EntryRefusal(img, L, d, k, name).Some? ==>
      PlanCreate(img, L, d, name) == Err(EntryRefusal(img, L, d, k, name).value)
  {
    hide Geometry, Dir, ScanDirectory, Matched, Gapped, LastMatch, FirstGap;
    ScanDirectoryExact(img, L, d, k, name, Span(|name|));
  }

  /** Refused for want of an inode, nothing was written. */
  lemma {:induction false} FullKeeps(img: seq<byte>, L: Layout, g: nat)
    requires LayoutOf(|img|, L)
    ensures AllocInodeFrom(img, L, g).0 == Err(Full) ==> AllocInodeFrom(img, L, g).1 == img
    ensures AllocBlockFrom(img, L, g).0 == Err(Full) ==> AllocBlockFrom(img, L, g).1 == img
    decreases L.groupCount - g
  {
    hide FindClear, Marked, Counted, U16, U32, Times;
    if g < L.groupCount { FullKeeps(img, L, g + 1); }
  }

  /** `create_file` on a sound image, completely: which answer it gives, and that a refusal
      changes nothing. */
  lemma CreateFileOutcome(img: seq<byte>, L: Layout, d: nat, k: nat, name: seq<byte>)
    requires FolderOk(img, L, d, k)
    ensures CreateInBounds(img, L, d, name)
    ensures var c, refusal := CreateFile(img, L, d, name), EntryRefusal(img, L, d, k, name);
      && (refusal.Some? ==> c == (Err(refusal.value), img))
      && (refusal.None? && NoFreeInode(img, L, 0) ==> c == (Err(Full), img))
      && (refusal.None? && !NoFreeInode(img, L, 0) ==> c.0.Ok?)
  {
    hide Geometry, Dir, Fs, EntryRefusal, PlanCreate, Insert, Splittable, AllocInodeFrom, NoFreeInode, InodeAt,
      FreshFile;
    FsMeans(img, L);
    CreateKeepsFs(img, L, d, k, name);
    PlanCreateExact(img, L, d, k, name);
    AllocInodeComplete(img, L, 0);
    FullKeeps(img, L, 0);
    if AllocInode(img, L).0.Ok? { NewFileSucceeds(img, L); }
  }

  lemma NewFileSucceeds(img: seq<byte>, L: Layout)
    requires Geometry(img, L) && AllocInode(img, L).0.Ok?
    ensures NewFile(img, L).0.Ok?
  {
    hide Geometry, InodeAt, Take, Put, FreshFile;
    AllocInodeTakes(img, L, 0);
    var ino := AllocInode(img, L).0.value;
    TakeInodeKeeps(img, L, ino);
    InodeSlot(img, L, ino);
  }

  // ----- creating a directory -----

  /** The two counters `create_directory` raises: the parent's links and the group's directories. */
  ghost function LinksOf(img: seq<byte>, L: Layout, d: nat): nat
    requires Geometry(img, L) && IsInode(L, d)
  {
    InodeSlot(img, L, d);
    U16(img, InodeAt(img, L, d).value + 26)
  }

  ghost function DirsOf(img: seq<byte>, L: Layout, g: nat): nat
    requires LayoutOf(|img|, L) && g < L.groupCount
  {
    GroupStarts(|img|, L, g);
    U16(img, DescAt(L, g) + 16)
  }

  /** Taking an inode for want of a block to go with it. */
  lemma NewDirectoryOutcome(img: seq<byte>, L: Layout, d: nat)
    requires Fs(img, L) && d < 0x1_0000_0000
    ensures Geometry(img, L)
    ensures NoFreeInode(img, L, 0) ==> NewDirectory(img, L, d) == (Err(Full), img)
    ensures !NoFreeInode(img, L, 0) ==>
      && AllocInode(img, L).0.Ok? && NewInode(img, AllocInode(img, L).1, L, AllocInode(img, L).0.value)
      && (NoFreeBlock(img, L, 0) ==> NewDirectory(img, L, d) == (Err(Full), AllocInode(img, L).1))
      && (!NoFreeBlock(img, L, 0) ==> NewDirectory(img, L, d).0 == Ok(AllocInode(img, L).0.value))
  {
    hide Geometry, Fs, AllocInodeFrom, AllocBlockFrom, NoFreeInode, InodeAt, FreshDirectory, FreshBody, Take, Put,
      InodeUsed, BlockUsed, DataBlock, Accounts, Within, SiteOfInode, GroupOfInode, GroupOfBlock, Takable;
    FsMeans(img, L);
    AllocInodeComplete(img, L, 0);
    FullKeeps(img, L, 0);
    if AllocInode(img, L).0.Ok? {
      AllocInodeTakes(img, L, 0);
      var ino, t := AllocInode(img, L).0.value, AllocInode(img, L).1;
      TakeInodeWithin(img, L, ino);
      WithinMeans(img, t, L, {}, {ino});
      TakeInodeKeeps(img, L, ino);
      TakableInodeIsFree(img, L, ino);
      AllocBlockComplete(t, L, 0);
      FullKeeps(t, L, 0);
      assert NoFreeBlock(t, L, 0) <==> NoFreeBlock(img, L, 0);
      if AllocBlock(t, L).0.Ok? { SecondSucceeds(t, L, ino); }
    }
  }

  /** Inode `ino`, free in `img`, is used in `t`, and every other bit is as it was. */
  ghost predicate NewInode(img: seq<byte>, t: seq<byte>, L: Layout, ino: nat) {
    && Geometry(img, L) && Geometry(t, L) && IsInode(L, ino) && !InodeUsed(img, L, ino)
    && (forall i {:trigger InodeUsed(t, L, i)} :: IsInode(L, i) ==>
          (InodeUsed(t, L, i) <==> i == ino || InodeUsed(img, L, i)))
    && (forall b {:trigger BlockUsed(t, L, b)} :: InRange(L, b) ==> (BlockUsed(t, L, b) <==> BlockUsed(img, L, b)))
  }

  lemma SecondSucceeds(t: seq<byte>, L: Layout, ino: nat)
    requires Geometry(t, L) && IsInode(L, ino) && AllocBlock(t, L).0.Ok?
    ensures InodeAt(AllocBlock(t, L).1, L, ino).Some?
  {
    hide Geometry, InodeAt, Take, GroupOfBlock, IndexOfBlock, Takable, SiteOfBlock;
    AllocBlockTakes(t, L, 0);
    var b := AllocBlock(t, L).0.value;
    BlockPosition(t, L, b);
    TakeBit(t, L, BlockKind, GroupOfBlock(L, b), IndexOfBlock(L, b));
    SameAreas(t, AllocBlock(t, L).1, L);
    InodeSlot(t, L, ino);
  }

  /** Neither counter is moved by the new inode, its block and its name. */
  lemma CountersThrough(img: seq<byte>, L: Layout, d: nat, k: nat, name: seq<byte>) returns (q: seq<byte>)
    requires FolderOk(img, L, d, k) && d < 0x1_0000_0000
    requires PlanCreate(img, L, d, name).Ok? && NewDirectory(img, L, d).0.Ok?
    ensures var previous, ino := PlanCreate(img, L, d, name).value, NewDirectory(img, L, d).0.value;
      && Splittable(NewDirectory(img, L, d).1, previous, |name|) && IsInode(L, ino)
      && GroupOfInode(L, ino) < L.groupCount
      && |name| <= MAX_NAME_LEN && q == Insert(NewDirectory(img, L, d).1, previous, ino, name, DIRENT_TYPE_DIRECTORY)
      && |q| == |img| && Geometry(q, L) && !InodeUsed(img, L, ino) && InodeUsed(q, L, ino)
      && InodeAt(q, L, d) == InodeAt(img, L, d)
      && LinksOf(q, L, d) == LinksOf(img, L, d)
      && DirsOf(q, L, GroupOfInode(L, ino)) == DirsOf(img, L, GroupOfInode(L, ino))
  {
    hide Geometry, Dir, Slot, Within, Insert, Splittable, Names, RefsSame, RefsLinked, Owned, InodeUsed, Fs,
      NewDirectory, PlanCreate, DirectoryInode, InBlock, RecordStart, RecLen, Across, DataBlock, BlockUsed, Newborn,
      OnlyBlock, Claim, GroupOfInode;
    FsMeans(img, L);
    var j := PlanShape(img, L, d, k, name);
    var b := NewDirectoryWithin(img, L, d);
    var previous, ino, p := PlanCreate(img, L, d, name).value, NewDirectory(img, L, d).0.value,
        NewDirectory(img, L, d).1;
    FreeClaim(img, L, b, {ino});
    assert d != ino;
    AcrossStep(img, p, L, {b}, ino, d, k);
    EnterName(img, p, L, d, k, j, previous, ino, name, DIRENT_TYPE_DIRECTORY);
    q := Insert(p, previous, ino, name, DIRENT_TYPE_DIRECTORY);
    InodeSlot(img, L, ino);
    LinksThrough(img, p, L, {b}, {ino}, d);
    LinksThrough(p, q, L, {Slot(img, L, d, j)}, {}, d);
    StaysUsed(p, q, L, {Slot(img, L, d, j)}, ino);
    DirsThroughNew(img, L, d, GroupOfInode(L, ino));
    WithinMeans(img, p, L, {b}, {ino});
    DirsThroughName(p, q, L, GroupOfInode(L, ino), Slot(img, L, d, j));
  }

  lemma StaysUsed(p: seq<byte>, q: seq<byte>, L: Layout, B: set<nat>, ino: nat)
    requires Within(p, q, L, B, {}) && IsInode(L, ino) && IsUsed(p, L, ino)
    ensures InodeUsed(q, L, ino)
  {
    hide Geometry, InodeUsed;
  }

  lemma LinksThrough(img: seq<byte>, r: seq<byte>, L: Layout, B: set<nat>, I: set<nat>, d: nat)
    requires Within(img, r, L, B, I) && IsInode(L, d) && d !in I
    ensures InodeAt(r, L, d) == InodeAt(img, L, d) && LinksOf(r, L, d) == LinksOf(img, L, d)
  {
    hide Geometry, InodeAt, Within, U16, KeepsBlocks, KeepsInodes;
    WithinMeans(img, r, L, B, I);
    Ext2FsCut.KindStays(img, r, L, B, I, d);
    InodeSlot(img, L, d);
  }

  lemma DirsThroughNew(img: seq<byte>, L: Layout, d: nat, g: nat)
    requires Geometry(img, L) && FreeIsData(img, L) && d < 0x1_0000_0000 && g < L.groupCount
    requires NewDirectory(img, L, d).0.Ok?
    ensures DirsOf(NewDirectory(img, L, d).1, L, g) == DirsOf(img, L, g)
  {
    hide Geometry, InodeAt, Take, Put, FreshDirectory, FreshBody, DataBlock, Times, SiteOfBlock, SiteOfInode,
      BlockUsed, InodeUsed, U16, U32, NewDirectory, GroupOfInode, IndexOfInode, GroupOfBlock, IndexOfBlock, Takable,
      FreeIsData;
    var b := NewDirectoryShape(img, L, d);
    var ino, f := NewDirectory(img, L, d).0.value, DescAt(L, g) + 16;
    GroupStarts(|img|, L, g);
    InodePosition(img, L, ino);
    BlockPosition(img, L, b);
    DirsClear(img, L, g, InodeKind, GroupOfInode(L, ino), IndexOfInode(L, ino));
    DirsClear(img, L, g, BlockKind, GroupOfBlock(L, b), IndexOfBlock(L, b));
    DirsApartFromInode(img, L, g, ino);
    DirsApartFromData(img, L, g, b);
    var s, t := SiteOfInode(img, L, ino), SiteOfBlock(img, L, b);
    TakeRead16(img, s, f);
    TakeRead16(Take(img, s), t, f);
    var w := Take(Take(img, s), t);
    Read16Apart(w, InodeAt(img, L, ino).value, FreshDirectory(|img|, L, b), f);
    Read16Apart(Put(w, InodeAt(img, L, ino).value, FreshDirectory(|img|, L, b)), BlockAt(L, b),
      FreshBody(|img|, L, ino, d), f);
  }

  lemma TakeRead16(z: seq<byte>, t: Site, f: nat)
    requires SiteOk(|z|, t) && Takable(z, t) && f + 2 <= |z| && ClearOf(t, f, 2)
    ensures U16(Take(z, t), f) == U16(z, f)
  {
    hide Put, U32;
    TakeShape(z, t);
    var bit, g, n := [SetBit(z[t.byteAt], t.bit)], Le16(U16(z, t.groupAt) - 1), Le32(U32(z, t.totalAt) - 1);
    Read16Apart(z, t.byteAt, bit, f);
    Read16Apart(Put(z, t.byteAt, bit), t.groupAt, g, f);
    Read16Apart(Put(Put(z, t.byteAt, bit), t.groupAt, g), t.totalAt, n, f);
  }

  lemma DirsThroughName(p: seq<byte>, q: seq<byte>, L: Layout, g: nat, c: nat)
    requires Geometry(p, L) && DataBlock(p, L, c) && OnlyBlock(p, q, L, c) && g < L.groupCount
    ensures DirsOf(q, L, g) == DirsOf(p, L, g)
  {
    hide Geometry, DataBlock, Times;
    GroupStarts(|p|, L, g);
    DirsApartFromData(p, L, g, c);
  }

  /** `create_directory` on a sound image, completely. A refusal of the entry, or for want of an
      inode, changes nothing. With an inode but no block to be had it answers `Full` having taken
      the inode; otherwise it succeeds unless a counter is at its limit. */
  lemma CreateDirectoryOutcome(img: seq<byte>, L: Layout, d: nat, k: nat, name: seq<byte>)
    requires FolderOk(img, L, d, k)
    ensures MkdirInBounds(img, L, d, name)
    ensures var c, refusal, taken := CreateDirectory(img, L, d, name), EntryRefusal(img, L, d, k, name),
        AllocInode(img, L);
      && (refusal.Some? ==> c == (Err(refusal.value), img))
      && (refusal.None? && NoFreeInode(img, L, 0) ==> c == (Err(Full), img))
      && (refusal.None? && !NoFreeInode(img, L, 0) && NoFreeBlock(img, L, 0) ==>
            taken.0.Ok? && c == (Err(Full), taken.1) && NewInode(img, taken.1, L, taken.0.value))
      && (refusal.None? && !NoFreeInode(img, L, 0) && !NoFreeBlock(img, L, 0) ==>
            && taken.0.Ok? && IsInode(L, taken.0.value) && GroupOfInode(L, taken.0.value) < L.groupCount
            && (c.0.Ok? <==> LinksOf(img, L, d) < 0xFFFF && DirsOf(img, L, GroupOfInode(L, taken.0.value)) < 0xFFFF))
  {
    hide Geometry, Dir, Fs, EntryRefusal, PlanCreate, Insert, Splittable, AllocInode, NoFreeInode, NoFreeBlock,
      NewDirectory, InodeAt, NewInode, BumpLinks, BumpDirs, InodeUsed, GroupOfInode, LinksOf, DirsOf;
    FsMeans(img, L);
    InodesSmall(|img|, L);
    MkdirKeepsFs(img, L, d, k, name);
    PlanCreateExact(img, L, d, k, name);
    NewDirectoryOutcome(img, L, d);
    if PlanCreate(img, L, d, name).Ok? && NewDirectory(img, L, d).0.Ok? {
      var q := CountersThrough(img, L, d, k, name);
      BumpsExact(q, L, d, NewDirectory(img, L, d).0.value);
    }
  }

  lemma BumpsExact(q: seq<byte>, L: Layout, d: nat, ino: nat)
    requires Geometry(q, L) && IsInode(L, d) && IsInode(L, ino) && GroupOfInode(L, ino) < L.groupCount
    ensures (BumpLinks(q, L, d, 1).0.Ok? && BumpDirs(BumpLinks(q, L, d, 1).1, L, ino, 1).0.Ok?)
      <==> LinksOf(q, L, d) < 0xFFFF && DirsOf(q, L, GroupOfInode(L, ino)) < 0xFFFF
  {
    hide Geometry, InodeAt, U16, Le16, GroupOfInode, Put;
    InodeSlot(q, L, d);
    var g, at := GroupOfInode(L, ino), InodeAt(q, L, d).value;
    GroupStarts(|q|, L, g);
    DirsApartFromInode(q, L, g, d);
    if LinksOf(q, L, d) < 0xFFFF { Read16Apart(q, at + 26, Le16(U16(q, at + 26) + 1), DescAt(L, g) + 16); }
  }

  /** A refused `create_directory` leaves the image alone exactly when it was the entry that was
      refused or there was no inode to take. */
  lemma CreateDirectoryRefused(img: seq<byte>, L: Layout, d: nat, k: nat, name: seq<byte>)
    requires FolderOk(img, L, d, k)
    ensures MkdirInBounds(img, L, d, name)
    ensures var c := CreateDirectory(img, L, d, name);
      c.0.Err? ==> (c.1 == img <==> EntryRefusal(img, L, d, k, name).Some? || NoFreeInode(img, L, 0))
  {
    hide Geometry, Dir, Fs, EntryRefusal, PlanCreate, Insert, Splittable, AllocInode, NoFreeInode, NoFreeBlock,
      NewDirectory, InodeAt, BumpLinks, BumpDirs, InodeUsed, GroupOfInode, LinksOf, DirsOf;
    CreateDirectoryOutcome(img, L, d, k, name);
    PlanCreateExact(img, L, d, k, name);
    FsMeans(img, L);
    InodesSmall(|img|, L);
    NewDirectoryOutcome(img, L, d);
    if PlanCreate(img, L, d, name).Ok? && NewDirectory(img, L, d).0.Ok? {
      var q := CountersThrough(img, L, d, k, name);
      var ino := NewDirectory(img, L, d).0.value;
      HalfMade(q, L, d, ino);
    }
  }

  /** The inode stays taken when a counter is at its limit. */
  lemma HalfMade(q: seq<byte>, L: Layout, d: nat, ino: nat)
    requires Geometry(q, L) && IsInode(L, d) && IsInode(L, ino) && GroupOfInode(L, ino) < L.groupCount
    requires InodeUsed(q, L, ino)
    ensures BumpLinks(q, L, d, 1).0.Err? ==> BumpLinks(q, L, d, 1).1 == q
    ensures BumpLinks(q, L, d, 1).0.Ok? && BumpDirs(BumpLinks(q, L, d, 1).1, L, ino, 1).0.Err? ==>
      var r := BumpDirs(BumpLinks(q, L, d, 1).1, L, ino, 1).1; Geometry(r, L) && InodeUsed(r, L, ino)
  {
    hide Geometry, InodeAt, U16, Le16, GroupOfInode, Put, InodeUsed, Plain;
    InodeSlot(q, L, d);
    var at := InodeAt(q, L, d).value;
    InodeRangePlain(q, L, d, at + 26, 2);
    if BumpLinks(q, L, d, 1).0.Ok? { PlainPutUsed(q, L, at + 26, Le16(U16(q, at + 26) + 1)); }
  }

  // ----- unlinking -----

  /** The record at `p` opens a block of the directory. */
  ghost predicate OpensBlock(img: seq<byte>, L: Layout, d: nat, k: nat, p: nat)
    requires Dir(img, L, d, k)
  {
    exists j: nat :: j < k && MatchOpens(img, L, d, k, j, p)
  }

  ghost predicate MatchOpens(img: seq<byte>, L: Layout, d: nat, k: nat, j: nat, p: nat)
    requires Dir(img, L, d, k) && j < k
  {
    p == BlockAt(L, Slot(img, L, d, j))
  }

  /** What the removals answer before they touch anything, as the source answers it: a name of a
      wrong length, a name no live record binds, a last record that opens its block and so has
      none before it to merge with, a number that is no inode. */
  ghost function RemovalRefusal(img: seq<byte>, L: Layout, d: nat, k: nat, name: seq<byte>, p: nat): Option<AllocError>
    requires Dir(img, L, d, k) && p + 4 <= |img|
  {
    if |name| == 0 || |name| > MAX_NAME_LEN then Some(BadName)
    else if !Matched(img, L, d, k, 0, name) then Some(NoSuchEntry)
    else if OpensBlock(img, L, d, k, p) then Some(NoPreviousEntry)
    else if !IsInode(L, U32(img, p)) then Some(InodeOutOfRange(U32(img, p)))
    else None
  }

  /** On a well-formed directory those are all the answers, about the last record of the name. */
  lemma PlanRemoveExact(img: seq<byte>, L: Layout, d: nat, k: nat, name: seq<byte>) returns (p: nat)
    requires Dir(img, L, d, k)
    ensures p + 4 <= |img|
    ensures 0 < |name| <= MAX_NAME_LEN && Matched(img, L, d, k, 0, name) ==>
      exists j: nat :: j < k && LastMatch(img, L, d, k, j, name, p)
    ensures var plan, refusal := PlanRemove(img, L, d, name), RemovalRefusal(img, L, d, k, name, p);
      && (refusal.Some? ==> plan == Err(refusal.value))
      && (refusal.None? ==> plan.Ok? && plan.value.entry == p && plan.value.ino == U32(img, p))
  {
    hide Geometry, Dir, ScanDirectory, Matched, LastMatch, InodeAt, U32, FoundIn, OpensBlock, LayoutOf;
    LayoutSmall(img, L, d, k);
    p := 0;
    ScanDirectoryExact(img, L, d, k, name, USIZE_MAX);
    ScanDirectoryFacts(img, L, d, k, name, USIZE_MAX);
    var scan := ScanDirectory(img, L, d, name, USIZE_MAX).value;
    if 0 < |name| <= MAX_NAME_LEN && scan.found.Some? {
      var s := scan.found.value;
      p := s.entry;
      var j: nat :| j < k && FoundIn(img, L, d, k, j, name, s);
      FirstHasNone(img, L, d, k, j, name, s);
      if IsInode(L, U32(img, p)) { InodeSlot(img, L, U32(img, p)); }
    }
  }

  lemma LayoutSmall(img: seq<byte>, L: Layout, d: nat, k: nat)
    requires Dir(img, L, d, k)
    ensures 4 <= |img| && LayoutOf(|img|, L)
  {
  }

  /** A found record has one before it exactly when it does not open a block. */
  lemma FirstHasNone(img: seq<byte>, L: Layout, d: nat, k: nat, j: nat, name: seq<byte>, s: Spot)
    requires Dir(img, L, d, k) && FoundIn(img, L, d, k, j, name, s)
    ensures s.entry + DIRENT_HEADER_LEN <= |img| && (s.previous.None? <==> OpensBlock(img, L, d, k, s.entry))
  {
    hide Geometry, Dir, Slot, Times, Tiled, Starts, RecLen, NameLen, U32, NameAt, TiledBlock;
    var b := Slot(img, L, d, j);
    DirBlock(img, L, d, k, j);
    StartsIn(img, L, b, s.entry);
    if s.previous.None? {
      assert MatchOpens(img, L, d, k, j, s.entry);
    } else {
      StartsIn(img, L, b, s.previous.value);
      forall i: nat | i < k ensures !MatchOpens(img, L, d, k, i, s.entry) {
        if Slot(img, L, d, i) != b { BlocksApart(L, Slot(img, L, d, i), b); }
      }
    }
  }

  lemma StartsIn(img: seq<byte>, L: Layout, b: nat, p: nat)
    requires LayoutOf(|img|, L) && InRange(L, b) && BlockAt(L, b) + L.bs <= |img| && TiledBlock(img, L, b)
    requires Starts(img, BlockAt(L, b), BlockAt(L, b) + L.bs, p)
    ensures BlockAt(L, b) <= p && p + DIRENT_HEADER_LEN <= BlockAt(L, b) + L.bs
    ensures p + RecLen(img, p) <= BlockAt(L, b) + L.bs && RecLen(img, p) >= DIRENT_HEADER_LEN
  {
    hide Times, Tiled, Starts, RecLen, NameLen;
    StartsInside(img, BlockAt(L, b), BlockAt(L, b) + L.bs, p);
  }

  /** The two records the removal merges, seen after the file was given back. */
  lemma MergeExact(img: seq<byte>, x: seq<byte>, L: Layout, d: nat, k: nat, j: nat, name: seq<byte>, s: Spot,
      previous: nat)
    requires Across(img, x, L, d, k) && FoundIn(img, L, d, k, j, name, s) && s.previous == Some(previous)
    ensures s.entry + DIRENT_HEADER_LEN <= |x| && previous + DIRENT_HEADER_LEN <= |x|
    ensures s.entry + RecLen(x, s.entry) <= |x|
    ensures var merged := RecLen(img, previous) + RecLen(img, s.entry);
      && merged <= L.bs
      && (merged < 0x1_0000 ==> Remove(x, s.entry, previous).0.Ok?)
      && (merged >= 0x1_0000 ==> Remove(x, s.entry, previous) == (Err(DirectoryCorrupt), x))
  {
    hide Geometry, Slot, RecLen, NameLen, U32, NameAt, Tiled, Starts, Times, DirSame, RefsSame, RefsLinked, Names,
      Dir;
    SameFound(img, x, L, d, k, j, name, s);
    PreviousInside(x, L, d, k, j, name, s);
    DirBlock(img, L, d, k, j);
    AcrossBytes(img, x, L, d, k, j);
    var b := Slot(img, L, d, j);
    var at, end := BlockAt(L, b), BlockAt(L, b) + L.bs;
    SameFromBytes(img, x, at, L.bs);
    MergedInBlock(img, x, at, end, s, previous);
  }

  lemma MergedInBlock(img: seq<byte>, x: seq<byte>, at: nat, end: nat, s: Spot, previous: nat)
    requires end <= |img| && Tiled(img, at, end) && Same(img, x, at, end) && SpotOk(img, at, end, None, s)
    requires s.previous == Some(previous)
    ensures previous + DIRENT_HEADER_LEN <= |img| && s.entry + DIRENT_HEADER_LEN <= |img|
    ensures RecLen(x, previous) == RecLen(img, previous) && RecLen(x, s.entry) == RecLen(img, s.entry)
    ensures RecLen(img, previous) + RecLen(img, s.entry) <= end - at
  {
    hide RecLen, NameLen, U32, NameAt, Tiled, Starts;
    SameRecordAt(img, x, at, end, s.entry);
    SameRecordAt(img, x, at, end, previous);
    StartsInside(img, at, end, previous);
  }

  /** What an unlink that fails past all refusals leaves: the inode is free, and its name is
      still bound. */
  ghost predicate HalfUnlinked(img: seq<byte>, r: seq<byte>, L: Layout, d: nat, k: nat, ino: nat)
    requires FolderOk(img, L, d, k)
  {
    && Geometry(r, L) && Dir(r, L, d, k) && IsInode(L, ino) && !InodeUsed(r, L, ino)
    && Names(r, L, d, k, k) == Names(img, L, d, k, k)
  }

  /** `unlink_file` on a sound image, completely. Everything it refuses by looking leaves the
      image alone. Past that point it fails when the inode is not in use, and when the merged
      record would not fit its 16-bit length, which takes blocks of 64 KiB; then the inode is
      free and the name is still there. */
  lemma UnlinkFileOutcome(img: seq<byte>, L: Layout, d: nat, k: nat, name: seq<byte>)
    requires FolderOk(img, L, d, k) && VictimOk(img, L, d, name)
    ensures UnlinkInBounds(img, L, d, name)
    ensures var u, plan := UnlinkFile(img, L, d, name), PlanRemove(img, L, d, name);
      && (plan.Err? ==> u == (Err(plan.error), img))
      && (plan.Ok? && !IsRegularMode(U16(img, plan.value.at)) ==> u == (Err(NotARegularFile(plan.value.ino)), img))
      && (plan.Ok? && IsRegularMode(U16(img, plan.value.at)) ==>
            var v := plan.value;
            var merged := RecLen(img, v.previous) + RecLen(img, v.entry);
            && merged <= L.bs && IsInode(L, v.ino)
            && (u.0.Ok? <==> InodeUsed(img, L, v.ino) && merged < 0x1_0000)
            && (!InodeUsed(img, L, v.ino) ==> u.0 == Err(NotAllocated(v.ino)))
            && (InodeUsed(img, L, v.ino) && merged >= 0x1_0000 ==>
                  u.0 == Err(DirectoryCorrupt) && L.bs == 65536 && HalfUnlinked(img, u.1, L, d, k, v.ino)))
  {
    hide Geometry, Dir, Slot, Within, Remove, Names, RefsSame, RefsLinked, DirSame, InodeUsed, Fs, PlanRemove, RecLen,
      Release, FoundIn, InodeAt, U32, U16, IsRegularMode, CeilQuot, Claim, Solid, Accounts, FreeIsData;
    UnlinkKeepsFs(img, L, d, k, name);
    if PlanRemove(img, L, d, name).Ok? && IsRegularMode(U16(img, PlanRemove(img, L, d, name).value.at)) {
      var j, s := VictimShape(img, L, d, k, name);
      var v := PlanRemove(img, L, d, name).value;
      FsMeans(img, L);
      FolderIsNotFile(img, L, d, k, v.ino, v.at);
      if InodeUsed(img, L, v.ino) {
        var x, B := VictimReleased(img, L, d, k, v);
        MergeExact(img, x, L, d, k, j, name, s, v.previous);
      } else {
        ReleaseRefused(img, L, v.ino, v.at);
        AcrossSelf(img, L, d, k);
        MergeExact(img, img, L, d, k, j, name, s, v.previous);
      }
    }
  }

  lemma AcrossSelf(img: seq<byte>, L: Layout, d: nat, k: nat)
    requires FolderOk(img, L, d, k)
    ensures Across(img, img, L, d, k)
  {
    hide Geometry, Dir, Within, Claim, Untouched, Across, SamePointers, InodeUsed;
    FsMeans(img, L);
    WithinSelf(img, L);
    WithinMeans(img, img, L, {}, {});
    NoBlocksClaimed(img, L, {});
    OthersUntouched(img, img, L, {}, {}, {}, d);
    UntouchedAcross(img, img, L, d, k);
  }
}
