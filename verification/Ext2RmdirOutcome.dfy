/** Exactly when `remove_directory` succeeds, and what it leaves where it fails. */
module Ext2RmdirOutcome {
  import opened Wrappers
  import opened Bytes
  import opened Ext2Layout
  import opened Ext2Alloc
  import opened Ext2Areas
  import opened Ext2File
  import opened Ext2Unwind
  import opened Ext2Append
  import opened Ext2Accounting
  import opened Ext2Dirent
  import opened Ext2DirBlock
  import opened Ext2Directory
  import opened Ext2Ops
  import opened Ext2RoundTrip
  import opened Ext2CreateUnlink
  import opened Ext2Giving
  import opened Ext2Mkdir
  import opened Ext2Steps
  import opened Ext2Fs
  import opened Ext2FsAppend
  import opened Ext2FsFile
  import opened Ext2FsCut
  import opened Ext2FsNames
  import opened Ext2FsTree
  import opened Ext2Outcomes

  // ----- the directory counts, through everything that is given back -----

  lemma PutKeepsDirs(img: seq<byte>, L: Layout, at: nat, x: seq<byte>, g: nat)
    requires LayoutOf(|img|, L) && g < L.groupCount && at + |x| <= |img| && Apart(DescAt(L, g) + 16, 2, at, |x|)
    ensures DirsOf(Put(img, at, x), L, g) == DirsOf(img, L, g)
  {
    hide Put, U16, LayoutOf, Times;
    GroupStarts(|img|, L, g);
    Read16Apart(img, at, x, DescAt(L, g) + 16);
  }

  lemma SiteKeepsDirs(img: seq<byte>, r: seq<byte>, L: Layout, k: Kind, h: nat, i: nat, g: nat)
    requires Geometry(img, L) && Position(L, h, i) && OnlySite(img, r, L, k, h, i) && g < L.groupCount
    ensures |r| == |img| && DirsOf(r, L, g) == DirsOf(img, L, g)
  {
    hide Geometry, BitOn, SiteAt;
    GroupStarts(|img|, L, g);
    DirsClear(img, L, g, k, h, i);
    var f, s := DescAt(L, g) + 16, SiteAt(img, L, k, h, i);
    Unwritten(img, r, s, f, 2);
    SameSlice(img, r, f, 2);
  }

  lemma FreeSlotKeepsDirs(img: seq<byte>, L: Layout, ino: nat, n: nat, g: nat)
    requires Geometry(img, L) && IsInode(L, ino) && InodeAt(img, L, ino).Some? && 0 < n <= DIRECT_BLOCK_COUNT
    requires Linked(img, L, Slot(img, L, ino, n - 1)) && g < L.groupCount
    requires FreeSlot(img, L, InodeAt(img, L, ino).value, n - 1).0.Ok?
    ensures DirsOf(FreeSlot(img, L, InodeAt(img, L, ino).value, n - 1).1, L, g) == DirsOf(img, L, g)
  {
    hide Geometry, Put, U32, FreeSlot, InodeAt, DataBlock, BlockUsed, GroupOfBlock, IndexOfBlock, OnlySite, DirsOf,
      Times;
    var wiped, r := FreeSlotLeaves(img, L, ino, n);
    var at, b := InodeAt(img, L, ino).value, Slot(img, L, ino, n - 1);
    DirsApartFromData(img, L, g, b);
    DirsApartFromInode(img, L, g, ino);
    PutKeepsDirs(img, L, BlockAt(L, b), Zeros(L.bs), g);
    PutKeepsDirs(Put(img, BlockAt(L, b), Zeros(L.bs)), L, SlotAt(at, n - 1), Le32(0), g);
    SiteKeepsDirs(wiped, r, L, BlockKind, GroupOfBlock(L, b), IndexOfBlock(L, b), g);
  }

  lemma {:induction false} FreeDownKeepsDirs(img: seq<byte>, L: Layout, ino: nat, n: nat, g: nat)
    requires Geometry(img, L) && IsInode(L, ino) && InodeAt(img, L, ino).Some? && Dense(img, L, ino, n)
    requires g < L.groupCount && FreeDown(img, L, InodeAt(img, L, ino).value, 0, n).0.Ok?
    ensures DirsOf(FreeDown(img, L, InodeAt(img, L, ino).value, 0, n).1, L, g) == DirsOf(img, L, g)
    decreases n
  {
    hide Geometry, FreeSlot, InodeAt, DataBlock, BlockUsed, DirsOf, Slot;
    if n > 0 {
      assert Linked(img, L, Slot(img, L, ino, n - 1));
      FreeSlotDense(img, L, ino, n);
      FreeSlotKeepsDirs(img, L, ino, n, g);
      FreeDownKeepsDirs(FreeSlot(img, L, InodeAt(img, L, ino).value, n - 1).1, L, ino, n - 1, g);
    }
  }

  /** Giving an inode back leaves every group's directory count. */
  lemma ReleaseKeepsDirs(img: seq<byte>, L: Layout, ino: nat, at: nat, g: nat)
    requires Releasable(img, L, ino) && InodeAt(img, L, ino) == Some(at) && g < L.groupCount
    requires SlotAt(at, CeilQuot(U32(img, at + 4), L.bs)) <= |img|
    ensures DirsOf(Release(img, L, ino, at).1, L, g) == DirsOf(img, L, g)
  {
    hide Geometry, Accounts, FreeIsData, U32, CeilQuot, Dense, Within, InodeAt, InodeUsed, FreeDown, Put, Sized, U16,
      Give, Givable, SiteOfInode, GroupOfInode, IndexOfInode, Slot, DirsOf, OnlySite, FreeInode, Times, Emptiable,
      Release, OwnBlocks, Cut;
    var z := Emptied(img, L, ino, at);
    EmptiableParts(img, L, ino, at);
    var n := CeilQuot(SizeOf(img, L, ino), L.bs);
    FreeDownKeepsDirs(img, L, ino, n, g);
    FreeDownCuts(img, L, ino, 0, n);
    var x := FreeDown(img, L, at, 0, n).1;
    CutWithin(img, x, L, ino, n);
    SizedKeepsDirs(x, L, ino, at, g);
    var y := Sized(x, L, at, 0);
    SizedWithin(x, L, ino, 0);
    DirsApartFromInode(y, L, g, ino);
    PutKeepsDirs(y, L, at, Zeros(L.inodeSize), g);
    WithinMeans(img, z, L, OwnBlocks(img, L, ino), {ino});
    FreeInodeSucceeds(z, L, ino);
    InodePosition(z, L, ino);
    GiveBit(z, L, InodeKind, GroupOfInode(L, ino), IndexOfInode(L, ino));
    SiteKeepsDirs(z, Give(z, SiteOfInode(z, L, ino)), L, InodeKind, GroupOfInode(L, ino), IndexOfInode(L, ino), g);
  }

  lemma SizedKeepsDirs(x: seq<byte>, L: Layout, ino: nat, at: nat, g: nat)
    requires Geometry(x, L) && IsInode(L, ino) && InodeAt(x, L, ino) == Some(at) && g < L.groupCount
    ensures DirsOf(Sized(x, L, at, 0), L, g) == DirsOf(x, L, g)
  {
    hide Geometry, InodeAt, Put, DirsOf, Le32, Times, CeilQuot;
    SectorsFit(L, 0);
    DirsApartFromInode(x, L, g, ino);
    var sectors := Le32(Times(CeilQuot(0, L.bs), SectorsPerBlock(L)));
    PutKeepsDirs(x, L, at + 4, Le32(0), g);
    PutKeepsDirs(Put(x, at + 4, Le32(0)), L, at + 28, sectors, g);
  }

  // ----- the two counters -----

  /** Both counters go down exactly when neither is 0; the group's is looked at first. */
  lemma DropsExact(x: seq<byte>, L: Layout, d: nat, ino: nat)
    requires Geometry(x, L) && IsInode(L, d) && IsInode(L, ino) && GroupOfInode(L, ino) < L.groupCount
    ensures var y := BumpDirs(x, L, ino, -1); var z := BumpLinks(y.1, L, d, -1);
      && (DirsOf(x, L, GroupOfInode(L, ino)) == 0 ==> y == (Err(FreeCountInconsistent), x))
      && (DirsOf(x, L, GroupOfInode(L, ino)) > 0 ==>
            && y.0.Ok? && Geometry(y.1, L) && (z.0.Ok? <==> LinksOf(x, L, d) > 0)
            && (z.0.Err? ==> z == (Err(DirectoryCorrupt), y.1)))
  {
    hide Geometry, InodeAt, U16, Le16, GroupOfInode, Put;
    InodeSlot(x, L, d);
    var g, at := GroupOfInode(L, ino), InodeAt(x, L, d).value;
    GroupStarts(|x|, L, g);
    DirsApartFromInode(x, L, g, d);
    var next := U16(x, DescAt(L, g) + 16) - 1;
    if 0 <= next {
      DirsPut(x, L, g, next);
      Read16Apart(x, DescAt(L, g) + 16, Le16(next), at + 26);
    }
  }

  // ----- the outcome -----

  /** What a failure past the emptiness check leaves: the inode is free, and in a parent that is
      not the victim itself the name is still bound. */
  ghost predicate HalfRemoved(img: seq<byte>, r: seq<byte>, L: Layout, d: nat, k: nat, ino: nat)
    requires FolderOk(img, L, d, k)
  {
    && Geometry(r, L) && IsInode(L, ino) && InodeUsed(img, L, ino) && !InodeUsed(r, L, ino)
    && (ino != d ==> Dir(r, L, d, k) && Names(r, L, d, k, k) == Names(img, L, d, k, k))
  }

  /** What the removal needs past the emptiness check: two counters that are not 0, a parent
      that is not the victim itself, and a merged record whose length fits 16 bits. */
  ghost predicate Removable(img: seq<byte>, L: Layout, d: nat, v: Victim)
    requires Geometry(img, L) && IsInode(L, d) && IsInode(L, v.ino)
    requires v.entry + DIRENT_HEADER_LEN <= |img| && v.previous + DIRENT_HEADER_LEN <= |img|
  {
    InodeSlot(img, L, v.ino);
    && v.ino != d && DirsOf(img, L, GroupOfInode(L, v.ino)) > 0 && LinksOf(img, L, d) > 0
    && RecLen(img, v.previous) + RecLen(img, v.entry) < 0x1_0000
  }

  ghost function RemovalError(img: seq<byte>, L: Layout, ino: nat): AllocError
    requires Geometry(img, L) && IsInode(L, ino)
  {
    InodeSlot(img, L, ino);
    if DirsOf(img, L, GroupOfInode(L, ino)) == 0 then FreeCountInconsistent else DirectoryCorrupt
  }

  /** `remove_directory` once the entry leads to a directory in use whose first block is empty. */
  lemma RemovalOutcome(img: seq<byte>, L: Layout, d: nat, k: nat, j: nat, name: seq<byte>, s: Spot, v: Victim)
    requires FolderOk(img, L, d, k) && IsUsed(img, L, v.ino) && InodeAt(img, L, v.ino) == Some(v.at)
    requires Solid(img, L, v.ino) && FoundIn(img, L, d, k, j, name, s) && s == Spot(v.entry, Some(v.previous))
    ensures v.entry + DIRENT_HEADER_LEN <= |img| && v.previous + DIRENT_HEADER_LEN <= |img|
    ensures SlotAt(v.at, CeilQuot(U32(img, v.at + 4), L.bs)) <= |img|
    ensures var y := Unbumped(img, L, d, v);
      && (y.0.Ok? ==> v.entry + RecLen(y.1, v.entry) <= |img|)
      && var r := if y.0.Err? then y else Remove(y.1, v.entry, v.previous);
         && (r.0.Ok? <==> Removable(img, L, d, v))
         && (r.0.Err? ==> HalfRemoved(img, r.1, L, d, k, v.ino))
         && (r.0.Err? ==> r.0 == Err(RemovalError(img, L, v.ino)))
  {
    hide Geometry, Dir, Slot, Within, Remove, Names, InodeUsed, Fs, RecLen, Across, Release, FoundIn, InodeAt, U32,
      CeilQuot, BumpDirs, BumpLinks, Claim, DirsOf, LinksOf, GroupOfInode, Accounts, FreeIsData, Solid;
    FsMeans(img, L);
    InodeSlot(img, L, v.ino);
    EntriesInside(img, L, d, k, j, name, s);
    var g := GroupOfInode(L, v.ino);
    if v.ino == d {
      OwnEntry(img, L, d, v.at);
      ReleaseKeepsDirs(img, L, d, v.at, g);
      var x := Release(img, L, d, v.at).1;
      DropsExact(x, L, d, d);
    } else {
      var x, B := VictimReleased(img, L, d, k, v);
      ReleaseKeepsDirs(img, L, v.ino, v.at, g);
      LinksThrough(img, x, L, B, {v.ino}, d);
      AcrossMeans(img, x, L, d, k);
      DropsExact(x, L, d, v.ino);
      var y := BumpDirs(x, L, v.ino, -1);
      if y.0.Ok? {
        DirsAcross(x, L, v.ino, d, k, -1);
        KindStays(x, y.1, L, {}, {}, v.ino);
        AcrossMeans(x, y.1, L, d, k);
        if BumpLinks(y.1, L, d, -1).0.Ok? {
          RmdirCounters(x, L, d, k, v.ino);
          var z := BumpLinks(y.1, L, d, -1).1;
          KindStays(x, z, L, {}, {d}, v.ino);
          AcrossTrans(img, x, z, L, d, k);
          AcrossMeans(x, z, L, d, k);
          MergeExact(img, z, L, d, k, j, name, s, v.previous);
        }
      }
    }
  }

  lemma EntriesInside(img: seq<byte>, L: Layout, d: nat, k: nat, j: nat, name: seq<byte>, s: Spot)
    requires Dir(img, L, d, k) && FoundIn(img, L, d, k, j, name, s) && s.previous.Some?
    ensures s.entry + DIRENT_HEADER_LEN <= |img| && s.previous.value + DIRENT_HEADER_LEN <= |img|
  {
    hide Geometry, Dir, Slot, Times, Tiled, Starts, RecLen, NameLen, U32, NameAt;
    PreviousInside(img, L, d, k, j, name, s);
  }

  /** `remove_directory` on a sound image, completely. What it refuses by looking leaves the image
      alone, and it looks at the first block of the victim only: see `EmptyExact`. Past that it
      succeeds exactly when the victim is `Removable`; where it fails, the inode is already free
      and its name still bound. */
  lemma RemoveDirectoryOutcome(img: seq<byte>, L: Layout, d: nat, k: nat, name: seq<byte>) returns (kv: nat)
    requires FolderOk(img, L, d, k) && SubdirOk(img, L, d, name)
    ensures RmdirInBounds(img, L, d, name)
    ensures var u, plan := RemoveDirectory(img, L, d, name), PlanRemove(img, L, d, name);
      && (plan.Err? ==> u == (Err(plan.error), img))
      && (plan.Ok? && !IsDirectoryMode(U16(img, plan.value.at)) ==> u == (Err(NotADirectory(plan.value.ino)), img))
      && (plan.Ok? && IsDirectoryMode(U16(img, plan.value.at)) ==>
            var v := plan.value;
            && IsUsed(img, L, v.ino) && Dir(img, L, v.ino, kv)
            && (!FirstBlockDots(img, L, v.ino, kv) ==> u == (Err(DirectoryNotEmpty(v.ino)), img))
            && (FirstBlockDots(img, L, v.ino, kv) ==>
                  && (u.0.Ok? <==> Removable(img, L, d, v))
                  && (u.0.Err? ==> HalfRemoved(img, u.1, L, d, k, v.ino))
                  && (u.0.Err? ==> u.0 == Err(RemovalError(img, L, v.ino)))))
  {
    hide Geometry, Dir, Slot, Remove, Fs, PlanRemove, DirectoryInode, RecLen, FoundIn, InodeAt, U32, U16,
      IsDirectoryMode, CeilQuot, Solid, IsEmpty, EmptyInBounds, Unbumped, FirstBlockDots, Removable, HalfRemoved,
      GroupOfInode, DirsOf, InodeUsed, DirOk, RemovalError;
    kv := 0;
    if PlanRemove(img, L, d, name).Ok? {
      var j, s := VictimShape(img, L, d, k, name);
      var v := PlanRemove(img, L, d, name).value;
      FsMeans(img, L);
      InodeSlot(img, L, v.ino);
      DirectoryIs(img, L, v.ino, v.at);
      if IsDirectoryMode(U16(img, v.at)) {
        kv := VictimDir(img, L, v.ino, v.at);
        DirIsSolid(img, L, v.ino, kv);
        RemovalOutcome(img, L, d, k, j, name, s, v);
      }
    }
  }
}
