/** `create_directory` and `remove_directory` keep the invariant and change the names of the
    parent by exactly one binding. */
module Ext2FsTree {
  import opened Wrappers
  import opened Bytes
  import opened Ext2Layout
  import opened Ext2Alloc
  import opened Ext2Areas
  import opened Ext2File
  import opened Ext2Unwind
  import opened Ext2Append
  import opened Ext2Accounting
  import opened Ext2Dirent
  import opened Ext2DirBlock
  import opened Ext2Directory
  import opened Ext2DirChange
  import opened Ext2Ops
  import opened Ext2RoundTrip
  import opened Ext2CreateUnlink
  import opened Ext2Mkdir
  import opened Ext2Steps
  import opened Ext2Fs
  import opened Ext2FsAppend
  import opened Ext2FsFile
  import opened Ext2FsCut
  import opened Ext2Giving
  import opened Ext2FsNames

  // ----- counters: the parent's links and the group's directories -----

  lemma AcrossTrans(a: seq<byte>, b: seq<byte>, c: seq<byte>, L: Layout, d: nat, k: nat)
    requires Across(a, b, L, d, k) && Across(b, c, L, d, k)
    ensures Across(a, c, L, d, k)
  {
    hide Geometry, Dir, Slot, RefsSame, RefsLinked, Names, DirSame;
    RefsSameTrans(a, b, c, L, d);
    DirSameTrans(a, b, c, L, d, k);
  }

  lemma AcrossIs(img: seq<byte>, x: seq<byte>, L: Layout, d: nat, k: nat)
    requires Dir(img, L, d, k) && Geometry(x, L) && DirSame(img, x, L, d, k) && RefsSame(img, x, L, d)
    ensures Across(img, x, L, d, k)
  {
    hide Geometry, Dir, Slot, RefsSame, Names, DirSame, BlockEntries, TiledBlock;
    DirSameIsDir(img, x, L, d, k);
    DirSameNames(img, x, L, d, k, k);
    RefsStayLinked(img, x, L, d);
  }

  /** Within a step that touches no block, the directory's blocks stay. */
  lemma BlocksAcross(q: seq<byte>, r: seq<byte>, L: Layout, I: set<nat>, d: nat, k: nat)
    requires Dir(q, L, d, k) && RefsLinked(q, L, d) && Within(q, r, L, {}, I) && InodeAt(r, L, d) == InodeAt(q, L, d)
    requires SameHeader(q, r, L, d)
    ensures Across(q, r, L, d, k)
  {
    hide Geometry, Dir, Slot, Names, BlockUsed, DataBlock, InodeAt, Within, Across, SameBytes, U16, U32, Times,
      RefsLinked;
    WithinMeans(q, r, L, {}, I);
    forall j | 0 <= j < k
      ensures Linked(r, L, Slot(q, L, d, j)) && SameBytes(q, r, BlockAt(L, Slot(q, L, d, j)), L.bs)
    {
      DirBlock(q, L, d, k, j);
      assert BlockUsed(r, L, Slot(q, L, d, j)) && DataBlock(r, L, Slot(q, L, d, j));
    }
    RefsAllKept(q, r, L, {}, I, d);
    AcrossIs(q, r, L, d, k);
  }

  /** `bump_links` leaves the directory what it was. */
  lemma LinksAcross(q: seq<byte>, L: Layout, d: nat, k: nat, delta: int)
    requires LayoutOf(|q|, L) && Dir(q, L, d, k) && RefsLinked(q, L, d) && BumpLinks(q, L, d, delta).0.Ok?
    ensures var r := BumpLinks(q, L, d, delta).1;
      && Within(q, r, L, {}, {d}) && Across(q, r, L, d, k) && (IsUsed(r, L, d) <==> IsUsed(q, L, d))
      && Relinked(q, r, L, d, delta)
  {
    hide Geometry, Dir, Slot, Names, Within, Across, RefsLinked, InodeAt, InodeUsed, U16, U32, Put;
    var at := InodeAt(q, L, d).value;
    var v := U16(q, at + 26) + delta;
    var r := Put(q, at + 26, Le16(v));
    HeadWrite(q, L, d, at + 26, Le16(v));
    Read16Apart(q, at + 26, Le16(v), at);
    Read32Apart(q, at + 26, Le16(v), at + 4);
    Put16Read(q, at + 26, v);
    BlocksAcross(q, r, L, {d}, d, k);
  }

  /** The mode stays, the link count moves by `delta`. */
  ghost predicate Relinked(q: seq<byte>, r: seq<byte>, L: Layout, d: nat, delta: int)
    requires Geometry(q, L) && Geometry(r, L) && IsInode(L, d)
  {
    NodeOf(r, L, d).mode == NodeOf(q, L, d).mode && NodeOf(r, L, d).links == NodeOf(q, L, d).links + delta
  }

  /** And so does `bump_used_dirs`. */
  lemma DirsAcross(q: seq<byte>, L: Layout, ino: nat, d: nat, k: nat, delta: int)
    requires LayoutOf(|q|, L) && Dir(q, L, d, k) && RefsLinked(q, L, d) && 0 < ino && BumpDirs(q, L, ino, delta).0.Ok?
    ensures var r := BumpDirs(q, L, ino, delta).1;
      && Within(q, r, L, {}, {}) && Across(q, r, L, d, k) && (IsUsed(r, L, d) <==> IsUsed(q, L, d))
      && NodeOf(r, L, d) == NodeOf(q, L, d)
  {
    hide Geometry, Dir, Slot, Names, Within, Across, RefsLinked, InodeAt, InodeUsed, U16, U32, Put, GroupOfInode;
    var g := GroupOfInode(L, ino);
    GroupStarts(|q|, L, g);
    DirsWithin(q, L, g, U16(q, DescAt(L, g) + 16) + delta);
    var r := BumpDirs(q, L, ino, delta).1;
    WithinMeans(q, r, L, {}, {});
    SameInode(q, r, L, d);
    BlocksAcross(q, r, L, {}, d, k);
    KindStays(q, r, L, {}, {}, d);
  }

  // ----- the new directory -----

  lemma FreshSlot(len: nat, L: Layout, b: nat)
    requires LayoutOf(len, L) && b < 0x1_0000_0000
    ensures var x := FreshDirectory(len, L, b);
      && U16(x, 0) == 0x41ED && U16(x, 26) == 2 && U32(x, 4) == L.bs && 512 * U32(x, 28) == L.bs
      && U32(x, SlotAt(0, 0)) == b && forall j :: 1 <= j < 15 ==> U32(x, SlotAt(0, j)) == 0
  {
    hide FreshDirectory, Put, U32, U16, Le32;
    FreshDirectoryLinked(len, L, b);
    FreshDirectoryReads(len, L);
    FreshDirectorySectors(len, L, b);
    var x := FreshDirectory(len, L, 0);
    Put32Read(x, 40, b);
    Read16Apart(x, 40, Le32(b), 0);
    Read16Apart(x, 40, Le32(b), 26);
    Read32Apart(x, 40, Le32(b), 4);
    forall j | 1 <= j < 15 ensures U32(Put(x, 40, Le32(b)), SlotAt(0, j)) == 0 {
      Read32Apart(x, 40, Le32(b), SlotAt(0, j));
    }
  }

  /** A directory as `create_directory` makes it: one block, holding `.` and `..`. */
  ghost predicate Newborn(p: seq<byte>, L: Layout, ino: nat, b: nat, parent: nat)
    requires Geometry(p, L) && IsInode(L, ino)
    ensures Newborn(p, L, ino, b, parent) ==> InRange(L, b)
  {
    && Linked(p, L, b) && b != 0 && NodeOf(p, L, ino) == Node(0x41ED, 2) && SizeOf(p, L, ino) == L.bs
    && SectorsRight(p, L, ino) && Slot(p, L, ino, 0) == b
    && (forall j :: 1 <= j < 15 ==> Slot(p, L, ino, j) == 0)
    && parent < 0x1_0000_0000 && ino < 0x1_0000_0000 && BlockAt(L, b) + L.bs <= |p|
    && p[BlockAt(L, b)..BlockAt(L, b) + L.bs] == FreshBody(|p|, L, ino, parent)
  }

  /** Such a directory is well formed and binds exactly `.` and `..`. */
  lemma NewbornDir(p: seq<byte>, L: Layout, ino: nat, b: nat, parent: nat)
    requires Geometry(p, L) && IsInode(L, ino) && Newborn(p, L, ino, b, parent) && 0 < parent
    ensures Dir(p, L, ino, 1) && Names(p, L, ino, 1, 1) == [(DOT, ino, 2), (DOT_DOT, parent, 2)]
    ensures Direct(p, L, ino)
  {
    hide Geometry, Slot, FreshBody, InodeAt, U16, U32, BlockUsed, DataBlock, Entries, Tiled;
    InodeSlot(p, L, ino);
    FreshBodyIsEmpty(p, L, BlockAt(L, b), ino, parent);
    CeilOneBlock(L.bs);
    assert Dense(p, L, ino, 1);
    assert TiledBlock(p, L, Slot(p, L, ino, 0));
    assert Times(1, L.bs) == L.bs;
    assert Dir(p, L, ino, 1);
    OneBlockNames(p, L, ino, b);
  }

  lemma OneBlockNames(p: seq<byte>, L: Layout, ino: nat, b: nat)
    requires Dir(p, L, ino, 1) && b == Slot(p, L, ino, 0) && BlockAt(L, b) + L.bs <= |p| && InRange(L, b)
    requires TiledBlock(p, L, b)
    ensures Names(p, L, ino, 1, 1) == BlockEntries(p, L, b)
  {
    hide Geometry, Slot, Dir, TiledBlock, BlockEntries;
    assert Names(p, L, ino, 1, 0) == [];
    assert Names(p, L, ino, 1, 1) == Names(p, L, ino, 1, 0) + BlockEntries(p, L, b);
  }

  lemma CeilOneBlock(unit: nat)
    requires unit > 0
    ensures CeilQuot(unit, unit) == 1
  {
    assert Quot(unit - 1, unit) == 0;
  }

  lemma NewDirectoryWithin(img: seq<byte>, L: Layout, parent: nat) returns (b: nat)
    requires Geometry(img, L) && FreeIsData(img, L) && IsInode(L, parent) && parent < 0x1_0000_0000
    requires NewDirectory(img, L, parent).0.Ok?
    ensures var ino, p := NewDirectory(img, L, parent).0.value, NewDirectory(img, L, parent).1;
      && IsInode(L, ino) && !InodeUsed(img, L, ino) && InRange(L, b) && !BlockUsed(img, L, b) && b != 0
      && Within(img, p, L, {b}, {ino}) && IsUsed(p, L, ino) && Newborn(p, L, ino, b, parent)
  {
    hide Geometry, InodeAt, Take, Put, FreshDirectory, FreshBody, InodeUsed, BlockUsed, DataBlock, U16, U32, Within,
      NewDirectory, GroupOfInode, SiteOfInode, SiteOfBlock, FreeIsData, SiteOk, Takable, Times;
    b := NewDirectoryShape(img, L, parent);
    var ino, p := NewDirectory(img, L, parent).0.value, NewDirectory(img, L, parent).1;
    var at, base := InodeAt(img, L, ino).value, BlockAt(L, b);
    TakeInodeWithin(img, L, ino);
    var t := Take(img, SiteOfInode(img, L, ino));
    WithinMeans(img, t, L, {}, {ino});
    BlockSiteStays(img, t, L, b);
    TakeBlockWithin(t, L, b);
    var u := Take(t, SiteOfBlock(t, L, b));
    WithinMeans(t, u, L, {b}, {});
    var x, body := FreshDirectory(|img|, L, b), FreshBody(|img|, L, ino, parent);
    PutInode(u, L, ino, at, x);
    var w := Put(u, at, x);
    WithinMeans(u, w, L, {}, {ino});
    PutBlock(w, L, b, base, body);
    WithinMeans(w, p, L, {b}, {});
    WithinTrans(img, t, u, L, {}, {ino}, {b}, {});
    WithinTrans(img, u, w, L, {} + {b}, {ino} + {}, {}, {ino});
    WithinTrans(img, w, p, L, {} + {b} + {}, {ino} + {} + {ino}, {b}, {});
    assert {} + {b} + {} + {b} == {b} && {ino} + {} + {ino} + {} == {ino};
    DataNotZero(img, L, b);
    NewbornReads(u, w, p, L, ino, b, parent, at);
    assert InodeUsed(u, L, ino) && BlockUsed(u, L, b);
    assert BlockUsed(w, L, b) <==> BlockUsed(u, L, b);
    assert InodeUsed(p, L, ino) <==> InodeUsed(w, L, ino);
  }

  lemma NewbornReads(u: seq<byte>, w: seq<byte>, p: seq<byte>, L: Layout, ino: nat, b: nat, parent: nat, at: nat)
    requires Geometry(p, L) && LayoutOf(|u|, L) && |p| == |u| && IsInode(L, ino) && IsInode(L, parent)
    requires InodeAt(p, L, ino) == Some(at) && DataBlock(p, L, b) && b < 0x1_0000_0000 && BlockAt(L, b) + L.bs <= |u|
    requires ino < 0x1_0000_0000 && parent < 0x1_0000_0000
    requires at + L.inodeSize <= |u| && w == Put(u, at, FreshDirectory(|u|, L, b))
    requires p == Put(w, BlockAt(L, b), FreshBody(|u|, L, ino, parent))
    ensures NodeOf(p, L, ino) == Node(0x41ED, 2) && SizeOf(p, L, ino) == L.bs && SectorsRight(p, L, ino)
    ensures Slot(p, L, ino, 0) == b && forall j :: 1 <= j < 15 ==> Slot(p, L, ino, j) == 0
    ensures p[BlockAt(L, b)..BlockAt(L, b) + L.bs] == FreshBody(|u|, L, ino, parent)
  {
    hide Geometry, InodeAt, Put, FreshDirectory, FreshBody, DataBlock, U16, U32, Times, IsDirectoryMode;
    var x, body, base := FreshDirectory(|u|, L, b), FreshBody(|u|, L, ino, parent), BlockAt(L, b);
    FreshSlot(|u|, L, b);
    InodeRangeApartFromData(p, L, ino, at, L.inodeSize, b);
    ReadInPut(u, at, x, 0);
    ReadInPut(u, at, x, 4);
    ReadInPut(u, at, x, 26);
    ReadInPut(u, at, x, 28);
    Read16Apart(w, base, body, at);
    Read16Apart(w, base, body, at + 26);
    Read32Apart(w, base, body, at + 4);
    Read32Apart(w, base, body, at + 28);
    CeilOneBlock(L.bs);
    assert Times(1, L.bs) == L.bs by { TimesOne(L.bs); }
    forall j | 0 <= j < 15 ensures Slot(p, L, ino, j) == U32(x, SlotAt(0, j)) {
      ReadInPut(u, at, x, SlotAt(0, j));
      Read32Apart(w, base, body, SlotAt(at, j));
    }
    BodyPut(w, base, body);
  }

  lemma TimesOne(unit: nat)
    ensures Times(1, unit) == unit
  {
    assert Times(0, unit) == 0;
  }

  lemma BodyPut(w: seq<byte>, base: nat, body: seq<byte>)
    requires base + |body| <= |w|
    ensures Put(w, base, body)[base..base + |body|] == body
  {
  }

  lemma NewbornStays(p: seq<byte>, r: seq<byte>, L: Layout, ino: nat, b: nat, parent: nat, B: set<nat>, I: set<nat>)
    requires Within(p, r, L, B, I) && IsInode(L, ino) && Newborn(p, L, ino, b, parent) && b !in B && ino !in I
    ensures Newborn(r, L, ino, b, parent)
  {
    hide Geometry, Within, Slot, FreshBody, InodeAt, BlockUsed, DataBlock, NodeOf, SizeOf, Times, SectorsRight;
    WithinMeans(p, r, L, B, I);
    SlotsFollow(p, r, L, B, I, ino);
    KindStays(p, r, L, B, I, ino);
    SectorsStay(p, r, L, B, I, ino);
    assert BlockUsed(r, L, b) && DataBlock(r, L, b);
    var base := BlockAt(L, b);
    assert SameBytes(p, r, base, L.bs);
    assert r[base..base + L.bs] == p[base..base + L.bs];
  }

  lemma NewbornMeans(p: seq<byte>, L: Layout, ino: nat, b: nat, parent: nat)
    requires Geometry(p, L) && IsInode(L, ino)
    ensures Newborn(p, L, ino, b, parent) ==> NodeOf(p, L, ino) == Node(0x41ED, 2) && SectorsRight(p, L, ino)
  {
    hide Geometry, NodeOf, SectorsRight, Slot, FreshBody, BlockUsed, DataBlock, SizeOf, Times;
  }

  /** The one reference of a new directory is its fresh block. */
  lemma NewbornRefs(img: seq<byte>, r: seq<byte>, L: Layout, ino: nat, b: nat, parent: nat)
    requires Geometry(img, L) && Geometry(r, L) && Exclusive(img, L) && IsInode(L, ino) && Newborn(r, L, ino, b, parent)
    requires !BlockUsed(img, L, b)
    ensures OwnRefs(img, r, L, ino)
  {
    hide Geometry, Slot, FreshBody, InodeAt, BlockUsed, DataBlock, DirectoryInode, SizeOf, Times, Exclusive,
      NotOthers;
    FreeIsNotOthers(img, L, ino, b);
    forall x {:trigger Ref(r, L, ino, x)} | 0 <= x < RefCount(L)
      ensures Ref(r, L, ino, x) == (if x == 0 then b else 0)
    {
    }
  }

  // ----- create_directory -----

  /** The image after the name is in: the two counters remain. */
  lemma MkdirCounters(q: seq<byte>, L: Layout, d: nat, k: nat, ino: nat, dl: int)
    requires LayoutOf(|q|, L) && Dir(q, L, d, k) && RefsLinked(q, L, d) && IsUsed(q, L, d) && 0 < ino
    requires BumpLinks(q, L, d, dl).0.Ok?
    requires BumpDirs(BumpLinks(q, L, d, dl).1, L, ino, dl).0.Ok?
    ensures var r := BumpDirs(BumpLinks(q, L, d, dl).1, L, ino, dl).1;
      Within(q, r, L, {}, {d}) && Across(q, r, L, d, k) && IsUsed(r, L, d) && Relinked(q, r, L, d, dl)
  {
    hide Geometry, Dir, Within, Across, RefsLinked, BumpLinks, BumpDirs, InodeUsed, NodeOf;
    LinksAcross(q, L, d, k, dl);
    var x := BumpLinks(q, L, d, dl).1;
    AcrossMeans(q, x, L, d, k);
    DirsAcross(x, L, ino, d, k, dl);
    var r := BumpDirs(x, L, ino, dl).1;
    AcrossTrans(q, x, r, L, d, k);
    WithinTrans(q, x, r, L, {}, {d}, {}, {});
    var none: set<nat> := {};
    assert none + none == none && {d} + none == {d};
  }

  lemma AcrossMeans(img: seq<byte>, x: seq<byte>, L: Layout, d: nat, k: nat)
    requires Across(img, x, L, d, k)
    ensures Dir(img, L, d, k) && Dir(x, L, d, k) && RefsLinked(x, L, d) && RefsSame(img, x, L, d)
    ensures Names(x, L, d, k, k) == Names(img, L, d, k, k)
  {
  }

  /** A successful `create_directory` on a sound image: the image stays sound, the parent binds
      exactly one name more, the new directory is well formed and binds `.` and `..`, and
      everybody else is untouched. */
  lemma MkdirKeepsFs(img: seq<byte>, L: Layout, d: nat, k: nat, name: seq<byte>)
    requires FolderOk(img, L, d, k)
    ensures MkdirInBounds(img, L, d, name)
    ensures var c := CreateDirectory(img, L, d, name);
      c.0.Ok? ==> MkdirDone(img, c.1, L, d, k, c.0.value, name)
  {
    hide Geometry, Dir, Slot, Within, Insert, Splittable, Names, RefsSame, RefsLinked, Owned, Linked, InodeUsed, Fs,
      NewDirectory, PlanCreate, DirectoryInode, OthersKept, InBlock, RecordStart, RecLen, Across, DataBlock,
      BumpLinks, BumpDirs, MkdirDone, BlockUsed, Newborn;
    FsMeans(img, L);
    InodesSmall(|img|, L);
    if PlanCreate(img, L, d, name).Ok? && NewDirectory(img, L, d).0.Ok? {
      var j := PlanShape(img, L, d, k, name);
      var b := NewDirectoryWithin(img, L, d);
      var previous, ino, p := PlanCreate(img, L, d, name).value, NewDirectory(img, L, d).0.value,
          NewDirectory(img, L, d).1;
      FreeClaim(img, L, b, {ino});
      AcrossStep(img, p, L, {b}, ino, d, k);
      EnterName(img, p, L, d, k, j, previous, ino, name, DIRENT_TYPE_DIRECTORY);
      var q := Insert(p, previous, ino, name, DIRENT_TYPE_DIRECTORY);
      var c := Slot(img, L, d, j);
      LinkedIsUsed(img, L, c, b);
      KindStays(p, q, L, {c}, {}, d);
      if BumpLinks(q, L, d, 1).0.Ok? && BumpDirs(BumpLinks(q, L, d, 1).1, L, ino, 1).0.Ok? {
        MkdirCounters(q, L, d, k, ino, 1);
        var r := BumpDirs(BumpLinks(q, L, d, 1).1, L, ino, 1).1;
        AcrossMeans(q, r, L, d, k);
        RefsSameTrans(img, q, r, L, d);
        MkdirStep(img, p, q, r, L, d, k, b, c, ino);
        MkdirDoneIs(img, r, L, d, k, ino, name);
      }
    }
  }

  ghost predicate MkdirDone(img: seq<byte>, r: seq<byte>, L: Layout, d: nat, k: nat, ino: nat, name: seq<byte>)
    requires FolderOk(img, L, d, k)
  {
    && IsInode(L, ino) && !InodeUsed(img, L, ino) && NoName(img, L, d, k, name)
    && FolderOk(r, L, d, k) && FolderOk(r, L, ino, 1) && Names(r, L, ino, 1, 1) == [(DOT, ino, 2), (DOT_DOT, d, 2)]
    && multiset(Names(r, L, d, k, k)) == multiset(Names(img, L, d, k, k)) + multiset{(name, ino, 2)}
    && NodeOf(r, L, ino) == Node(0x41ED, 2) && SectorsRight(r, L, ino) && Relinked(img, r, L, d, 1)
    && OthersKept(img, r, L, {d, ino})
  }

  lemma MkdirDoneIs(img: seq<byte>, r: seq<byte>, L: Layout, d: nat, k: nat, ino: nat, name: seq<byte>)
    requires FolderOk(img, L, d, k)
    requires IsInode(L, ino) && !InodeUsed(img, L, ino) && NoName(img, L, d, k, name)
    requires FolderOk(r, L, d, k) && FolderOk(r, L, ino, 1)
    requires Names(r, L, ino, 1, 1) == [(DOT, ino, 2), (DOT_DOT, d, 2)]
    requires multiset(Names(r, L, d, k, k)) == multiset(Names(img, L, d, k, k)) + multiset{(name, ino, 2)}
    requires NodeOf(r, L, ino) == Node(0x41ED, 2) && SectorsRight(r, L, ino) && Relinked(img, r, L, d, 1)
    requires OthersKept(img, r, L, {d, ino})
    ensures MkdirDone(img, r, L, d, k, ino, name)
  {
    hide FolderOk, Names, OthersKept, InodeUsed, NoName, Relinked, SectorsRight, NodeOf;
  }

  lemma FreeClaim(img: seq<byte>, L: Layout, b: nat, S: set<nat>)
    requires Geometry(img, L) && b != 0 && InRange(L, b) && !BlockUsed(img, L, b)
    ensures Claim(img, L, {b}, S)
  {
    hide Geometry, BlockUsed;
  }

  lemma LinkedIsUsed(img: seq<byte>, L: Layout, c: nat, b: nat)
    requires Geometry(img, L) && Linked(img, L, c) && InRange(L, b) && !BlockUsed(img, L, b)
    ensures c != b
  {
    hide Geometry, BlockUsed;
  }

  lemma MkdirStep(img: seq<byte>, p: seq<byte>, q: seq<byte>, r: seq<byte>, L: Layout, d: nat, k: nat, b: nat, c: nat,
      ino: nat)
    requires FolderOk(img, L, d, k) && IsInode(L, ino) && d != ino && c != b && b != 0 && c != 0
    requires InRange(L, b) && !BlockUsed(img, L, b) && Linked(img, L, c) && Owned(img, L, {d}, c)
    requires Within(img, p, L, {b}, {ino}) && Within(p, q, L, {c}, {}) && Within(q, r, L, {}, {d})
    requires IsUsed(p, L, ino) && Newborn(p, L, ino, b, d) && IsUsed(r, L, d) && Dir(r, L, d, k)
    requires RefsSame(img, r, L, d) && Relinked(q, r, L, d, 1)
    ensures NodeOf(r, L, ino) == Node(0x41ED, 2) && SectorsRight(r, L, ino) && Relinked(img, r, L, d, 1)
    ensures FolderOk(r, L, d, k) && FolderOk(r, L, ino, 1) && Names(r, L, ino, 1, 1) == [(DOT, ino, 2), (DOT_DOT, d, 2)]
    ensures OthersKept(img, r, L, {d, ino})
  {
    hide Geometry, Dir, Slot, Within, Names, RefsSame, Owned, Linked, InodeUsed, Fs, OthersKept, DataBlock, BlockUsed,
      Newborn, OwnRefs, Claim, Exclusive;
    FsMeans(img, L);
    KindStays(img, p, L, {b}, {ino}, d);
    KindStays(p, q, L, {c}, {}, d);
    NewbornMeans(r, L, ino, b, d);
    NewbornStays(p, q, L, ino, b, d, {c}, {});
    NewbornStays(q, r, L, ino, b, d, {}, {d});
    KindStays(p, q, L, {c}, {}, ino);
    KindStays(q, r, L, {}, {d}, ino);
    NewbornDir(r, L, ino, b, d);
    NewbornRefs(img, r, L, ino, b, d);
    WithinTrans(img, p, q, L, {b}, {ino}, {c}, {});
    WithinTrans(img, q, r, L, {b} + {c}, {ino} + {}, {}, {d});
    assert {b} + {c} + {} == {b} + {c} && {ino} + {} + {d} == {d} + {ino};
    FreeClaim(img, L, b, {d} + {ino});
    ClaimOne(img, L, c, {d}, {d} + {ino});
    ClaimJoin(img, L, {b}, c, {d} + {ino}, {d} + {ino});
    FsStep(img, r, L, {b} + {c}, {d} + {ino}, {d}, ino);
    assert {d} + {ino} == {d, ino};
  }

  // ----- remove_directory -----

  predicate OnlyDots(es: seq<Binding>) {
    forall i :: 0 <= i < |es| ==> es[i].0 == DOT || es[i].0 == DOT_DOT
  }

  /** On a tiled block `directory_is_empty` stays in bounds and says exactly whether the block
      binds nothing but `.` and `..`. */
  lemma {:induction false} EmptyMeans(img: seq<byte>, body: nat, off: nat, bs: nat)
    requires body + bs <= |img| && off <= bs && Tiled(img, body + off, body + bs)
    ensures EmptyInBounds(img, body, off, bs)
    ensures EmptyFrom(img, body, off, bs) == Ok(OnlyDots(Entries(img, body + off, body + bs)))
    decreases bs - off
  {
    hide U32, NameAt;
    if off != bs {
      var at := body + off;
      EmptyMeans(img, body, off + RecLen(img, at), bs);
      DotsStep(img, at, body + bs);
    }
  }

  lemma DotsStep(img: seq<byte>, at: nat, end: nat)
    requires at < end <= |img| && Tiled(img, at, end)
    ensures OnlyDots(Entries(img, at, end)) <==>
      (U32(img, at) == 0 || NameAt(img, at) == DOT || NameAt(img, at) == DOT_DOT)
          && OnlyDots(Entries(img, at + RecLen(img, at), end))
  {
    hide U32, NameAt, RecLen, NameLen;
    var rest := Entries(img, at + RecLen(img, at), end);
    if U32(img, at) != 0 {
      var es := Entries(img, at, end);
      assert es[0] == BindingAt(img, at);
      assert forall i :: 0 <= i < |rest| ==> es[i + 1] == rest[i];
    }
  }

  /** The first block of a directory binds nothing but `.` and `..`. Later blocks are not looked
      at: with one block this is all there is, with more it is not. */
  ghost predicate FirstBlockDots(img: seq<byte>, L: Layout, ino: nat, k: nat)
    requires Dir(img, L, ino, k)
  {
    if k == 0 then true
    else
      DirBlock(img, L, ino, k, 0);
      OnlyDots(BlockEntries(img, L, Slot(img, L, ino, 0)))
  }

  ghost predicate BlockDots(img: seq<byte>, L: Layout, ino: nat, k: nat, j: nat)
    requires Dir(img, L, ino, k) && j < k
  {
    DirBlock(img, L, ino, k, j);
    OnlyDots(BlockEntries(img, L, Slot(img, L, ino, j)))
  }

  /** So do all the others. */
  ghost predicate LaterBlocksDots(img: seq<byte>, L: Layout, ino: nat, k: nat)
    requires Dir(img, L, ino, k)
  {
    forall j :: 1 <= j < k ==> BlockDots(img, L, ino, k, j)
  }

  /** A directory binds nothing but `.` and `..` when none of its blocks does. */
  lemma {:induction false} DotsByBlock(img: seq<byte>, L: Layout, ino: nat, k: nat, n: nat)
    requires Dir(img, L, ino, k) && n <= k
    ensures OnlyDots(Names(img, L, ino, k, n)) <==> forall j :: 0 <= j < n ==> BlockDots(img, L, ino, k, j)
  {
    hide Geometry, Slot, Dir, TiledBlock, BlockEntries, OnlyDots, BlockDots;
    if n == 0 {
      assert Names(img, L, ino, k, 0) == [];
      DotsNone();
    } else {
      DirBlock(img, L, ino, k, n - 1);
      DotsByBlock(img, L, ino, k, n - 1);
      var here := BlockEntries(img, L, Slot(img, L, ino, n - 1));
      DotsJoin(Names(img, L, ino, k, n - 1), here);
      assert BlockDots(img, L, ino, k, n - 1) <==> OnlyDots(here) by { BlockDotsIs(img, L, ino, k, n - 1); }
    }
  }

  lemma BlockDotsIs(img: seq<byte>, L: Layout, ino: nat, k: nat, j: nat)
    requires Dir(img, L, ino, k) && j < k && InRange(L, Slot(img, L, ino, j))
    requires TiledBlock(img, L, Slot(img, L, ino, j))
    ensures BlockDots(img, L, ino, k, j) <==> OnlyDots(BlockEntries(img, L, Slot(img, L, ino, j)))
  {
    hide Dir, Slot, TiledBlock, BlockEntries, OnlyDots;
  }

  lemma DotsNone()
    ensures OnlyDots([])
  {
  }

  lemma DotsJoin(a: seq<Binding>, b: seq<Binding>)
    ensures OnlyDots(a + b) <==> OnlyDots(a) && OnlyDots(b)
  {
    var c := a + b;
    assert forall i :: 0 <= i < |a| ==> c[i] == a[i];
    assert forall i :: 0 <= i < |b| ==> c[|a| + i] == b[i];
  }

  /** `directory_is_empty` tells emptiness exactly when a directory whose first block is empty
      has nothing in its other blocks either. */
  lemma EmptyExact(img: seq<byte>, L: Layout, ino: nat, k: nat, at: nat)
    requires LayoutOf(|img|, L) && Dir(img, L, ino, k) && InodeAt(img, L, ino) == Some(at)
    ensures U32(img, at + 40) != 0 ==> EmptyInBounds(img, BlockAt(L, U32(img, at + 40)), 0, L.bs)
    ensures OnlyDots(Names(img, L, ino, k, k)) <==> FirstBlockDots(img, L, ino, k) && LaterBlocksDots(img, L, ino, k)
    ensures IsEmpty(img, L, at) == Ok(OnlyDots(Names(img, L, ino, k, k))) <==>
      (FirstBlockDots(img, L, ino, k) ==> LaterBlocksDots(img, L, ino, k))
  {
    hide Geometry, Slot, Dir, OnlyDots, Names, U32, InodeAt, EmptyInBounds, IsEmpty, BlockEntries, TiledBlock;
    VictimBlock(img, L, ino, k, at);
    DotsByBlock(img, L, ino, k, k);
    FirstDots(img, L, ino, k);
    hide BlockDots, FirstBlockDots;
  }

  lemma FirstDots(img: seq<byte>, L: Layout, ino: nat, k: nat)
    requires Dir(img, L, ino, k)
    ensures FirstBlockDots(img, L, ino, k) <==> k == 0 || BlockDots(img, L, ino, k, 0)
  {
    hide Geometry, Slot, Dir, OnlyDots, BlockEntries, TiledBlock;
  }

  /** The first block of the victim, as `directory_is_empty` looks at it. */
  lemma VictimBlock(img: seq<byte>, L: Layout, ino: nat, k: nat, at: nat)
    requires LayoutOf(|img|, L) && Dir(img, L, ino, k) && InodeAt(img, L, ino) == Some(at)
    ensures U32(img, at + 40) != 0 ==> EmptyInBounds(img, BlockAt(L, U32(img, at + 40)), 0, L.bs)
    ensures IsEmpty(img, L, at) == Ok(FirstBlockDots(img, L, ino, k))
  {
    hide Geometry, Slot, InodeAt, U16, EmptyFrom, EmptyInBounds, Entries, Tiled, Times, Dir;
    var b := U32(img, at + 40);
    SlotZero(img, L, ino, at);
    if k == 0 {
      DirNone(img, L, ino);
    } else {
      DirBlock(img, L, ino, k, 0);
      EmptyMeans(img, BlockAt(L, b), 0, L.bs);
    }
  }

  lemma SlotZero(img: seq<byte>, L: Layout, ino: nat, at: nat)
    requires Geometry(img, L) && IsInode(L, ino) && InodeAt(img, L, ino) == Some(at)
    ensures U32(img, at + 40) == Slot(img, L, ino, 0)
  {
  }

  lemma DirNone(img: seq<byte>, L: Layout, ino: nat)
    requires Dir(img, L, ino, 0)
    ensures Slot(img, L, ino, 0) == 0
  {
  }

  /** What is left of a removal once the content is given back: the two counters. */
  lemma RmdirCounters(x: seq<byte>, L: Layout, d: nat, k: nat, ino: nat)
    requires LayoutOf(|x|, L) && Dir(x, L, d, k) && RefsLinked(x, L, d) && IsUsed(x, L, d) && 0 < ino
    requires BumpDirs(x, L, ino, -1).0.Ok?
    requires BumpLinks(BumpDirs(x, L, ino, -1).1, L, d, -1).0.Ok?
    ensures var r := BumpLinks(BumpDirs(x, L, ino, -1).1, L, d, -1).1;
      Within(x, r, L, {}, {d}) && Across(x, r, L, d, k) && IsUsed(r, L, d) && Relinked(x, r, L, d, -1)
  {
    hide Geometry, Dir, Within, Across, RefsLinked, BumpLinks, BumpDirs, InodeUsed, NodeOf;
    DirsAcross(x, L, ino, d, k, -1);
    var y := BumpDirs(x, L, ino, -1).1;
    AcrossMeans(x, y, L, d, k);
    LinksAcross(y, L, d, k, -1);
    var r := BumpLinks(y, L, d, -1).1;
    AcrossTrans(x, y, r, L, d, k);
    WithinTrans(x, y, r, L, {}, {}, {}, {d});
    var none: set<nat> := {};
    assert none + none == none && none + {d} == {d};
  }

  lemma DirectoryIs(img: seq<byte>, L: Layout, ino: nat, at: nat)
    requires Geometry(img, L) && IsInode(L, ino) && InodeAt(img, L, ino) == Some(at)
    ensures DirectoryInode(img, L, ino) <==> IsDirectoryMode(U16(img, at))
  {
  }

  /** A directory has all its blocks. */
  lemma DirIsSolid(img: seq<byte>, L: Layout, ino: nat, k: nat)
    requires Dir(img, L, ino, k)
    ensures Solid(img, L, ino) && CeilQuot(SizeOf(img, L, ino), L.bs) == k
  {
    hide Geometry, InodeAt, Dense, Slot, TiledBlock, U16, Quot, Rem;
    QuotOf(k, L.bs - 1, L.bs);
  }

  /** Giving an inode back wipes its link count. */
  lemma ReleaseWipes(img: seq<byte>, L: Layout, ino: nat, at: nat)
    requires Releasable(img, L, ino) && InodeAt(img, L, ino) == Some(at)
    requires SlotAt(at, CeilQuot(U32(img, at + 4), L.bs)) <= |img|
    ensures Release(img, L, ino, at).0.Ok? && U16(Release(img, L, ino, at).1, at + 26) == 0
  {
    hide Geometry, Accounts, FreeIsData, U32, CeilQuot, Within, InodeAt, InodeUsed, FreeDown, Put, Sized, Give,
      Givable, SiteOfInode, GroupOfInode, U16, FreeInode, Emptiable, Release, OwnBlocks;
    var z := Emptied(img, L, ino, at);
    EmptiableParts(img, L, ino, at);
    WithinMeans(img, z, L, OwnBlocks(img, L, ino), {ino});
    FreeInodeSucceeds(z, L, ino);
    GiveKeepsSlot(z, L, ino, at, 26);
  }

  lemma GiveKeepsSlot(z: seq<byte>, L: Layout, ino: nat, at: nat, f: nat)
    requires Geometry(z, L) && IsInode(L, ino) && InodeAt(z, L, ino) == Some(at) && f + 2 <= L.inodeSize
    requires GroupOfInode(L, ino) < L.groupCount && Givable(z, SiteOfInode(z, L, ino))
    ensures at + f + 2 <= |z| && U16(Give(z, SiteOfInode(z, L, ino)), at + f) == U16(z, at + f)
  {
    hide Geometry, InodeAt, Give, Givable, SiteOfInode, GroupOfInode, IndexOfInode, Plain;
    InodePosition(z, L, ino);
    InodeSlot(z, L, ino);
    var g, i := GroupOfInode(L, ino), IndexOfInode(L, ino);
    GiveBit(z, L, InodeKind, g, i);
    InodeRangePlain(z, L, ino, at + f, 2);
    PlainClear(z, L, InodeKind, g, i, at + f, 2);
    var s := SiteOfInode(z, L, ino);
    Unwritten(z, Give(z, s), s, at + f, 2);
    SameSlice(z, Give(z, s), at + f, 2);
  }

  /** A directory cannot be removed through an entry of its own: by then its link count is 0. */
  lemma OwnEntry(img: seq<byte>, L: Layout, d: nat, at: nat)
    requires Releasable(img, L, d) && InodeAt(img, L, d) == Some(at)
    ensures SlotAt(at, CeilQuot(U32(img, at + 4), L.bs)) <= |img| && Release(img, L, d, at).0.Ok?
    ensures var x := Release(img, L, d, at).1; var y := BumpDirs(x, L, d, -1);
      && Geometry(x, L) && !InodeUsed(x, L, d) && Geometry(y.1, L) && !InodeUsed(y.1, L, d)
      && (y.0.Err? ==> y == (Err(FreeCountInconsistent), x)) && BumpLinks(y.1, L, d, -1) == (Err(DirectoryCorrupt), y.1)
  {
    hide Geometry, Within, InodeAt, InodeUsed, Release, GroupOfInode, U32, CeilQuot, Emptiable, Put, U16, Le16, Slot;
    ReleaseWithin(img, L, d, at);
    ReleaseWipes(img, L, d, at);
    var x := Release(img, L, d, at).1;
    WithinMeans(img, x, L, OwnBlocks(img, L, d), {d});
    InodeSlot(x, L, d);
    var g := GroupOfInode(L, d);
    GroupStarts(|x|, L, g);
    DirsApartFromInode(x, L, g, d);
    var next := U16(x, DescAt(L, g) + 16) - 1;
    if 0 <= next {
      DirsPut(x, L, g, next);
      Read16Apart(x, DescAt(L, g) + 16, Le16(next), at + 26);
    }
  }

  /** If the entry leads to a directory, that directory is in use. */
  ghost predicate SubdirOk(img: seq<byte>, L: Layout, d: nat, name: seq<byte>)
    requires LayoutOf(|img|, L) && Geometry(img, L)
  {
    PlanRemove(img, L, d, name).Ok? && IsDirectoryMode(U16(img, PlanRemove(img, L, d, name).value.at)) ==>
      var v := PlanRemove(img, L, d, name).value;
      IsInode(L, v.ino) && IsUsed(img, L, v.ino)
  }

  ghost predicate RmdirDone(img: seq<byte>, r: seq<byte>, L: Layout, d: nat, k: nat, e: Binding)
    requires FolderOk(img, L, d, k)
  {
    var ino := e.1;
    && IsInode(L, ino) && ino != d && (exists kv: nat :: Dir(img, L, ino, kv) && FirstBlockDots(img, L, ino, kv))
    && FolderOk(r, L, d, k) && !InodeUsed(r, L, ino)
    && multiset(Names(img, L, d, k, k)) == multiset(Names(r, L, d, k, k)) + multiset{e}
    && Relinked(img, r, L, d, -1) && OthersKept(img, r, L, {d, ino})
  }

  /** A successful `remove_directory` on a sound image: the image stays sound, the victim was a
      directory whose first block binds only `.` and `..`, its inode is free, the parent loses exactly the one
      binding, and everybody else is untouched. */
  lemma RmdirKeepsFs(img: seq<byte>, L: Layout, d: nat, k: nat, name: seq<byte>)
    requires FolderOk(img, L, d, k) && SubdirOk(img, L, d, name)
    ensures RmdirInBounds(img, L, d, name)
    ensures var u := RemoveDirectory(img, L, d, name);
      u.0.Ok? ==> PlanRemove(img, L, d, name).Ok? && RmdirDone(img, u.1, L, d, k, Removed(img, L, d, name))
  {
    hide Geometry, Dir, Slot, Within, Remove, Names, RefsSame, Owned, Linked, InodeUsed, Fs, PlanRemove,
      DirectoryInode, OthersKept, RecLen, Across, DataBlock, Release, FoundIn, InodeAt, U32, U16, IsDirectoryMode,
      CeilQuot, SizeOf, Solid, IsEmpty, EmptyInBounds, BumpDirs, BumpLinks, RmdirDone, DirOk, Claim, OnlyDots,
      FirstBlockDots;
    if PlanRemove(img, L, d, name).Ok? {
      var j, s := VictimShape(img, L, d, k, name);
      var v := PlanRemove(img, L, d, name).value;
      FsMeans(img, L);
      DirectoryIs(img, L, v.ino, v.at);
      if IsDirectoryMode(U16(img, v.at)) {
        var kv := VictimDir(img, L, v.ino, v.at);
        DirIsSolid(img, L, v.ino, kv);
        if v.ino == d {
          OwnEntry(img, L, d, v.at);
        } else {
          var x, B := VictimReleased(img, L, d, k, v);
          AcrossMeans(img, x, L, d, k);
          if BumpDirs(x, L, v.ino, -1).0.Ok? && BumpLinks(BumpDirs(x, L, v.ino, -1).1, L, d, -1).0.Ok? {
            RmdirCounters(x, L, d, k, v.ino);
            var y := BumpLinks(BumpDirs(x, L, v.ino, -1).1, L, d, -1).1;
            AcrossTrans(img, x, y, L, d, k);
            LeaveName(img, y, L, d, k, j, name, s, v.previous);
            KindStays(x, y, L, {}, {d}, v.ino);
            if Remove(y, v.entry, v.previous).0.Ok? {
              var r := Remove(y, v.entry, v.previous).1;
              RmdirStep(img, x, y, r, L, d, k, Slot(img, L, d, j), v.ino, B);
              if IsEmpty(img, L, v.at) == Ok(true) { RmdirDoneIs(img, r, L, d, k, Removed(img, L, d, name), kv); }
            }
          }
        }
      }
    }
  }

  lemma VictimDir(img: seq<byte>, L: Layout, ino: nat, at: nat) returns (k: nat)
    requires Fs(img, L) && LayoutOf(|img|, L) && IsUsed(img, L, ino) && InodeAt(img, L, ino) == Some(at)
    requires DirectoryInode(img, L, ino)
    ensures DirOk(img, L, ino) && Dir(img, L, ino, k)
    ensures U32(img, at + 40) != 0 ==> EmptyInBounds(img, BlockAt(L, U32(img, at + 40)), 0, L.bs)
    ensures IsEmpty(img, L, at) == Ok(FirstBlockDots(img, L, ino, k))
  {
    hide Geometry, Dir, FirstBlockDots, U32, InodeAt, EmptyInBounds, Names, IsEmpty, DirectoryInode, Accounts,
      FreeIsData, Exclusive, InodeUsed;
    assert DirOk(img, L, ino);
    k :| Dir(img, L, ino, k);
    VictimBlock(img, L, ino, k, at);
  }

  lemma RmdirDoneIs(img: seq<byte>, r: seq<byte>, L: Layout, d: nat, k: nat, e: Binding, kv: nat)
    requires FolderOk(img, L, d, k) && IsInode(L, e.1) && Dir(img, L, e.1, kv) && FirstBlockDots(img, L, e.1, kv)
    requires e.1 != d && FolderOk(r, L, d, k) && !InodeUsed(r, L, e.1) && OthersKept(img, r, L, {d, e.1})
    requires Relinked(img, r, L, d, -1)
    requires multiset(Names(img, L, d, k, k)) == multiset(Names(r, L, d, k, k)) + multiset{e}
    ensures RmdirDone(img, r, L, d, k, e)
  {
    hide FolderOk, Names, OthersKept, InodeUsed, Dir, FirstBlockDots, Relinked;
  }

  lemma RmdirStep(img: seq<byte>, x: seq<byte>, y: seq<byte>, r: seq<byte>, L: Layout, d: nat, k: nat, b: nat,
      ino: nat, B: set<nat>)
    requires FolderOk(img, L, d, k) && Within(img, x, L, B, {ino}) && Claim(img, L, B, {ino})
    requires Within(x, y, L, {}, {d}) && Within(y, r, L, {b}, {})
    requires IsInode(L, ino) && d != ino && b != 0 && Linked(img, L, b) && Owned(img, L, {d}, b) && IsUsed(y, L, d)
    requires !IsUsed(y, L, ino)
    requires Dir(r, L, d, k) && RefsSame(img, r, L, d) && Relinked(x, y, L, d, -1)
    ensures FolderOk(r, L, d, k) && !InodeUsed(r, L, ino) && OthersKept(img, r, L, {d, ino})
    ensures Relinked(img, r, L, d, -1)
  {
    hide Geometry, Dir, Slot, Within, RefsSame, Owned, Linked, InodeUsed, Fs, OthersKept, OwnRefs, InodeAt, Claim,
      NodeOf;
    KindStays(img, x, L, B, {ino}, d);
    WithinTrans(img, x, y, L, B, {ino}, {}, {d});
    WithinTrans(img, y, r, L, B + {}, {ino} + {d}, {b}, {});
    assert B + {} + {b} == B + {b} && {ino} + {d} + {} == {d} + {ino};
    KindStays(y, r, L, {b}, {}, ino);
    KindStays(y, r, L, {b}, {}, d);
    ClaimOne(img, L, b, {d}, {d} + {ino});
    ClaimJoin(img, L, B, b, {ino}, {d} + {ino});
    FsStep(img, r, L, B + {b}, {d} + {ino}, {d}, ino);
    assert {d} + {ino} == {d, ino};
  }
}
