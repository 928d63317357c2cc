/** `create_file` and `unlink_file` keep the invariant and change the names of one directory by
    exactly one binding. */
module Ext2FsNames {
  import opened Wrappers
  import opened Bytes
  import opened Ext2Layout
  import opened Ext2Alloc
  import opened Ext2Areas
  import opened Ext2File
  import opened Ext2Unwind
  import opened Ext2Append
  import opened Ext2Accounting
  import opened Ext2Dirent
  import opened Ext2DirBlock
  import opened Ext2Directory
  import opened Ext2DirChange
  import opened Ext2Ops
  import opened Ext2RoundTrip
  import opened Ext2CreateUnlink
  import opened Ext2Steps
  import opened Ext2Fs
  import opened Ext2FsAppend
  import opened Ext2FsFile
  import opened Ext2FsCut
  import opened Ext2Giving

  // ----- records in an untouched directory -----

  lemma {:induction false} SameStarts(img: seq<byte>, r: seq<byte>, at: nat, end: nat, p: nat)
    requires end <= |img| && Tiled(img, at, end) && Same(img, r, at, end)
    ensures Tiled(r, at, end) && (Starts(r, at, end, p) <==> Starts(img, at, end, p))
    decreases end - at
  {
    SameTiling(img, r, at, end);
    if at != end {
      SameRecord(img, r, at, end);
      SameStarts(img, r, at + RecLen(img, at), end, p);
    }
  }

  /** One record of a block whose bytes are the same. */
  lemma SameRecordAt(img: seq<byte>, r: seq<byte>, at: nat, end: nat, p: nat)
    requires end <= |img| && Tiled(img, at, end) && Same(img, r, at, end) && Starts(img, at, end, p)
    ensures Tiled(r, at, end) && Starts(r, at, end, p) && p + DIRENT_HEADER_LEN <= |img|
    ensures p + DIRENT_HEADER_LEN + NameLen(img, p) <= |img|
    ensures RecLen(r, p) == RecLen(img, p) && NameLen(r, p) == NameLen(img, p) && U32(r, p) == U32(img, p)
    ensures NameAt(r, p) == NameAt(img, p) && KindAt(r, p) == KindAt(img, p)
    ensures p + RecLen(img, p) <= end
  {
    hide RecLen, NameLen, U32, NameAt, Tiled, Starts;
    SameStarts(img, r, at, end, p);
    StartsInside(img, at, end, p);
    SameRecord(img, r, p, end);
  }

  lemma SameFromBytes(img: seq<byte>, r: seq<byte>, at: nat, n: nat)
    requires SameBytes(img, r, at, n)
    ensures Same(img, r, at, at + n)
  {
  }

  lemma SamePlan(img: seq<byte>, r: seq<byte>, L: Layout, b: nat, p: nat, n: nat)
    requires LayoutOf(|img|, L) && |r| == |img| && InRange(L, b) && RecordStart(img, L, b, p)
    requires SameBytes(img, r, BlockAt(L, b), L.bs)
    requires Splittable(img, p, n)
    ensures RecordStart(r, L, b, p) && Splittable(r, p, n)
  {
    hide RecLen, NameLen, U32, NameAt, Tiled, Starts, Times;
    DataBlockInside(img, L, b);
    SameFromBytes(img, r, BlockAt(L, b), L.bs);
    SameRecordAt(img, r, BlockAt(L, b), BlockAt(L, b) + L.bs, p);
  }

  lemma SameFound(img: seq<byte>, r: seq<byte>, L: Layout, dir: nat, k: nat, j: nat, name: seq<byte>, s: Spot)
    requires Dir(img, L, dir, k) && Dir(r, L, dir, k) && DirSame(img, r, L, dir, k)
    requires FoundIn(img, L, dir, k, j, name, s)
    ensures FoundIn(r, L, dir, k, j, name, s) && s.entry + DIRENT_HEADER_LEN <= |img|
    ensures U32(r, s.entry) == U32(img, s.entry) && KindAt(r, s.entry) == KindAt(img, s.entry)
    ensures RecLen(r, s.entry) == RecLen(img, s.entry) && s.entry + RecLen(img, s.entry) <= |img|
  {
    hide RecLen, NameLen, U32, NameAt, Tiled, Starts, Times, Dir, Slot, SameBytes;
    DirSameIsDir(img, r, L, dir, k);
    var b := Slot(img, L, dir, j);
    DirBlock(img, L, dir, k, j);
    assert Slot(r, L, dir, j) == b;
    var at, end := BlockAt(L, b), BlockAt(L, b) + L.bs;
    SameFromBytes(img, r, at, L.bs);
    SameRecordAt(img, r, at, end, s.entry);
    if s.entry != at { SameRecordAt(img, r, at, end, s.previous.value); }
  }

  // ----- a write to one block of a directory -----

  ghost predicate RefsLinked(img: seq<byte>, L: Layout, d: nat)
    requires Geometry(img, L) && IsInode(L, d)
  {
    forall x {:trigger Ref(img, L, d, x)} :: 0 <= x < RefCount(L) && Ref(img, L, d, x) != 0 ==>
        Linked(img, L, Ref(img, L, d, x))
  }

  lemma RefsDiffer(img: seq<byte>, L: Layout, d: nat, x: nat, y: nat)
    requires Geometry(img, L) && Exclusive(img, L) && IsUsed(img, L, d) && x < RefCount(L) && y < RefCount(L) && x != y
    requires Ref(img, L, d, x) != 0
    ensures Ref(img, L, d, x) != Ref(img, L, d, y)
  {
    hide Geometry, Ref, InodeUsed, Linked, RefCount;
  }

  lemma DirIsDense(img: seq<byte>, L: Layout, d: nat, k: nat)
    requires Dir(img, L, d, k)
    ensures Dense(img, L, d, k)
  {
  }

  /** What a directory's references look like on a sound image. */
  lemma DirRefs(img: seq<byte>, L: Layout, d: nat, k: nat, j: nat)
    requires Geometry(img, L) && Exclusive(img, L) && IsUsed(img, L, d) && Dir(img, L, d, k) && j < k
    ensures Slot(img, L, d, 12) != Slot(img, L, d, j) && Owned(img, L, {d}, Slot(img, L, d, j))
    ensures Slot(img, L, d, j) != 0 && Linked(img, L, Slot(img, L, d, j))
  {
    hide Geometry, Dir, Slot, InodeUsed, Linked, Exclusive, Dense, Owned;
    DirBlock(img, L, d, k, j);
    DirIsDense(img, L, d, k);
    SlotIsOwned(img, L, d, k, j);
    assert Ref(img, L, d, 12) == Slot(img, L, d, 12) && Ref(img, L, d, j) == Slot(img, L, d, j);
    RefsDiffer(img, L, d, j, 12);
  }

  lemma LinkedMeans(x: seq<byte>, L: Layout, b: nat)
    requires Geometry(x, L) && Linked(x, L, b)
    ensures InRange(L, b) && DataBlock(x, L, b) && BlockUsed(x, L, b)
  {
  }

  lemma RefTwelve(x: seq<byte>, L: Layout, d: nat)
    requires Geometry(x, L) && IsInode(L, d)
    ensures 12 < RefCount(L) && Ref(x, L, d, 12) == Slot(x, L, d, 12)
  {
  }

  /** A reference stays when the slots do, the indirect table is not among the touched blocks,
      and touched blocks that were in use still are. */
  lemma RefKept(x: seq<byte>, r: seq<byte>, L: Layout, B: set<nat>, I: set<nat>, d: nat, y: nat)
    requires Within(x, r, L, B, I) && IsInode(L, d) && RefsLinked(x, L, d) && y < RefCount(L) && Slot(x, L, d, 12) !in B
    requires forall j :: 0 <= j < 15 ==> Slot(r, L, d, j) == Slot(x, L, d, j)
    requires forall b :: b in B && InRange(L, b) && BlockUsed(x, L, b) ==> BlockUsed(r, L, b)
    ensures Ref(r, L, d, y) == Ref(x, L, d, y) && (Ref(x, L, d, y) != 0 ==> Linked(r, L, Ref(x, L, d, y)))
  {
    hide Geometry, DataBlock, BlockUsed, InodeAt, Within, Slot, Times, SameBytes, Ref;
    WithinMeans(x, r, L, B, I);
    RefTwelve(x, L, d);
    var t := Slot(x, L, d, 12);
    if t != 0 { assert Linked(x, L, Ref(x, L, d, 12)); }
    RefsStay(x, r, L, d, y);
    var c := Ref(x, L, d, y);
    if c != 0 {
      assert Linked(x, L, c);
      assert DataBlock(r, L, c);
      assert BlockUsed(r, L, c) by { if c !in B { assert BlockUsed(r, L, c) <==> BlockUsed(x, L, c); } }
    }
  }

  lemma RefsAllKept(x: seq<byte>, r: seq<byte>, L: Layout, B: set<nat>, I: set<nat>, d: nat)
    requires Within(x, r, L, B, I) && IsInode(L, d) && RefsLinked(x, L, d) && Slot(x, L, d, 12) !in B
    requires forall j :: 0 <= j < 15 ==> Slot(r, L, d, j) == Slot(x, L, d, j)
    requires forall b :: b in B && InRange(L, b) && BlockUsed(x, L, b) ==> BlockUsed(r, L, b)
    ensures RefsSame(x, r, L, d)
  {
    hide Geometry, DataBlock, BlockUsed, Within, Slot, Times, RefsLinked, U32;
    forall y: nat {:trigger Ref(r, L, d, y)} | y < RefCount(L)
      ensures Ref(r, L, d, y) == Ref(x, L, d, y) && (Ref(x, L, d, y) != 0 ==> Linked(r, L, Ref(x, L, d, y)))
    {
      RefKept(x, r, L, B, I, d, y);
    }
  }

  lemma DirWrite(x: seq<byte>, r: seq<byte>, L: Layout, d: nat, b: nat)
    requires Geometry(x, L) && IsInode(L, d) && RefsLinked(x, L, d) && Linked(x, L, b) && Slot(x, L, d, 12) != b
    requires OnlyBlock(x, r, L, b)
    ensures Within(x, r, L, {b}, {}) && RefsSame(x, r, L, d)
  {
    hide Geometry, DataBlock, BlockUsed, InodeAt, Within, Slot, OnlyBlock, Times, SameBytes, RefsLinked, Linked, U32;
    LinkedMeans(x, L, b);
    OnlyBlockWithin(x, r, L, b);
    WithinMeans(x, r, L, {b}, {});
    InodeSlot(x, L, d);
    SameInode(x, r, L, d);
    RefsAllKept(x, r, L, {b}, {}, d);
  }

  lemma RefsSameTrans(a: seq<byte>, b: seq<byte>, c: seq<byte>, L: Layout, d: nat)
    requires Geometry(a, L) && Geometry(b, L) && Geometry(c, L) && IsInode(L, d) && RefsSame(a, b, L, d)
    requires RefsSame(b, c, L, d)
    ensures RefsSame(a, c, L, d)
  {
    hide Geometry, Linked, Slot, U32, Times;
    forall x {:trigger Ref(c, L, d, x)} | 0 <= x < RefCount(L)
      ensures Ref(c, L, d, x) == Ref(a, L, d, x) && (Ref(a, L, d, x) != 0 ==> Linked(c, L, Ref(a, L, d, x)))
    {
      assert Ref(b, L, d, x) == Ref(a, L, d, x);
    }
  }

  /** A directory seen across a step that left it alone. */
  ghost predicate Across(img: seq<byte>, x: seq<byte>, L: Layout, d: nat, k: nat)
    ensures Across(img, x, L, d, k) ==> Geometry(img, L) && Geometry(x, L) && |x| == |img| && IsInode(L, d)
  {
    && Dir(img, L, d, k) && Dir(x, L, d, k) && DirSame(img, x, L, d, k) && RefsSame(img, x, L, d) && RefsLinked(x, L, d)
    && (forall j :: 0 <= j < 15 ==> Slot(x, L, d, j) == Slot(img, L, d, j))
    && Names(x, L, d, k, k) == Names(img, L, d, k, k)
  }

  lemma UntouchedAcross(img: seq<byte>, x: seq<byte>, L: Layout, d: nat, k: nat)
    requires Dir(img, L, d, k) && Geometry(x, L) && SamePointers(img, x, L) && Untouched(img, x, L, d)
    ensures Across(img, x, L, d, k)
  {
    hide Geometry, Dir, Slot, Linked, InodeAt, U16, U32, Names, SameBytes, Untouched, TiledBlock, Times;
    UntouchedRefs(img, x, L, d);
    UntouchedDir(img, x, L, d, k);
    forall y {:trigger Ref(x, L, d, y)} | 0 <= y < RefCount(L) && Ref(x, L, d, y) != 0
      ensures Linked(x, L, Ref(x, L, d, y))
    {
      assert Ref(x, L, d, y) == Ref(img, L, d, y);
    }
  }

  // ----- create_file -----

  /** A sound image and a directory in use. */
  ghost predicate FolderOk(img: seq<byte>, L: Layout, d: nat, k: nat)
    ensures FolderOk(img, L, d, k) ==>
      Geometry(img, L) && LayoutOf(|img|, L) && IsInode(L, d) && Dir(img, L, d, k) && Fs(img, L) && IsUsed(img, L, d)
  {
    Fs(img, L) && Dir(img, L, d, k) && IsUsed(img, L, d)
  }

  ghost predicate NoName(img: seq<byte>, L: Layout, d: nat, k: nat, name: seq<byte>)
    requires Dir(img, L, d, k)
  {
    forall i :: 0 <= i < k ==> !InBlock(img, L, d, k, i, name)
  }

  lemma NewFileWithin(img: seq<byte>, L: Layout)
    requires Geometry(img, L) && NewFile(img, L).0.Ok?
    ensures var ino, p := NewFile(img, L).0.value, NewFile(img, L).1;
      && IsInode(L, ino) && !InodeUsed(img, L, ino) && Within(img, p, L, {}, {ino}) && IsUsed(p, L, ino)
      && NodeOf(p, L, ino) == Node(0x81A4, 1) && SizeOf(p, L, ino) == 0 && SectorsRight(p, L, ino)
      && (forall j :: 0 <= j < 15 ==> Slot(p, L, ino, j) == 0)
  {
    hide Geometry, InodeAt, Take, Put, FreshFile, InodeUsed, U16, U32, Within, NewFile, GroupOfInode, SiteOfInode,
      LayoutOf, SamePointers;
    NewFileShape(img, L);
    var ino, p := NewFile(img, L).0.value, NewFile(img, L).1;
    var at := InodeAt(img, L, ino).value;
    TakeInodeWithin(img, L, ino);
    var t := Take(img, SiteOfInode(img, L, ino));
    WithinMeans(img, t, L, {}, {ino});
    var x := FreshFile(|img|, L);
    PutInode(t, L, ino, at, x);
    WithinMeans(t, p, L, {}, {ino});
    WithinTrans(img, t, p, L, {}, {ino}, {}, {ino});
    var none: set<nat> := {};
    assert {ino} + {ino} == {ino} && none + none == none;
    FreshFileReads(|img|, L);
    ReadInPut(t, at, x, 0);
    ReadInPut(t, at, x, 26);
    ReadInPut(t, at, x, 4);
    ReadInPut(t, at, x, 28);
    CeilZero(L.bs);
    forall m | 0 <= m < 15 ensures Slot(p, L, ino, m) == 0 { ReadInPut(t, at, x, SlotAt(0, m)); }
  }

  lemma NoBlocksClaimed(img: seq<byte>, L: Layout, S: set<nat>)
    requires Geometry(img, L)
    ensures Claim(img, L, {}, S)
  {
  }

  /** What happens between the image and the one a name is entered into or removed from:
      directory `d` is left alone. */
  lemma AcrossStep(img: seq<byte>, x: seq<byte>, L: Layout, B: set<nat>, ino: nat, d: nat, k: nat)
    requires FolderOk(img, L, d, k) && Within(img, x, L, B, {ino}) && Claim(img, L, B, {ino}) && d != ino
    ensures Across(img, x, L, d, k) && IsUsed(x, L, d)
  {
    hide Geometry, Dir, Within, Claim, IsUsed, Untouched, Across, SamePointers;
    FsMeans(img, L);
    OthersUntouched(img, x, L, B, {ino}, {ino}, d);
    WithinMeans(img, x, L, B, {ino});
    UntouchedAcross(img, x, L, d, k);
  }

  /** A name entered into block `j` of `d`, after a step that left `d` alone. */
  lemma EnterName(img: seq<byte>, x: seq<byte>, L: Layout, d: nat, k: nat, j: nat, previous: nat, ino: nat,
      name: seq<byte>, kind: byte)
    requires FolderOk(img, L, d, k) && Across(img, x, L, d, k) && j < k && InRange(L, Slot(img, L, d, j))
    requires RecordStart(img, L, Slot(img, L, d, j), previous) && Splittable(img, previous, |name|)
    requires |name| <= MAX_NAME_LEN && IsInode(L, ino)
    ensures ino < 0x1_0000_0000 && Splittable(x, previous, |name|)
    ensures var r, b := Insert(x, previous, ino, name, kind), Slot(img, L, d, j);
      && b != 0 && Linked(img, L, b) && Owned(img, L, {d}, b) && OnlyBlock(x, r, L, b)
      && Within(x, r, L, {b}, {}) && Dir(r, L, d, k) && RefsSame(img, r, L, d) && RefsLinked(r, L, d)
      && (forall i :: 0 <= i < 15 ==> Slot(r, L, d, i) == Slot(img, L, d, i))
      && multiset(Names(r, L, d, k, k)) == multiset(Names(img, L, d, k, k)) + multiset{(name, ino, kind)}
  {
    hide Geometry, Dir, Slot, Within, Insert, Splittable, Names, RefsSame, RefsLinked, Owned, Linked, InodeUsed,
      OnlyBlock, TiledBlock, Starts, Fs, SameBytes, DirSame;
    FsMeans(img, L);
    var b := Slot(img, L, d, j);
    DirRefs(img, L, d, k, j);
    DirBlock(x, L, d, k, j);
    AcrossBytes(img, x, L, d, k, j);
    SamePlan(img, x, L, b, previous, |name|);
    DirInsert(x, L, d, k, j, previous, ino, name, kind);
    var r := Insert(x, previous, ino, name, kind);
    DirWrite(x, r, L, d, b);
    RefsSameTrans(img, x, r, L, d);
    RefsStayLinked(img, r, L, d);
  }

  lemma AcrossBytes(img: seq<byte>, x: seq<byte>, L: Layout, d: nat, k: nat, j: nat)
    requires Across(img, x, L, d, k) && j < k
    ensures SameBytes(img, x, BlockAt(L, Slot(img, L, d, j)), L.bs) && Slot(x, L, d, j) == Slot(img, L, d, j)
  {
    hide Geometry, Dir, Slot, Names, RefsSame, RefsLinked, SameBytes;
  }

  lemma RefsStayLinked(img: seq<byte>, r: seq<byte>, L: Layout, d: nat)
    requires Geometry(img, L) && Geometry(r, L) && IsInode(L, d) && RefsSame(img, r, L, d)
    ensures RefsLinked(r, L, d)
  {
    hide Geometry, Linked, Slot, U32, Times;
    forall y {:trigger Ref(r, L, d, y)} | 0 <= y < RefCount(L) && Ref(r, L, d, y) != 0
      ensures Linked(r, L, Ref(r, L, d, y))
    {
      assert Ref(r, L, d, y) == Ref(img, L, d, y);
    }
  }

  /** An inode without blocks has no references. */
  lemma NoRefs(img: seq<byte>, r: seq<byte>, L: Layout, ino: nat)
    requires Geometry(img, L) && Geometry(r, L) && IsInode(L, ino) && forall j :: 0 <= j < 15 ==>
      Slot(r, L, ino, j) == 0
    ensures OwnRefs(img, r, L, ino)
  {
    hide Geometry, Slot;
  }

  lemma SlotsFollow(p: seq<byte>, r: seq<byte>, L: Layout, B: set<nat>, I: set<nat>, ino: nat)
    requires Within(p, r, L, B, I) && IsInode(L, ino) && ino !in I
    ensures forall j :: 0 <= j < 15 ==> Slot(r, L, ino, j) == Slot(p, L, ino, j)
    ensures SizeOf(r, L, ino) == SizeOf(p, L, ino) && InodeAt(r, L, ino) == InodeAt(p, L, ino)
  {
    hide Geometry, Within, InodeAt, U32, U16;
    WithinMeans(p, r, L, B, I);
    InodeSlot(p, L, ino);
    SameInode(p, r, L, ino);
  }

  lemma SectorsStay(p: seq<byte>, r: seq<byte>, L: Layout, B: set<nat>, I: set<nat>, ino: nat)
    requires Within(p, r, L, B, I) && IsInode(L, ino) && ino !in I && SectorsRight(p, L, ino)
    ensures SectorsRight(r, L, ino)
  {
    hide Geometry, Within, InodeAt, U32, U16, CeilQuot, SizeOf;
    SlotsFollow(p, r, L, B, I, ino);
    WithinMeans(p, r, L, B, I);
    InodeSlot(p, L, ino);
    var at := InodeAt(p, L, ino).value;
    SubRange(p, r, at, L.inodeSize, 28, 4);
    SameSlot(p, r, at + 28);
  }

  /** A successful create on a sound image: the image stays sound, the directory binds exactly
      one name more, the new file is empty, and everybody else is untouched. */
  lemma CreateKeepsFs(img: seq<byte>, L: Layout, d: nat, k: nat, name: seq<byte>)
    requires FolderOk(img, L, d, k)
    ensures CreateInBounds(img, L, d, name)
    ensures var c := CreateFile(img, L, d, name);
      c.0.Ok? ==>
        && IsInode(L, c.0.value) && !InodeUsed(img, L, c.0.value) && NoName(img, L, d, k, name)
        && FolderOk(c.1, L, d, k) && FileOk(c.1, L, c.0.value) && Content(c.1, L, c.0.value) == []
        && NodeOf(c.1, L, c.0.value) == Node(0x81A4, 1) && NodeOf(c.1, L, d) == NodeOf(img, L, d)
        && SectorsRight(c.1, L, c.0.value)
        && multiset(Names(c.1, L, d, k, k)) == multiset(Names(img, L, d, k, k)) + multiset{(name, c.0.value, 1)}
        && OthersKept(img, c.1, L, {d, c.0.value})
  {
    hide Geometry, Dir, Slot, Within, Insert, Splittable, Names, RefsSame, Owned, Linked, InodeUsed, Fs, NewFile,
      PlanCreate, DirectoryInode, FileOk, Content, OthersKept, InBlock, RecordStart, RecLen, Across, DataBlock;
    if PlanCreate(img, L, d, name).Ok? && NewFile(img, L).0.Ok? {
      var j := PlanShape(img, L, d, k, name);
      NewFileWithin(img, L);
      var previous, ino, p := PlanCreate(img, L, d, name).value, NewFile(img, L).0.value, NewFile(img, L).1;
      NoBlocksClaimed(img, L, {ino});
      AcrossStep(img, p, L, {}, ino, d, k);
      EnterName(img, p, L, d, k, j, previous, ino, name, DIRENT_TYPE_REGULAR);
      var r := Insert(p, previous, ino, name, DIRENT_TYPE_REGULAR);
      CreateStep(img, p, r, L, d, k, Slot(img, L, d, j), ino);
    }
  }

  lemma CreateStep(img: seq<byte>, p: seq<byte>, r: seq<byte>, L: Layout, d: nat, k: nat, b: nat, ino: nat)
    requires FolderOk(img, L, d, k) && Within(img, p, L, {}, {ino}) && Within(p, r, L, {b}, {}) && IsInode(L, ino)
    requires d != ino
    requires b != 0 && Linked(img, L, b) && Owned(img, L, {d}, b) && IsUsed(p, L, d) && IsUsed(p, L, ino)
    requires Dir(r, L, d, k) && RefsSame(img, r, L, d)
    requires NodeOf(p, L, ino) == Node(0x81A4, 1) && SizeOf(p, L, ino) == 0 && SectorsRight(p, L, ino)
    requires (forall j :: 0 <= j < 15 ==> Slot(p, L, ino, j) == 0)
    ensures FolderOk(r, L, d, k) && FileOk(r, L, ino) && Content(r, L, ino) == [] && OthersKept(img, r, L, {d, ino})
    ensures NodeOf(r, L, ino) == Node(0x81A4, 1) && NodeOf(r, L, d) == NodeOf(img, L, d) && SectorsRight(r, L, ino)
  {
    hide Geometry, Dir, Slot, Within, Names, RefsSame, Owned, Linked, InodeUsed, Fs, OthersKept,
      OwnRefs, SizeOf, InodeAt, Claim, NodeOf, SectorsRight;
    WithinTrans(img, p, r, L, {}, {ino}, {b}, {});
    assert {} + {b} == {b} && {ino} + {} == {ino};
    SlotsFollow(p, r, L, {b}, {}, ino);
    KindStays(p, r, L, {b}, {}, ino);
    SectorsStay(p, r, L, {b}, {}, ino);
    KindStays(p, r, L, {b}, {}, d);
    KindStays(img, p, L, {}, {ino}, d);
    NoRefs(img, r, L, ino);
    ClaimOne(img, L, b, {d}, {d} + {ino});
    FsStep(img, r, L, {b}, {ino}, {d}, ino);
    assert {d} + {ino} == {d, ino};
    EmptyFile(r, L, ino);
    FileOkIs(r, L, ino);
  }

  lemma ClaimOne(img: seq<byte>, L: Layout, b: nat, S: set<nat>, S': set<nat>)
    requires Geometry(img, L) && b != 0 && Linked(img, L, b) && Owned(img, L, S, b) && S <= S'
    ensures Claim(img, L, {b}, S') && Owned(img, L, S', b)
  {
    hide Geometry, DataBlock, BlockUsed, InodeUsed, Ref;
    var s, x :| s in S && IsUsed(img, L, s) && 0 <= x < RefCount(L) && Ref(img, L, s, x) == b;
    assert s in S';
  }

  lemma EmptyFile(r: seq<byte>, L: Layout, ino: nat)
    requires Geometry(r, L) && IsInode(L, ino) && SizeOf(r, L, ino) == 0 && forall j :: 0 <= j < 15 ==>
      Slot(r, L, ino, j) == 0
    ensures Direct(r, L, ino) && Content(r, L, ino) == []
  {
    hide Geometry, Slot, SizeOf, Body;
    CeilZero(L.bs);
    EmptyDense(r, L, ino);
  }

  // ----- giving an inode back -----

  /** An inode with all the direct blocks its size asks for, on an image whose counts add up. */
  ghost predicate Emptiable(img: seq<byte>, L: Layout, ino: nat)
    ensures Emptiable(img, L, ino) ==>
      && Geometry(img, L) && LayoutOf(|img|, L) && IsInode(L, ino) && InodeAt(img, L, ino).Some?
      && CeilQuot(SizeOf(img, L, ino), L.bs) <= DIRECT_BLOCK_COUNT
  {
    && Geometry(img, L) && Accounts(img, L) && FreeIsData(img, L) && IsInode(L, ino) && Solid(img, L, ino)
    && InodeAt(img, L, ino).Some?
  }

  /** Such an inode in use. */
  ghost predicate Releasable(img: seq<byte>, L: Layout, ino: nat)
    ensures Releasable(img, L, ino) ==>
      Geometry(img, L) && LayoutOf(|img|, L) && IsInode(L, ino) && InodeAt(img, L, ino).Some?
  {
    Emptiable(img, L, ino) && InodeUsed(img, L, ino)
  }

  /** The blocks the size of an inode asks for. */
  ghost function OwnBlocks(img: seq<byte>, L: Layout, ino: nat): set<nat>
    requires Emptiable(img, L, ino)
  {
    OwnSet(img, L, ino, CeilQuot(SizeOf(img, L, ino), L.bs))
  }

  lemma EmptiableParts(img: seq<byte>, L: Layout, ino: nat, at: nat)
    requires Emptiable(img, L, ino) && InodeAt(img, L, ino) == Some(at)
    ensures SlotAt(at, CeilQuot(U32(img, at + 4), L.bs)) <= |img|
    ensures Dense(img, L, ino, CeilQuot(SizeOf(img, L, ino), L.bs)) && Accounts(img, L) && FreeIsData(img, L)
    ensures U32(img, at + 4) == SizeOf(img, L, ino)
  {
    hide Geometry, Accounts, FreeIsData, U32, CeilQuot, Dense;
  }

  /** All of a release but the inode's bit: the blocks given back and the slot wiped. */
  lemma Emptied(img: seq<byte>, L: Layout, ino: nat, at: nat) returns (z: seq<byte>)
    requires Emptiable(img, L, ino) && InodeAt(img, L, ino) == Some(at)
    ensures SlotAt(at, CeilQuot(U32(img, at + 4), L.bs)) <= |img| && |z| == |img|
    ensures Release(img, L, ino, at) == FreeInode(z, L, ino)
    ensures Within(img, z, L, OwnBlocks(img, L, ino), {ino}) && InodeAt(z, L, ino) == Some(at)
    ensures InodeUsed(z, L, ino) <==> InodeUsed(img, L, ino)
    ensures U16(z, at + 26) == 0
    ensures FreeDown(img, L, at, 0, CeilQuot(U32(img, at + 4), L.bs)).0.Ok?
    ensures z
      == Put(Sized(FreeDown(img, L, at, 0, CeilQuot(U32(img, at + 4), L.bs)).1, L, at, 0), at, Zeros(L.inodeSize))
  {
    hide Geometry, Accounts, FreeIsData, U32, CeilQuot, Dense, Within, InodeAt, InodeUsed, FreeDown, Cut, Put, Sized,
      Truncate, FreeInode, Slot, U16, Emptiable;
    EmptiableParts(img, L, ino, at);
    var n := CeilQuot(SizeOf(img, L, ino), L.bs);
    FreeDownCuts(img, L, ino, 0, n);
    var x := FreeDown(img, L, at, 0, n).1;
    CutWithin(img, x, L, ino, n);
    TruncateToNothing(img, L, ino, at);
    var y := Sized(x, L, at, 0);
    SizedWithin(x, L, ino, 0);
    var zeros := Zeros(L.inodeSize);
    PutInode(y, L, ino, at, zeros);
    z := Put(y, at, zeros);
    ReadInPut(y, at, zeros, 26);
    ZerosRead(L.inodeSize, 26);
    WithinMeans(x, y, L, {}, {ino});
    WithinMeans(y, z, L, {}, {ino});
    var B := OwnSet(img, L, ino, n);
    WithinTrans(img, x, y, L, B, {ino}, {}, {ino});
    WithinTrans(img, y, z, L, B + {}, {ino} + {ino}, {}, {ino});
    assert B + {} + {} == B && {ino} + {ino} + {ino} == {ino};
  }

  lemma ZerosRead(n: nat, f: nat)
    requires f + 2 <= n
    ensures U16(Zeros(n), f) == 0
  {
  }

  /** Giving back an inode in use cannot fail; it touches the inode's own blocks and slot only,
      and leaves the inode free. */
  lemma ReleaseWithin(img: seq<byte>, L: Layout, ino: nat, at: nat)
    requires Releasable(img, L, ino) && InodeAt(img, L, ino) == Some(at)
    ensures SlotAt(at, CeilQuot(U32(img, at + 4), L.bs)) <= |img|
    ensures var r := Release(img, L, ino, at);
      r.0.Ok? && Within(img, r.1, L, OwnBlocks(img, L, ino), {ino}) && !IsUsed(r.1, L, ino)
  {
    hide Geometry, Accounts, FreeIsData, U32, U16, CeilQuot, Within, InodeAt, InodeUsed, FreeInode, Give, Givable,
      SiteOfInode, GroupOfInode, Slot, Emptiable, Release, OwnBlocks, FreeDown, Put, Sized;
    var z := Emptied(img, L, ino, at);
    EmptiableParts(img, L, ino, at);
    WithinMeans(img, z, L, OwnBlocks(img, L, ino), {ino});
    FreeInodeSucceeds(z, L, ino);
    GiveInodeWithin(z, L, ino);
    var r := Give(z, SiteOfInode(z, L, ino));
    var B := OwnBlocks(img, L, ino);
    WithinTrans(img, z, r, L, B, {ino}, {}, {ino});
    assert B + {} == B && {ino} + {ino} == {ino};
  }

  /** Giving back an inode that is free already gives back its blocks and then fails. */
  lemma ReleaseRefused(img: seq<byte>, L: Layout, ino: nat, at: nat)
    requires Emptiable(img, L, ino) && !InodeUsed(img, L, ino) && InodeAt(img, L, ino) == Some(at)
    ensures SlotAt(at, CeilQuot(U32(img, at + 4), L.bs)) <= |img|
    ensures Release(img, L, ino, at).0 == Err(NotAllocated(ino))
    ensures Within(img, Release(img, L, ino, at).1, L, OwnBlocks(img, L, ino), {ino})
  {
    hide Geometry, U32, U16, CeilQuot, Within, InodeAt, InodeUsed, FreeInode, Slot, Emptiable, Release, OwnBlocks,
      FreeDown, Put, Sized;
    var z := Emptied(img, L, ino, at);
    FreeInodeRefuses(z, L, ino);
  }

  lemma CutWithin(img: seq<byte>, x: seq<byte>, L: Layout, ino: nat, n: nat)
    requires Cut(img, x, L, ino, 0, n)
    ensures Within(img, x, L, OwnSet(img, L, ino, n), {ino}) && |x| == |img|
    ensures InodeAt(x, L, ino) == InodeAt(img, L, ino)
    ensures InodeUsed(x, L, ino) <==> InodeUsed(img, L, ino)
  {
    hide Geometry, Within, InodeAt, InodeUsed, Dense, Slot;
    assert Tail(img, L, ino, 0, n) == OwnSet(img, L, ino, n);
  }

  // ----- unlink_file -----

  /** What `unlink_file` and `remove_directory` find on a well-formed directory. */
  lemma VictimShape(img: seq<byte>, L: Layout, d: nat, k: nat, name: seq<byte>) returns (j: nat, s: Spot)
    requires Dir(img, L, d, k) && PlanRemove(img, L, d, name).Ok?
    ensures var v := PlanRemove(img, L, d, name).value;
      && j < k && FoundIn(img, L, d, k, j, name, s) && s.previous == Some(v.previous) && s.entry == v.entry
      && v.ino == U32(img, v.entry) && IsInode(L, v.ino) && InodeAt(img, L, v.ino) == Some(v.at)
  {
    hide Geometry, Dir, Slot, FoundIn, InodeAt, U32, ScanDirectory;
    ScanDirectoryFacts(img, L, d, k, name, USIZE_MAX);
    s := ScanDirectory(img, L, d, name, USIZE_MAX).value.found.value;
    j :| 0 <= j < k && FoundIn(img, L, d, k, j, name, s);
  }

  /** A name taken out of block `j` of `d`, after a step that left `d` alone. */
  lemma LeaveName(img: seq<byte>, x: seq<byte>, L: Layout, d: nat, k: nat, j: nat, name: seq<byte>, s: Spot,
      previous: nat)
    requires FolderOk(img, L, d, k) && Across(img, x, L, d, k) && FoundIn(img, L, d, k, j, name, s)
    requires s.previous == Some(previous)
    ensures s.entry + DIRENT_HEADER_LEN <= |x| && previous + DIRENT_HEADER_LEN <= |x|
    ensures s.entry + RecLen(x, s.entry) <= |x|
    ensures Remove(x, s.entry, previous).0.Ok? ==>
      var r, b := Remove(x, s.entry, previous).1, Slot(img, L, d, j);
      && b != 0 && Linked(img, L, b) && Owned(img, L, {d}, b)
      && Within(x, r, L, {b}, {}) && Dir(r, L, d, k) && RefsSame(img, r, L, d)
      && multiset(Names(img, L, d, k, k))
         == multiset(Names(r, L, d, k, k)) + multiset{(name, U32(img, s.entry), KindAt(img, s.entry))}
  {
    hide Geometry, Dir, Slot, Within, Remove, Names, RefsSame, RefsLinked, Owned, Linked, InodeUsed, OnlyBlock,
      TiledBlock, Starts, Fs, SameBytes, DirSame, U32, NameAt, RecLen, NameLen;
    FsMeans(img, L);
    var b := Slot(img, L, d, j);
    DirRefs(img, L, d, k, j);
    AcrossBytes(img, x, L, d, k, j);
    SameFound(img, x, L, d, k, j, name, s);
    PreviousInside(x, L, d, k, j, name, s);
    if Remove(x, s.entry, previous).0.Ok? {
      DirRemove(x, L, d, k, j, name, s);
      var r := Remove(x, s.entry, previous).1;
      DirBlock(x, L, d, k, j);
      DirWrite(x, r, L, d, b);
      RefsSameTrans(img, x, r, L, d);
    }
  }

  lemma PreviousInside(x: seq<byte>, L: Layout, d: nat, k: nat, j: nat, name: seq<byte>, s: Spot)
    requires Dir(x, L, d, k) && FoundIn(x, L, d, k, j, name, s) && s.previous.Some?
    ensures s.previous.value + DIRENT_HEADER_LEN <= |x|
  {
    hide Geometry, Dir, Slot, Times, Tiled, Starts;
  }

  lemma OwnSetClaim(img: seq<byte>, L: Layout, ino: nat, n: nat)
    requires Geometry(img, L) && IsUsed(img, L, ino) && Dense(img, L, ino, n)
    ensures Claim(img, L, OwnSet(img, L, ino, n), {ino})
  {
    hide Geometry, Dense, InodeUsed;
    CutClaim(img, L, ino, n, n, OwnSet(img, L, ino, n));
  }

  /** If the entry leads to a regular file, that file has no holes and no indirect blocks. */
  ghost predicate VictimOk(img: seq<byte>, L: Layout, d: nat, name: seq<byte>)
    requires LayoutOf(|img|, L) && Geometry(img, L)
  {
    PlanRemove(img, L, d, name).Ok? && IsRegularMode(U16(img, PlanRemove(img, L, d, name).value.at)) ==>
      var v := PlanRemove(img, L, d, name).value;
      IsInode(L, v.ino) && Solid(img, L, v.ino)
  }

  /** The binding a removal takes away. */
  ghost function Removed(img: seq<byte>, L: Layout, d: nat, name: seq<byte>): Binding
    requires LayoutOf(|img|, L) && PlanRemove(img, L, d, name).Ok?
  {
    var v := PlanRemove(img, L, d, name).value;
    (name, v.ino, KindAt(img, v.entry))
  }

  lemma FolderIsNotFile(img: seq<byte>, L: Layout, d: nat, k: nat, ino: nat, at: nat)
    requires Dir(img, L, d, k) && InodeAt(img, L, ino) == Some(at) && IsRegularMode(U16(img, at))
    ensures ino != d
  {
    hide Geometry, InodeAt, Dense, Slot, TiledBlock, U32;
  }

  /** A successful unlink on a sound image: the inode was in use, the image stays sound, the
      directory loses exactly the one binding, the inode is free, and everybody else is
      untouched. */
  lemma UnlinkKeepsFs(img: seq<byte>, L: Layout, d: nat, k: nat, name: seq<byte>)
    requires FolderOk(img, L, d, k) && VictimOk(img, L, d, name)
    ensures UnlinkInBounds(img, L, d, name)
    ensures var u := UnlinkFile(img, L, d, name);
      u.0.Ok? ==>
        && PlanRemove(img, L, d, name).Ok?
        && var ino := PlanRemove(img, L, d, name).value.ino;
        && IsUsed(img, L, ino) && FolderOk(u.1, L, d, k) && !InodeUsed(u.1, L, ino)
        && multiset(Names(img, L, d, k, k)) == multiset(Names(u.1, L, d, k, k)) + multiset{Removed(img, L, d, name)}
        && NodeOf(u.1, L, d) == NodeOf(img, L, d) && OthersKept(img, u.1, L, {d, ino})
  {
    hide Geometry, Dir, Slot, Within, Remove, Names, RefsSame, Owned, Linked, InodeUsed, Fs, PlanRemove,
      DirectoryInode, OthersKept, RecLen, Across, DataBlock, Release, FoundIn, InodeAt, U32, U16, IsRegularMode,
      CeilQuot, SizeOf;
    if PlanRemove(img, L, d, name).Ok? && IsRegularMode(U16(img, PlanRemove(img, L, d, name).value.at)) {
      var j, s := VictimShape(img, L, d, k, name);
      var v := PlanRemove(img, L, d, name).value;
      FsMeans(img, L);
      FolderIsNotFile(img, L, d, k, v.ino, v.at);
      if InodeUsed(img, L, v.ino) {
        var x, B := VictimReleased(img, L, d, k, v);
        LeaveName(img, x, L, d, k, j, name, s, v.previous);
        if Remove(x, v.entry, v.previous).0.Ok? {
          UnlinkStep(img, x, Remove(x, v.entry, v.previous).1, L, d, k, Slot(img, L, d, j), v.ino, B);
        }
      } else {
        ReleaseRefused(img, L, v.ino, v.at);
      }
    }
  }

  /** Between `img` and `x` blocks `B` and inode `ino` are given back, and directory `d` is as it was. */
  ghost predicate Gone(img: seq<byte>, x: seq<byte>, L: Layout, B: set<nat>, ino: nat, d: nat, k: nat)
    ensures Gone(img, x, L, B, ino, d, k) ==> Geometry(img, L) && Geometry(x, L) && |x| == |img|
  {
    && Within(img, x, L, B, {ino}) && Claim(img, L, B, {ino}) && !IsUsed(x, L, ino)
    && Across(img, x, L, d, k) && IsUsed(x, L, d)
  }

  lemma VictimReleased(img: seq<byte>, L: Layout, d: nat, k: nat, v: Victim) returns (x: seq<byte>, B: set<nat>)
    requires FolderOk(img, L, d, k) && IsInode(L, v.ino) && InodeAt(img, L, v.ino) == Some(v.at)
    requires IsUsed(img, L, v.ino) && Solid(img, L, v.ino) && v.ino != d
    ensures SlotAt(v.at, CeilQuot(U32(img, v.at + 4), L.bs)) <= |img|
    ensures Release(img, L, v.ino, v.at).0.Ok? && Release(img, L, v.ino, v.at).1 == x
    ensures Gone(img, x, L, B, v.ino, d, k)
  {
    hide Geometry, Dir, Slot, Within, InodeUsed, Fs, Across, DataBlock, Release, InodeAt, U32, CeilQuot, SizeOf,
      Accounts, FreeIsData, Exclusive, Dirs, Dense, Claim;
    FsMeans(img, L);
    ReleaseWithin(img, L, v.ino, v.at);
    EmptiableParts(img, L, v.ino, v.at);
    x, B := Release(img, L, v.ino, v.at).1, OwnBlocks(img, L, v.ino);
    OwnSetClaim(img, L, v.ino, CeilQuot(SizeOf(img, L, v.ino), L.bs));
    AcrossStep(img, x, L, B, v.ino, d, k);
  }

  lemma UnlinkStep(img: seq<byte>, x: seq<byte>, r: seq<byte>, L: Layout, d: nat, k: nat, b: nat, ino: nat, B: set<nat>)
    requires FolderOk(img, L, d, k) && Within(img, x, L, B, {ino}) && Claim(img, L, B, {ino})
    requires Within(x, r, L, {b}, {}) && IsInode(L, ino) && d != ino
    requires b != 0 && Linked(img, L, b) && Owned(img, L, {d}, b) && IsUsed(x, L, d) && !IsUsed(x, L, ino)
    requires Dir(r, L, d, k) && RefsSame(img, r, L, d)
    ensures FolderOk(r, L, d, k) && !InodeUsed(r, L, ino) && OthersKept(img, r, L, {d, ino})
    ensures NodeOf(r, L, d) == NodeOf(img, L, d)
  {
    hide Geometry, Dir, Slot, Within, RefsSame, Owned, Linked, InodeUsed, Fs, OthersKept, OwnRefs,
      InodeAt, Claim, NodeOf;
    KindStays(img, x, L, B, {ino}, d);
    WithinTrans(img, x, r, L, B, {ino}, {b}, {});
    assert {ino} + {} == {ino};
    KindStays(x, r, L, {b}, {}, ino);
    KindStays(x, r, L, {b}, {}, d);
    ClaimOne(img, L, b, {d}, {d} + {ino});
    ClaimJoin(img, L, B, b, {ino}, {d} + {ino});
    FsStep(img, r, L, B + {b}, {ino}, {d}, ino);
    assert {d} + {ino} == {d, ino};
  }

  lemma ClaimJoin(img: seq<byte>, L: Layout, B: set<nat>, b: nat, S: set<nat>, S': set<nat>)
    requires Geometry(img, L) && Claim(img, L, B, S) && S <= S' && Claim(img, L, {b}, S')
    ensures Claim(img, L, B + {b}, S')
  {
    hide Geometry, BlockUsed, InodeUsed, Ref;
    forall c | c in B + {b} ensures c != 0 && InRange(L, c) && (!BlockUsed(img, L, c) || Owned(img, L, S', c)) {
      if c in B && BlockUsed(img, L, c) {
        var s, x :| s in S && IsUsed(img, L, s) && 0 <= x < RefCount(L) && Ref(img, L, s, x) == c;
        assert s in S';
      }
    }
  }
}
