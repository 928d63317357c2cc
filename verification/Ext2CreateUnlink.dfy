/** The round trip of a regular file: create, append, unlink. */
module Ext2CreateUnlink {
  import opened Wrappers
  import opened Bytes
  import opened Ext2Layout
  import opened Ext2Alloc
  import opened Ext2Areas
  import opened Ext2File
  import opened Ext2Unwind
  import opened Ext2Append
  import opened Ext2Dirent
  import opened Ext2DirBlock
  import opened Ext2Directory
  import opened Ext2DirChange
  import opened Ext2Ops
  import opened Ext2RoundTrip

  lemma {:induction false} AppendAllKeeps(c: seq<byte>, x: seq<byte>, L: Layout, ino: nat, dir: nat, k: nat,
      datas: seq<seq<byte>>)
    requires LayoutOf(|x|, L) && Appended(c, x, L, ino, dir, k) && AppendAll(x, L, ino, datas).0.Ok?
    ensures Appended(c, AppendAll(x, L, ino, datas).1, L, ino, dir, k)
    decreases |datas|
  {
    hide Append, Appended;
    if datas != [] {
      AppendKeepsAppended(c, x, L, ino, dir, k, datas[0]);
      AppendAllKeeps(c, Append(x, L, ino, datas[0]).1, L, ino, dir, k, datas[1..]);
    }
  }

  /** The situation `create_file` found: a record to split and a free inode. */
  ghost predicate Creatable(img: seq<byte>, L: Layout, dir: nat, k: nat, name: seq<byte>, j: nat, previous: nat,
      ino: nat) {
    && Dir(img, L, dir, k) && ValidName(name) && j < k
    && InRange(L, Slot(img, L, dir, j)) && RecordStart(img, L, Slot(img, L, dir, j), previous)
    && Splittable(img, previous, |name|)
    && IsInode(L, ino) && GroupOfInode(L, ino) < L.groupCount && !InodeUsed(img, L, ino) && ino != dir
    && InodeAt(img, L, ino).Some?
    && Takable(Insert(img, previous, ino, name, DIRENT_TYPE_REGULAR), SiteOfInode(img, L, ino))
  }

  /** The directory after the name went in, and after the inode was taken too. */
  lemma CreatedDir(img: seq<byte>, L: Layout, dir: nat, k: nat, name: seq<byte>, j: nat, previous: nat, ino: nat)
    requires Creatable(img, L, dir, k, name, j, previous, ino)
    ensures var i := Insert(img, previous, ino, name, DIRENT_TYPE_REGULAR);
            var c := Created(img, L, previous, ino, name);
      && OnlyBlock(img, i, L, Slot(img, L, dir, j)) && Linked(img, L, Slot(img, L, dir, j))
      && Geometry(i, L) && SamePointers(img, i, L) && Dir(i, L, dir, k)
      && SiteOk(|i|, SiteOfInode(img, L, ino)) && SiteOfInode(i, L, ino) == SiteOfInode(img, L, ino)
      && Geometry(c, L) && SamePointers(i, c, L) && DirSame(i, c, L, dir, k) && Dir(c, L, dir, k)
      && InodeAt(i, L, ino) == InodeAt(img, L, ino) && InodeAt(c, L, ino) == InodeAt(img, L, ino)
  {
    hide Geometry, InodeAt, Put, DataBlock, U16, U32, Times, BlockUsed, InodeUsed, TiledBlock, Take, Takable, Insert,
      FreshFile, Dense, Dir, SiteOfInode, GroupOfInode, Starts, Splittable, RecLen, OnlyBlock;
    var b := Slot(img, L, dir, j);
    DirBlock(img, L, dir, k, j);
    DirInsert(img, L, dir, k, j, previous, ino, name, DIRENT_TYPE_REGULAR);
    var i := Insert(img, previous, ino, name, DIRENT_TYPE_REGULAR);
    OnlyBlockKeeps(img, i, L, b);
    SitesStay(img, i, L, ino);
    NewInodeKeepsDir(i, L, dir, k, ino, FreshFile(|img|, L));
    TakeInodeKeeps(i, L, ino);
    DirSameIsDir(i, Created(img, L, previous, ino, name), L, dir, k);
  }

  /** The new file is empty and regular. */
  lemma CreatedFile(img: seq<byte>, L: Layout, dir: nat, k: nat, name: seq<byte>, j: nat, previous: nat, ino: nat)
    requires Creatable(img, L, dir, k, name, j, previous, ino)
    requires var c := Created(img, L, previous, ino, name); Geometry(c, L) && InodeAt(c, L, ino) == InodeAt(img, L, ino)
    ensures var c := Created(img, L, previous, ino, name); var at := InodeAt(img, L, ino).value;
      && IsRegularMode(U16(c, at)) && U32(c, at + 4) == 0 && Dense(c, L, ino, 0)
  {
    hide Geometry, InodeAt, Put, DataBlock, U16, U32, Times, Take, Takable, Insert, FreshFile, Dense, Dir,
      SiteOfInode, GroupOfInode, Splittable, RecLen;
    var c := Created(img, L, previous, ino, name);
    var at, x := InodeAt(img, L, ino).value, FreshFile(|img|, L);
    FreshFileReads(|img|, L);
    var t := Take(Insert(img, previous, ino, name, DIRENT_TYPE_REGULAR), SiteOfInode(img, L, ino));
    ReadInPut(t, at, x, 0);
    ReadInPut(t, at, x, 4);
    forall m | 0 <= m < 15 ensures Slot(c, L, ino, m) == 0 { ReadInPut(t, at, x, SlotAt(0, m)); }
    EmptyDense(c, L, ino);
  }

  /** A freshly created file is the start of the relation. */
  lemma CreatedIsAppended(img: seq<byte>, L: Layout, dir: nat, k: nat, name: seq<byte>, j: nat, previous: nat, ino: nat)
    requires Pristine(img, L, dir, k) && Creatable(img, L, dir, k, name, j, previous, ino)
    ensures var c := Created(img, L, previous, ino, name); Appended(c, c, L, ino, dir, k)
  {
    hide Geometry, InodeAt, Put, DataBlock, U16, U32, Times, BlockUsed, InodeUsed, Take, Takable, Insert, FreshFile,
      Dense, Dir, SiteOfInode, GroupOfInode, Splittable, FreeDown, RecLen, OnlyBlock, DirSame, Foreign, CeilQuot,
      FreeIsData, FreeIsZero;
    var i, c := Insert(img, previous, ino, name, DIRENT_TYPE_REGULAR), Created(img, L, previous, ino, name);
    CreatedDir(img, L, dir, k, name, j, previous, ino);
    CreatedFile(img, L, dir, k, name, j, previous, ino);
    CreatedFree(img, L, dir, k, name, j, previous, ino);
    CeilZero(L.bs);
    DirSelf(c, L, dir, k, ino);
    FreeDownNone(c, L, InodeAt(img, L, ino).value);
    SelfPointers(c, L);
  }

  lemma SelfPointers(c: seq<byte>, L: Layout)
    requires LayoutOf(|c|, L)
    ensures SamePointers(c, c, L)
  {
  }

  lemma CreatedFree(img: seq<byte>, L: Layout, dir: nat, k: nat, name: seq<byte>, j: nat, previous: nat, ino: nat)
    requires Pristine(img, L, dir, k) && Creatable(img, L, dir, k, name, j, previous, ino)
    requires Geometry(Created(img, L, previous, ino, name), L)
    ensures FreeIsData(Created(img, L, previous, ino, name), L) && FreeIsZero(Created(img, L, previous, ino, name), L)
  {
    hide Geometry, InodeAt, Put, DataBlock, U16, U32, Times, BlockUsed, InodeUsed, Take, Takable, Insert, FreshFile,
      Dense, Dir, SiteOfInode, GroupOfInode, Splittable, RecLen, OnlyBlock, DirSame, FreeIsData, FreeIsZero;
    var b := Slot(img, L, dir, j);
    CreatedDir(img, L, dir, k, name, j, previous, ino);
    var i := Insert(img, previous, ino, name, DIRENT_TYPE_REGULAR);
    OnlyBlockKeeps(img, i, L, b);
    NewInodeKeepsDir(i, L, dir, k, ino, FreshFile(|img|, L));
    DataStays(img, i, Created(img, L, previous, ino, name), L, b);
  }

  lemma SitesStay(img: seq<byte>, i: seq<byte>, L: Layout, ino: nat)
    requires Geometry(img, L) && Geometry(i, L) && SamePointers(img, i, L) && IsInode(L, ino)
    ensures GroupOfInode(L, ino) < L.groupCount && SiteOfInode(i, L, ino) == SiteOfInode(img, L, ino)
  {
    InodePosition(img, L, ino);
    InodePosition(i, L, ino);
    SiteStays(img, i, L, InodeKind, GroupOfInode(L, ino), IndexOfInode(L, ino));
  }

  lemma CeilZero(unit: nat)
    requires unit > 0
    ensures CeilQuot(0, unit) == 0
  {
  }

  lemma EmptyDense(c: seq<byte>, L: Layout, ino: nat)
    requires Geometry(c, L) && IsInode(L, ino) && forall m :: 0 <= m < 15 ==> Slot(c, L, ino, m) == 0
    ensures Dense(c, L, ino, 0)
  {
    hide Slot;
  }

  lemma FreeDownNone(c: seq<byte>, L: Layout, at: nat)
    requires LayoutOf(|c|, L) && SlotAt(at, 0) <= |c|
    ensures FreeDown(c, L, at, 0, 0) == (Ok(()), c)
  {
  }

  lemma DirSelf(c: seq<byte>, L: Layout, dir: nat, k: nat, ino: nat)
    requires Dir(c, L, dir, k) && IsInode(L, ino)
    ensures DirSame(c, c, L, dir, k)
    ensures forall j :: 0 <= j < k ==> Foreign(c, L, ino, 0, Slot(c, L, dir, j))
  {
    hide Geometry, InodeAt, DataBlock, U16, U32, Times, BlockUsed, Dense, TiledBlock, Slot, Dir;
    forall j | 0 <= j < k
      ensures Linked(c, L, Slot(c, L, dir, j)) && SameBytes(c, c, BlockAt(L, Slot(c, L, dir, j)), L.bs)
    {
      DirBlock(c, L, dir, k, j);
    }
  }

  /** Free blocks stay data and zero through the insertion and the new inode. */
  lemma DataStays(img: seq<byte>, i: seq<byte>, c: seq<byte>, L: Layout, b: nat)
    requires Geometry(img, L) && Geometry(i, L) && Geometry(c, L) && FreeIsData(img, L) && FreeIsZero(img, L)
    requires Linked(img, L, b)
    requires forall x {:trigger BlockUsed(i, L, x)} :: InRange(L, x) ==> (BlockUsed(i, L, x) <==> BlockUsed(img, L, x))
    requires forall x {:trigger BlockUsed(c, L, x)} :: InRange(L, x) ==> (BlockUsed(c, L, x) <==> BlockUsed(i, L, x))
    requires forall x: nat {:trigger DataBlock(i, L, x)} :: DataBlock(i, L, x) <==> DataBlock(img, L, x)
    requires forall x: nat {:trigger DataBlock(c, L, x)} :: DataBlock(c, L, x) <==> DataBlock(i, L, x)
    requires forall x :: InRange(L, x) && x != b ==> SameBytes(img, i, BlockAt(L, x), L.bs)
    requires forall x: nat :: DataBlock(i, L, x) ==> SameBytes(i, c, BlockAt(L, x), L.bs)
    ensures FreeIsData(c, L) && FreeIsZero(c, L)
  {
    hide Geometry, DataBlock, Times, BlockUsed;
    forall x | InRange(L, x) && !BlockUsed(c, L, x)
      ensures DataBlock(c, L, x) && ZeroBlock(c, L, x)
    {
      assert !BlockUsed(i, L, x) && !BlockUsed(img, L, x) && x != b;
      assert DataBlock(img, L, x) && ZeroBlock(img, L, x);
      assert DataBlock(i, L, x);
      SameBytesTrans(img, i, c, BlockAt(L, x), L.bs);
      ZeroMoves(img, c, L, x);
    }
  }

  lemma ZeroMoves(img: seq<byte>, c: seq<byte>, L: Layout, x: nat)
    requires LayoutOf(|img|, L) && InRange(L, x) && |c| == |img| && ZeroBlock(img, L, x)
    requires SameBytes(img, c, BlockAt(L, x), L.bs)
    ensures ZeroBlock(c, L, x)
  {
  }

  // ----- unlinking -----

  /** Releasing an appended file gives back the inserted image: nothing of the file is left
      but its name. */
  lemma ReleaseRestores(i: seq<byte>, c: seq<byte>, x: seq<byte>, L: Layout, ino: nat, dir: nat, k: nat, s: Site,
      at: nat, slotBytes: seq<byte>)
    requires LayoutOf(|x|, L) && Appended(c, x, L, ino, dir, k) && InodeAt(c, L, ino) == Some(at)
    requires Geometry(i, L) && SiteOk(|i|, s) && Takable(i, s) && |i| == |x| && |slotBytes| == L.inodeSize
    requires GroupOfInode(L, ino) < L.groupCount && s == SiteOfInode(i, L, ino) && SamePointers(i, c, L)
    requires InodeAt(i, L, ino) == Some(at) && i[at..at + L.inodeSize] == Zeros(L.inodeSize)
    requires c == Put(Take(i, s), at, slotBytes)
    ensures SlotAt(at, CeilQuot(U32(x, at + 4), L.bs)) <= |x| && InodeAt(x, L, ino) == Some(at)
    ensures Release(x, L, ino, at) == (Ok(()), i)
  {
    hide Geometry, InodeAt, Put, DataBlock, U16, U32, Times, BlockUsed, InodeUsed, Take, Takable, Dense, Dir,
      FreeDown, Give, SiteOfInode, GroupOfInode, Dense, FreeIsData, FreeIsZero, DirSame, Foreign, CeilQuot;
    var n := CeilQuot(U32(x, at + 4), L.bs);
    var y := FreeDown(x, L, at, 0, n).1;
    CeilZero(L.bs);
    // cutting to nothing leaves y with a zero size
    var cut := Truncate(x, L, ino, 0).1;
    TruncateToNothing(x, L, ino, at);
    // wiping the slot hides the head, the fresh slot, and gives the taken image
    var t := Take(i, s);
    TakeInodeKeeps(i, L, ino);
    InodeRangePlain(i, L, ino, at, L.inodeSize);
    assert SameBytes(i, t, at, L.inodeSize);
    WipeSlot(t, c, y, cut, L, at, slotBytes);
    // freeing the inode undoes the taking
    FreeTaken(i, L, ino, s);
  }

  lemma TruncateToNothing(x: seq<byte>, L: Layout, ino: nat, at: nat)
    requires LayoutOf(|x|, L) && InodeAt(x, L, ino) == Some(at)
    requires SlotAt(at, CeilQuot(U32(x, at + 4), L.bs)) <= |x|
    requires FreeDown(x, L, at, 0, CeilQuot(U32(x, at + 4), L.bs)).0.Ok?
    ensures Truncate(x, L, ino, 0) == (Ok(()), Sized(FreeDown(x, L, at, 0, CeilQuot(U32(x, at + 4), L.bs)).1, L, at, 0))
  {
    hide FreeDown, InodeAt, Sized, U32, Put;
    CeilZero(L.bs);
  }

  lemma WipeSlot(t: seq<byte>, c: seq<byte>, y: seq<byte>, cut: seq<byte>, L: Layout, at: nat, slotBytes: seq<byte>)
    requires |t| == |c| == |y| && at + L.inodeSize <= |t| && |slotBytes| == L.inodeSize && LayoutOf(|t|, L)
    requires c == Put(t, at, slotBytes) && SameButHead(c, y, at) && cut == Sized(y, L, at, 0)
    requires t[at..at + L.inodeSize] == Zeros(L.inodeSize)
    ensures Put(cut, at, Zeros(L.inodeSize)) == t
  {
    hide Times, CeilQuot;
    var r := Put(cut, at, Zeros(L.inodeSize));
    forall p | 0 <= p < |t|
      ensures r[p] == t[p]
    {
      if at <= p < at + L.inodeSize { assert t[p] == t[at..at + L.inodeSize][p - at]; }
    }
  }

  lemma FreeTaken(i: seq<byte>, L: Layout, ino: nat, s: Site)
    requires Geometry(i, L) && IsInode(L, ino) && GroupOfInode(L, ino) < L.groupCount && s == SiteOfInode(i, L, ino)
    requires SiteOk(|i|, s) && Takable(i, s)
    ensures FreeInode(Take(i, s), L, ino) == (Ok(()), i)
  {
    hide Geometry, Take, Give, Takable, U16, U32, Bit;
    TakeInodeKeeps(i, L, ino);
    GiveUndoesTake(i, s);
    SitesStay(i, Take(i, s), L, ino);
    GivableMeans(Take(i, s), s);
  }

  lemma GivableMeans(t: seq<byte>, s: Site)
    requires Givable(t, s)
    ensures s.byteAt < |t| && s.bit < 8 && Bit(t[s.byteAt], s.bit) && s.groupAt + 2 <= |t| && s.totalAt + 4 <= |t|
    ensures U16(t, s.groupAt) < 0xFFFF && U32(t, s.totalAt) < 0xFFFF_FFFF
  {
  }

  /** The scan of a later image of the directory finds the entry `create_file` made. */
  lemma ScanFindsCreated(img: seq<byte>, i: seq<byte>, c: seq<byte>, x: seq<byte>, L: Layout, dir: nat, k: nat,
      name: seq<byte>, j: nat, previous: nat, ino: nat, kind: byte, want: nat)
    requires Dir(img, L, dir, k) && j < k && InRange(L, Slot(img, L, dir, j))
    requires RecordStart(img, L, Slot(img, L, dir, j), previous)
    requires Splittable(img, previous, |name|) && 0 < ino < 0x1_0000_0000 && |name| <= MAX_NAME_LEN
    requires forall m :: 0 <= m < k ==> !InBlock(img, L, dir, k, m, name)
    requires i == Insert(img, previous, ino, name, kind) && Dir(i, L, dir, k)
    requires InodeAt(i, L, dir) == InodeAt(img, L, dir)
    requires DirSame(i, c, L, dir, k) && Dir(c, L, dir, k) && DirSame(c, x, L, dir, k)
    ensures Finds(ScanDirectory(x, L, dir, name, want), Spot(EntryOf(img, previous), Some(previous)))
    ensures EntryOf(img, previous) + DIRENT_HEADER_LEN <= |img| && U32(x, EntryOf(img, previous)) == ino
  {
    hide Geometry, InodeAt, DataBlock, U16, U32, Times, BlockUsed, Insert, Dense, Dir, Splittable, RecLen, NameLen,
      NameAt, ScanFrom, ScanDirectory, InBlock, TiledBlock, Starts, EntryOf, SameBytes;
    var b := Slot(img, L, dir, j);
    DirBlock(img, L, dir, k, j);
    DirSameIsDir(c, x, L, dir, k);
    ScanDirectoryIs(x, L, dir, k, name, want);
    ScanFromSame(c, x, L, dir, k, 0, name, want, Scan(None, None));
    ScanFromSame(i, c, L, dir, k, 0, name, want, Scan(None, None));
    ScanAfterInsert(img, L, dir, k, j, previous, ino, name, kind, 0, want, Scan(None, None));
    InsertReads(img, previous, ino, name, kind);
    EntryInBlock(img, L, b, previous, |name|);
    DirInsert(img, L, dir, k, j, previous, ino, name, kind);
    DirSameIsDir(i, c, L, dir, k);
    assert Slot(i, L, dir, j) == b && Slot(c, L, dir, j) == b;
    SameBytesTrans(i, c, x, BlockAt(L, b), L.bs);
    SameWord(i, x, BlockAt(L, b), L.bs, EntryOf(img, previous));
  }

  lemma EntryInBlock(img: seq<byte>, L: Layout, b: nat, previous: nat, n: nat)
    requires LayoutOf(|img|, L) && InRange(L, b) && RecordStart(img, L, b, previous) && Splittable(img, previous, n)
    requires BlockAt(L, b) + L.bs <= |img|
    ensures BlockAt(L, b) <= EntryOf(img, previous)
    ensures EntryOf(img, previous) + DIRENT_HEADER_LEN <= BlockAt(L, b) + L.bs
    ensures EntryOf(img, previous) <= previous + RecLen(img, previous) <= BlockAt(L, b) + L.bs
  {
    hide Times, Tiled, Starts, RecLen, NameLen;
    StartsInBlock(img, L, b, previous);
    SpanCovers(NameLen(img, previous));
    SpanCovers(n);
  }

  lemma SameWord(i: seq<byte>, x: seq<byte>, at: nat, n: nat, p: nat)
    requires SameBytes(i, x, at, n) && at <= p && p + 4 <= at + n
    ensures U32(x, p) == U32(i, p)
  {
  }

  /** The round trip: on a well-formed image whose unused places are zero, a successful
      create, any successful appends and an unlink of the same name succeed and give back
      every byte. */
  lemma CreateAppendUnlink(img: seq<byte>, L: Layout, dir: nat, k: nat, name: seq<byte>, datas: seq<seq<byte>>)
    requires Pristine(img, L, dir, k)
    requires CreateInBounds(img, L, dir, name) && CreateFile(img, L, dir, name).0.Ok?
    requires AppendAll(CreateFile(img, L, dir, name).1, L, CreateFile(img, L, dir, name).0.value, datas).0.Ok?
    ensures var x := AppendAll(CreateFile(img, L, dir, name).1, L, CreateFile(img, L, dir, name).0.value, datas).1;
      UnlinkInBounds(x, L, dir, name) && UnlinkFile(x, L, dir, name) == (Ok(()), img)
  {
    hide Geometry, InodeAt, Put, DataBlock, U16, U32, Times, BlockUsed, InodeUsed, Take, Takable, Insert, FreshFile,
      Dense, Dir, SiteOfInode, GroupOfInode, Splittable, RecLen, OnlyBlock, DirSame, Foreign, CeilQuot, FreeIsData,
      FreeIsZero, Appended, AppendAll, PlanCreate, NewFile, Release, Remove, PlanRemove, InBlock, DirSlackZero,
      Pristine;
    assert Dir(img, L, dir, k) && InodeUsed(img, L, dir) by { PristineMeans(img, L, dir, k); }
    var j := CreateFileShape(img, L, dir, k, name);
    var previous, ino := PlanCreate(img, L, dir, name).value, NewFile(img, L).0.value;
    var i, c := Insert(img, previous, ino, name, DIRENT_TYPE_REGULAR), Created(img, L, previous, ino, name);
    CreatedIsAppended(img, L, dir, k, name, j, previous, ino);
    AppendAllKeeps(c, c, L, ino, dir, k, datas);
    UnlinkRestores(img, L, dir, k, name, j, previous, ino, AppendAll(c, L, ino, datas).1);
  }

  lemma PristineMeans(img: seq<byte>, L: Layout, dir: nat, k: nat)
    requires Pristine(img, L, dir, k)
    ensures Dir(img, L, dir, k) && InodeUsed(img, L, dir) && DirSlackZero(img, L, dir, k) && FreeSlotsZero(img, L)
  {
  }

  lemma UnlinkRestores(img: seq<byte>, L: Layout, dir: nat, k: nat, name: seq<byte>, j: nat, previous: nat, ino: nat,
      x: seq<byte>)
    requires Pristine(img, L, dir, k) && Creatable(img, L, dir, k, name, j, previous, ino) && |x| == |img|
    requires forall m :: 0 <= m < k ==> !InBlock(img, L, dir, k, m, name)
    requires Appended(Created(img, L, previous, ino, name), x, L, ino, dir, k)
    ensures UnlinkInBounds(x, L, dir, name) && UnlinkFile(x, L, dir, name) == (Ok(()), img)
  {
    hide Geometry, InodeAt, Put, DataBlock, U16, U32, Times, BlockUsed, InodeUsed, Take, Takable, Insert, FreshFile,
      Dense, Dir, SiteOfInode, GroupOfInode, Splittable, RecLen, OnlyBlock, DirSame, Foreign, CeilQuot, FreeIsData,
      FreeIsZero, Release, Remove, InBlock, DirSlackZero, Pristine, ScanDirectory, EntryOf, FreeDown, TiledBlock,
      Starts, IsRegularMode;
    var i, c := Insert(img, previous, ino, name, DIRENT_TYPE_REGULAR), Created(img, L, previous, ino, name);
    var at, s := InodeAt(img, L, ino).value, SiteOfInode(img, L, ino);
    CreatedDir(img, L, dir, k, name, j, previous, ino);
    CreatedFile(img, L, dir, k, name, j, previous, ino);
    SameAreas(img, i, L);
    ScanFindsCreated(img, i, c, x, L, dir, k, name, j, previous, ino, DIRENT_TYPE_REGULAR, USIZE_MAX);
    PristineMeans(img, L, dir, k);
    SlotZeroAfterInsert(img, i, L, dir, k, j, ino);
    ReleaseRestores(i, c, x, L, ino, dir, k, s, at, FreshFile(|img|, L));
    assert SlackZero(img, previous) by { SlackOf(img, L, dir, k, j, previous); }
    RemoveUndoesInsert(img, previous, ino, name, DIRENT_TYPE_REGULAR);
  }

  lemma SlackOf(img: seq<byte>, L: Layout, dir: nat, k: nat, j: nat, previous: nat)
    requires Dir(img, L, dir, k) && DirSlackZero(img, L, dir, k) && j < k && InRange(L, Slot(img, L, dir, j))
    requires RecordStart(img, L, Slot(img, L, dir, j), previous) && previous + DIRENT_HEADER_LEN <= |img|
    ensures SlackZero(img, previous)
  {
    hide Dir, Slot, RecordStart, SlackZero;
  }

  /** The slot of the free inode is still zero after the name went in. */
  lemma SlotZeroAfterInsert(img: seq<byte>, i: seq<byte>, L: Layout, dir: nat, k: nat, j: nat, ino: nat)
    requires Dir(img, L, dir, k) && j < k && FreeSlotsZero(img, L) && IsInode(L, ino) && !InodeUsed(img, L, ino)
    requires InodeAt(img, L, ino).Some?
    requires OnlyBlock(img, i, L, Slot(img, L, dir, j))
    ensures var at := InodeAt(img, L, ino).value;
      at + L.inodeSize <= |i| && i[at..at + L.inodeSize] == Zeros(L.inodeSize)
  {
    hide Geometry, InodeAt, DataBlock, Times, BlockUsed, InodeUsed, Dense, OnlyBlock, Dir;
    DirBlock(img, L, dir, k, j);
    OnlyBlockKeeps(img, i, L, Slot(img, L, dir, j));
    var at := InodeAt(img, L, ino).value;
    assert SameBytes(img, i, at, L.inodeSize);
    assert i[at..at + L.inodeSize] == img[at..at + L.inodeSize];
  }
}
