/** Whole runs of successful writes: the invariant holds at every point, every name leads to an
    inode in use and states its kind, every link count is the number of names, and whoever no
    operation named is byte for byte what it was. */
module Ext2FsRuns {
  import opened Wrappers
  import opened Bytes
  import opened Ext2Layout
  import opened Ext2Areas
  import opened Ext2File
  import opened Ext2Unwind
  import opened Ext2Append
  import opened Ext2Dirent
  import opened Ext2Directory
  import opened Ext2Ops
  import opened Ext2Steps
  import opened Ext2Fs
  import opened Ext2FsFile
  import opened Ext2FsCut
  import opened Ext2FsNames
  import opened Ext2FsTree
  import opened Ext2Tree
  import opened Ext2FsView

  datatype Op =
    | AppendTo(ino: nat, data: seq<byte>)
    | CutTo(ino: nat, target: nat)
    | Create(dir: nat, name: seq<byte>)
    | Unlink(dir: nat, name: seq<byte>)
    | MakeDir(dir: nat, name: seq<byte>)
    | RemoveDir(dir: nat, name: seq<byte>)

  /** The invariant of runs: a sound image whose names form a tree, are counted right, and are names
      a path can spell, distinct in each directory. */
  ghost predicate Sound(img: seq<byte>, L: Layout)
    ensures Sound(img, L) ==> Fs(img, L)
  {
    Fs(img, L) && TreeOk(TreeOf(img, L)) && LinksCounted(TreeOf(img, L)) && Spelled(TreeOf(img, L))
  }

  /** If the entry leads to a directory whose first block is empty, the directory is. */
  ghost predicate EmptyShows(img: seq<byte>, L: Layout, d: nat, name: seq<byte>)
    requires LayoutOf(|img|, L)
  {
    PlanRemove(img, L, d, name).Ok? ==>
      var ino := PlanRemove(img, L, d, name).value.ino;
      forall kv: nat :: Dir(img, L, ino, kv) && FirstBlockDots(img, L, ino, kv) ==> LaterBlocksDots(img, L, ino, kv)
  }

  /** The operation is given what its callers have looked up: a direct regular file, or a
      directory in use. An unlinked file has no holes and no indirect blocks. */
  ghost predicate Asked(img: seq<byte>, L: Layout, op: Op)
    requires Fs(img, L)
  {
    match op
    case AppendTo(ino, _) => FileOk(img, L, ino)
    case CutTo(ino, target) => FileOk(img, L, ino) && target <= SizeOf(img, L, ino)
    case Create(d, _) => IsDir(img, L, d)
    case Unlink(d, name) => IsDir(img, L, d) && VictimOk(img, L, d, name)
    case MakeDir(d, _) => IsDir(img, L, d)
    case RemoveDir(d, _) => IsDir(img, L, d)
  }

  /** And a directory to be removed is empty if it looks so. */
  ghost predicate Legal(img: seq<byte>, L: Layout, op: Op)
    requires Fs(img, L)
  {
    Asked(img, L, op) && (op.RemoveDir? ==> EmptyShows(img, L, op.dir, op.name))
  }

  lemma Folder(img: seq<byte>, L: Layout, d: nat) returns (k: nat)
    requires Fs(img, L) && IsDir(img, L, d)
    ensures FolderOk(img, L, d, k)
  {
    hide Dir, Geometry, InodeUsed, Ext2Fs.Exclusive;
    assert DirOk(img, L, d);
    k :| Dir(img, L, d, k);
  }

  /** In a sound image what an entry leads to is in use. */
  lemma SubdirUsed(img: seq<byte>, L: Layout, d: nat, k: nat, name: seq<byte>)
    requires Sound(img, L) && FolderOk(img, L, d, k)
    ensures SubdirOk(img, L, d, name)
  {
    hide Fs, FolderOk, TreeOf, PlanRemove, InodeUsed, U16, TreeOk;
    if PlanRemove(img, L, d, name).Ok? { VictimUsed(img, L, d, k, name); }
  }

  /** What the operation does: whether it succeeded, and the image it leaves. */
  ghost function Apply(img: seq<byte>, L: Layout, op: Op): (r: (bool, seq<byte>))
    requires Sound(img, L) && Legal(img, L, op)
  {
    InBounds(img, L, op);
    match op
    case AppendTo(ino, data) => var a := Append(img, L, ino, data); (a.0.Ok?, a.1)
    case CutTo(ino, target) => var c := Truncate(img, L, ino, target); (c.0.Ok?, c.1)
    case Create(d, name) => var c := CreateFile(img, L, d, name); (c.0.Ok?, c.1)
    case Unlink(d, name) => var u := UnlinkFile(img, L, d, name); (u.0.Ok?, u.1)
    case MakeDir(d, name) => var c := CreateDirectory(img, L, d, name); (c.0.Ok?, c.1)
    case RemoveDir(d, name) => var u := RemoveDirectory(img, L, d, name); (u.0.Ok?, u.1)
  }

  /** No operation on a sound image reads or writes outside it. */
  lemma InBounds(img: seq<byte>, L: Layout, op: Op)
    requires Sound(img, L) && Legal(img, L, op)
    ensures LayoutOf(|img|, L)
    ensures op.Create? ==> CreateInBounds(img, L, op.dir, op.name)
    ensures op.Unlink? ==> UnlinkInBounds(img, L, op.dir, op.name)
    ensures op.MakeDir? ==> MkdirInBounds(img, L, op.dir, op.name)
    ensures op.RemoveDir? ==> RmdirInBounds(img, L, op.dir, op.name)
    ensures op.CutTo? && InodeAt(img, L, op.ino).Some? ==>
      SlotAt(InodeAt(img, L, op.ino).value, CeilQuot(U32(img, InodeAt(img, L, op.ino).value + 4), L.bs)) <= |img|
  {
    hide Fs, Sound, FileOk, IsDir, VictimOk, EmptyShows, CreateInBounds, UnlinkInBounds, MkdirInBounds, RmdirInBounds,
      InodeAt, U32, SizeOf, FolderOk, Geometry, SubdirOk, OthersKept, NodeOf, SectorsRight, MkdirDone, RmdirDone,
      Names, Content, PlanRemove, CreateFile, UnlinkFile, CreateDirectory, RemoveDirectory, Truncate, InodeUsed;
    match op
    case AppendTo(_, _) =>
    case CutTo(ino, target) => TruncateKeepsFs(img, L, ino, target);
    case Create(d, name) => var k := Folder(img, L, d); CreateKeepsFs(img, L, d, k, name);
    case Unlink(d, name) => var k := Folder(img, L, d); UnlinkKeepsFs(img, L, d, k, name);
    case MakeDir(d, name) => var k := Folder(img, L, d); MkdirKeepsFs(img, L, d, k, name);
    case RemoveDir(d, name) =>
      var k := Folder(img, L, d);
      SubdirUsed(img, L, d, k, name);
      RmdirKeepsFs(img, L, d, k, name);
  }

  /** The inodes in use that an operation names. */
  ghost function Named(img: seq<byte>, L: Layout, op: Op): set<nat>
    requires LayoutOf(|img|, L)
  {
    match op
    case AppendTo(ino, _) => {ino}
    case CutTo(ino, _) => {ino}
    case Create(d, _) => {d}
    case MakeDir(d, _) => {d}
    case Unlink(d, name) => VictimNamed(img, L, d, name)
    case RemoveDir(d, name) => VictimNamed(img, L, d, name)
  }

  ghost function VictimNamed(img: seq<byte>, L: Layout, d: nat, name: seq<byte>): set<nat>
    requires LayoutOf(|img|, L)
  {
    if PlanRemove(img, L, d, name).Ok? then {d, PlanRemove(img, L, d, name).value.ino} else {d}
  }

  // ----- one operation keeps the tree -----

  /** The names that can be created are exactly those a path can spell, the dots aside. */
  lemma ValidIsProper(name: seq<byte>, ino: nat)
    ensures forall kind: byte :: ValidName(name) <==> Proper((name, ino, kind)) && NameOk((name, ino, kind))
  {
  }

  lemma CreateSound(img: seq<byte>, L: Layout, d: nat, k: nat, name: seq<byte>)
    requires Sound(img, L) && FolderOk(img, L, d, k)
    ensures CreateInBounds(img, L, d, name)
    ensures CreateFile(img, L, d, name).0.Ok? ==> Sound(CreateFile(img, L, d, name).1, L)
  {
    hide Fs, FolderOk, TreeOf, NewFile, Insert, ValidName, Splittable, ScanDirectory, Entered, LinksCounted, TreeOk,
      Spelled, Taken, Proper, NameOk;
    CreateView(img, L, d, k, name);
    var c := CreateFile(img, L, d, name);
    if c.0.Ok? {
      ValidIsProper(name, c.0.value);
      EnteredOk(TreeOf(img, L), d, (name, c.0.value, 1), Node(0x81A4, 1));
      EnteredCounted(TreeOf(img, L), d, (name, c.0.value, 1), Node(0x81A4, 1));
      EnteredSpelled(TreeOf(img, L), d, (name, c.0.value, 1), Node(0x81A4, 1));
    }
  }

  lemma MkdirSound(img: seq<byte>, L: Layout, d: nat, k: nat, name: seq<byte>)
    requires Sound(img, L) && FolderOk(img, L, d, k)
    ensures MkdirInBounds(img, L, d, name)
    ensures CreateDirectory(img, L, d, name).0.Ok? ==> Sound(CreateDirectory(img, L, d, name).1, L)
  {
    hide Fs, FolderOk, TreeOf, NewDirectory, Insert, ValidName, Splittable, ScanDirectory, Planted, BumpLinks,
      BumpDirs, LinksCounted, TreeOk, Spelled, Taken, Proper, NameOk;
    MkdirView(img, L, d, k, name);
    var c := CreateDirectory(img, L, d, name);
    if c.0.Ok? {
      ValidIsProper(name, c.0.value);
      PlantedOk(TreeOf(img, L), d, name, c.0.value);
      PlantedCounted(TreeOf(img, L), d, name, c.0.value);
      PlantedSpelled(TreeOf(img, L), d, name, c.0.value);
    }
  }

  lemma UnlinkSound(img: seq<byte>, L: Layout, d: nat, k: nat, name: seq<byte>)
    requires Sound(img, L) && FolderOk(img, L, d, k) && VictimOk(img, L, d, name)
    ensures UnlinkInBounds(img, L, d, name)
    ensures UnlinkFile(img, L, d, name).0.Ok? ==> Sound(UnlinkFile(img, L, d, name).1, L)
  {
    hide Fs, FolderOk, TreeOf, UnlinkFile, UnlinkInBounds, VictimOk, PlanRemove, Pruned, TreeOk, Sole, LinksCounted,
      Spelled;
    UnlinkView(img, L, d, k, name);
    var u := UnlinkFile(img, L, d, name);
    if u.0.Ok? {
      var t, e := TreeOf(img, L), Removed(img, L, d, name);
      BareIsSole(t, d, e);
      PrunedOk(t, d, e);
      PrunedCounted(t, d, e);
      PrunedSpelled(t, d, e);
    }
  }

  lemma RmdirSound(img: seq<byte>, L: Layout, d: nat, k: nat, name: seq<byte>)
    requires Sound(img, L) && FolderOk(img, L, d, k) && EmptyShows(img, L, d, name)
    ensures SubdirOk(img, L, d, name) && RmdirInBounds(img, L, d, name)
    ensures RemoveDirectory(img, L, d, name).0.Ok? ==> Sound(RemoveDirectory(img, L, d, name).1, L)
  {
    hide Fs, FolderOk, TreeOf, RemoveDirectory, RmdirInBounds, SubdirOk, PlanRemove, Pruned, TreeOk, Sole, Dir, Spelled,
      LinksCounted,
      FirstBlockDots, LaterBlocksDots, Geometry, InodeUsed, InodeAt, OnlyDots, Names, U32, EmptyInBounds, IsEmpty;
    SubdirUsed(img, L, d, k, name);
    RmdirView(img, L, d, k, name);
    var u := RemoveDirectory(img, L, d, name);
    if u.0.Ok? {
      var ino := PlanRemove(img, L, d, name).value.ino;
      var t, e := TreeOf(img, L), Removed(img, L, d, name);
      var kv: nat :| Dir(img, L, ino, kv) && FirstBlockDots(img, L, ino, kv);
      TreeReads(img, L);
      InodeSlot(img, L, ino);
      EmptyExact(img, L, ino, kv, InodeAt(img, L, ino).value);
      DotsAreBare(img, L, ino, kv);
      BareIsSole(t, d, e);
      PrunedOk(t, d, e);
      PrunedCounted(t, d, e);
      PrunedSpelled(t, d, e);
    }
  }

  // ----- one operation -----

  lemma KeptOne(img: seq<byte>, r: seq<byte>, L: Layout, S: set<nat>, i: nat)
    requires Geometry(img, L) && Geometry(r, L) && OthersKept(img, r, L, S) && IsUsed(img, L, i) && i !in S
    ensures Untouched(img, r, L, i) && IsUsed(r, L, i)
  {
    hide Geometry, InodeUsed;
  }

  /** Everybody in use outside `S` is untouched. */
  ghost predicate UnnamedKept(img: seq<byte>, r: seq<byte>, L: Layout, S: set<nat>)
    requires Geometry(img, L) && Geometry(r, L)
  {
    forall i: nat {:trigger Untouched(img, r, L, i)} :: IsUsed(img, L, i) && i !in S ==>
      Untouched(img, r, L, i) && IsUsed(r, L, i)
  }

  /** Whoever was not in use before need not be named. */
  lemma NewcomersApart(img: seq<byte>, r: seq<byte>, L: Layout, S: set<nat>, S': set<nat>)
    requires Geometry(img, L) && Geometry(r, L) && OthersKept(img, r, L, S)
    requires forall i: nat :: i in S && i !in S' ==> !IsUsed(img, L, i)
    ensures UnnamedKept(img, r, L, S')
  {
    hide Geometry, InodeUsed, Ref, InodeAt, Linked, SameBytes, SamePointers;
    forall i: nat {:trigger IsUsed(img, L, i)} | IsUsed(img, L, i) && i !in S'
      ensures Untouched(img, r, L, i) && IsUsed(r, L, i)
    {
      KeptOne(img, r, L, S, i);
    }
  }

  /** One successful operation. */
  lemma StepKeepsSound(img: seq<byte>, L: Layout, op: Op)
    requires Sound(img, L) && Legal(img, L, op) && Apply(img, L, op).0
    ensures var r := Apply(img, L, op).1; Sound(r, L) && LayoutOf(|img|, L) && UnnamedKept(img, r, L, Named(img, L, op))
  {
    hide Fs, FileOk, IsDir, IsUsed, VictimOk, EmptyShows, CreateInBounds, UnlinkInBounds, MkdirInBounds,
      RmdirInBounds, InodeAt, U32, SizeOf, FolderOk, OthersKept, UnnamedKept, Append, Truncate, CreateFile,
      UnlinkFile, CreateDirectory, RemoveDirectory, PlanRemove, Geometry, InodeUsed, TreeOf, TreeOk, SubdirOk,
      LinksCounted, Spelled;
    InBounds(img, L, op);
    match op
    case AppendTo(ino, data) =>
      AppendKeepsFs(img, L, ino, data);
      AppendView(img, L, ino, data);
      NewcomersApart(img, Append(img, L, ino, data).1, L, {ino}, {ino});
    case CutTo(ino, target) =>
      TruncateKeepsFs(img, L, ino, target);
      TruncateView(img, L, ino, target);
      NewcomersApart(img, Truncate(img, L, ino, target).1, L, {ino}, {ino});
    case Create(d, name) =>
      var k := Folder(img, L, d);
      CreateKeepsFs(img, L, d, k, name);
      CreateSound(img, L, d, k, name);
      var c := CreateFile(img, L, d, name);
      NotUsed(img, L, c.0.value);
      NewcomersApart(img, c.1, L, {d, c.0.value}, {d});
    case Unlink(d, name) =>
      var k := Folder(img, L, d);
      UnlinkKeepsFs(img, L, d, k, name);
      UnlinkSound(img, L, d, k, name);
      var S := VictimNamed(img, L, d, name);
      NewcomersApart(img, UnlinkFile(img, L, d, name).1, L, S, S);
    case MakeDir(d, name) =>
      var k := Folder(img, L, d);
      MkdirKeepsFs(img, L, d, k, name);
      MkdirSound(img, L, d, k, name);
      var c := CreateDirectory(img, L, d, name);
      NotUsed(img, L, c.0.value);
      NewcomersApart(img, c.1, L, {d, c.0.value}, {d});
    case RemoveDir(d, name) =>
      var k := Folder(img, L, d);
      RmdirSound(img, L, d, k, name);
      RmdirKeepsFs(img, L, d, k, name);
      var S := VictimNamed(img, L, d, name);
      NewcomersApart(img, RemoveDirectory(img, L, d, name).1, L, S, S);
  }

  lemma NotUsed(img: seq<byte>, L: Layout, ino: nat)
    requires Geometry(img, L) && IsInode(L, ino) && !InodeUsed(img, L, ino)
    ensures !IsUsed(img, L, ino)
  {
  }

  /** A run: each operation is legal where it is applied, succeeds, and leads to the next image. */
  ghost predicate Run(L: Layout, images: seq<seq<byte>>, ops: seq<Op>) {
    && |images| == |ops| + 1
    && forall n {:trigger ops[n]} :: 0 <= n < |ops| ==> Goes(L, images[n], ops[n], images[n + 1])
  }

  ghost predicate Goes(L: Layout, img: seq<byte>, op: Op, next: seq<byte>) {
    Sound(img, L) ==> Legal(img, L, op) && Apply(img, L, op) == (true, next)
  }

  /** Nobody names inode `i` in the first `n` operations. */
  ghost predicate Unnamed(L: Layout, images: seq<seq<byte>>, ops: seq<Op>, n: nat, i: nat)
    requires Run(L, images, ops) && n <= |ops|
  {
    forall m :: 0 <= m < n ==> LayoutOf(|images[m]|, L) ==> i !in Named(images[m], L, ops[m])
  }

  /** Every image of a run that starts sound is sound. */
  lemma {:induction false} RunKeepsSound(L: Layout, images: seq<seq<byte>>, ops: seq<Op>, n: nat)
    requires Run(L, images, ops) && n <= |ops| && Sound(images[0], L)
    ensures Sound(images[n], L)
  {
    hide Sound, Legal, Apply;
    if n > 0 {
      RunKeepsSound(L, images, ops, n - 1);
      assert Goes(L, images[n - 1], ops[n - 1], images[n]);
      StepKeepsSound(images[n - 1], L, ops[n - 1]);
    }
  }

  /** In every image of such a run every name of every directory leads to an inode in use, and no
      inode has two names. */
  lemma RunNamesLead(L: Layout, images: seq<seq<byte>>, ops: seq<Op>, n: nat)
    requires Run(L, images, ops) && n <= |ops| && Sound(images[0], L)
    ensures Fs(images[n], L) && NamesLead(TreeOf(images[n], L)) && OneName(TreeOf(images[n], L))
  {
    hide Fs, NamesLead, OneName, Run;
    RunKeepsSound(L, images, ops, n);
  }

  /** Entry `e` leads to an inode in use, states its kind, and is one of as many records that lead
      there as the inode's link count says. */
  ghost predicate Tells(img: seq<byte>, L: Layout, e: Binding)
    requires Fs(img, L)
  {
    && IsUsed(img, L, e.1)
    && (e.2 == 1 <==> IsRegularMode(NodeOf(img, L, e.1).mode))
    && (e.2 == 2 <==> IsDirectoryMode(NodeOf(img, L, e.1).mode))
    && NodeOf(img, L, e.1).links == |Leading(TreeOf(img, L), e.1)|
  }

  lemma SoundTells(img: seq<byte>, L: Layout, d: nat, e: Binding)
    requires Sound(img, L) && IsDir(img, L, d) && e in EntriesOf(img, L, d)
    ensures Tells(img, L, e)
  {
    hide Fs, OneName, DotsHome, DotsOnce, TreeOf, IsDir, IsUsed, EntriesOf, NodeOf, Leading;
    TreeReads(img, L);
    var t := TreeOf(img, L);
    assert In(t, d, e) && KindFits(t, e);
    LeadingIs(t, e.1);
    assert (d, e) in Leading(t, e.1);
  }

  /** In every image of such a run every entry of every directory does. */
  lemma RunNamesTell(L: Layout, images: seq<seq<byte>>, ops: seq<Op>, n: nat)
    requires Run(L, images, ops) && n <= |ops| && Sound(images[0], L)
    ensures Fs(images[n], L)
    ensures forall d: nat, e: Binding :: IsDir(images[n], L, d) && e in EntriesOf(images[n], L, d) ==>
      Tells(images[n], L, e)
  {
    hide Fs, Sound, Goes, IsDir, EntriesOf, Tells;
    RunKeepsSound(L, images, ops, n);
    assert Fs(images[n], L) by { SoundIsFs(images[n], L); }
    forall d: nat, e: Binding | IsDir(images[n], L, d) && e in EntriesOf(images[n], L, d)
      ensures Tells(images[n], L, e)
    {
      SoundTells(images[n], L, d, e);
    }
  }

  lemma SoundIsFs(img: seq<byte>, L: Layout)
    requires Sound(img, L)
    ensures Fs(img, L)
  {
  }

  lemma UntouchedTrans(a: seq<byte>, b: seq<byte>, c: seq<byte>, L: Layout, i: nat)
    requires Geometry(a, L) && Geometry(b, L) && Geometry(c, L) && IsInode(L, i) && Untouched(a, b, L, i)
    requires Untouched(b, c, L, i)
    ensures Untouched(a, c, L, i)
  {
    hide Geometry, InodeAt, Ref, Linked, SameBytes;
    UntouchedRefs(a, b, L, i);
    Chain(a, b, c, InodeAt(a, L, i).value, L.inodeSize);
    forall x | 0 <= x < RefCount(L) && Ref(a, L, i, x) != 0
      ensures Linked(c, L, Ref(a, L, i, x)) && SameBytes(a, c, BlockAt(L, Ref(a, L, i, x)), L.bs)
    {
      assert Ref(b, L, i, x) == Ref(a, L, i, x);
      Chain(a, b, c, BlockAt(L, Ref(a, L, i, x)), L.bs);
    }
  }

  lemma UntouchedSelf(a: seq<byte>, L: Layout, i: nat)
    requires Geometry(a, L) && Ext2Fs.Exclusive(a, L) && IsUsed(a, L, i)
    ensures Untouched(a, a, L, i)
  {
    hide Geometry, InodeAt, Ref, InodeUsed, DataBlock, BlockUsed, Times;
    InodeSlot(a, L, i);
    forall x | 0 <= x < RefCount(L) && Ref(a, L, i, x) != 0
      ensures Linked(a, L, Ref(a, L, i, x)) && SameBytes(a, a, BlockAt(L, Ref(a, L, i, x)), L.bs)
    {
      assert Linked(a, L, Ref(a, L, i, x));
      DataBlockInside(a, L, Ref(a, L, i, x));
    }
  }

  /** Across any run, an inode in use that no operation names keeps its slot, its references
      and the content of every block it references. */
  lemma {:induction false} RunKeepsOthers(L: Layout, images: seq<seq<byte>>, ops: seq<Op>, n: nat, i: nat)
    requires Run(L, images, ops) && n <= |ops| && Sound(images[0], L) && IsUsed(images[0], L, i)
    requires Unnamed(L, images, ops, n, i)
    ensures Geometry(images[n], L) && IsUsed(images[n], L, i) && Untouched(images[0], images[n], L, i)
  {
    hide Fs, TreeOk, TreeOf, Legal, Apply, Untouched, Geometry, InodeUsed, Named;
    if n == 0 {
      FsMeans(images[0], L);
      UntouchedSelf(images[0], L, i);
    } else {
      RunKeepsOthers(L, images, ops, n - 1, i);
      RunKeepsSound(L, images, ops, n - 1);
      assert Goes(L, images[n - 1], ops[n - 1], images[n]);
      StepKeepsSound(images[n - 1], L, ops[n - 1]);
      assert Untouched(images[n - 1], images[n], L, i);
      UntouchedTrans(images[0], images[n - 1], images[n], L, i);
    }
  }

  // ----- directories of one block -----

  /** Every directory in use has one block, as `create_directory` makes them, or none. */
  ghost predicate SmallDirs(img: seq<byte>, L: Layout)
    requires Geometry(img, L)
  {
    forall d: nat, k: nat :: IsUsed(img, L, d) && Dir(img, L, d, k) ==> k <= 1
  }

  /** There, what looks empty is. */
  lemma SmallShows(img: seq<byte>, L: Layout, d: nat, k: nat, name: seq<byte>)
    requires Sound(img, L) && SmallDirs(img, L) && FolderOk(img, L, d, k)
    ensures EmptyShows(img, L, d, name)
  {
    hide Fs, TreeOf, TreeOk, LinksCounted, Spelled, Dir, PlanRemove, FolderOk, InodeUsed, U16, InodeAt, FirstBlockDots;
    if PlanRemove(img, L, d, name).Ok? {
      VictimUsed(img, L, d, k, name);
      var ino := PlanRemove(img, L, d, name).value.ino;
      forall kv: nat | Dir(img, L, ino, kv) ensures LaterBlocksDots(img, L, ino, kv) { assert kv <= 1; }
    }
  }

  lemma VictimUsed(img: seq<byte>, L: Layout, d: nat, k: nat, name: seq<byte>)
    requires Sound(img, L) && FolderOk(img, L, d, k) && PlanRemove(img, L, d, name).Ok?
    ensures IsUsed(img, L, PlanRemove(img, L, d, name).value.ino)
  {
    hide Fs, FolderOk, TreeOf, PlanRemove, In, InodeUsed;
    VictimIn(img, L, d, k, name);
    TreeReads(img, L);
  }

  /** Who is outside `S` keeps its blocks, and those in `S` have at most one. */
  lemma SmallStep(img: seq<byte>, r: seq<byte>, L: Layout, S: set<nat>)
    requires Fs(img, L) && Fs(r, L) && SmallDirs(img, L) && OthersKept(img, r, L, S)
    requires forall d: nat, k: nat :: d in S && IsUsed(r, L, d) && Dir(r, L, d, k) ==> k <= 1
    ensures SmallDirs(r, L)
  {
    hide Geometry, Fs, Dir, InodeUsed, Untouched, SamePointers, DirectoryInode;
    forall d: nat, k: nat | IsUsed(r, L, d) && Dir(r, L, d, k) ensures k <= 1 {
      if d !in S {
        assert IsUsed(img, L, d);
        OtherView(img, r, L, S, d);
        DirIsDirectory(r, L, d, k);
        var m := Folder(img, L, d);
        assert Untouched(img, r, L, d);
        UntouchedDir(img, r, L, d, m);
        OneSize(r, L, d, k, m);
      }
    }
  }

  /** A directory whose number of blocks is known has no other. */
  lemma KnownSize(r: seq<byte>, L: Layout, d: nat, k: nat)
    requires Dir(r, L, d, k)
    ensures forall m: nat :: Dir(r, L, d, m) ==> m == k
  {
    hide Dir;
    forall m: nat | Dir(r, L, d, m) ensures m == k { OneSize(r, L, d, m, k); }
  }

  lemma NoDirectory(r: seq<byte>, L: Layout, ino: nat)
    requires Geometry(r, L) && IsInode(L, ino) && !DirectoryInode(r, L, ino)
    ensures forall m: nat :: !Dir(r, L, ino, m)
  {
    hide Dir, Geometry, DirectoryInode;
    forall m: nat ensures !Dir(r, L, ino, m) { if Dir(r, L, ino, m) { DirIsDirectory(r, L, ino, m); } }
  }

  /** No operation makes a directory of more blocks. */
  lemma StepKeepsSmall(img: seq<byte>, L: Layout, op: Op)
    requires Sound(img, L) && SmallDirs(img, L) && Legal(img, L, op) && Apply(img, L, op).0
    ensures var r := Apply(img, L, op).1; Sound(r, L) && SmallDirs(r, L)
  {
    hide Fs, FileOk, IsDir, VictimOk, EmptyShows, CreateInBounds, UnlinkInBounds, MkdirInBounds, RmdirInBounds, InodeAt,
      U32, SizeOf, OthersKept, Append, Truncate, CreateFile, UnlinkFile, CreateDirectory, RemoveDirectory, PlanRemove,
      Geometry, InodeUsed, TreeOf, TreeOk, LinksCounted, Spelled, SubdirOk, Dir, DirectoryInode, Names, NoName, Direct,
      Content,
      NodeOf, SectorsRight;
    StepKeepsSound(img, L, op);
    InBounds(img, L, op);
    var r := Apply(img, L, op).1;
    match op
    case AppendTo(ino, data) =>
      AppendKeepsFs(img, L, ino, data);
      SmallFile(img, r, L, ino);
    case CutTo(ino, target) =>
      TruncateKeepsFs(img, L, ino, target);
      SmallFile(img, r, L, ino);
    case Create(d, name) =>
      var k := Folder(img, L, d);
      CreateKeepsFs(img, L, d, k, name);
      var ino := CreateFile(img, L, d, name).0.value;
      FileOkMeans(r, L, ino);
      KnownSize(r, L, d, k);
      NoDirectory(r, L, ino);
      SmallStep(img, r, L, {d, ino});
    case Unlink(d, name) =>
      var k := Folder(img, L, d);
      UnlinkKeepsFs(img, L, d, k, name);
      KnownSize(r, L, d, k);
      SmallStep(img, r, L, {d, PlanRemove(img, L, d, name).value.ino});
    case MakeDir(d, name) =>
      var k := Folder(img, L, d);
      MkdirKeepsFs(img, L, d, k, name);
      var ino := CreateDirectory(img, L, d, name).0.value;
      KnownSize(r, L, d, k);
      KnownSize(r, L, ino, 1);
      SmallStep(img, r, L, {d, ino});
    case RemoveDir(d, name) =>
      var k := Folder(img, L, d);
      SubdirUsed(img, L, d, k, name);
      RmdirKeepsFs(img, L, d, k, name);
      KnownSize(r, L, d, k);
      SmallStep(img, r, L, {d, PlanRemove(img, L, d, name).value.ino});
  }

  lemma SmallFile(img: seq<byte>, r: seq<byte>, L: Layout, ino: nat)
    requires Fs(img, L) && SmallDirs(img, L) && FileOk(r, L, ino) && OthersKept(img, r, L, {ino})
    ensures SmallDirs(r, L)
  {
    hide Fs, FileOk, OthersKept, Dir, Geometry, DirectoryInode, InodeUsed;
    FileOkMeans(r, L, ino);
    NoDirectory(r, L, ino);
    SmallStep(img, r, L, {ino});
  }

  /** An operation on such an image, asked for what its callers look up, that succeeds. */
  ghost predicate GoesSmall(L: Layout, img: seq<byte>, op: Op, next: seq<byte>) {
    Sound(img, L) && SmallDirs(img, L) ==>
      Asked(img, L, op) && (Legal(img, L, op) ==> Apply(img, L, op) == (true, next))
  }

  /** Every image of a run from such an image is sound, whatever directories it removes. */
  lemma {:induction false} RunKeepsSmall(L: Layout, images: seq<seq<byte>>, ops: seq<Op>, n: nat)
    requires |images| == |ops| + 1 && n <= |ops| && Sound(images[0], L) && SmallDirs(images[0], L)
    requires forall m {:trigger ops[m]} :: 0 <= m < |ops| ==> GoesSmall(L, images[m], ops[m], images[m + 1])
    ensures Sound(images[n], L) && SmallDirs(images[n], L)
  {
    hide Sound, SmallDirs, Asked, Apply, EmptyShows;
    if n > 0 {
      RunKeepsSmall(L, images, ops, n - 1);
      var img, op := images[n - 1], ops[n - 1];
      assert GoesSmall(L, img, op, images[n]);
      SmallIsLegal(img, L, op);
      StepKeepsSmall(img, L, op);
    }
  }

  lemma SmallIsLegal(img: seq<byte>, L: Layout, op: Op)
    requires Sound(img, L) && SmallDirs(img, L) && Asked(img, L, op)
    ensures Legal(img, L, op)
  {
    hide Fs, TreeOf, TreeOk, SmallDirs, EmptyShows, IsDir;
    if op.RemoveDir? {
      var k := Folder(img, L, op.dir);
      SmallShows(img, L, op.dir, k, op.name);
    }
  }
}
