/** The tree an image stands for, and that every writer does to it what it should. */
module Ext2FsView {
  import opened Wrappers
  import opened Bytes
  import opened Ext2Layout
  import opened Ext2Areas
  import opened Ext2File
  import opened Ext2Unwind
  import opened Ext2Append
  import opened Ext2Dirent
  import opened Ext2DirBlock
  import opened Ext2Directory
  import opened Ext2Lookup
  import opened Ext2Ops
  import opened Ext2Steps
  import opened Ext2Fs
  import opened Ext2FsFile
  import opened Ext2FsCut
  import opened Ext2FsNames
  import opened Ext2FsTree
  import opened Ext2Tree

  // ----- the view -----

  /** A directory in use. */
  ghost predicate IsDir(img: seq<byte>, L: Layout, d: nat)
    requires Geometry(img, L)
  {
    IsUsed(img, L, d) && DirectoryInode(img, L, d)
  }

  ghost function EntriesOf(img: seq<byte>, L: Layout, d: nat): multiset<Binding>
    requires Fs(img, L) && IsDir(img, L, d)
  {
    assert DirOk(img, L, d);
    var k: nat :| Dir(img, L, d, k);
    multiset(Names(img, L, d, k, k))
  }

  /** The number of blocks of a directory follows from its size. */
  lemma OneSize(img: seq<byte>, L: Layout, d: nat, k: nat, m: nat)
    requires Dir(img, L, d, k) && Dir(img, L, d, m)
    ensures k == m
  {
    hide Geometry, InodeAt, Dense, Slot, TiledBlock, U16, U32;
    if k < m { TimesMonotone(k, m, L.bs); }
    if m < k { TimesMonotone(m, k, L.bs); }
  }

  lemma EntriesAre(img: seq<byte>, L: Layout, d: nat, k: nat)
    requires Fs(img, L) && IsUsed(img, L, d) && Dir(img, L, d, k)
    ensures IsDir(img, L, d) && EntriesOf(img, L, d) == multiset(Names(img, L, d, k, k))
  {
    hide Geometry, Fs, Dir, Names, InodeUsed, DirectoryInode;
    DirIsDirectory(img, L, d, k);
    DirsHave(img, L, d);
    var m: nat :| Dir(img, L, d, m) && EntriesOf(img, L, d) == multiset(Names(img, L, d, m, m));
    OneSize(img, L, d, k, m);
  }

  lemma DirIsDirectory(img: seq<byte>, L: Layout, d: nat, k: nat)
    requires Dir(img, L, d, k)
    ensures DirectoryInode(img, L, d)
  {
    hide Geometry, InodeAt, Dense, Slot, TiledBlock, U16, U32;
  }

  lemma DirsHave(img: seq<byte>, L: Layout, d: nat)
    requires Fs(img, L) && IsDir(img, L, d)
    ensures exists m: nat :: Dir(img, L, d, m) && EntriesOf(img, L, d) == multiset(Names(img, L, d, m, m))
  {
    hide Geometry, FreeIsData, Dir, Names, InodeUsed, DirectoryInode;
    assert DirOk(img, L, d);
  }

  /** The tree of an image: who is in use and what of it names have to agree with, and what every
      directory in use binds. */
  ghost function TreeOf(img: seq<byte>, L: Layout): Tree
    requires Fs(img, L)
  {
    Tree(map i: nat | i <= L.inodesCount && IsUsed(img, L, i) :: NodeOf(img, L, i),
         map d: nat | d <= L.inodesCount && IsDir(img, L, d) :: EntriesOf(img, L, d))
  }

  lemma TreeReads(img: seq<byte>, L: Layout)
    requires Fs(img, L)
    ensures var t := TreeOf(img, L);
      && (forall i: nat :: i in t.nodes <==> IsUsed(img, L, i))
      && (forall i: nat :: i in t.nodes ==> t.nodes[i] == NodeOf(img, L, i))
      && (forall d: nat :: d in t.dirs <==> IsDir(img, L, d))
      && (forall d: nat :: d in t.dirs ==> t.dirs[d] == EntriesOf(img, L, d))
  {
    hide Geometry, Fs, EntriesOf, InodeUsed, DirectoryInode, NodeOf;
  }

  // ----- what a step leaves -----

  /** Outside `S` the trees are the same. */
  ghost predicate SameOutside(t: Tree, r: Tree, S: set<nat>) {
    && (forall i: nat :: i !in S ==> (i in r.nodes <==> i in t.nodes) && (i in r.dirs <==> i in t.dirs))
    && (forall i: nat :: i !in S && i in t.nodes && i in r.nodes ==> r.nodes[i] == t.nodes[i])
    && (forall d: nat :: d !in S && d in t.dirs && d in r.dirs ==> r.dirs[d] == t.dirs[d])
  }

  lemma OthersView(img: seq<byte>, r: seq<byte>, L: Layout, S: set<nat>)
    requires Fs(img, L) && Fs(r, L) && OthersKept(img, r, L, S)
    ensures SameOutside(TreeOf(img, L), TreeOf(r, L), S)
  {
    hide Geometry, Fs, EntriesOf, InodeUsed, DirectoryInode, NodeOf, TreeOf, Untouched, SamePointers;
    TreeReads(img, L);
    TreeReads(r, L);
    forall i: nat | i !in S
      ensures IsUsed(r, L, i) <==> IsUsed(img, L, i)
      ensures IsUsed(img, L, i) ==> NodeOf(r, L, i) == NodeOf(img, L, i)
      ensures IsDir(r, L, i) <==> IsDir(img, L, i)
      ensures IsDir(img, L, i) && IsDir(r, L, i) ==> EntriesOf(r, L, i) == EntriesOf(img, L, i)
    {
      if IsUsed(img, L, i) { OtherView(img, r, L, S, i); }
    }
  }

  lemma OtherView(img: seq<byte>, r: seq<byte>, L: Layout, S: set<nat>, i: nat)
    requires Fs(img, L) && Fs(r, L) && OthersKept(img, r, L, S) && IsUsed(img, L, i) && i !in S
    ensures IsUsed(r, L, i) && NodeOf(r, L, i) == NodeOf(img, L, i) && (IsDir(r, L, i) <==> IsDir(img, L, i))
    ensures IsDir(img, L, i) ==> EntriesOf(r, L, i) == EntriesOf(img, L, i)
  {
    hide Geometry, Fs, EntriesOf, InodeUsed, DirectoryInode, NodeOf, Untouched, SamePointers, Dir, Names;
    assert Untouched(img, r, L, i);
    UntouchedMode(img, r, L, i);
    if IsDir(img, L, i) {
      DirsHave(img, L, i);
      var k: nat :| Dir(img, L, i, k);
      UntouchedDir(img, r, L, i, k);
      EntriesAre(img, L, i, k);
      EntriesAre(r, L, i, k);
    }
  }

  /** Two trees with the same inodes and entries are one. */
  lemma SameTree(t: Tree, r: Tree)
    requires forall i: nat :: i in t.nodes <==> i in r.nodes
    requires forall i: nat :: i in t.nodes ==> t.nodes[i] == r.nodes[i]
    requires forall d: nat :: d in t.dirs <==> d in r.dirs
    requires forall d: nat :: d in t.dirs ==> t.dirs[d] == r.dirs[d]
    ensures t == r
  {
    assert t.nodes == r.nodes;
    assert t.dirs == r.dirs;
  }

  lemma EnteredIs(t: Tree, r: Tree, d: nat, e: Binding, node: Node)
    requires SameOutside(t, r, {d, e.1}) && d in t.dirs && d in t.nodes && d in r.nodes && d in r.dirs
    requires r.dirs[d] == t.dirs[d] + multiset{e} && r.nodes[d] == t.nodes[d]
    requires e.1 !in t.nodes && e.1 !in t.dirs && e.1 in r.nodes && e.1 !in r.dirs && r.nodes[e.1] == node
    ensures r == Entered(t, d, e, node)
  {
    SameTree(r, Entered(t, d, e, node));
  }

  lemma PlantedIs(t: Tree, r: Tree, d: nat, name: seq<byte>, ino: nat)
    requires SameOutside(t, r, {d, ino}) && d in t.dirs && d in t.nodes && d in r.nodes && d in r.dirs
    requires r.dirs[d] == t.dirs[d] + multiset{(name, ino, 2)}
    requires r.nodes[d] == Node(t.nodes[d].mode, t.nodes[d].links + 1)
    requires ino !in t.nodes && ino !in t.dirs && ino in r.nodes && ino in r.dirs && r.dirs[ino] == Dots(ino, d)
    requires r.nodes[ino] == Node(0x41ED, 2)
    ensures r == Planted(t, d, name, ino)
  {
    SameTree(r, Planted(t, d, name, ino));
  }

  /** `r` is `t` without entry `e` of `d` and without its inode. */
  ghost predicate Lacks(t: Tree, r: Tree, d: nat, e: Binding) {
    && SameOutside(t, r, {d, e.1}) && d in t.dirs && d in t.nodes && d in r.nodes && d in r.dirs && e.1 != d
    && t.dirs[d] == r.dirs[d] + multiset{e} && e.1 !in r.nodes && e.1 !in r.dirs
    && r.nodes[d].mode == t.nodes[d].mode && r.nodes[d].links == t.nodes[d].links - (if e.1 in t.dirs then 1 else 0)
  }

  lemma LackedNode(t: Tree, r: Tree, d: nat, e: Binding, i: nat)
    requires Lacks(t, r, d, e)
    ensures i in r.nodes <==> i in Pruned(t, d, e).nodes
    ensures i in r.nodes ==> r.nodes[i] == Pruned(t, d, e).nodes[i]
  {
    PrunedParts(t, d, e);
    hide Pruned;
  }

  lemma LackedDir(t: Tree, r: Tree, d: nat, e: Binding, c: nat)
    requires Lacks(t, r, d, e)
    ensures c in r.dirs <==> c in Pruned(t, d, e).dirs
    ensures c in r.dirs ==> r.dirs[c] == Pruned(t, d, e).dirs[c]
  {
    PrunedParts(t, d, e);
    hide Pruned;
    assert r.dirs[d] == t.dirs[d] - multiset{e};
  }

  lemma PrunedIs(t: Tree, r: Tree, d: nat, e: Binding)
    requires Lacks(t, r, d, e)
    ensures r == Pruned(t, d, e)
  {
    hide Pruned, SameOutside;
    var p := Pruned(t, d, e);
    forall i: nat ensures i in r.nodes <==> i in p.nodes ensures i in r.nodes ==> r.nodes[i] == p.nodes[i] {
      LackedNode(t, r, d, e, i);
    }
    forall c: nat ensures c in r.dirs <==> c in p.dirs ensures c in r.dirs ==> r.dirs[c] == p.dirs[c] {
      LackedDir(t, r, d, e, c);
    }
    SameTree(r, p);
  }

  // ----- the writers -----

  /** An append changes no name. */
  lemma AppendView(img: seq<byte>, L: Layout, ino: nat, data: seq<byte>)
    requires FileOk(img, L, ino) && Append(img, L, ino, data).0.Ok?
    ensures Fs(img, L) && Fs(Append(img, L, ino, data).1, L)
    ensures TreeOf(Append(img, L, ino, data).1, L) == TreeOf(img, L)
  {
    hide Geometry, Fs, FileOk, Append, OthersKept, TreeOf;
    AppendKeepsFs(img, L, ino, data);
    FileView(img, Append(img, L, ino, data).1, L, ino);
  }

  lemma FileView(img: seq<byte>, r: seq<byte>, L: Layout, ino: nat)
    requires FileOk(img, L, ino) && FileOk(r, L, ino) && OthersKept(img, r, L, {ino})
    requires NodeOf(r, L, ino) == NodeOf(img, L, ino)
    ensures Fs(img, L) && Fs(r, L) && TreeOf(r, L) == TreeOf(img, L)
  {
    hide Geometry, Fs, FileOk, OthersKept, TreeOf, EntriesOf, InodeUsed, DirectoryInode, NodeOf;
    FileOkMeans(img, L, ino);
    FileOkMeans(r, L, ino);
    OthersView(img, r, L, {ino});
    TreeReads(img, L);
    TreeReads(r, L);
    SameTree(TreeOf(r, L), TreeOf(img, L));
  }

  /** Nor does cutting a file back. */
  lemma TruncateView(img: seq<byte>, L: Layout, ino: nat, target: nat)
    requires FileOk(img, L, ino) && target <= SizeOf(img, L, ino)
    ensures var at := InodeAt(img, L, ino);
      at.Some? && SlotAt(at.value, CeilQuot(U32(img, at.value + 4), L.bs)) <= |img|
    ensures Fs(img, L) && Fs(Truncate(img, L, ino, target).1, L)
    ensures TreeOf(Truncate(img, L, ino, target).1, L) == TreeOf(img, L)
  {
    hide Geometry, Fs, FileOk, Truncate, OthersKept, TreeOf, InodeAt, U32;
    TruncateKeepsFs(img, L, ino, target);
    FileView(img, Truncate(img, L, ino, target).1, L, ino);
  }

  /** What the view of a folder is. */
  lemma FolderView(img: seq<byte>, L: Layout, d: nat, k: nat)
    requires FolderOk(img, L, d, k)
    ensures var t := TreeOf(img, L);
      && d in t.nodes && t.nodes[d] == NodeOf(img, L, d)
      && d in t.dirs && t.dirs[d] == multiset(Names(img, L, d, k, k))
  {
    hide Geometry, Fs, TreeOf, EntriesOf, InodeUsed, DirectoryInode, NodeOf, Dir, Names;
    TreeReads(img, L);
    EntriesAre(img, L, d, k);
  }

  /** A name the scan does not find is not taken. */
  lemma FreeName(img: seq<byte>, L: Layout, d: nat, k: nat, name: seq<byte>)
    requires FolderOk(img, L, d, k) && NoName(img, L, d, k, name)
    ensures !Taken(TreeOf(img, L), d, name)
  {
    hide Geometry, Fs, TreeOf, Dir, Names, InBlock;
    FolderView(img, L, d, k);
    var names := Names(img, L, d, k, k);
    if Has(names, name) { NamesInBlocks(img, L, d, k, k, name); }
    forall e: Binding | In(TreeOf(img, L), d, e) ensures e.0 != name {
      assert e in multiset(names);
      assert e in names;
    }
  }

  /** A successful create enters the new inode under the name, with kind 1, as a regular file with
      one link. */
  lemma CreateView(img: seq<byte>, L: Layout, d: nat, k: nat, name: seq<byte>)
    requires FolderOk(img, L, d, k)
    ensures CreateInBounds(img, L, d, name)
    ensures var c := CreateFile(img, L, d, name);
      c.0.Ok? ==>
        && Fs(c.1, L) && d in TreeOf(img, L).dirs && c.0.value !in TreeOf(img, L).nodes
        && !Taken(TreeOf(img, L), d, name)
        && TreeOf(c.1, L) == Entered(TreeOf(img, L), d, (name, c.0.value, 1), Node(0x81A4, 1))
  {
    hide Geometry, Fs, FolderOk, CreateFile, OthersKept, TreeOf, EntriesOf, InodeUsed, DirectoryInode, NodeOf, Dir,
      Names, CreateInBounds, FileOk, NoName, SameOutside, Entered, Taken;
    CreateKeepsFs(img, L, d, k, name);
    var c := CreateFile(img, L, d, name);
    if c.0.Ok? {
      var r, ino := c.1, c.0.value;
      FileOkMeans(r, L, ino);
      FreeName(img, L, d, k, name);
      OthersView(img, r, L, {d, ino});
      FolderView(img, L, d, k);
      FolderView(r, L, d, k);
      TreeReads(img, L);
      TreeReads(r, L);
      EnteredIs(TreeOf(img, L), TreeOf(r, L), d, (name, ino, 1), Node(0x81A4, 1));
    }
  }

  /** A successful mkdir plants a directory: kind 2 three times over, two links of its own and one
      more of the directory above. */
  lemma MkdirView(img: seq<byte>, L: Layout, d: nat, k: nat, name: seq<byte>)
    requires FolderOk(img, L, d, k)
    ensures MkdirInBounds(img, L, d, name)
    ensures var c := CreateDirectory(img, L, d, name);
      c.0.Ok? ==>
        && Fs(c.1, L) && d in TreeOf(img, L).dirs && d in TreeOf(img, L).nodes
        && c.0.value !in TreeOf(img, L).nodes && !Taken(TreeOf(img, L), d, name)
        && TreeOf(c.1, L) == Planted(TreeOf(img, L), d, name, c.0.value)
  {
    hide Geometry, Fs, FolderOk, CreateDirectory, OthersKept, TreeOf, EntriesOf, InodeUsed, DirectoryInode, NodeOf,
      Dir, Names, MkdirInBounds, NoName, SameOutside, Planted, Taken;
    MkdirKeepsFs(img, L, d, k, name);
    var c := CreateDirectory(img, L, d, name);
    if c.0.Ok? {
      var r, ino := c.1, c.0.value;
      FreeName(img, L, d, k, name);
      OthersView(img, r, L, {d, ino});
      FolderView(img, L, d, k);
      FolderView(r, L, d, k);
      FolderView(r, L, ino, 1);
      TreeReads(img, L);
      TreeReads(r, L);
      TwoEntries((DOT, ino, 2), (DOT_DOT, d, 2));
      PlantedIs(TreeOf(img, L), TreeOf(r, L), d, name, ino);
    }
  }

  lemma TwoEntries(e: Binding, f: Binding)
    ensures multiset([e, f]) == multiset{e} + multiset{f}
  {
    assert [e, f] == [e] + [f];
  }

  /** A successful unlink prunes the entry and its inode. */
  lemma UnlinkView(img: seq<byte>, L: Layout, d: nat, k: nat, name: seq<byte>)
    requires FolderOk(img, L, d, k) && VictimOk(img, L, d, name)
    ensures UnlinkInBounds(img, L, d, name)
    ensures var u := UnlinkFile(img, L, d, name);
      u.0.Ok? ==>
        && PlanRemove(img, L, d, name).Ok? && Fs(u.1, L)
        && var e, t := Removed(img, L, d, name), TreeOf(img, L);
           && In(t, d, e) && d in t.nodes && e.1 in t.nodes && e.1 != d && e.1 !in t.dirs
           && TreeOf(u.1, L) == Pruned(t, d, e)
  {
    hide Geometry, Fs, FolderOk, OthersKept, TreeOf, EntriesOf, InodeUsed, DirectoryInode, NodeOf, Dir, Names,
      UnlinkInBounds, VictimOk, PlanRemove, UnlinkFile;
    UnlinkKeepsFs(img, L, d, k, name);
    var u := UnlinkFile(img, L, d, name);
    if u.0.Ok? {
      var r, ino := u.1, PlanRemove(img, L, d, name).value.ino;
      RegularVictim(img, L, d, k, name);
      RemovalView(img, r, L, d, k, Removed(img, L, d, name));
    }
  }

  /** What was unlinked is no directory. */
  lemma RegularVictim(img: seq<byte>, L: Layout, d: nat, k: nat, name: seq<byte>)
    requires FolderOk(img, L, d, k) && UnlinkInBounds(img, L, d, name) && UnlinkFile(img, L, d, name).0.Ok?
    ensures PlanRemove(img, L, d, name).Ok? && IsInode(L, PlanRemove(img, L, d, name).value.ino)
    ensures !DirectoryInode(img, L, PlanRemove(img, L, d, name).value.ino) && PlanRemove(img, L, d, name).value.ino != d
  {
    hide Geometry, Fs, Dir, PlanRemove, Release, Remove, InodeAt, U16, RecLen, U32, CeilQuot;
    var v := PlanRemove(img, L, d, name).value;
    var j, s := VictimShape(img, L, d, k, name);
    DirectoryIs(img, L, v.ino, v.at);
    FolderIsNotFile(img, L, d, k, v.ino, v.at);
  }

  /** The view of a removal. */
  lemma RemovalView(img: seq<byte>, r: seq<byte>, L: Layout, d: nat, k: nat, e: Binding)
    requires FolderOk(img, L, d, k) && FolderOk(r, L, d, k) && IsUsed(img, L, e.1) && !InodeUsed(r, L, e.1) && e.1 != d
    requires OthersKept(img, r, L, {d, e.1})
    requires multiset(Names(img, L, d, k, k)) == multiset(Names(r, L, d, k, k)) + multiset{e}
    requires Relinked(img, r, L, d, if DirectoryInode(img, L, e.1) then -1 else 0)
    ensures var t := TreeOf(img, L);
      && In(t, d, e) && d in t.nodes && e.1 in t.nodes && (e.1 in t.dirs <==> DirectoryInode(img, L, e.1))
      && TreeOf(r, L) == Pruned(t, d, e)
  {
    hide Geometry, Fs, FolderOk, OthersKept, TreeOf, EntriesOf, InodeUsed, DirectoryInode, NodeOf, Dir, Names,
      SameOutside, Pruned;
    OthersView(img, r, L, {d, e.1});
    FolderView(img, L, d, k);
    FolderView(r, L, d, k);
    TreeReads(img, L);
    TreeReads(r, L);
    PrunedIs(TreeOf(img, L), TreeOf(r, L), d, e);
  }

  /** A successful rmdir prunes the entry and its directory. */
  lemma RmdirView(img: seq<byte>, L: Layout, d: nat, k: nat, name: seq<byte>)
    requires FolderOk(img, L, d, k) && SubdirOk(img, L, d, name)
    ensures RmdirInBounds(img, L, d, name)
    ensures var u := RemoveDirectory(img, L, d, name);
      u.0.Ok? ==>
        && PlanRemove(img, L, d, name).Ok? && Fs(u.1, L)
        && var e, t := Removed(img, L, d, name), TreeOf(img, L);
           && In(t, d, e) && d in t.nodes && e.1 in t.dirs && e.1 != d
           && TreeOf(u.1, L) == Pruned(t, d, e)
           && exists kv: nat :: Dir(img, L, e.1, kv) && FirstBlockDots(img, L, e.1, kv)
  {
    hide Geometry, Fs, FolderOk, OthersKept, TreeOf, EntriesOf, InodeUsed, DirectoryInode, NodeOf, Dir, Names,
      RmdirInBounds, PlanRemove, RemoveDirectory, FirstBlockDots, U16, InodeAt;
    RmdirKeepsFs(img, L, d, k, name);
    var u := RemoveDirectory(img, L, d, name);
    if u.0.Ok? {
      var r, ino := u.1, PlanRemove(img, L, d, name).value.ino;
      var kv: nat :| Dir(img, L, ino, kv) && FirstBlockDots(img, L, ino, kv);
      DirIsDirectory(img, L, ino, kv);
      UsedVictim(img, L, d, k, name, kv);
      RemovalView(img, r, L, d, k, Removed(img, L, d, name));
    }
  }

  lemma UsedVictim(img: seq<byte>, L: Layout, d: nat, k: nat, name: seq<byte>, kv: nat)
    requires FolderOk(img, L, d, k) && SubdirOk(img, L, d, name) && PlanRemove(img, L, d, name).Ok?
    requires Dir(img, L, PlanRemove(img, L, d, name).value.ino, kv)
    ensures IsUsed(img, L, PlanRemove(img, L, d, name).value.ino)
  {
    hide Geometry, Fs, FolderOk, Dir, PlanRemove, InodeUsed, U16, InodeAt;
    var v := PlanRemove(img, L, d, name).value;
    var j, s := VictimShape(img, L, d, k, name);
    DirIsDirectory(img, L, v.ino, kv);
    DirectoryIs(img, L, v.ino, v.at);
  }

  // ----- where names lead -----

  /** A successful create keeps every name leading to an inode in use. */
  lemma CreateLeads(img: seq<byte>, L: Layout, d: nat, k: nat, name: seq<byte>)
    requires FolderOk(img, L, d, k) && NamesLead(TreeOf(img, L))
    ensures CreateInBounds(img, L, d, name)
    ensures var c := CreateFile(img, L, d, name); c.0.Ok? ==> Fs(c.1, L) && NamesLead(TreeOf(c.1, L))
  {
    hide Fs, FolderOk, CreateFile, TreeOf, CreateInBounds, NamesLead, Entered;
    CreateView(img, L, d, k, name);
    var c := CreateFile(img, L, d, name);
    if c.0.Ok? { EnteredLeads(TreeOf(img, L), d, (name, c.0.value, 1), Node(0x81A4, 1)); }
  }

  /** So does a successful mkdir. */
  lemma MkdirLeads(img: seq<byte>, L: Layout, d: nat, k: nat, name: seq<byte>)
    requires FolderOk(img, L, d, k) && NamesLead(TreeOf(img, L))
    ensures MkdirInBounds(img, L, d, name)
    ensures var c := CreateDirectory(img, L, d, name); c.0.Ok? ==> Fs(c.1, L) && NamesLead(TreeOf(c.1, L))
  {
    hide Fs, FolderOk, CreateDirectory, TreeOf, MkdirInBounds, NamesLead, Planted;
    MkdirView(img, L, d, k, name);
    var c := CreateDirectory(img, L, d, name);
    if c.0.Ok? {
      DirsAreUsed(img, L);
      PlantedLeads(TreeOf(img, L), d, name, c.0.value);
    }
  }

  lemma DirsAreUsed(img: seq<byte>, L: Layout)
    requires Fs(img, L)
    ensures TreeOf(img, L).dirs.Keys <= TreeOf(img, L).nodes.Keys
  {
    hide Fs, TreeOf, EntriesOf, InodeUsed, DirectoryInode;
    TreeReads(img, L);
  }

  /** A successful unlink does exactly when no other live record led to the inode: it does not
      look at the link count. */
  lemma UnlinkLeads(img: seq<byte>, L: Layout, d: nat, k: nat, name: seq<byte>)
    requires FolderOk(img, L, d, k) && VictimOk(img, L, d, name) && NamesLead(TreeOf(img, L))
    ensures UnlinkInBounds(img, L, d, name)
    ensures var u := UnlinkFile(img, L, d, name);
      u.0.Ok? ==>
        && PlanRemove(img, L, d, name).Ok? && Fs(u.1, L)
        && (NamesLead(TreeOf(u.1, L)) <==> Sole(TreeOf(img, L), d, Removed(img, L, d, name)))
  {
    hide Fs, FolderOk, UnlinkFile, TreeOf, UnlinkInBounds, NamesLead, Pruned, PlanRemove, VictimOk, Sole, In;
    UnlinkView(img, L, d, k, name);
    var u := UnlinkFile(img, L, d, name);
    if u.0.Ok? { PrunedLeads(TreeOf(img, L), d, Removed(img, L, d, name)); }
  }

  /** And a successful rmdir exactly when no live record outside the directory but the removed one
      led to it: no `..` of a directory that was still in it, say. */
  lemma RmdirLeads(img: seq<byte>, L: Layout, d: nat, k: nat, name: seq<byte>)
    requires FolderOk(img, L, d, k) && SubdirOk(img, L, d, name) && NamesLead(TreeOf(img, L))
    ensures RmdirInBounds(img, L, d, name)
    ensures var u := RemoveDirectory(img, L, d, name);
      u.0.Ok? ==>
        && PlanRemove(img, L, d, name).Ok? && Fs(u.1, L)
        && (NamesLead(TreeOf(u.1, L)) <==> Sole(TreeOf(img, L), d, Removed(img, L, d, name)))
  {
    hide Fs, FolderOk, RemoveDirectory, TreeOf, RmdirInBounds, NamesLead, Pruned, PlanRemove, SubdirOk, Sole, In, Dir,
      FirstBlockDots;
    RmdirView(img, L, d, k, name);
    var u := RemoveDirectory(img, L, d, name);
    if u.0.Ok? { PrunedLeads(TreeOf(img, L), d, Removed(img, L, d, name)); }
  }

  /** A name found in a directory leads where the view says. */
  lemma VictimIn(img: seq<byte>, L: Layout, d: nat, k: nat, name: seq<byte>)
    requires FolderOk(img, L, d, k) && PlanRemove(img, L, d, name).Ok?
    ensures In(TreeOf(img, L), d, Removed(img, L, d, name))
  {
    hide Fs, Dir, TreeOf, PlanRemove, Names, FoundIn, U32;
    var j, s := VictimShape(img, L, d, k, name);
    FoundIsName(img, L, d, k, j, name, s);
    FolderView(img, L, d, k);
  }

  /** A directory without names is bare in the view. */
  lemma DotsAreBare(img: seq<byte>, L: Layout, v: nat, kv: nat)
    requires Fs(img, L) && IsUsed(img, L, v) && Dir(img, L, v, kv) && OnlyDots(Names(img, L, v, kv, kv))
    ensures Bare(TreeOf(img, L), v)
  {
    hide Geometry, Fs, Dir, TreeOf, Names, EntriesOf, InodeUsed, DirectoryInode;
    EntriesAre(img, L, v, kv);
    TreeReads(img, L);
    var names := Names(img, L, v, kv, kv);
    forall e: Binding | In(TreeOf(img, L), v, e) ensures !Proper(e) {
      assert e in multiset(names);
      assert e in names;
    }
  }
}
