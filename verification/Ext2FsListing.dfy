/** What a listing tells: the reader's walk over a directory of a sound image, its kinds and its link
    counts, against the inodes it leads to. */
module Ext2FsListing {
  import opened Wrappers
  import opened Bytes
  import opened Ext2Layout
  import opened Ext2Areas
  import opened Ext2Unwind
  import opened Ext2Append
  import opened Ext2Dirent
  import opened Ext2DirBlock
  import opened Ext2Directory
  import opened Ext2Reader
  import opened Ext2Walk
  import opened Ext2Lookup
  import opened Ext2Ops
  import opened Ext2Steps
  import opened Ext2Fs
  import opened Ext2FsFile
  import opened Ext2FsCut
  import opened Ext2FsNames
  import opened Ext2Tree
  import opened Ext2FsView
  import opened Ext2FsRuns

  /** The decoded inode carries the mode and the link count the invariant speaks of. */
  lemma DecodedNode(img: seq<byte>, L: Layout, ino: nat, inode: Inode)
    requires Geometry(img, L) && IsInode(L, ino) && InodeOf(img, L, ino) == Got(inode)
    ensures Node(inode.mode, inode.links) == NodeOf(img, L, ino)
    ensures SectorsRight(img, L, ino) <==> 512 * inode.blocks512 == Times(CeilQuot(SizeOf(img, L, ino), L.bs), L.bs)
  {
    hide Geometry, U16, U32, Times, InodeAt, InodeOf, CeilQuot;
    InodeSlot(img, L, ino);
    InodeOfFields(img, L, ino, inode);
  }

  /** A directory in use of a sound image is one the walk's theorems speak of. */
  lemma SoundView(img: seq<byte>, L: Layout, d: nat, k: nat, inode: Inode)
    requires Sound(img, L) && IsUsed(img, L, d) && Dir(img, L, d, k) && InodeOf(img, L, d) == Got(inode)
    requires |inode.blocks| == 15 && inode.blocks[13] == 0 && inode.blocks[14] == 0
    ensures View(img, L, d, k, inode)
  {
    hide Fs, TreeOk, LinksCounted, TreeOf, EntriesOf, Dir, Names, InodeOf, Tells, Geometry, InodeUsed, DirectoryInode;
    EntriesAre(img, L, d, k);
    var names := Names(img, L, d, k, k);
    forall i | 0 <= i < |names| ensures names[i].1 <= L.inodesCount {
      assert names[i] in multiset(names);
      SoundTells(img, L, d, names[i]);
      TellsMeans(img, L, names[i]);
    }
  }

  lemma TellsMeans(img: seq<byte>, L: Layout, e: Binding)
    requires Fs(img, L) && Tells(img, L, e)
    ensures IsUsed(img, L, e.1) && e.1 <= L.inodesCount
    ensures e.2 == 1 <==> IsRegularMode(NodeOf(img, L, e.1).mode)
    ensures e.2 == 2 <==> IsDirectoryMode(NodeOf(img, L, e.1).mode)
    ensures NodeOf(img, L, e.1).links == |Leading(TreeOf(img, L), e.1)|
  {
    hide Fs, TreeOf, NodeOf, Leading, InodeUsed;
  }

  /** What an entry of a listing says is so: it leads to an inode in use; if that can be read at all,
      the entry says regular file (directory) exactly when the inode's mode does, and its link count
      is the number of records that lead to it. */
  ghost predicate Truthful(img: seq<byte>, L: Layout, e: DirEntry)
    requires Fs(img, L)
  {
    && IsUsed(img, L, e.inode)
    && (InodeOf(img, L, e.inode).Got? ==>
          var inode := InodeOf(img, L, e.inode).value;
          && (e.IsRegularFile() <==> IsRegularMode(inode.mode)) && (e.IsDirectory() <==> IsDirectoryMode(inode.mode))
          && inode.links == |Leading(TreeOf(img, L), e.inode)|)
  }

  /** Listing any directory of a sound image succeeds, and every entry is truthful. */
  lemma ListingTells(img: seq<byte>, L: Layout, d: nat, k: nat, inode: Inode)
    requires Sound(img, L) && IsUsed(img, L, d) && Dir(img, L, d, k) && InodeOf(img, L, d) == Got(inode)
    requires |inode.blocks| == 15 && inode.blocks[13] == 0 && inode.blocks[14] == 0
    ensures var items := Walk(img, L, inode, Start(L, 0));
      && AllEntries(items) && Bound(items) == Names(img, L, d, k, k)
      && forall i :: 0 <= i < |items| ==> Truthful(img, L, items[i].entry)
  {
    hide Fs, Sound, TreeOf, EntriesOf, Dir, Names, InodeOf, Tells, Geometry, InodeUsed, DirectoryInode, Walk, View,
      Truthful, Start;
    SoundView(img, L, d, k, inode);
    WalkIsNames(img, L, d, k, inode);
    var items := Walk(img, L, inode, Start(L, 0));
    assert Fs(img, L) by { SoundIsFs(img, L); }
    EntriesAre(img, L, d, k);
    forall i | 0 <= i < |items| ensures Truthful(img, L, items[i].entry) {
      var e := BoundBy(items[i].entry);
      assert Bound(items)[i] == e && e in multiset(Names(img, L, d, k, k));
      SoundTells(img, L, d, e);
      EntryTruthful(img, L, items[i].entry);
    }
  }

  lemma EntryTruthful(img: seq<byte>, L: Layout, x: DirEntry)
    requires Fs(img, L) && Tells(img, L, BoundBy(x))
    ensures Truthful(img, L, x)
  {
    hide Fs, TreeOf, InodeOf, Tells, Geometry, InodeUsed, NodeOf, Leading;
    TellsMeans(img, L, BoundBy(x));
    if InodeOf(img, L, x.inode).Got? { DecodedNode(img, L, x.inode, InodeOf(img, L, x.inode).value); }
  }

  // ----- lookups -----

  /** The entries of a sound image's directory have distinct names. */
  lemma SoundDistinct(img: seq<byte>, L: Layout, d: nat, k: nat)
    requires Sound(img, L) && IsUsed(img, L, d) && Dir(img, L, d, k)
    ensures DistinctNames(Names(img, L, d, k, k))
    ensures forall e: Binding :: In(TreeOf(img, L), d, e) <==> e in Names(img, L, d, k, k)
  {
    hide Fs, TreeOk, LinksRight, AllDots, UpToBinder, TreeOf, EntriesOf, Dir, Names, Geometry, InodeUsed,
      DirectoryInode, NameOk;
    EntriesAre(img, L, d, k);
    TreeReads(img, L);
    var t, names := TreeOf(img, L), Names(img, L, d, k, k);
    forall e: Binding ensures In(t, d, e) <==> e in names {
      assert e in names <==> e in multiset(names);
    }
    forall i, j | 0 <= i < j < |names| ensures names[i].0 != names[j].0 {
      if names[i].0 == names[j].0 {
        assert In(t, d, names[i]) && In(t, d, names[j]);
        assert t.dirs[d][names[i]] == 1;
        TwiceIn(names, i, j);
      }
    }
  }

  lemma TwiceIn(s: seq<Binding>, i: nat, j: nat)
    requires i < j < |s| && s[i] == s[j]
    ensures multiset(s)[s[i]] >= 2
  {
    assert s == s[..j] + [s[j]] + s[j + 1..];
    assert s[..j][i] == s[i];
    assert s[i] in multiset(s[..j]);
  }

  /** In a directory of a sound image a lookup misses exactly the names that are not taken, and leads
      to the one inode every other name is bound to. */
  lemma SoundLookup(img: seq<byte>, L: Layout, d: nat, k: nat, inode: Inode, name: seq<byte>)
    requires Sound(img, L) && IsUsed(img, L, d) && Dir(img, L, d, k) && InodeOf(img, L, d) == Got(inode)
    requires |inode.blocks| == 15 && inode.blocks[13] == 0 && inode.blocks[14] == 0
    ensures LookupIn(img, L, inode, name) == Bad(NotFound) <==> !Taken(TreeOf(img, L), d, name)
    ensures forall e: Binding :: In(TreeOf(img, L), d, e) && e.0 == name ==>
      LookupIn(img, L, inode, name) == InodeOf(img, L, e.1)
  {
    hide Fs, Sound, TreeOf, Dir, Names, InodeOf, Geometry, InodeUsed, Walk, View, Start, In;
    SoundView(img, L, d, k, inode);
    WalkIsNames(img, L, d, k, inode);
    SoundDistinct(img, L, d, k);
    ViewMeans(img, L, d, k, inode);
    ViewFields(img, L, d, k, inode);
    var items, names := Walk(img, L, inode, Start(L, 0)), Names(img, L, d, k, k);
    SearchFinds(img, L, items, name);
    forall e: Binding | In(TreeOf(img, L), d, e) && e.0 == name
      ensures LookupIn(img, L, inode, name) == InodeOf(img, L, e.1) != Bad(NotFound)
    {
      var j :| 0 <= j < |names| && names[j] == e;
      assert Has(names, name);
      var i :| FirstOf(img, L, items, name, i);
      assert names[i] == BoundBy(items[i].entry) && names[i].0 == name;
      assert i == j;
      InodeOfIsNotNotFound(img, L, e.1);
    }
    if Has(names, name) {
      var j :| 0 <= j < |names| && names[j].0 == name;
      assert In(TreeOf(img, L), d, names[j]);
    }
  }

  /** What `create_file` made is found under its name afterwards. */
  lemma CreatedIsFound(img: seq<byte>, L: Layout, d: nat, k: nat, name: seq<byte>, dir: Inode)
    requires Sound(img, L) && FolderOk(img, L, d, k)
    requires CreateInBounds(img, L, d, name) && CreateFile(img, L, d, name).0.Ok?
    requires InodeOf(CreateFile(img, L, d, name).1, L, d) == Got(dir)
    requires |dir.blocks| == 15 && dir.blocks[13] == 0 && dir.blocks[14] == 0
    ensures var c := CreateFile(img, L, d, name);
      LayoutOf(|c.1|, L) && LookupIn(c.1, L, dir, name) == InodeOf(c.1, L, c.0.value)
  {
    hide Fs, Sound, TreeOf, FolderOk, CreateFile, CreateInBounds, InodeOf, LookupIn, FileOk, OthersKept, Content, Names,
      Geometry, NodeOf, SectorsRight, Dir, Entered;
    var c := CreateFile(img, L, d, name);
    CreateSound(img, L, d, k, name);
    CreateKeepsFs(img, L, d, k, name);
    CreateView(img, L, d, k, name);
    FolderParts(c.1, L, d, k);
    SoundLookup(c.1, L, d, k, dir, name);
    var e: Binding := (name, c.0.value, 1);
    EnteredEntries(TreeOf(img, L), d, e, Node(0x81A4, 1));
  }

  /** What `unlink_file` took away is not. */
  lemma UnlinkedIsGone(img: seq<byte>, L: Layout, d: nat, k: nat, name: seq<byte>, dir: Inode)
    requires Sound(img, L) && FolderOk(img, L, d, k) && VictimOk(img, L, d, name)
    requires UnlinkInBounds(img, L, d, name) && UnlinkFile(img, L, d, name).0.Ok?
    requires InodeOf(UnlinkFile(img, L, d, name).1, L, d) == Got(dir)
    requires |dir.blocks| == 15 && dir.blocks[13] == 0 && dir.blocks[14] == 0
    ensures var u := UnlinkFile(img, L, d, name); LayoutOf(|u.1|, L) && LookupIn(u.1, L, dir, name) == Bad(NotFound)
  {
    hide Fs, TreeOf, FolderOk, UnlinkFile, UnlinkInBounds, InodeOf, LookupIn, OthersKept, Names, VictimOk, TreeOk,
      Geometry, NodeOf, Dir, Pruned, PlanRemove, LinksRight, AllDots, UpToBinder, NameOk;
    var u := UnlinkFile(img, L, d, name);
    UnlinkSound(img, L, d, k, name);
    UnlinkKeepsFs(img, L, d, k, name);
    UnlinkView(img, L, d, k, name);
    FolderParts(u.1, L, d, k);
    SoundLookup(u.1, L, d, k, dir, name);
    var t, e := TreeOf(img, L), Removed(img, L, d, name);
    PrunedEntries(t, d, e);
    assert t.dirs[d][e] == 1;
  }

  lemma FolderParts(img: seq<byte>, L: Layout, d: nat, k: nat)
    requires FolderOk(img, L, d, k)
    ensures Fs(img, L) && IsUsed(img, L, d) && Dir(img, L, d, k) && LayoutOf(|img|, L)
  {
  }
}
