/** Absolute paths: splitting at the slashes, following the components from the root, and what a
    path means on a sound image. */
module Ext2Path {
  import opened Wrappers
  import opened Bytes
  import opened Ext2Layout
  import opened Ext2Areas
  import opened Ext2Unwind
  import opened Ext2Append
  import opened Ext2Dirent
  import opened Ext2Directory
  import opened Ext2Reader
  import opened Ext2Lookup
  import opened Ext2Fs
  import opened Ext2FsNames
  import opened Ext2Tree
  import opened Ext2FsView
  import opened Ext2FsRuns
  import opened Ext2FsListing

  const ROOT_INODE := 2
  const MAX_PATH_COMPONENTS := 64

  // ----- the path -----

  /** `path.split`: the pieces between the slashes, empty ones included. */
  function Pieces(path: seq<byte>): (r: seq<seq<byte>>)
    ensures |r| > 0
  {
    if path == [] then [[]]
    else
      var rest := Pieces(path[1..]);
      if path[0] == 47 then [[]] + rest else [[path[0]] + rest[0]] + rest[1..]
  }

  /** The loop of `lookup`; `count` components are behind it. */
  function Follow(img: seq<byte>, L: Layout, current: Inode, pieces: seq<seq<byte>>, count: nat): Read<Inode>
    requires LayoutOf(|img|, L) && |current.blocks| == 15
    decreases |pieces|
  {
    if pieces == [] then Got(current)
    else if pieces[0] == [] then Follow(img, L, current, pieces[1..], count)
    else if count + 1 > MAX_PATH_COMPONENTS then Bad(PathTooManyComponents(MAX_PATH_COMPONENTS))
    else
      match LookupIn(img, L, current, pieces[0])
      case Bad(e) => Bad(e)
      case Got(next) => Follow(img, L, next, pieces[1..], count + 1)
  }

  /** `lookup`. */
  function Lookup(img: seq<byte>, L: Layout, path: seq<byte>): Read<Inode>
    requires LayoutOf(|img|, L)
  {
    if path == [] || path[0] != 47 then Bad(PathNotAbsolute)
    else
      match InodeOf(img, L, ROOT_INODE)
      case Bad(e) => Bad(e)
      case Got(root) =>
        match Follow(img, L, root, Pieces(path), 0)
        case Bad(e) => Bad(e)
        case Got(found) =>
          if path[|path| - 1] == 47 && !IsDirectoryMode(found.mode) then Bad(NotDirectory(found.number)) else Got(found)
  }

  /** The components: the pieces that are not empty. */
  function Proper(pieces: seq<seq<byte>>): seq<seq<byte>> {
    if pieces == [] then []
    else if pieces[0] == [] then Proper(pieces[1..])
    else [pieces[0]] + Proper(pieces[1..])
  }

  /** Components a path can have. */
  ghost predicate Plain(names: seq<seq<byte>>) {
    forall i :: 0 <= i < |names| ==> names[i] != [] && 47 !in names[i]
  }

  /** The path that spells them: a slash before each. */
  function Spell(names: seq<seq<byte>>): seq<byte> {
    if names == [] then [] else [47] + names[0] + Spell(names[1..])
  }

  lemma {:induction false} PiecesAfter(name: seq<byte>, rest: seq<byte>)
    requires 47 !in name && (rest == [] || rest[0] == 47)
    ensures Pieces(name + rest) == [name] + Pieces(rest)[1..]
  {
    if name == [] {
      assert name + rest == rest;
      assert Pieces(rest)[0] == [];
    } else {
      var path := name + rest;
      assert path[0] == name[0] && path[1..] == name[1..] + rest;
      PiecesAfter(name[1..], rest);
      assert [name[0]] + name[1..] == name;
    }
  }

  lemma ProperHead(pieces: seq<seq<byte>>)
    requires |pieces| > 0 && pieces[0] == []
    ensures Proper(pieces) == Proper(pieces[1..])
  {
  }

  /** Splitting undoes spelling; a slash at the end changes nothing. */
  lemma {:induction false} SplitSpelled(names: seq<seq<byte>>, tail: seq<byte>)
    requires Plain(names) && (tail == [] || tail == [47])
    ensures Proper(Pieces(Spell(names) + tail)) == names
  {
    if names == [] {
      assert Spell(names) + tail == tail;
      SplitTail(tail);
    } else {
      var rest := Spell(names[1..]) + tail;
      assert Spell(names) + tail == [47] + (names[0] + rest);
      PiecesAfter(names[0], rest);
      SplitSpelled(names[1..], tail);
      SplitSlash(names[0] + rest);
      assert Pieces(rest)[0] == [];
      ProperHead(Pieces(rest));
      NextProper(Pieces(names[0] + rest), names[0], Pieces(rest)[1..]);
    }
  }

  lemma SplitTail(tail: seq<byte>)
    requires tail == [] || tail == [47]
    ensures Proper(Pieces(tail)) == []
  {
    if tail == [47] {
      assert tail[1..] == [];
      ProperHead(Pieces(tail));
      assert Pieces(tail)[1..] == Pieces([]);
    }
    ProperHead(Pieces([]));
  }

  /** A slash at the front is an empty piece. */
  lemma SplitSlash(path: seq<byte>)
    ensures Proper(Pieces([47] + path)) == Proper(Pieces(path))
  {
    assert ([47] + path)[1..] == path;
    assert Pieces([47] + path) == [[]] + Pieces(path);
    ProperHead([[]] + Pieces(path));
  }

  lemma NextProper(pieces: seq<seq<byte>>, name: seq<byte>, rest: seq<seq<byte>>)
    requires pieces == [name] + rest && name != []
    ensures Proper(pieces) == [name] + Proper(rest)
  {
    assert pieces[1..] == rest;
  }

  // ----- the tree -----

  /** From directory `d` the components lead to inode `i`. */
  ghost predicate Leads(t: Tree, d: nat, names: seq<seq<byte>>, i: nat)
    decreases |names|
  {
    if names == [] then d == i
    else exists e: Binding :: In(t, d, e) && e.0 == names[0] && Leads(t, e.1, names[1..], i)
  }

  /** In a tree with distinct names they lead to one inode at most. */
  lemma {:induction false} LeadsOnce(t: Tree, d: nat, names: seq<seq<byte>>, i: nat, j: nat)
    requires Spelled(t) && Leads(t, d, names, i) && Leads(t, d, names, j)
    ensures i == j
    decreases |names|
  {
    if names != [] {
      var e: Binding :| In(t, d, e) && e.0 == names[0] && Leads(t, e.1, names[1..], i);
      var f: Binding :| In(t, d, f) && f.0 == names[0] && Leads(t, f.1, names[1..], j);
      assert e == f;
      LeadsOnce(t, e.1, names[1..], i, j);
    }
  }

  /** Every inode in use can be read, and no directory uses double or triple indirection. */
  ghost predicate AllDecode(img: seq<byte>, L: Layout)
    requires Fs(img, L)
  {
    forall i: nat {:trigger IsUsed(img, L, i)} :: IsUsed(img, L, i) ==> DecodesPlainly(img, L, i)
  }

  ghost predicate DecodesPlainly(img: seq<byte>, L: Layout, i: nat)
    requires LayoutOf(|img|, L)
  {
    && InodeOf(img, L, i).Got?
    && var inode := InodeOf(img, L, i).value;
       |inode.blocks| == 15 && (IsDirectoryMode(inode.mode) ==> inode.blocks[13] == 0 && inode.blocks[14] == 0)
  }

  /** One component: the entry of that name, or the right refusal. */
  lemma OneComponent(img: seq<byte>, L: Layout, d: nat, current: Inode, name: seq<byte>)
    requires Sound(img, L) && AllDecode(img, L) && IsUsed(img, L, d) && InodeOf(img, L, d) == Got(current)
    ensures |current.blocks| == 15
    ensures var r, t := LookupIn(img, L, current, name), TreeOf(img, L);
      && (r.Got? <==> Taken(t, d, name))
      && (forall e: Binding :: In(t, d, e) && e.0 == name ==> IsUsed(img, L, e.1) && r == InodeOf(img, L, e.1))
      && (!Taken(t, d, name) ==> r == Bad(if d in t.dirs then NotFound else NotDirectory(current.number)))
  {
    hide Fs, Sound, TreeOf, Dir, Names, InodeOf, Geometry, InodeUsed, View, LookupIn, NodeOf;
    assert DecodesPlainly(img, L, d);
    var t := TreeOf(img, L);
    assert Fs(img, L) by { SoundIsFs(img, L); }
    TreeReads(img, L);
    DecodedNode(img, L, d, current);
    if d in t.dirs {
      var k := Folder(img, L, d);
      FolderParts(img, L, d, k);
      SoundLookup(img, L, d, k, current, name);
      forall e: Binding | In(t, d, e) && e.0 == name ensures IsUsed(img, L, e.1) && InodeOf(img, L, e.1).Got? {
        EntryUsed(img, L, d, e);
        assert DecodesPlainly(img, L, e.1);
      }
    } else {
      NoDirectoryLookup(img, L, current, name);
    }
  }

  lemma EntryUsed(img: seq<byte>, L: Layout, d: nat, e: Binding)
    requires Sound(img, L) && In(TreeOf(img, L), d, e)
    ensures IsUsed(img, L, e.1)
  {
    hide Fs, TreeOf, InodeUsed;
    TreeReads(img, L);
  }

  lemma NoDirectoryLookup(img: seq<byte>, L: Layout, current: Inode, name: seq<byte>)
    requires LayoutOf(|img|, L) && |current.blocks| == 15 && !IsDirectoryMode(current.mode)
    ensures LookupIn(img, L, current, name) == Bad(NotDirectory(current.number))
  {
  }

  /** Following pieces from a directory leads where the tree says, within the limit on components. */
  lemma {:induction false} FollowsTree(img: seq<byte>, L: Layout, d: nat, current: Inode, pieces: seq<seq<byte>>,
      count: nat)
    requires Sound(img, L) && AllDecode(img, L) && IsUsed(img, L, d) && InodeOf(img, L, d) == Got(current)
    requires count + |Proper(pieces)| <= 64
    ensures |current.blocks| == 15
    ensures var r, t := Follow(img, L, current, pieces, count), TreeOf(img, L);
      && (r.Got? <==> exists i: nat :: Leads(t, d, Proper(pieces), i))
      && (forall i: nat :: Leads(t, d, Proper(pieces), i) ==> IsUsed(img, L, i) && r == InodeOf(img, L, i))
    decreases |pieces|
  {
    hide Fs, Sound, TreeOf, InodeOf, Geometry, InodeUsed, LookupIn, AllDecode;
    OneComponent(img, L, d, current, if pieces == [] then [] else pieces[0]);
    var t := TreeOf(img, L);
    if pieces == [] {
      assert Leads(t, d, Proper(pieces), d);
    } else if pieces[0] == [] {
      FollowsTree(img, L, d, current, pieces[1..], count);
    } else {
      var names := Proper(pieces);
      assert names[0] == pieces[0] && names[1..] == Proper(pieces[1..]);
      if Taken(t, d, pieces[0]) {
        var e: Binding :| In(t, d, e) && e.0 == pieces[0];
        var next := InodeOf(img, L, e.1).value;
        FollowsTree(img, L, e.1, next, pieces[1..], count + 1);
        OnlyThrough(img, L, d, names, e);
        if i: nat :| Leads(t, e.1, names[1..], i) { assert Leads(t, d, names, i); }
        if i: nat :| Leads(t, d, names, i) { assert Leads(t, e.1, names[1..], i); }
      } else {
        LeadsNowhere(t, d, names);
      }
    }
  }

  lemma LeadsNowhere(t: Tree, d: nat, names: seq<seq<byte>>)
    requires names != [] && !Taken(t, d, names[0])
    ensures forall i: nat :: !Leads(t, d, names, i)
  {
  }

  /** All ways to follow a component go through its one entry. */
  lemma OnlyThrough(img: seq<byte>, L: Layout, d: nat, names: seq<seq<byte>>, e: Binding)
    requires Sound(img, L) && names != [] && In(TreeOf(img, L), d, e) && e.0 == names[0]
    ensures forall i: nat :: Leads(TreeOf(img, L), d, names, i) <==> Leads(TreeOf(img, L), e.1, names[1..], i)
  {
    hide Fs, TreeOf, TreeOk, LinksCounted, NameOk;
  }

  /** No path of more components is followed to its end. */
  lemma {:induction false} FollowsWithin(img: seq<byte>, L: Layout, current: Inode, pieces: seq<seq<byte>>, count: nat)
    requires LayoutOf(|img|, L) && |current.blocks| == 15 && count <= 64
    ensures Follow(img, L, current, pieces, count).Got? ==> count + |Proper(pieces)| <= 64
    decreases |pieces|
  {
    hide LookupIn, LayoutOf;
    if pieces != [] {
      if pieces[0] == [] {
        FollowsWithin(img, L, current, pieces[1..], count);
      } else if count < 64 && LookupIn(img, L, current, pieces[0]).Got? {
        FollowsWithin(img, L, LookupIn(img, L, current, pieces[0]).value, pieces[1..], count + 1);
      }
    }
  }

  /** A path resolves exactly when it has at most 64 components and they lead somewhere from the root,
      and then to that inode; a slash at the end asks for a directory. */
  lemma PathFollowsTree(img: seq<byte>, L: Layout, names: seq<seq<byte>>, slash: bool)
    requires Sound(img, L) && AllDecode(img, L) && IsUsed(img, L, 2)
    requires Plain(names) && (names != [] || slash)
    ensures var r, t := Lookup(img, L, Spell(names) + if slash then [47] else []), TreeOf(img, L);
      && (r.Got? <==> |names| <= 64 && exists i: nat :: Leads(t, 2, names, i) && (slash ==> i in t.dirs))
      && (forall i: nat :: |names| <= 64 && Leads(t, 2, names, i) ==>
            && IsUsed(img, L, i)
            && r == if slash && i !in t.dirs then Bad(NotDirectory(i)) else InodeOf(img, L, i))
  {
    hide Fs, Sound, TreeOf, InodeOf, Geometry, InodeUsed, Follow, Leads, Pieces, NodeOf;
    var tail: seq<byte> := if slash then [47] else [];
    var path, t := Spell(names) + tail, TreeOf(img, L);
    SplitSpelled(names, tail);
    SpelledEnds(names, tail);
    assert Fs(img, L) by { SoundIsFs(img, L); }
    assert DecodesPlainly(img, L, 2);
    var root := InodeOf(img, L, 2).value;
    FollowsWithin(img, L, root, Pieces(path), 0);
    if |names| <= 64 { FollowsTree(img, L, 2, root, Pieces(path), 0); }
    TreeReads(img, L);
    forall i: nat | |names| <= 64 && Leads(t, 2, names, i)
      ensures IsUsed(img, L, i)
      ensures Lookup(img, L, path) == if slash && i !in t.dirs then Bad(NotDirectory(i)) else InodeOf(img, L, i)
    {
      assert DecodesPlainly(img, L, i);
      DecodedNode(img, L, i, InodeOf(img, L, i).value);
      NumberOf(img, L, i);
    }
  }

  lemma SpelledEnds(names: seq<seq<byte>>, tail: seq<byte>)
    requires Plain(names) && (tail == [] || tail == [47]) && (names != [] || tail != [])
    ensures var path := Spell(names) + tail; path != [] && path[0] == 47 && (path[|path| - 1] == 47 <==> tail == [47])
  {
    if tail == [] { SpelledLast(names); }
  }

  lemma {:induction false} SpelledLast(names: seq<seq<byte>>)
    requires Plain(names) && names != []
    ensures Spell(names) != [] && Spell(names)[|Spell(names)| - 1] != 47
  {
    if |names| > 1 {
      SpelledLast(names[1..]);
    } else {
      assert Spell(names[1..]) == [];
      assert Spell(names) == [47] + names[0];
      assert names[0][|names[0]| - 1] in names[0];
    }
  }

  lemma NumberOf(img: seq<byte>, L: Layout, i: nat)
    requires LayoutOf(|img|, L) && InodeOf(img, L, i).Got?
    ensures InodeOf(img, L, i).value.number == i
  {
  }
}
