/** What names lead where, without the bytes: the inodes in use and the entries of every
    directory. The writers' effect on it, and what they keep of a tree. */
module Ext2Tree {
  import opened Bytes
  import opened Ext2Dirent

  datatype Tree = Tree(nodes: map<nat, Node>, dirs: map<nat, multiset<Binding>>)

  // ----- what the writers do to it -----

  /** A new inode under a new name. */
  ghost function Entered(t: Tree, d: nat, e: Binding, node: Node): Tree
    requires d in t.dirs
  {
    Tree(t.nodes[e.1 := node], t.dirs[d := t.dirs[d] + multiset{e}])
  }

  /** `.` and `..` of a new directory. */
  ghost function Dots(ino: nat, parent: nat): multiset<Binding> {
    multiset{([46], ino, 2)} + multiset{([46, 46], parent, 2)}
  }

  /** A new directory under a new name. Its `..` is one more link of the directory above. */
  ghost function Planted(t: Tree, d: nat, name: seq<byte>, ino: nat): Tree
    requires d in t.dirs && d in t.nodes
  {
    var m := Entered(t, d, (name, ino, 2), Node(0x41ED, 2));
    Tree(m.nodes[d := Node(t.nodes[d].mode, t.nodes[d].links + 1)], m.dirs[ino := Dots(ino, d)])
  }

  /** An entry gone, and with it the inode it leads to. If that was a directory, its `..` was one
      of the links of the directory above. */
  ghost function Pruned(t: Tree, d: nat, e: Binding): Tree
    requires d in t.dirs && d in t.nodes
  {
    var links := if e.1 !in t.dirs then t.nodes[d].links else if t.nodes[d].links > 0 then t.nodes[d].links - 1 else 0;
    Tree(t.nodes[d := Node(t.nodes[d].mode, links)] - {e.1}, (t.dirs - {e.1})[d := t.dirs[d] - multiset{e}])
  }

  // ----- what holds of it -----

  /** Directory `d` has entry `e`. */
  ghost predicate In(t: Tree, d: nat, e: Binding) {
    d in t.dirs && e in t.dirs[d]
  }

  /** Every entry leads to an inode in use. */
  ghost predicate NamesLead(t: Tree) {
    forall d: nat, e: Binding :: In(t, d, e) ==> e.1 in t.nodes
  }

  predicate Proper(e: Binding) {
    e.0 != [46] && e.0 != [46, 46]
  }

  /** No inode has two names, `.` and `..` aside. */
  ghost predicate OneName(t: Tree) {
    && (forall d: nat, e: Binding :: In(t, d, e) && Proper(e) ==> t.dirs[d][e] == 1)
    && (forall c: nat, d: nat, e: Binding, f: Binding :: In(t, c, e) && In(t, d, f) ==> SameName(c, d, e, f))
  }

  /** Two proper entries that lead to one inode are one entry. */
  predicate SameName(c: nat, d: nat, e: Binding, f: Binding) {
    Proper(e) && Proper(f) && e.1 == f.1 ==> c == d && e == f
  }

  /** Directory `p` has a proper entry that leads to `d`. */
  ghost predicate Binds(t: Tree, p: nat, d: nat) {
    exists e: Binding :: Proper(e) && e.1 == d && In(t, p, e)
  }

  /** `.` leads home, `..` to a directory that binds this one, or home in the root. */
  ghost predicate DotsHome(t: Tree) {
    forall d: nat, e: Binding :: In(t, d, e) ==> AtHome(t, d, e)
  }

  ghost predicate AtHome(t: Tree, d: nat, e: Binding) {
    && (e.0 == [46] ==> e.1 == d)
    && (e.0 == [46, 46] ==> e.1 in t.dirs && (e.1 == d || Binds(t, e.1, d)))
  }

  /** The directories are the inodes with a directory mode, and every entry states the kind of the
      inode it leads to: 1 for a regular file, 2 for a directory, and those for nothing else. */
  ghost predicate Typed(t: Tree) {
    && (forall i: nat :: i in t.dirs <==> i in t.nodes && IsDirectoryMode(t.nodes[i].mode))
    && (forall d: nat, e: Binding :: In(t, d, e) ==> KindFits(t, e))
  }

  predicate KindFits(t: Tree, e: Binding) {
    && (e.2 == 1 <==> e.1 in t.nodes && IsRegularMode(t.nodes[e.1].mode))
    && (e.2 == 2 <==> e.1 in t.nodes && IsDirectoryMode(t.nodes[e.1].mode))
  }

  ghost predicate TreeOk(t: Tree)
    ensures TreeOk(t) ==> t.dirs.Keys <= t.nodes.Keys
  {
    NamesLead(t) && OneName(t) && DotsHome(t) && Typed(t)
  }

  // ----- a new name -----

  lemma EnteredEntries(t: Tree, d: nat, n: Binding, node: Node)
    requires d in t.dirs
    ensures var r := Entered(t, d, n, node);
      && (forall c: nat, e: Binding :: In(r, c, e) <==> In(t, c, e) || (c == d && e == n))
      && (forall c: nat, e: Binding :: In(t, c, e) && e != n ==> r.dirs[c][e] == t.dirs[c][e])
      && (!In(t, d, n) ==> r.dirs[d][n] == 1)
  {
  }

  lemma EnteredLeads(t: Tree, d: nat, n: Binding, node: Node)
    requires NamesLead(t) && d in t.dirs
    ensures NamesLead(Entered(t, d, n, node))
  {
    hide In;
    EnteredEntries(t, d, n, node);
  }

  lemma EnteredOneName(t: Tree, d: nat, n: Binding, node: Node)
    requires NamesLead(t) && OneName(t) && d in t.dirs && n.1 !in t.nodes
    ensures OneName(Entered(t, d, n, node))
  {
    var r := Entered(t, d, n, node);
    EnteredEntries(t, d, n, node);
    hide In, Entered;
    forall c: nat, b: nat, e: Binding, f: Binding | In(r, c, e) && In(r, b, f) ensures SameName(c, b, e, f) {
    }
    forall c: nat, e: Binding | In(r, c, e) && Proper(e) ensures r.dirs[c][e] == 1 {
    }
  }

  /** Homes stay homes when nothing goes. */
  lemma HomesStay(t: Tree, r: Tree)
    requires t.dirs.Keys <= r.dirs.Keys && forall c: nat, e: Binding :: In(t, c, e) ==> In(r, c, e)
    ensures forall c: nat, e: Binding :: AtHome(t, c, e) ==> AtHome(r, c, e)
  {
    hide In;
    forall p: nat, d: nat | Binds(t, p, d) ensures Binds(r, p, d) {
      var e: Binding :| Proper(e) && e.1 == d && In(t, p, e);
      assert In(r, p, e);
    }
  }

  lemma EnteredTyped(t: Tree, d: nat, n: Binding, node: Node)
    requires Typed(t) && NamesLead(t) && d in t.dirs && n.1 !in t.nodes && n.2 == 1
    requires IsRegularMode(node.mode) && !IsDirectoryMode(node.mode)
    ensures Typed(Entered(t, d, n, node))
  {
    EnteredEntries(t, d, n, node);
    hide In, IsRegularMode, IsDirectoryMode;
  }

  lemma EnteredOk(t: Tree, d: nat, n: Binding, node: Node)
    requires TreeOk(t) && d in t.dirs && n.1 !in t.nodes && Proper(n) && n.2 == 1
    requires IsRegularMode(node.mode) && !IsDirectoryMode(node.mode)
    ensures TreeOk(Entered(t, d, n, node))
  {
    EnteredEntries(t, d, n, node);
    EnteredLeads(t, d, n, node);
    EnteredOneName(t, d, n, node);
    EnteredTyped(t, d, n, node);
    HomesStay(t, Entered(t, d, n, node));
    hide In, OneName, AtHome, Typed, NamesLead;
  }

  lemma PlantedEntries(t: Tree, d: nat, name: seq<byte>, ino: nat)
    requires d in t.dirs && d in t.nodes && ino !in t.dirs && ino != d
    ensures var m, r := Entered(t, d, (name, ino, 2), Node(0x41ED, 2)), Planted(t, d, name, ino);
      && (forall c: nat, e: Binding :: In(r, c, e) <==>
            In(m, c, e) || (c == ino && (e == ([46], ino, 2) || e == ([46, 46], d, 2))))
      && (forall c: nat, e: Binding :: In(m, c, e) ==> r.dirs[c] == m.dirs[c])
  {
  }

  lemma PlantedLeads(t: Tree, d: nat, name: seq<byte>, ino: nat)
    requires NamesLead(t) && t.dirs.Keys <= t.nodes.Keys && d in t.dirs && ino !in t.nodes
    ensures NamesLead(Planted(t, d, name, ino))
  {
    EnteredLeads(t, d, (name, ino, 2), Node(0x41ED, 2));
    PlantedEntries(t, d, name, ino);
    hide In;
  }

  lemma PlantedOneName(t: Tree, d: nat, name: seq<byte>, ino: nat)
    requires d in t.dirs && d in t.nodes && OneName(Entered(t, d, (name, ino, 2), Node(0x41ED, 2)))
    requires ino !in t.dirs && ino != d
    ensures OneName(Planted(t, d, name, ino))
  {
    var m, r := Entered(t, d, (name, ino, 2), Node(0x41ED, 2)), Planted(t, d, name, ino);
    PlantedEntries(t, d, name, ino);
    hide In, Entered, Planted;
    forall c: nat, e: Binding | In(r, c, e) && Proper(e) ensures r.dirs[c][e] == 1 { assert In(m, c, e); }
    forall b: nat, c: nat, e: Binding, f: Binding | In(r, b, e) && In(r, c, f) ensures SameName(b, c, e, f) {
      if Proper(e) && Proper(f) { assert In(m, b, e) && In(m, c, f); }
    }
  }

  lemma PlantedHomes(t: Tree, d: nat, name: seq<byte>, ino: nat)
    requires DotsHome(t) && d in t.dirs && d in t.nodes && ino !in t.dirs && ino != d && Proper((name, ino, 2))
    ensures DotsHome(Planted(t, d, name, ino))
  {
    var m, r := Entered(t, d, (name, ino, 2), Node(0x41ED, 2)), Planted(t, d, name, ino);
    EnteredEntries(t, d, (name, ino, 2), Node(0x41ED, 2));
    PlantedEntries(t, d, name, ino);
    HomesStay(t, r);
    assert Binds(r, d, ino) by { assert In(r, d, (name, ino, 2)); }
    hide In, Binds;
    forall c: nat, e: Binding | In(r, c, e) ensures AtHome(r, c, e) {
      if In(t, c, e) { assert AtHome(t, c, e); }
    }
  }

  /** The inodes of a planted tree. */
  lemma PlantedModes(t: Tree, d: nat, name: seq<byte>, ino: nat)
    requires d in t.dirs && d in t.nodes && ino != d
    ensures var r := Planted(t, d, name, ino);
      && r.nodes.Keys == t.nodes.Keys + {ino} && r.nodes[ino].mode == 0x41ED && r.dirs.Keys == t.dirs.Keys + {ino}
      && forall i: nat :: i in t.nodes && i != ino ==> r.nodes[i].mode == t.nodes[i].mode
  {
  }

  lemma PlantedKinds(t: Tree, d: nat, name: seq<byte>, ino: nat)
    requires Typed(t) && NamesLead(t) && d in t.dirs && d in t.nodes && ino !in t.nodes
    ensures var r := Planted(t, d, name, ino); forall c: nat, e: Binding :: In(r, c, e) ==> KindFits(r, e)
  {
    EnteredEntries(t, d, (name, ino, 2), Node(0x41ED, 2));
    PlantedEntries(t, d, name, ino);
    PlantedModes(t, d, name, ino);
    assert IsDirectoryMode(0x41ED) && !IsRegularMode(0x41ED);
    hide In, Planted, Entered, IsRegularMode, IsDirectoryMode;
    var r := Planted(t, d, name, ino);
    forall c: nat, e: Binding | In(r, c, e) ensures KindFits(r, e) {
      if In(t, c, e) { assert e.1 in t.nodes && e.1 != ino && KindFits(t, e); }
    }
  }

  lemma PlantedTyped(t: Tree, d: nat, name: seq<byte>, ino: nat)
    requires Typed(t) && NamesLead(t) && d in t.dirs && d in t.nodes && ino !in t.nodes
    ensures Typed(Planted(t, d, name, ino))
  {
    PlantedKinds(t, d, name, ino);
    PlantedModes(t, d, name, ino);
    assert IsDirectoryMode(0x41ED);
    hide In, KindFits, NamesLead, Planted, IsRegularMode, IsDirectoryMode;
  }

  lemma PlantedOk(t: Tree, d: nat, name: seq<byte>, ino: nat)
    requires TreeOk(t) && d in t.dirs && ino !in t.nodes && Proper((name, ino, 2))
    ensures TreeOk(Planted(t, d, name, ino))
  {
    EnteredOneName(t, d, (name, ino, 2), Node(0x41ED, 2));
    PlantedLeads(t, d, name, ino);
    PlantedOneName(t, d, name, ino);
    PlantedHomes(t, d, name, ino);
    PlantedTyped(t, d, name, ino);
    hide NamesLead, OneName, DotsHome, Planted, Entered;
  }

  // ----- an entry gone -----

  /** `e` of directory `d` is the only live record that leads to its inode, the inode's own
      entries aside. */
  ghost predicate Sole(t: Tree, d: nat, e: Binding) {
    && d in t.dirs && t.dirs[d][e] == 1
    && forall c: nat, f: Binding :: In(t, c, f) && c != e.1 && f.1 == e.1 ==> c == d && f == e
  }

  /** The parts of a pruned tree. */
  lemma PrunedParts(t: Tree, d: nat, e: Binding)
    requires d in t.dirs && d in t.nodes && e.1 != d
    ensures var p := Pruned(t, d, e);
      && p.nodes.Keys == t.nodes.Keys - {e.1} && p.dirs.Keys == t.dirs.Keys - {e.1}
      && (forall i: nat :: i in p.nodes && i != d ==> p.nodes[i] == t.nodes[i])
      && (forall c: nat :: c in p.dirs && c != d ==> p.dirs[c] == t.dirs[c])
      && p.dirs[d] == t.dirs[d] - multiset{e} && p.nodes[d].mode == t.nodes[d].mode
      && (e.1 !in t.dirs ==> p.nodes[d].links == t.nodes[d].links)
      && (e.1 in t.dirs && t.nodes[d].links > 0 ==> p.nodes[d].links == t.nodes[d].links - 1)
  {
  }

  lemma PrunedEntries(t: Tree, d: nat, e: Binding)
    requires In(t, d, e) && d in t.nodes && e.1 != d
    ensures var r := Pruned(t, d, e);
      && r.dirs.Keys == t.dirs.Keys - {e.1} && r.nodes.Keys == t.nodes.Keys - {e.1}
      && (forall i: nat :: i in r.nodes ==> r.nodes[i].mode == t.nodes[i].mode)
      && (forall i: nat :: i in r.nodes && i != d ==> r.nodes[i] == t.nodes[i])
      && (forall c: nat, f: Binding :: In(r, c, f) <==>
            In(t, c, f) && c != e.1 && (c == d && f == e ==> t.dirs[d][e] > 1))
      && (forall c: nat, f: Binding :: In(r, c, f) && !(c == d && f == e) ==> r.dirs[c][f] == t.dirs[c][f])
  {
    var r := Pruned(t, d, e);
    forall c: nat ensures c in r.dirs <==> c in t.dirs && c != e.1
      ensures c in r.dirs ==> r.dirs[c] == if c == d then t.dirs[d] - multiset{e} else t.dirs[c]
    {
    }
    assert r.nodes.Keys == t.nodes.Keys - {e.1};
    hide Pruned;
  }

  /** Removing an entry and its inode leaves every name leading to an inode in use exactly when
      no other record led to that inode. */
  lemma PrunedLeads(t: Tree, d: nat, e: Binding)
    requires NamesLead(t) && In(t, d, e) && d in t.nodes && e.1 != d
    ensures NamesLead(Pruned(t, d, e)) <==> Sole(t, d, e)
  {
    var r := Pruned(t, d, e);
    PrunedEntries(t, d, e);
    if !Sole(t, d, e) {
      if t.dirs[d][e] > 1 {
        assert In(r, d, e);
      } else {
        var c: nat, f: Binding :| In(t, c, f) && c != e.1 && f.1 == e.1 && !(c == d && f == e);
        assert In(r, c, f);
      }
    }
    hide In, Pruned;
  }

  lemma PrunedOneName(t: Tree, d: nat, e: Binding)
    requires OneName(t) && In(t, d, e) && d in t.nodes && e.1 != d
    ensures OneName(Pruned(t, d, e))
  {
    var r := Pruned(t, d, e);
    PrunedEntries(t, d, e);
    assert Proper(e) ==> t.dirs[d][e] == 1;
    hide In, Pruned;
    forall c: nat, f: Binding | In(r, c, f) && Proper(f) ensures r.dirs[c][f] == 1 {
      assert In(t, c, f);
    }
    forall b: nat, c: nat, f: Binding, h: Binding | In(r, b, f) && In(r, c, h) ensures SameName(b, c, f, h) {
      assert In(t, b, f) && In(t, c, h);
    }
  }

  lemma PrunedHome(t: Tree, d: nat, e: Binding, c: nat, f: Binding)
    requires DotsHome(t) && In(t, d, e) && d in t.nodes && e.1 != d && NamesLead(Pruned(t, d, e))
    requires In(Pruned(t, d, e), c, f)
    ensures AtHome(Pruned(t, d, e), c, f)
  {
    var r := Pruned(t, d, e);
    PrunedEntries(t, d, e);
    assert f.1 in r.nodes;
    assert AtHome(t, c, f);
    hide In, NamesLead, Pruned;
    if f.0 == [46, 46] && f.1 != c {
      var g: Binding :| Proper(g) && g.1 == c && In(t, f.1, g);
      assert c in r.dirs && c != e.1;
      assert In(r, f.1, g);
    }
  }

  lemma PrunedTyped(t: Tree, d: nat, e: Binding)
    requires Typed(t) && In(t, d, e) && d in t.nodes && e.1 != d && NamesLead(Pruned(t, d, e))
    ensures Typed(Pruned(t, d, e))
  {
    PrunedEntries(t, d, e);
    hide In, Pruned, IsRegularMode, IsDirectoryMode;
  }

  /** In a tree it also leaves a tree, exactly then. */
  lemma PrunedOk(t: Tree, d: nat, e: Binding)
    requires TreeOk(t) && In(t, d, e) && e.1 != d
    ensures d in t.nodes && (TreeOk(Pruned(t, d, e)) <==> Sole(t, d, e))
  {
    var r := Pruned(t, d, e);
    PrunedLeads(t, d, e);
    PrunedOneName(t, d, e);
    PrunedEntries(t, d, e);
    if Sole(t, d, e) {
      PrunedTyped(t, d, e);
      forall c: nat, f: Binding | In(r, c, f) ensures AtHome(r, c, f) { PrunedHome(t, d, e, c, f); }
    }
    hide In, OneName, NamesLead, Sole, AtHome, Typed, Pruned;
  }

  /** Nothing in `v` but `.` and `..`, if it is a directory at all. */
  ghost predicate Bare(t: Tree, v: nat) {
    forall e: Binding :: In(t, v, e) ==> !Proper(e)
  }

  /** In a tree, what leads to a file or to an empty directory is its only name. */
  lemma BareIsSole(t: Tree, d: nat, e: Binding)
    requires TreeOk(t) && In(t, d, e) && e.1 != d && Bare(t, e.1)
    ensures Sole(t, d, e) && Proper(e)
  {
    hide Typed;
    assert forall c: nat :: !Binds(t, e.1, c);
    assert Proper(e) by { assert AtHome(t, d, e); }
    forall c: nat, f: Binding | In(t, c, f) && c != e.1 && f.1 == e.1 ensures c == d && f == e {
      assert AtHome(t, c, f);
      assert SameName(c, d, f, e);
    }
  }

  // ----- link counts -----

  /** The records that lead to inode `i`. */
  ghost function Leading(t: Tree, i: nat): set<(nat, Binding)> {
    set c: nat, e: Binding | c in t.dirs && e in t.dirs[c] && e.1 == i :: (c, e)
  }

  lemma LeadingIs(t: Tree, i: nat)
    ensures forall c: nat, e: Binding :: (c, e) in Leading(t, i) <==> In(t, c, e) && e.1 == i
  {
  }

  /** The link count of every inode with names is the number of records that lead to it, the dots
      included. */
  ghost predicate LinksRight(t: Tree) {
    forall i: nat :: i in t.nodes && Leading(t, i) != {} ==> t.nodes[i].links == |Leading(t, i)|
  }

  /** No directory has an entry twice; each has one `.` and one `..`, and who binds a directory is
      where its `..` leads. */
  ghost predicate DotsOnce(t: Tree) {
    Singles(t) && AllDots(t) && UpToBinder(t)
  }

  ghost predicate Singles(t: Tree) {
    forall d: nat, e: Binding :: In(t, d, e) ==> t.dirs[d][e] == 1
  }

  ghost predicate AllDots(t: Tree) {
    forall d: nat :: d in t.dirs ==> HasDots(t, d)
  }

  ghost predicate UpToBinder(t: Tree) {
    forall d: nat, e: Binding, p: nat, f: Binding :: In(t, d, e) && In(t, p, f) ==> UpFits(d, e, p, f)
  }

  /** If `f` of `p` binds `d`, a `..` of `d` leads to `p`. */
  predicate UpFits(d: nat, e: Binding, p: nat, f: Binding) {
    e.0 == [46, 46] && Proper(f) && f.1 == d ==> e.1 == p
  }

  ghost predicate HasDots(t: Tree, d: nat) {
    (exists e: Binding :: IsOnly(t, d, e, [46])) && (exists e: Binding :: IsOnly(t, d, e, [46, 46]))
  }

  /** `e` is the one entry of `d` with its name. */
  ghost predicate IsOnly(t: Tree, d: nat, e: Binding, name: seq<byte>) {
    In(t, d, e) && e.0 == name && forall f: Binding :: In(t, d, f) && f.0 == name ==> f == e
  }

  ghost predicate LinksCounted(t: Tree) {
    LinksRight(t) && DotsOnce(t)
  }

  /** A directory whose dots are what they were still has them. */
  lemma DotsStay(t: Tree, r: Tree, d: nat)
    requires HasDots(t, d) && forall e: Binding :: !Proper(e) ==> (In(r, d, e) <==> In(t, d, e))
    ensures HasDots(r, d)
  {
    hide In;
    var e: Binding :| IsOnly(t, d, e, [46]);
    var f: Binding :| IsOnly(t, d, f, [46, 46]);
    assert IsOnly(r, d, e, [46]) && IsOnly(r, d, f, [46, 46]);
  }

  lemma InHas(t: Tree, c: nat, e: Binding)
    requires In(t, c, e)
    ensures c in t.dirs
  {
  }

  lemma EnteredSingles(t: Tree, d: nat, n: Binding, node: Node)
    requires NamesLead(t) && Singles(t) && d in t.dirs && n.1 !in t.nodes
    ensures Singles(Entered(t, d, n, node))
  {
    EnteredEntries(t, d, n, node);
    hide In, Entered;
  }

  lemma EnteredAllDots(t: Tree, d: nat, n: Binding, node: Node)
    requires AllDots(t) && d in t.dirs && Proper(n)
    ensures AllDots(Entered(t, d, n, node))
  {
    var r := Entered(t, d, n, node);
    EnteredEntries(t, d, n, node);
    assert r.dirs.Keys == t.dirs.Keys;
    hide In, Entered, HasDots;
    forall c: nat | c in r.dirs ensures HasDots(r, c) { DotsStay(t, r, c); }
  }

  lemma EnteredUps(t: Tree, d: nat, n: Binding, node: Node)
    requires UpToBinder(t) && t.dirs.Keys <= t.nodes.Keys && d in t.dirs && n.1 !in t.nodes && Proper(n)
    ensures UpToBinder(Entered(t, d, n, node))
  {
    var r := Entered(t, d, n, node);
    EnteredEntries(t, d, n, node);
    hide Entered;
    forall c: nat, e: Binding, p: nat, f: Binding | In(r, c, e) && In(r, p, f) ensures UpFits(c, e, p, f) {
      if e.0 == [46, 46] {
        InHas(t, c, e);
        hide In;
      }
    }
  }

  lemma EnteredDots(t: Tree, d: nat, n: Binding, node: Node)
    requires TreeOk(t) && DotsOnce(t) && d in t.dirs && n.1 !in t.nodes && Proper(n)
    ensures DotsOnce(Entered(t, d, n, node))
  {
    hide Entered, Typed, OneName, DotsHome, NamesLead, Singles, AllDots, UpToBinder;
    EnteredSingles(t, d, n, node);
    EnteredAllDots(t, d, n, node);
    EnteredUps(t, d, n, node);
  }

  lemma EnteredLeading(t: Tree, d: nat, n: Binding, node: Node, i: nat)
    requires NamesLead(t) && d in t.dirs && n.1 !in t.nodes
    ensures Leading(Entered(t, d, n, node), i) == if i == n.1 then {(d, n)} else Leading(t, i)
  {
    EnteredEntries(t, d, n, node);
    LeadingIs(t, i);
    LeadingIs(Entered(t, d, n, node), i);
    hide In, Leading, Entered;
  }

  /** The new inode's one name is its one link, and nobody else's links change. */
  lemma EnteredCounted(t: Tree, d: nat, n: Binding, node: Node)
    requires TreeOk(t) && LinksCounted(t) && d in t.dirs && n.1 !in t.nodes && Proper(n) && node.links == 1
    ensures LinksCounted(Entered(t, d, n, node))
  {
    hide Leading, Typed, OneName, DotsHome, DotsOnce, NamesLead;
    var r := Entered(t, d, n, node);
    EnteredDots(t, d, n, node);
    forall i: nat | i in r.nodes && Leading(r, i) != {} ensures r.nodes[i].links == |Leading(r, i)| {
      EnteredLeading(t, d, n, node, i);
    }
  }

  lemma PlantedSingles(t: Tree, d: nat, name: seq<byte>, ino: nat)
    requires d in t.dirs && d in t.nodes && ino !in t.dirs && ino != d
    requires Singles(Entered(t, d, (name, ino, 2), Node(0x41ED, 2)))
    ensures Singles(Planted(t, d, name, ino))
  {
    PlantedEntries(t, d, name, ino);
  }

  lemma PlantedAllDots(t: Tree, d: nat, name: seq<byte>, ino: nat)
    requires d in t.dirs && d in t.nodes && ino !in t.dirs && ino != d
    requires AllDots(Entered(t, d, (name, ino, 2), Node(0x41ED, 2)))
    ensures AllDots(Planted(t, d, name, ino))
  {
    var m, r := Entered(t, d, (name, ino, 2), Node(0x41ED, 2)), Planted(t, d, name, ino);
    PlantedEntries(t, d, name, ino);
    assert r.dirs.Keys == m.dirs.Keys + {ino};
    assert forall e: Binding :: !In(m, ino, e);
    hide In, Entered, Planted, HasDots;
    forall c: nat | c in r.dirs ensures HasDots(r, c) {
      if c == ino { NewDots(r, d, ino); } else { DotsStay(m, r, c); }
    }
  }

  lemma PlantedUps(t: Tree, d: nat, name: seq<byte>, ino: nat)
    requires d in t.dirs && d in t.nodes && ino !in t.dirs && ino !in t.nodes && NamesLead(t)
    requires UpToBinder(Entered(t, d, (name, ino, 2), Node(0x41ED, 2)))
    ensures UpToBinder(Planted(t, d, name, ino))
  {
    var m, r := Entered(t, d, (name, ino, 2), Node(0x41ED, 2)), Planted(t, d, name, ino);
    EnteredEntries(t, d, (name, ino, 2), Node(0x41ED, 2));
    PlantedEntries(t, d, name, ino);
    assert forall e: Binding :: !In(m, ino, e);
    hide In, Entered, Planted;
    forall c: nat, e: Binding, p: nat, f: Binding | In(r, c, e) && In(r, p, f) ensures UpFits(c, e, p, f) {
      if Proper(f) {
        assert In(m, p, f);
        if In(t, p, f) { assert f.1 in t.nodes; }
      }
    }
  }

  lemma PlantedDots(t: Tree, d: nat, name: seq<byte>, ino: nat)
    requires TreeOk(t) && DotsOnce(t) && d in t.dirs && ino !in t.nodes && Proper((name, ino, 2))
    ensures DotsOnce(Planted(t, d, name, ino))
  {
    hide Entered, Planted, Typed, OneName, DotsHome, NamesLead, Singles, AllDots, UpToBinder;
    EnteredDots(t, d, (name, ino, 2), Node(0x41ED, 2));
    PlantedSingles(t, d, name, ino);
    PlantedAllDots(t, d, name, ino);
    PlantedUps(t, d, name, ino);
  }

  lemma NewDots(r: Tree, d: nat, ino: nat)
    requires forall e: Binding :: In(r, ino, e) <==> e == ([46], ino, 2) || e == ([46, 46], d, 2)
    ensures HasDots(r, ino)
  {
    hide In;
    var e: Binding, f: Binding := ([46], ino, 2), ([46, 46], d, 2);
    assert IsOnly(r, ino, e, [46]) && IsOnly(r, ino, f, [46, 46]);
  }

  lemma PlantedLeading(t: Tree, d: nat, name: seq<byte>, ino: nat, i: nat)
    requires NamesLead(t) && d in t.dirs && d in t.nodes && ino !in t.dirs && ino !in t.nodes
    ensures var n: Binding, here: Binding, above: Binding := (name, ino, 2), ([46], ino, 2), ([46, 46], d, 2);
      && Leading(Planted(t, d, name, ino), i) == (if i == ino then {(d, n), (ino, here)}
            else if i == d then Leading(t, i) + {(ino, above)} else Leading(t, i))
      && (ino, above) !in Leading(t, i) && (d, n) != (ino, here)
  {
    EnteredEntries(t, d, (name, ino, 2), Node(0x41ED, 2));
    PlantedEntries(t, d, name, ino);
    LeadingIs(t, i);
    LeadingIs(Planted(t, d, name, ino), i);
    assert forall e: Binding :: !In(t, ino, e);
    hide In, Leading, Entered, Planted;
  }

  /** The new directory's name and its `.` are its two links; its `..` is one more of the directory
      above. */
  lemma PlantedCounted(t: Tree, d: nat, name: seq<byte>, ino: nat)
    requires TreeOk(t) && LinksCounted(t) && d in t.dirs && ino !in t.nodes && Proper((name, ino, 2))
    ensures LinksCounted(Planted(t, d, name, ino))
  {
    PlantedDots(t, d, name, ino);
    DirIsLed(t, d);
    hide Leading, Typed, OneName, DotsHome, DotsOnce, NamesLead, Planted;
    var r := Planted(t, d, name, ino);
    forall i: nat | i in r.nodes && Leading(r, i) != {} ensures r.nodes[i].links == |Leading(r, i)| {
      PlantedLinks(t, d, name, ino, i);
    }
  }

  lemma PlantedLinks(t: Tree, d: nat, name: seq<byte>, ino: nat, i: nat)
    requires NamesLead(t) && d in t.dirs && d in t.nodes && ino !in t.dirs && ino !in t.nodes && LinksRight(t)
    requires Leading(t, d) != {} && i in Planted(t, d, name, ino).nodes
    ensures var r := Planted(t, d, name, ino); Leading(r, i) != {} ==> r.nodes[i].links == |Leading(r, i)|
  {
    PlantedNode(t, d, name, ino, i);
    PlantedLeading(t, d, name, ino, i);
    hide Leading, Planted, NamesLead;
    var n: Binding, here: Binding, above: Binding := (name, ino, 2), ([46], ino, 2), ([46, 46], d, 2);
    if i == ino { SizeOfPair((d, n), (ino, here)); } else if i == d { SizeOfMore(Leading(t, d), (ino, above)); }
  }

  lemma PlantedNode(t: Tree, d: nat, name: seq<byte>, ino: nat, i: nat)
    requires d in t.dirs && d in t.nodes && ino !in t.nodes && i in Planted(t, d, name, ino).nodes
    ensures i == ino || i in t.nodes
    ensures Planted(t, d, name, ino).nodes[i] == if i == ino then Node(0x41ED, 2)
        else if i == d then Node(t.nodes[d].mode, t.nodes[d].links + 1) else t.nodes[i]
  {
  }

  lemma SizeOfPair<T>(a: T, b: T)
    requires a != b
    ensures |{a, b}| == 2
  {
  }

  lemma SizeOfMore<T>(s: set<T>, a: T)
    requires a !in s
    ensures |s + {a}| == |s| + 1
  {
  }

  /** A directory's own `.` leads to it. */
  lemma DirIsLed(t: Tree, d: nat)
    requires DotsHome(t) && DotsOnce(t) && d in t.dirs
    ensures Leading(t, d) != {}
  {
    hide In;
    assert HasDots(t, d);
    var e: Binding :| IsOnly(t, d, e, [46]);
    assert AtHome(t, d, e);
    LeadingIs(t, d);
    assert (d, e) in Leading(t, d);
  }

  lemma PrunedDots(t: Tree, d: nat, e: Binding)
    requires DotsOnce(t) && In(t, d, e) && d in t.nodes && e.1 != d && Proper(e)
    ensures DotsOnce(Pruned(t, d, e))
  {
    var r := Pruned(t, d, e);
    PrunedEntries(t, d, e);
    hide In, Pruned, HasDots, IsOnly;
    assert AllDots(r) by {
      forall c: nat | c in r.dirs ensures HasDots(r, c) { DotsStay(t, r, c); }
    }
    assert UpToBinder(r) by {
      forall c: nat, f: Binding, p: nat, g: Binding | In(r, c, f) && In(r, p, g) ensures UpFits(c, f, p, g) {
        assert In(t, c, f) && In(t, p, g);
      }
    }
    assert Singles(r);
  }

  /** A file gone takes no link from anybody else; an empty directory takes its `..`, a link of the
      directory above. */
  lemma PrunedCounted(t: Tree, d: nat, e: Binding)
    requires TreeOk(t) && LinksCounted(t) && In(t, d, e) && e.1 != d && Bare(t, e.1)
    ensures d in t.nodes && LinksCounted(Pruned(t, d, e))
  {
    var r := Pruned(t, d, e);
    BareIsSole(t, d, e);
    PrunedDots(t, d, e);
    PrunedEntries(t, d, e);
    DirIsLed(t, d);
    forall i: nat | i in r.nodes && Leading(r, i) != {} ensures r.nodes[i].links == |Leading(r, i)| {
      if e.1 in t.dirs { PrunedDirectory(t, d, e, i); } else { PrunedFile(t, d, e, i); }
    }
    hide In, Leading, Typed, OneName, DotsHome, DotsOnce, NamesLead, Pruned, Sole, Bare;
  }

  lemma PrunedFile(t: Tree, d: nat, e: Binding, i: nat)
    requires In(t, d, e) && d in t.nodes && e.1 !in t.dirs && i in Pruned(t, d, e).nodes
    ensures Leading(Pruned(t, d, e), i) == Leading(t, i) && i in t.nodes && Pruned(t, d, e).nodes[i] == t.nodes[i]
  {
    PrunedLeading(t, d, e, i);
    LeadingIs(t, i);
    hide Leading;
  }

  lemma PrunedDirectory(t: Tree, d: nat, e: Binding, i: nat)
    requires DotsHome(t) && LinksCounted(t) && In(t, d, e) && d in t.nodes && e.1 in t.dirs && Bare(t, e.1)
    requires Proper(e) && e.1 != d && i in Pruned(t, d, e).nodes && Leading(t, d) != {}
    ensures Leading(Pruned(t, d, e), i) != {} ==>
      Pruned(t, d, e).nodes[i].links == |Leading(Pruned(t, d, e), i)|
  {
    var up := UpFrom(t, d, e);
    PrunedLeading(t, d, e, i);
    BareLeads(t, d, e, up, i);
    LeadingIs(t, d);
    assert (e.1, up) in Leading(t, d);
    hide In, Leading, DotsHome, DotsOnce, Bare;
  }

  /** Where the `..` of a bound directory leads. */
  lemma UpFrom(t: Tree, d: nat, e: Binding) returns (up: Binding)
    requires DotsOnce(t) && In(t, d, e) && Proper(e) && e.1 in t.dirs
    ensures IsOnly(t, e.1, up, [46, 46]) && up.1 == d
  {
    hide In;
    assert HasDots(t, e.1);
    up :| IsOnly(t, e.1, up, [46, 46]);
    assert UpFits(e.1, up, d, e);
  }

  lemma PrunedLeading(t: Tree, d: nat, e: Binding, i: nat)
    requires In(t, d, e) && d in t.nodes && e.1 != d && i != e.1
    ensures Leading(Pruned(t, d, e), i) == set x | x in Leading(t, i) && x.0 != e.1
  {
    var r := Pruned(t, d, e);
    PrunedEntries(t, d, e);
    LeadingIs(t, i);
    LeadingIs(r, i);
    hide In, Leading, Pruned;
  }

  /** Only its `..` leads out of an empty directory. */
  lemma BareLeads(t: Tree, d: nat, e: Binding, up: Binding, i: nat)
    requires DotsHome(t) && Bare(t, e.1) && IsOnly(t, e.1, up, [46, 46]) && up.1 == d && i != e.1
    ensures (set x | x in Leading(t, i) && x.0 != e.1) == Leading(t, i) - (if i == d then {(e.1, up)} else {})
  {
    LeadingIs(t, i);
    hide In, Leading;
    forall x | x in Leading(t, i) && x.0 == e.1 ensures i == d && x == (e.1, up) {
      assert In(t, x.0, x.1) && AtHome(t, x.0, x.1);
    }
  }

  // ----- the names themselves -----

  /** A name a record can hold and a path can spell: 1 to 255 bytes, none of them a slash. */
  predicate NameOk(e: Binding) {
    0 < |e.0| <= 255 && 47 !in e.0
  }

  /** All names are such names, and no directory binds one twice. */
  ghost predicate Spelled(t: Tree) {
    && (forall d: nat, e: Binding :: In(t, d, e) ==> NameOk(e))
    && (forall d: nat, e: Binding, f: Binding :: In(t, d, e) && In(t, d, f) ==> e.0 != f.0 || e == f)
  }

  ghost predicate Taken(t: Tree, d: nat, name: seq<byte>) {
    exists e: Binding :: In(t, d, e) && e.0 == name
  }

  lemma EnteredSpelled(t: Tree, d: nat, n: Binding, node: Node)
    requires Spelled(t) && d in t.dirs && NameOk(n) && !Taken(t, d, n.0)
    ensures Spelled(Entered(t, d, n, node))
  {
    EnteredEntries(t, d, n, node);
    hide In, Entered, NameOk;
  }

  lemma PlantedSpelled(t: Tree, d: nat, name: seq<byte>, ino: nat)
    requires Spelled(t) && d in t.dirs && d in t.nodes && ino !in t.dirs && ino != d
    requires NameOk((name, ino, 2)) && !Taken(t, d, name)
    ensures Spelled(Planted(t, d, name, ino))
  {
    var m, r := Entered(t, d, (name, ino, 2), Node(0x41ED, 2)), Planted(t, d, name, ino);
    EnteredSpelled(t, d, (name, ino, 2), Node(0x41ED, 2));
    PlantedEntries(t, d, name, ino);
    assert forall e: Binding :: !In(m, ino, e);
    hide In, Entered, Planted;
  }

  lemma PrunedSpelled(t: Tree, d: nat, e: Binding)
    requires Spelled(t) && In(t, d, e) && d in t.nodes && e.1 != d
    ensures Spelled(Pruned(t, d, e))
  {
    PrunedEntries(t, d, e);
    hide In, Pruned, NameOk;
  }
}
