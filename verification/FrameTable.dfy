/** Free frames as a table of ranges: what the table means as a set, why the table is
    canonical, and what insertion and the three allocations do to that set. */
module FrameTable {
  datatype Range = Range(start: nat, count: nat)

  function End(r: Range): nat { r.start + r.count }

  /** Ranges are not empty, sorted, and a frame is missing between any two neighbours. */
  ghost predicate Canon(t: seq<Range>) {
    && (forall i :: 0 <= i < |t| ==> t[i].count > 0)
    && (forall i :: 0 <= i < |t| - 1 ==> End(t[i]) < t[i + 1].start)
  }

  ghost predicate Has(t: seq<Range>, f: int) {
    exists i :: 0 <= i < |t| && t[i].start <= f < End(t[i])
  }

  ghost predicate Within(r: Range, f: int) { r.start <= f < End(r) }

  lemma {:induction false} Sorted(t: seq<Range>, i: nat, j: nat)
    requires Canon(t) && i < j < |t|
    ensures End(t[i]) < t[j].start
    decreases j
  {
    if i < j - 1 { Sorted(t, i, j - 1); }
  }

  lemma CanonTail(t: seq<Range>)
    requires Canon(t) && |t| > 0
    ensures Canon(t[1..])
    ensures forall f :: Has(t[1..], f) ==> Has(t, f) && f > End(t[0])
    ensures forall f :: Has(t, f) <==> Within(t[0], f) || Has(t[1..], f)
  {
    var u := t[1..];
    forall f | Has(u, f) ensures Has(t, f) && f > End(t[0]) {
      var i :| 0 <= i < |u| && u[i].start <= f < End(u[i]);
      assert u[i] == t[i + 1];
      Sorted(t, 0, i + 1);
    }
    forall f | Has(t, f) && !Within(t[0], f) ensures Has(u, f) {
      var i :| 0 <= i < |t| && t[i].start <= f < End(t[i]);
      assert u[i - 1] == t[i];
    }
  }

  lemma FirstIsLowest(t: seq<Range>, f: int)
    requires Canon(t) && Has(t, f)
    ensures |t| > 0 && t[0].start <= f && Has(t, t[0].start)
  {
    var i :| 0 <= i < |t| && t[i].start <= f < End(t[i]);
    if i > 0 { Sorted(t, 0, i); }
    assert Within(t[0], t[0].start);
  }

  lemma HasFirst(t: seq<Range>)
    requires Canon(t) && |t| > 0
    ensures Has(t, t[0].start)
  {
    assert Within(t[0], t[0].start);
  }

  /** The canonical form: the set of frames determines the table. */
  lemma {:induction false} Canonical(t: seq<Range>, u: seq<Range>)
    requires Canon(t) && Canon(u) && forall f :: Has(t, f) <==> Has(u, f)
    ensures t == u
  {
    hide Has, Canon;
    if |u| > 0 { HasFirst(u); }
    if |t| > 0 { HasFirst(t); }
    if |t| == 0 || |u| == 0 {
      HasNone();
    } else {
      HeadsAgree(t, u);
      TailsAgree(t, u);
      Canonical(t[1..], u[1..]);
      assert t == [t[0]] + t[1..] && u == [u[0]] + u[1..];
    }
  }

  lemma HeadsAgree(t: seq<Range>, u: seq<Range>)
    requires Canon(t) && Canon(u) && |t| > 0 && |u| > 0 && forall f :: Has(t, f) <==> Has(u, f)
    ensures t[0] == u[0]
  {
    hide Has, Canon;
    HasFirst(t);
    HasFirst(u);
    FirstIsLowest(u, t[0].start);
    FirstIsLowest(t, u[0].start);
    NotPastEnd(t, u);
    NotPastEnd(u, t);
  }

  lemma TailsAgree(t: seq<Range>, u: seq<Range>)
    requires Canon(t) && Canon(u) && |t| > 0 && |u| > 0 && t[0] == u[0] && forall f :: Has(t, f) <==> Has(u, f)
    ensures Canon(t[1..]) && Canon(u[1..]) && forall f :: Has(t[1..], f) <==> Has(u[1..], f)
  {
    hide Has, Canon;
    CanonTail(t);
    CanonTail(u);
  }

  /** The frame just behind the first range is not in the table. */
  lemma NotPastEnd(t: seq<Range>, u: seq<Range>)
    requires Canon(t) && Canon(u) && |t| > 0 && |u| > 0 && t[0].start == u[0].start && forall f :: Has(t, f) <==>
      Has(u, f)
    ensures End(t[0]) <= End(u[0])
  {
    CanonTail(u);
    if End(u[0]) < End(t[0]) { assert Has(t, End(u[0])); }
  }

  // ----- counting -----

  /** `free_frame_count`. */
  function FreeCount(t: seq<Range>): nat {
    if |t| == 0 then 0 else FreeCount(t[..|t| - 1]) + t[|t| - 1].count
  }

  lemma {:induction false} FreeCountAppend(a: seq<Range>, b: seq<Range>)
    ensures FreeCount(a + b) == FreeCount(a) + FreeCount(b)
  {
    if |b| == 0 {
      assert a + b == a;
    } else {
      FreeCountAppend(a, b[..|b| - 1]);
      assert (a + b)[..|a + b| - 1] == a + b[..|b| - 1];
    }
  }

  lemma CountOne(r: Range)
    ensures FreeCount([r]) == r.count
  {
    assert [r][..0] == [];
  }

  lemma Replaced(t: seq<Range>, i: nat, j: nat, m: Range)
    requires i <= j <= |t|
    ensures FreeCount(t[..i] + [m] + t[j..]) + FreeCount(t[i..j]) == FreeCount(t) + m.count
  {
    hide FreeCount;
    FreeCountAppend(t[..i] + [m], t[j..]);
    FreeCountAppend(t[..i], [m]);
    CountOne(m);
    assert t[..i] + t[i..j] + t[j..] == t;
    FreeCountAppend(t[..i] + t[i..j], t[j..]);
    FreeCountAppend(t[..i], t[i..j]);
  }

  // ----- inserting -----

  function Max(a: nat, b: nat): nat { if a < b then b else a }

  /** The first range that starts after `start`. */
  function Position(t: seq<Range>, start: nat): (p: nat)
    ensures p <= |t|
    ensures forall i :: 0 <= i < p ==> t[i].start <= start
    ensures p < |t| ==> t[p].start > start
  {
    if |t| == 0 || t[0].start > start then 0 else 1 + Position(t[1..], start)
  }

  /** `try_merge_forward` on a range that has just grown. */
  function MergedForward(t: seq<Range>, i: nat): seq<Range>
    requires i < |t|
  {
    if i + 1 < |t| && End(t[i]) >= t[i + 1].start
    then t[..i] + [Range(t[i].start, Max(End(t[i]), End(t[i + 1])) - t[i].start)] + t[i + 2..]
    else t
  }

  /** The range at `i` grown so that it reaches `end`. */
  function Grown(r: Range, end: nat): Range { Range(r.start, Max(End(r), end) - r.start) }

  /** `insert_free_range` once the position is known, leaving the capacity aside. */
  function InsertAtPosition(t: seq<Range>, p: nat, start: nat, count: nat): seq<Range>
    requires p <= |t| && (p < |t| ==> t[p].start > start)
  {
    if p > 0 && End(t[p - 1]) >= start then MergedForward(t[p - 1 := Grown(t[p - 1], start + count)], p - 1)
    else if p < |t| && start + count >= t[p].start then t[p := Range(start, Max(start + count, End(t[p])) - start)]
    else t[..p] + [Range(start, count)] + t[p..]
  }

  /** `insert_free_range`. */
  function Insert(t: seq<Range>, start: nat, count: nat): seq<Range> {
    if count == 0 then t else InsertAtPosition(t, Position(t, start), start, count)
  }

  /** No frame of [start, start+count) is free yet. */
  ghost predicate Disjoint(t: seq<Range>, start: nat, count: nat) {
    forall f :: start <= f < start + count ==> !Has(t, f)
  }

  lemma WithinHas(t: seq<Range>, i: nat, f: int)
    requires i < |t|
    ensures Within(t[i], f) ==> Has(t, f)
  {
  }

  /** A frame among the fresh ones is in no range. */
  lemma NotInside(t: seq<Range>, i: nat, start: nat, count: nat, f: int)
    requires Canon(t) && Disjoint(t, start, count) && i < |t|
    ensures t[i].count > 0 && (start <= f < start + count ==> !Within(t[i], f))
  {
    WithinHas(t, i, f);
  }

  lemma DisjointGaps(t: seq<Range>, start: nat, count: nat, p: nat)
    requires Canon(t) && count > 0 && Disjoint(t, start, count) && p == Position(t, start)
    ensures p > 0 ==> End(t[p - 1]) <= start
    ensures p < |t| ==> start + count <= t[p].start
  {
    hide Canon, Position, Has, Disjoint;
    if p > 0 { NotInside(t, p - 1, start, count, start); }
    if p < |t| { NotInside(t, p, start, count, t[p].start); }
  }

  /** One range `m` in place of the ranges [i, j), with a gap on both sides. */
  lemma SpliceCanon(t: seq<Range>, i: nat, j: nat, m: Range)
    requires Canon(t) && i <= j <= |t| && m.count > 0
    requires i > 0 ==> End(t[i - 1]) < m.start
    requires j < |t| ==> End(m) < t[j].start
    ensures Canon(t[..i] + [m] + t[j..])
  {
    var r := t[..i] + [m] + t[j..];
    forall x | 0 <= x < |r| ensures r[x].count > 0 { if x > i { assert r[x] == t[j + (x - i - 1)]; } }
    forall x | 0 <= x < |r| - 1 ensures End(r[x]) < r[x + 1].start {
      if x > i { assert r[x] == t[j + (x - i - 1)] && r[x + 1] == t[j + (x - i)]; }
      else if x == i { assert r[x + 1] == t[j]; }
    }
  }

  /** Insertion of fresh frames keeps the table canonical and adds exactly them. */
  lemma InsertAdds(t: seq<Range>, start: nat, count: nat)
    requires Canon(t) && Disjoint(t, start, count)
    ensures Canon(Insert(t, start, count))
    ensures forall f :: Has(Insert(t, start, count), f) <==> Has(t, f) || start <= f < start + count
  {
    if count > 0 {
      var i, j, m := InsertShape(t, start, count);
      var r := Insert(t, start, count);
      SpliceCanon(t, i, j, m);
      Spliced(t, r, i, j, [m]);
      OneRange(m);
    }
  }

  lemma OneRange(m: Range)
    ensures forall f :: Has([m], f) <==> Within(m, f)
  {
    assert [m][0] == m;
  }

  /** The three branches of the insertion, for fresh frames. */
  lemma InsertLeft(t: seq<Range>, start: nat, count: nat, p: nat)
    requires count > 0 && 0 < p <= |t| && End(t[p - 1]) == start && (p < |t| ==> start + count <= t[p].start)
    ensures var g := Range(t[p - 1].start, t[p - 1].count + count);
      InsertAtPosition(t, p, start, count) ==
        if p < |t| && start + count == t[p].start then t[..p - 1] + [Range(g.start, End(t[p]) - g.start)] + t[p + 1..]
            else t[..p - 1] + [g] + t[p..]
  {
    hide MergedForward;
    Forward(t, p, Range(t[p - 1].start, t[p - 1].count + count));
  }

  lemma InsertRight(t: seq<Range>, start: nat, count: nat, p: nat)
    requires count > 0 && p < |t| && (p > 0 ==> End(t[p - 1]) < start) && start + count == t[p].start
    ensures InsertAtPosition(t, p, start, count) == t[..p] + [Range(start, count + t[p].count)] + t[p + 1..]
  {
    hide MergedForward;
    var m := Range(start, count + t[p].count);
    assert t[p := m] == t[..p] + [m] + t[p + 1..];
  }

  lemma InsertAlone(t: seq<Range>, start: nat, count: nat, p: nat)
    requires count > 0 && p <= |t| && (p > 0 ==> End(t[p - 1]) < start) && (p < |t| ==> start + count < t[p].start)
    ensures InsertAtPosition(t, p, start, count) == t[..p] + [Range(start, count)] + t[p..]
  {
    hide MergedForward;
  }

  lemma Gap(t: seq<Range>, i: nat)
    requires Canon(t) && i < |t|
    ensures t[i].count > 0 && (i + 1 < |t| ==> End(t[i]) < t[i + 1].start)
  {
  }

  /** Whatever the branch, insertion puts one range in place of zero, one or two neighbours, and
      that range holds their frames and the new ones. */
  lemma InsertShape(t: seq<Range>, start: nat, count: nat) returns (i: nat, j: nat, m: Range)
    requires Canon(t) && count > 0 && Disjoint(t, start, count)
    ensures i <= j <= |t| && m.count > 0 && Insert(t, start, count) == t[..i] + [m] + t[j..]
    ensures (i > 0 ==> End(t[i - 1]) < m.start) && (j < |t| ==> End(m) < t[j].start)
    ensures forall f :: Within(m, f) <==> Has(t[i..j], f) || start <= f < start + count
    ensures m.count == FreeCount(t[i..j]) + count
  {
    hide Position, InsertAtPosition, Disjoint, Has, FreeCount, Canon;
    var p := Position(t, start);
    DisjointGaps(t, start, count, p);
    if p > 0 { Gap(t, p - 1); }
    if p > 1 { Gap(t, p - 2); }
    if p < |t| { Gap(t, p); }
    if p > 0 && End(t[p - 1]) == start {
      InsertLeft(t, start, count, p);
      OneRange(t[p - 1]);
      CountOne(t[p - 1]);
      if p < |t| && start + count == t[p].start {
        i, j, m := p - 1, p + 1, Range(t[p - 1].start, End(t[p]) - t[p - 1].start);
        assert t[i..j] == [t[p - 1]] + [t[p]];
        HasAppend([t[p - 1]], [t[p]]);
        OneRange(t[p]);
        FreeCountAppend([t[p - 1]], [t[p]]);
        CountOne(t[p]);
      } else {
        i, j, m := p - 1, p, Range(t[p - 1].start, t[p - 1].count + count);
        assert t[i..j] == [t[p - 1]];
      }
    } else if p < |t| && start + count == t[p].start {
      InsertRight(t, start, count, p);
      i, j, m := p, p + 1, Range(start, count + t[p].count);
      assert t[i..j] == [t[p]];
      OneRange(t[p]);
      CountOne(t[p]);
    } else {
      InsertAlone(t, start, count, p);
      i, j, m := p, p, Range(start, count);
      assert t[i..j] == [];
      HasNone();
    }
  }

  lemma HasNone()
    ensures (forall f :: !Has([], f)) && FreeCount([]) == 0
  {
  }

  lemma Forward(t: seq<Range>, p: nat, g: Range)
    requires 0 < p <= |t| && (p < |t| ==> End(g) <= t[p].start)
    ensures MergedForward(t[p - 1 := g], p - 1) ==
      if p < |t| && End(g) == t[p].start then t[..p - 1] + [Range(g.start, End(t[p]) - g.start)] + t[p + 1..]
          else t[..p - 1] + [g] + t[p..]
  {
    var u := t[p - 1 := g];
    assert u[..p - 1] == t[..p - 1];
    if p < |t| { assert u[p] == t[p] && u[p + 1..] == t[p + 1..]; }
    assert u == t[..p - 1] + [g] + t[p..];
  }

  /** Replacing the ranges [i, j) by `mid`, in terms of frames. */
  lemma Spliced(t: seq<Range>, r: seq<Range>, i: nat, j: nat, mid: seq<Range>)
    requires i <= j <= |t| && r == t[..i] + mid + t[j..]
    ensures forall f :: Has(r, f) <==> Has(t[..i], f) || Has(mid, f) || Has(t[j..], f)
    ensures forall f :: Has(t, f) <==> Has(t[..i], f) || Has(t[i..j], f) || Has(t[j..], f)
  {
    HasAppend(t[..i], mid);
    HasAppend(t[..i] + mid, t[j..]);
    HasAppend(t[..i], t[i..j]);
    HasAppend(t[..i] + t[i..j], t[j..]);
    assert t[..i] + t[i..j] + t[j..] == t;
  }

  lemma HasAppend(a: seq<Range>, b: seq<Range>)
    ensures forall f :: Has(a + b, f) <==> Has(a, f) || Has(b, f)
  {
    var c := a + b;
    forall f ensures Has(c, f) <==> Has(a, f) || Has(b, f) {
      if Has(a, f) { var i :| 0 <= i < |a| && a[i].start <= f < End(a[i]); assert c[i] == a[i]; }
      if Has(b, f) { var i :| 0 <= i < |b| && b[i].start <= f < End(b[i]); assert c[|a| + i] == b[i]; }
      if Has(c, f) {
        var i :| 0 <= i < |c| && c[i].start <= f < End(c[i]);
        if i < |a| { assert a[i] == c[i]; } else { assert b[i - |a|] == c[i]; }
      }
    }
  }

  // ----- order and chunking do not matter -----

  function InsertAll(t: seq<Range>, rs: seq<Range>): seq<Range>
    decreases |rs|
  {
    if |rs| == 0 then t else InsertAll(Insert(t, rs[0].start, rs[0].count), rs[1..])
  }

  /** Each range is fresh when its turn comes. */
  ghost predicate Fresh(t: seq<Range>, rs: seq<Range>)
    decreases |rs|
  {
    |rs| == 0 || (Disjoint(t, rs[0].start, rs[0].count) && Fresh(Insert(t, rs[0].start, rs[0].count), rs[1..]))
  }

  lemma {:induction false} InsertAllAdds(t: seq<Range>, rs: seq<Range>)
    requires Canon(t) && Fresh(t, rs)
    ensures Canon(InsertAll(t, rs)) && forall f :: Has(InsertAll(t, rs), f) <==> Has(t, f) || Has(rs, f)
    decreases |rs|
  {
    hide Insert, Canon;
    if |rs| == 0 {
      HasNone();
    } else {
      InsertAdds(t, rs[0].start, rs[0].count);
      InsertAllAdds(Insert(t, rs[0].start, rs[0].count), rs[1..]);
      HasAppend([rs[0]], rs[1..]);
      OneRange(rs[0]);
      assert rs == [rs[0]] + rs[1..];
    }
  }

  /** Giving back the same frames in any order, in any pieces, yields the identical table. */
  lemma OrderDoesNotMatter(t: seq<Range>, rs: seq<Range>, qs: seq<Range>)
    requires Canon(t) && Fresh(t, rs) && Fresh(t, qs) && forall f :: Has(rs, f) <==> Has(qs, f)
    ensures InsertAll(t, rs) == InsertAll(t, qs)
  {
    hide Insert, Has, Canon, Fresh, InsertAll;
    InsertAllAdds(t, rs);
    InsertAllAdds(t, qs);
    Canonical(InsertAll(t, rs), InsertAll(t, qs));
  }

  // ----- taking frames out -----

  /** What is left of range `r` around [s, s+n). */
  function Pieces(r: Range, s: nat, n: nat): seq<Range>
    requires r.start <= s && s + n <= End(r)
  {
    (if s > r.start then [Range(r.start, s - r.start)] else [])
        + (if s + n < End(r) then [Range(s + n, End(r) - (s + n))] else [])
  }

  /** The table without the frames [s, s+n), all of range `i`. */
  function Carved(t: seq<Range>, i: nat, s: nat, n: nat): seq<Range>
    requires i < |t| && t[i].start <= s && s + n <= End(t[i])
  {
    t[..i] + Pieces(t[i], s, n) + t[i + 1..]
  }

  lemma PiecesHave(r: Range, s: nat, n: nat)
    requires r.start <= s && s + n <= End(r) && n > 0
    ensures forall f :: Has(Pieces(r, s, n), f) <==> Within(r, f) && !(s <= f < s + n)
  {
    var a, b := Range(r.start, s - r.start), Range(s + n, End(r) - (s + n));
    HasNone();
    OneRange(a);
    OneRange(b);
    HasAppend(if s > r.start then [a] else [], if s + n < End(r) then [b] else []);
  }

  /** Frames of another range are not in this one. */
  lemma RangesApart(t: seq<Range>, i: nat)
    requires Canon(t) && i < |t|
    ensures forall f :: Has(t[..i], f) || Has(t[i + 1..], f) ==> !Within(t[i], f)
  {
    forall f | Has(t[..i], f) ensures !Within(t[i], f) {
      var j :| 0 <= j < i && t[..i][j].start <= f < End(t[..i][j]);
      Sorted(t, j, i);
    }
    forall f | Has(t[i + 1..], f) ensures !Within(t[i], f) {
      var u := t[i + 1..];
      var j :| 0 <= j < |u| && u[j].start <= f < End(u[j]);
      Sorted(t, i, i + 1 + j);
    }
  }

  /** Carving keeps the table canonical and takes out exactly those frames. */
  lemma CarveTakes(t: seq<Range>, i: nat, s: nat, n: nat)
    requires Canon(t) && i < |t| && t[i].start <= s && s + n <= End(t[i]) && n > 0
    ensures Canon(Carved(t, i, s, n))
    ensures forall f :: Has(Carved(t, i, s, n), f) <==> Has(t, f) && !(s <= f < s + n)
  {
    CarveCanon(t, i, s, n);
    hide Canon, Has, Pieces;
    Spliced(t, Carved(t, i, s, n), i, i + 1, Pieces(t[i], s, n));
    assert t[i..i + 1] == [t[i]];
    OneRange(t[i]);
    PiecesHave(t[i], s, n);
    RangesApart(t, i);
  }

  lemma CarveCanon(t: seq<Range>, i: nat, s: nat, n: nat)
    requires Canon(t) && i < |t| && t[i].start <= s && s + n <= End(t[i]) && n > 0
    ensures Canon(Carved(t, i, s, n))
  {
    var p := Pieces(t[i], s, n);
    PiecesCanon(t[i], s, n);
    SpliceMany(t, i, p);
  }

  lemma PiecesCanon(r: Range, s: nat, n: nat)
    requires r.count > 0 && r.start <= s && s + n <= End(r) && n > 0
    ensures var p := Pieces(r, s, n);
      Canon(p) && forall x :: 0 <= x < |p| ==> r.start <= p[x].start && End(p[x]) <= End(r)
  {
  }

  /** Ranges inside the one they replace keep the form. */
  lemma SpliceMany(t: seq<Range>, i: nat, p: seq<Range>)
    requires Canon(t) && i < |t| && Canon(p)
    requires forall x :: 0 <= x < |p| ==> t[i].start <= p[x].start && End(p[x]) <= End(t[i])
    ensures Canon(t[..i] + p + t[i + 1..])
  {
    var r := t[..i] + p + t[i + 1..];
    forall x | 0 <= x < |r| ensures r[x].count > 0 {
      assert r[x] == if x < i then t[x] else if x < i + |p| then p[x - i] else t[x - |p| + 1];
    }
    forall x | 0 <= x < |r| - 1 ensures End(r[x]) < r[x + 1].start {
      var a := if x < i then t[x] else if x < i + |p| then p[x - i] else t[x - |p| + 1];
      var y := x + 1;
      var b := if y < i then t[y] else if y < i + |p| then p[y - i] else t[y - |p| + 1];
      assert r[x] == a && r[y] == b;
      if x + 1 == i && |p| == 0 { Sorted(t, x, i + 1); }
    }
  }

  // ----- first fit -----

  /** [s, s+n) is free and `s` is on the boundary asked for. */
  ghost predicate FreeRun(t: seq<Range>, s: nat, n: nat, align: nat)
    requires align > 0
  {
    s % align == 0 && forall f :: s <= f < s + n ==> Has(t, f)
  }

  /** `next_multiple_of`. */
  function AlignUp(s: nat, align: nat): (r: nat)
    requires align > 0
    ensures r >= s && r % align == 0 && forall k: nat :: k >= s && k % align == 0 ==> r <= k
  {
    if s % align == 0 then s
    else
      var r := s + (align - s % align);
      NextMultiple(s, align);
      r
  }

  lemma NextMultiple(s: nat, align: nat)
    requires align > 0 && s % align != 0
    ensures (s + (align - s % align)) % align == 0
    ensures forall k: nat :: k >= s && k % align == 0 ==> s + (align - s % align) <= k
  {
    var q := s / align;
    assert s == align * q + s % align;
    assert s + (align - s % align) == align * (q + 1);
    MultipleMod(q + 1, align);
    forall k: nat | k >= s && k % align == 0 ensures align * (q + 1) <= k {
      var m := k / align;
      assert k == align * m;
      if m <= q { MultipleLess(align, m, q); assert false; }
      MultipleLess(align, q + 1, m);
    }
  }

  lemma MultipleLess(a: nat, m: int, q: int)
    requires m <= q
    ensures a * m <= a * q
  {
  }

  lemma {:induction false} MultipleMod(q: nat, align: nat)
    requires align > 0
    ensures (align * q) % align == 0
  {
    if q > 0 {
      MultipleMod(q - 1, align);
      assert align * q == align * (q - 1) + align;
      AddMod(align * (q - 1), align);
    }
  }

  lemma AddMod(x: nat, align: nat)
    requires align > 0
    ensures (x + align) % align == x % align
  {
    var q, r := x / align, x % align;
    assert x == align * q + r;
    assert x + align == align * (q + 1) + r;
    ModUnique(x + align, align, q + 1, r);
  }

  lemma ModUnique(x: nat, align: nat, q: nat, r: nat)
    requires align > 0 && x == align * q + r && r < align
    ensures x % align == r
  {
    var p, s := x / align, x % align;
    assert x == align * p + s;
    if p < q { MultipleLess(align, p + 1, q); } else if q < p { MultipleLess(align, q + 1, p); }
  }

  predicate Fits(r: Range, count: nat, align: nat)
    requires align > 0
  {
    AlignUp(r.start, align) + count <= End(r)
  }

  /** Any free run of a canonical table lies inside one range. */
  lemma RunInOneRange(t: seq<Range>, s: nat, n: nat) returns (i: nat)
    requires Canon(t) && n > 0 && forall f :: s <= f < s + n ==> Has(t, f)
    ensures i < |t| && t[i].start <= s && s + n <= End(t[i])
  {
    assert Has(t, s);
    var k :| 0 <= k < |t| && t[k].start <= s < End(t[k]);
    i := k;
    BehindIsUsed(t, i);
  }

  lemma BehindIsUsed(t: seq<Range>, i: nat)
    requires Canon(t) && i < |t|
    ensures !Has(t, End(t[i]))
  {
    if Has(t, End(t[i])) {
      var j :| 0 <= j < |t| && t[j].start <= End(t[i]) < End(t[j]);
      if j < i { Sorted(t, j, i); } else if i < j { Sorted(t, i, j); }
    }
  }

  /** First fit is lowest fit: the first range the request fits into gives the lowest free
      aligned run there is. */
  lemma FirstFitIsLowest(t: seq<Range>, i: nat, count: nat, align: nat)
    requires Canon(t) && count > 0 && align > 0 && i <= |t|
    requires forall j :: 0 <= j < i ==> !Fits(t[j], count, align)
    requires i < |t| ==> Fits(t[i], count, align)
    ensures i < |t| ==> FreeRun(t, AlignUp(t[i].start, align), count, align)
    ensures forall s: nat :: FreeRun(t, s, count, align) ==> i < |t| && AlignUp(t[i].start, align) <= s
  {
    hide AlignUp;
    if i < |t| {
      assert forall f :: Within(t[i], f) ==> Has(t, f);
    }
    forall s: nat | FreeRun(t, s, count, align) ensures i < |t| && AlignUp(t[i].start, align) <= s {
      var k := RunInOneRange(t, s, count);
      assert AlignUp(t[k].start, align) <= s;
      assert Fits(t[k], count, align);
      if i < k { Sorted(t, i, k); }
    }
  }

  /** An insertion needs a range of its own exactly when neither neighbouring frame is free. */
  lemma InsertTouches(t: seq<Range>, start: nat, count: nat)
    requires Canon(t) && count > 0 && Disjoint(t, start, count)
    ensures |Insert(t, start, count)| <= |t| + 1
    ensures |Insert(t, start, count)| == |t| + 1 <==> !Has(t, start - 1) && !Has(t, start + count)
  {
    var i, j, m := InsertShape(t, start, count);
    hide Insert;
    if i == j {
      NoneBetween(t, i, start, count, m);
    } else {
      HasPart(t, i, j);
      assert Within(m, t[i].start) && !(start <= t[i].start < start + count);
      assert Within(m, start) && Within(m, start + count - 1);
      if m.start < start { assert Within(m, start - 1); } else { assert Within(m, start + count); }
    }
  }

  /** Frames of some of the ranges are frames of the table. */
  lemma HasPart(t: seq<Range>, i: nat, j: nat)
    requires Canon(t) && i < j <= |t|
    ensures forall f :: Has(t[i..j], f) ==> Has(t, f)
    ensures Has(t[i..j], t[i].start)
  {
    var u := t[i..j];
    forall f | Has(u, f) ensures Has(t, f) {
      var k :| 0 <= k < |u| && u[k].start <= f < End(u[k]);
      assert u[k] == t[i + k];
    }
    assert u[0] == t[i];
  }

  lemma NoneBetween(t: seq<Range>, i: nat, start: nat, count: nat, m: Range)
    requires Canon(t) && i <= |t| && count > 0 && m.count > 0
    requires (i > 0 ==> End(t[i - 1]) < m.start) && (i < |t| ==> End(m) < t[i].start)
    requires forall f :: Within(m, f) <==> Has(t[i..i], f) || start <= f < start + count
    ensures !Has(t, start - 1) && !Has(t, start + count)
  {
    assert !Has(t[i..i], m.start) && !Has(t[i..i], End(m) - 1) && !Has(t[i..i], start - 1)
        && !Has(t[i..i], start + count);
    assert Within(m, m.start) && Within(m, End(m) - 1) && Within(m, start) && Within(m, start + count - 1);
    assert m == Range(start, count);
    forall k | 0 <= k < |t| ensures !Within(t[k], start - 1) && !Within(t[k], start + count) {
      if k + 1 < i { Sorted(t, k, i - 1); }
      if k > i { Sorted(t, i, k); }
    }
  }
}
