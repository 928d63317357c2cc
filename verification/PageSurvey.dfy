/** The permission survey: every mapped 4 KiB unit is charged to the narrowest region that
    contains it, and the digest depends on nothing but which units are mapped how. Addresses
    are in units throughout. */
module PageSurvey {
  import opened Wrappers

  /** A named region, its bounds already widened to whole units. */
  datatype Region = Region(name: string, lo: nat, hi: nat, absent: bool, counted: bool)

  /** A run of mapped units of one size class and one permission set. */
  datatype Mapped = Mapped(start: nat, units: nat, size: nat, permissions: nat)

  datatype Key = Key(name: string, absent: bool, size: nat, permissions: nat)

  datatype Row = Row(key: Key, counted: bool, pages: nat, first: nat)

  const UNNAMED := "(unnamed)"
  const U64 := 0x1_0000_0000_0000_0000

  predicate Contains(r: Region, u: nat) { r.lo <= u < r.hi }

  function Length(r: Region): int { r.hi - r.lo }

  // ----- the narrowest region -----

  /** `b` is the first of the shortest regions that contain `u`. */
  ghost predicate IsNarrowest(rs: seq<Region>, n: nat, u: nat, b: nat)
    requires n <= |rs|
  {
    && b < n && Contains(rs[b], u)
    && (forall i :: 0 <= i < n && Contains(rs[i], u) ==> Length(rs[b]) <= Length(rs[i]))
    && (forall i :: 0 <= i < b && Contains(rs[i], u) ==> Length(rs[b]) < Length(rs[i]))
  }

  function Narrowest(rs: seq<Region>, n: nat, u: nat): (b: Option<nat>)
    requires n <= |rs|
    ensures b.Some? ==> IsNarrowest(rs, n, u, b.value)
    ensures b.None? ==> forall i :: 0 <= i < n ==> !Contains(rs[i], u)
  {
    if n == 0 then None
    else
      var b := Narrowest(rs, n - 1, u);
      if Contains(rs[n - 1], u) && (b.None? || Length(rs[n - 1]) < Length(rs[b.value])) then Some(n - 1) else b
  }

  lemma NarrowestIs(rs: seq<Region>, u: nat, b: nat)
    requires IsNarrowest(rs, |rs|, u, b)
    ensures Narrowest(rs, |rs|, u) == Some(b)
  {
  }

  function KeyAt(rs: seq<Region>, u: nat, size: nat, permissions: nat): Key {
    match Narrowest(rs, |rs|, u)
    case Some(b) => Key(rs[b].name, rs[b].absent, size, permissions)
    case None => Key(UNNAMED, false, size, permissions)
  }

  function CountedAt(rs: seq<Region>, u: nat): bool {
    match Narrowest(rs, |rs|, u)
    case Some(b) => rs[b].counted
    case None => true
  }

  /** The next place the answer can change: the end of the region at hand, or the start of a
      region further on. */
  function Cut(rs: seq<Region>, n: nat, at: nat, next: nat): (r: nat)
    requires n <= |rs| && at < next
    ensures at < r <= next && forall i :: 0 <= i < n && rs[i].lo > at ==> r <= rs[i].lo
  {
    if n == 0 then next
    else
      var c := Cut(rs, n - 1, at, next);
      if rs[n - 1].lo > at && rs[n - 1].lo < c then rs[n - 1].lo else c
  }

  function NextCut(rs: seq<Region>, at: nat, end: nat): (r: nat)
    requires at < end
    ensures at < r <= end
  {
    var b := Narrowest(rs, |rs|, at);
    var next := if b.Some? && rs[b.value].hi < end then rs[b.value].hi else end;
    Cut(rs, |rs|, at, next)
  }

  /** Between two cuts every unit has the same narrowest region. */
  lemma SameUntilCut(rs: seq<Region>, at: nat, end: nat, u: nat)
    requires at <= u < end && at < end && u < NextCut(rs, at, end)
    ensures Narrowest(rs, |rs|, u) == Narrowest(rs, |rs|, at)
  {
    hide Cut;
    var b := Narrowest(rs, |rs|, at);
    forall i | 0 <= i < |rs| && Contains(rs[i], u) ensures Contains(rs[i], at) { }
    if b.Some? {
      assert Contains(rs[b.value], u);
      NarrowestIs(rs, u, b.value);
    }
  }

  // ----- rows -----

  ghost predicate KeysDiffer(rows: seq<Row>) {
    forall i, j :: 0 <= i < j < |rows| ==> rows[i].key != rows[j].key
  }

  function FindKey(rows: seq<Row>, k: Key): (i: nat)
    ensures i <= |rows| && (i < |rows| ==> rows[i].key == k) && forall j :: 0 <= j < i ==> rows[j].key != k
  {
    if rows == [] || rows[0].key == k then 0 else 1 + FindKey(rows[1..], k)
  }

  function PagesOf(rows: seq<Row>, k: Key): nat {
    var i := FindKey(rows, k);
    if i < |rows| then rows[i].pages else 0
  }

  function CountedOf(rows: seq<Row>, k: Key): bool {
    var i := FindKey(rows, k);
    i < |rows| && rows[i].counted
  }

  /** `put`, leaving the capacity aside. */
  function PutRow(rows: seq<Row>, k: Key, counted: bool, pages: nat, first: nat): seq<Row> {
    var i := FindKey(rows, k);
    if i < |rows| then rows[i := rows[i].(pages := rows[i].pages + pages, counted := rows[i].counted || counted)]
    else rows + [Row(k, counted, pages, first)]
  }

  lemma FindIs(rows: seq<Row>, k: Key, i: nat)
    requires i <= |rows| && (i < |rows| ==> rows[i].key == k) && forall j :: 0 <= j < i ==> rows[j].key != k
    ensures FindKey(rows, k) == i
  {
  }

  lemma PutRowKeys(rows: seq<Row>, k: Key, counted: bool, pages: nat, first: nat)
    requires KeysDiffer(rows)
    ensures var r := PutRow(rows, k, counted, pages, first);
      KeysDiffer(r) && forall q :: FindKey(r, q) < |r| <==> q == k || FindKey(rows, q) < |rows|
  {
    var r := PutRow(rows, k, counted, pages, first);
    var n := FindKey(rows, k);
    forall i | 0 <= i < |rows| ensures r[i].key == rows[i].key { }
    forall q ensures FindKey(r, q) < |r| <==> q == k || FindKey(rows, q) < |rows| {
      var i := FindKey(rows, q);
      if i < |rows| || q == k { FindIs(r, q, i); } else { FindIs(r, q, |r|); }
    }
  }

  lemma PutRowSize(rows: seq<Row>, k: Key, counted: bool, pages: nat, first: nat)
    ensures |PutRow(rows, k, counted, pages, first)| == |rows| + (if FindKey(rows, k) < |rows| then 0 else 1)
  {
  }

  // ----- tallies -----

  /** One mapped unit. */
  datatype Item = Item(unit: nat, size: nat, permissions: nat)

  function KeyOf(rs: seq<Region>, x: Item): Key { KeyAt(rs, x.unit, x.size, x.permissions) }

  /** The units [from, to) of a mapped run. */
  function Items(m: Mapped, from: nat, to: nat): (s: seq<Item>)
    requires from <= to
    ensures |s| == to - from && forall i :: 0 <= i < |s| ==> s[i] == Item(from + i, m.size, m.permissions)
  {
    seq(to - from, i requires 0 <= i < to - from => Item(from + i, m.size, m.permissions))
  }

  /** How many of the items are charged to `k`, and whether one of them counts. */
  function Tally(rs: seq<Region>, items: seq<Item>, k: Key): nat {
    if items == [] then 0
    else Tally(rs, items[..|items| - 1], k) + if KeyOf(rs, items[|items| - 1]) == k then 1 else 0
  }

  ghost predicate AnyCounted(rs: seq<Region>, items: seq<Item>, k: Key) {
    exists i :: 0 <= i < |items| && KeyOf(rs, items[i]) == k && CountedAt(rs, items[i].unit)
  }

  lemma {:induction false} TallyAppend(rs: seq<Region>, a: seq<Item>, b: seq<Item>, k: Key)
    ensures Tally(rs, a + b, k) == Tally(rs, a, k) + Tally(rs, b, k)
  {
    if b == [] {
      assert a + b == a;
    } else {
      TallyAppend(rs, a, b[..|b| - 1], k);
      assert (a + b)[..|a + b| - 1] == a + b[..|b| - 1];
    }
  }

  lemma AnyCountedAppend(rs: seq<Region>, a: seq<Item>, b: seq<Item>, k: Key)
    ensures AnyCounted(rs, a + b, k) <==> AnyCounted(rs, a, k) || AnyCounted(rs, b, k)
  {
    var c := a + b;
    if AnyCounted(rs, a, k) {
      var i :| 0 <= i < |a| && KeyOf(rs, a[i]) == k && CountedAt(rs, a[i].unit);
      assert c[i] == a[i];
    }
    if AnyCounted(rs, b, k) {
      var i :| 0 <= i < |b| && KeyOf(rs, b[i]) == k && CountedAt(rs, b[i].unit);
      assert c[|a| + i] == b[i];
    }
    if AnyCounted(rs, c, k) {
      var i :| 0 <= i < |c| && KeyOf(rs, c[i]) == k && CountedAt(rs, c[i].unit);
      if i < |a| { assert a[i] == c[i]; } else { assert b[i - |a|] == c[i]; }
    }
  }

  /** Items that all go to one key. */
  lemma {:induction false} TallyUniform(rs: seq<Region>, items: seq<Item>, k: Key, q: Key)
    requires forall i :: 0 <= i < |items| ==> KeyOf(rs, items[i]) == k
    ensures Tally(rs, items, q) == if q == k then |items| else 0
  {
    if items != [] { TallyUniform(rs, items[..|items| - 1], k, q); }
  }

  /** The first item charged to `k` is unit `u`. */
  ghost predicate FirstUnit(rs: seq<Region>, items: seq<Item>, k: Key, u: nat) {
    exists j :: 0 <= j < |items| && KeyOf(rs, items[j]) == k && items[j].unit == u && Tally(rs, items[..j], k) == 0
  }

  /** Every row says of its key how many units it has, whether it counts, and where it was first met. */
  ghost predicate Exact(rs: seq<Region>, rows: seq<Row>, items: seq<Item>) {
    KeysDiffer(rows) && forall i {:trigger rows[i]} :: 0 <= i < |rows| ==> RowOk(rs, rows[i], items)
  }

  /** Every item's key has a row. */
  ghost predicate Complete(rs: seq<Region>, rows: seq<Row>, items: seq<Item>) {
    forall k :: Tally(rs, items, k) > 0 ==> FindKey(rows, k) < |rows|
  }

  ghost predicate Surveyed(rs: seq<Region>, rows: seq<Row>, items: seq<Item>) {
    Exact(rs, rows, items) && Complete(rs, rows, items)
  }

  lemma {:induction false} TallyCovers(rs: seq<Region>, items: seq<Item>, j: nat)
    requires j < |items|
    ensures Tally(rs, items, KeyOf(rs, items[j])) > 0
  {
    hide KeyOf;
    if j < |items| - 1 {
      TallyCovers(rs, items[..|items| - 1], j);
      assert items[..|items| - 1][j] == items[j];
    }
  }

  /** The same, key by key. */
  lemma SurveyedKeys(rs: seq<Region>, rows: seq<Row>, items: seq<Item>)
    requires Surveyed(rs, rows, items)
    ensures KeysDiffer(rows)
    ensures forall k :: PagesOf(rows, k) == Tally(rs, items, k)
    ensures forall k :: CountedOf(rows, k) <==> AnyCounted(rs, items, k)
    ensures forall k :: FindKey(rows, k) < |rows| <==> Tally(rs, items, k) > 0
  {
    hide FindKey, Tally, KeyOf, CountedAt;
    forall k
      ensures PagesOf(rows, k) == Tally(rs, items, k)
      ensures CountedOf(rows, k) <==> AnyCounted(rs, items, k)
      ensures FindKey(rows, k) < |rows| <==> Tally(rs, items, k) > 0
    {
      var i := FindKey(rows, k);
      if i < |rows| {
        assert rows[i].key == k;
      } else if AnyCounted(rs, items, k) {
        var j :| 0 <= j < |items| && KeyOf(rs, items[j]) == k && CountedAt(rs, items[j].unit);
        TallyCovers(rs, items, j);
      }
    }
  }

  /** A run of items that all go to key `k`. */
  ghost predicate Chunk(rs: seq<Region>, chunk: seq<Item>, k: Key, counted: bool) {
    && chunk != []
    && forall i :: 0 <= i < |chunk| ==> KeyOf(rs, chunk[i]) == k && CountedAt(rs, chunk[i].unit) == counted
  }

  /** The units up to the next cut are such a run. */
  lemma UntilCut(rs: seq<Region>, m: Mapped, at: nat, end: nat)
    requires at < end
    ensures Chunk(rs, Items(m, at, NextCut(rs, at, end)), KeyAt(rs, at, m.size, m.permissions), CountedAt(rs, at))
  {
    hide NextCut, Narrowest;
    var next := NextCut(rs, at, end);
    var k, chunk := KeyAt(rs, at, m.size, m.permissions), Items(m, at, next);
    forall i | 0 <= i < |chunk| ensures KeyOf(rs, chunk[i]) == k && CountedAt(rs, chunk[i].unit) == CountedAt(rs, at) {
      SameUntilCut(rs, at, end, at + i);
    }
  }

  /** What such a run adds to the tallies. */
  lemma ChunkTallies(rs: seq<Region>, items: seq<Item>, chunk: seq<Item>, k: Key, counted: bool, q: Key)
    requires Chunk(rs, chunk, k, counted)
    ensures Tally(rs, items + chunk, q) == Tally(rs, items, q) + (if q == k then |chunk| else 0)
    ensures AnyCounted(rs, items + chunk, q) <==> AnyCounted(rs, items, q) || (q == k && counted)
  {
    hide Tally, KeyOf, CountedAt, AnyCounted;
    TallyAppend(rs, items, chunk, q);
    TallyUniform(rs, chunk, k, q);
    AnyCountedAppend(rs, items, chunk, q);
    ChunkCounted(rs, chunk, k, q, counted);
  }

  lemma FirstStays(rs: seq<Region>, items: seq<Item>, chunk: seq<Item>, k: Key, u: nat)
    requires FirstUnit(rs, items, k, u)
    ensures FirstUnit(rs, items + chunk, k, u)
  {
    hide Tally, KeyOf;
    var j :| 0 <= j < |items| && KeyOf(rs, items[j]) == k && items[j].unit == u && Tally(rs, items[..j], k) == 0;
    assert (items + chunk)[j] == items[j] && (items + chunk)[..j] == items[..j];
  }

  lemma FirstComes(rs: seq<Region>, items: seq<Item>, chunk: seq<Item>, k: Key, counted: bool)
    requires Chunk(rs, chunk, k, counted) && Tally(rs, items, k) == 0
    ensures FirstUnit(rs, items + chunk, k, chunk[0].unit)
  {
    hide Tally, KeyOf;
    assert (items + chunk)[|items|] == chunk[0] && (items + chunk)[..|items|] == items;
  }

  /** A row says what it should of `items`. */
  ghost predicate RowOk(rs: seq<Region>, row: Row, items: seq<Item>) {
    && row.pages == Tally(rs, items, row.key) && row.pages > 0
    && (row.counted <==> AnyCounted(rs, items, row.key))
    && FirstUnit(rs, items, row.key, row.first)
  }

  /** A row of another key, a row of the key, and a new row, when a run of items is added. */
  lemma OtherRow(rs: seq<Region>, row: Row, items: seq<Item>, chunk: seq<Item>, k: Key, counted: bool)
    requires RowOk(rs, row, items) && Chunk(rs, chunk, k, counted) && row.key != k
    ensures RowOk(rs, row, items + chunk)
  {
    hide Tally, AnyCounted, FirstUnit, Chunk;
    ChunkTallies(rs, items, chunk, k, counted, row.key);
    FirstStays(rs, items, chunk, row.key, row.first);
  }

  lemma GrownRow(rs: seq<Region>, row: Row, items: seq<Item>, chunk: seq<Item>, counted: bool)
    requires RowOk(rs, row, items) && Chunk(rs, chunk, row.key, counted)
    ensures RowOk(rs, row.(pages := row.pages + |chunk|, counted := row.counted || counted), items + chunk)
  {
    hide Tally, AnyCounted, FirstUnit, Chunk;
    ChunkTallies(rs, items, chunk, row.key, counted, row.key);
    FirstStays(rs, items, chunk, row.key, row.first);
  }

  lemma NewRow(rs: seq<Region>, items: seq<Item>, chunk: seq<Item>, k: Key, counted: bool)
    requires Chunk(rs, chunk, k, counted) && Tally(rs, items, k) == 0
    ensures chunk != [] && RowOk(rs, Row(k, counted, |chunk|, chunk[0].unit), items + chunk)
  {
    hide Tally, AnyCounted, FirstUnit, Chunk;
    ChunkSome(rs, chunk, k, counted);
    ChunkTallies(rs, items, chunk, k, counted, k);
    NothingYet(rs, items, k);
    FirstComes(rs, items, chunk, k, counted);
  }

  /** One run put into the rows, in a table for `room` rows: every row stays exact, and as long as
      the table is not full every key has its row. */
  lemma RunExact(rs: seq<Region>, rows: seq<Row>, items: seq<Item>, chunk: seq<Item>, k: Key, counted: bool,
      room: nat)
    requires Exact(rs, rows, items) && |rows| <= room && (|rows| < room ==> Complete(rs, rows, items))
    requires Chunk(rs, chunk, k, counted)
    ensures chunk != []
    ensures var full := FindKey(rows, k) == |rows| == room;
      Exact(rs, if full then rows else PutRow(rows, k, counted, |chunk|, chunk[0].unit), items + chunk)
  {
    hide RowOk, Chunk, Tally;
    ChunkSome(rs, chunk, k, counted);
    var n := FindKey(rows, k);
    PutRowKeys(rows, k, counted, |chunk|, chunk[0].unit);
    forall i | 0 <= i < |rows| && i != n ensures RowOk(rs, rows[i], items + chunk) {
      OtherRow(rs, rows[i], items, chunk, k, counted);
    }
    if n < |rows| {
      GrownRow(rs, rows[n], items, chunk, counted);
    } else if |rows| < room {
      NewRow(rs, items, chunk, k, counted);
    }
  }

  lemma RunComplete(rs: seq<Region>, rows: seq<Row>, items: seq<Item>, chunk: seq<Item>, k: Key, counted: bool,
      room: nat)
    requires Exact(rs, rows, items) && |rows| <= room && (|rows| < room ==> Complete(rs, rows, items))
    requires Chunk(rs, chunk, k, counted)
    ensures chunk != []
    ensures var full := FindKey(rows, k) == |rows| == room;
      var r := if full then rows else PutRow(rows, k, counted, |chunk|, chunk[0].unit);
      && |r| <= room && (|r| < room ==> Complete(rs, r, items + chunk))
      && (Complete(rs, r, items + chunk) <==> Complete(rs, rows, items) && !full)
  {
    hide RowOk, Chunk, Tally, FindKey, PutRow;
    ChunkSome(rs, chunk, k, counted);
    PutRowKeys(rows, k, counted, |chunk|, chunk[0].unit);
    PutRowSize(rows, k, counted, |chunk|, chunk[0].unit);
    forall q ensures Tally(rs, items + chunk, q) == Tally(rs, items, q) + (if q == k then |chunk| else 0) {
      ChunkTallies(rs, items, chunk, k, counted, q);
    }
  }

  lemma ChunkSome(rs: seq<Region>, chunk: seq<Item>, k: Key, counted: bool)
    requires Chunk(rs, chunk, k, counted)
    ensures chunk != []
  {
  }

  lemma NothingYet(rs: seq<Region>, items: seq<Item>, k: Key)
    requires Tally(rs, items, k) == 0
    ensures !AnyCounted(rs, items, k)
  {
    hide Tally, KeyOf, CountedAt;
    if AnyCounted(rs, items, k) {
      var j :| 0 <= j < |items| && KeyOf(rs, items[j]) == k && CountedAt(rs, items[j].unit);
      TallyCovers(rs, items, j);
    }
  }

  lemma ChunkCounted(rs: seq<Region>, chunk: seq<Item>, k: Key, q: Key, counted: bool)
    requires chunk != [] && forall i :: 0 <= i < |chunk| ==>
      KeyOf(rs, chunk[i]) == k && CountedAt(rs, chunk[i].unit) == counted
    ensures AnyCounted(rs, chunk, q) <==> q == k && counted
  {
    hide KeyOf, CountedAt;
    if q == k && counted { assert KeyOf(rs, chunk[0]) == k && CountedAt(rs, chunk[0].unit); }
  }

  // ----- what the rows say, in terms of the regions alone -----

  /** Unit `x` belongs on row `k`: size and permissions are its own, name and mark those of the
      narrowest region that contains it, or the row is the one for units outside all regions. */
  ghost predicate Charged(rs: seq<Region>, x: Item, k: Key) {
    && k.size == x.size && k.permissions == x.permissions
    && if exists i :: 0 <= i < |rs| && Contains(rs[i], x.unit)
       then exists b: nat :: IsNarrowest(rs, |rs|, x.unit, b) && k.name == rs[b].name && k.absent == rs[b].absent
       else k.name == "(unnamed)" && !k.absent
  }

  ghost function ChargedTo(rs: seq<Region>, items: seq<Item>, k: Key): nat {
    if items == [] then 0
    else ChargedTo(rs, items[..|items| - 1], k) + if Charged(rs, items[|items| - 1], k) then 1 else 0
  }

  /** Its narrowest region counts pages, or it is in none. */
  ghost predicate CountsPages(rs: seq<Region>, x: Item) {
    forall b: nat :: IsNarrowest(rs, |rs|, x.unit, b) ==> rs[b].counted
  }

  lemma ChargedIs(rs: seq<Region>, x: Item, k: Key)
    ensures KeyOf(rs, x) == k <==> Charged(rs, x, k)
    ensures CountedAt(rs, x.unit) <==> CountsPages(rs, x)
  {
    var n := Narrowest(rs, |rs|, x.unit);
    forall b: nat | IsNarrowest(rs, |rs|, x.unit, b) ensures n == Some(b) { NarrowestIs(rs, x.unit, b); }
    if n.Some? { assert Contains(rs[n.value], x.unit); }
  }

  lemma {:induction false} ChargedToIs(rs: seq<Region>, items: seq<Item>, k: Key)
    ensures ChargedTo(rs, items, k) == Tally(rs, items, k)
  {
    hide KeyOf, Charged;
    if items != [] {
      ChargedToIs(rs, items[..|items| - 1], k);
      ChargedIs(rs, items[|items| - 1], k);
    }
  }

  /** A row's pages are the units that belong on it; it counts if one of them is in a region that
      does; and in a complete table every unit's row is there. */
  lemma RowsSay(rs: seq<Region>, rows: seq<Row>, items: seq<Item>)
    requires Exact(rs, rows, items)
    ensures forall i {:trigger rows[i]} :: 0 <= i < |rows| ==>
      && rows[i].pages == ChargedTo(rs, items, rows[i].key)
      && (rows[i].counted <==>
            exists j :: 0 <= j < |items| && Charged(rs, items[j], rows[i].key) && CountsPages(rs, items[j]))
    ensures Complete(rs, rows, items) ==>
      forall j, k {:trigger Charged(rs, items[j], k)} :: 0 <= j < |items| && Charged(rs, items[j], k) ==>
        exists i :: 0 <= i < |rows| && rows[i].key == k
  {
    hide KeyOf, CountedAt, Charged, CountsPages, Tally, FindKey, FirstUnit;
    forall x: Item, k ensures KeyOf(rs, x) == k <==> Charged(rs, x, k)
      ensures CountedAt(rs, x.unit) <==> CountsPages(rs, x)
    {
      ChargedIs(rs, x, k);
    }
    forall i | 0 <= i < |rows|
      ensures rows[i].pages == ChargedTo(rs, items, rows[i].key)
      ensures rows[i].counted <==>
        exists j :: 0 <= j < |items| && Charged(rs, items[j], rows[i].key) && CountsPages(rs, items[j])
    {
      ChargedToIs(rs, items, rows[i].key);
      assert rows[i].counted <==> AnyCounted(rs, items, rows[i].key);
    }
    if Complete(rs, rows, items) {
      forall j, k {:trigger Charged(rs, items[j], k)} | 0 <= j < |items| && Charged(rs, items[j], k)
        ensures exists i :: 0 <= i < |rows| && rows[i].key == k
      {
        TallyCovers(rs, items, j);
        assert rows[FindKey(rows, k)].key == k;
      }
    }
  }

  // ----- the survey as the object it is -----

  class Survey {
    const rows: array<Row>
    var count: nat
    var dropped: nat

    ghost predicate Valid()
      reads this
    {
      count <= rows.Length
    }

    ghost function Rows(): seq<Row>
      requires Valid()
      reads this, rows
    {
      rows[..count]
    }

    constructor (capacity: nat)
      ensures Valid() && fresh(rows) && rows.Length == capacity && Rows() == [] && dropped == 0
    {
      rows := new Row[capacity](_ => Row(Key("", false, 0, 0), false, 0, 0));
      count, dropped := 0, 0;
    }

    /** `put`: the row of the key grows, or a new row is made, or, when the table is full, the
        drop is counted. */
    method Put(k: Key, counted: bool, pages: nat, first: nat)
      requires Valid()
      modifies this, rows
      ensures Valid()
      ensures var full := FindKey(old(Rows()), k) == |old(Rows())| == rows.Length;
        && Rows() == (if full then old(Rows()) else PutRow(old(Rows()), k, counted, pages, first))
        && dropped == old(dropped) + (if full then 1 else 0)
    {
      ghost var before := Rows();
      var i := 0;
      while i < count
        invariant i <= count && Rows() == before && Valid() && count == old(count) && dropped == old(dropped)
        invariant forall j :: 0 <= j < i ==> rows[j].key != k
      {
        if rows[i].key == k {
          FindIs(before, k, i);
          var row := rows[i];
          rows[i] := row.(pages := row.pages + pages, counted := row.counted || counted);
          assert Rows() == before[i := rows[i]];
          return;
        }
        i := i + 1;
      }
      FindIs(before, k, i);
      if count == rows.Length {
        dropped := dropped + 1;
        return;
      }
      rows[count] := Row(k, counted, pages, first);
      count := count + 1;
      assert Rows() == before + [Row(k, counted, pages, first)];
    }

    /** `add`: every unit of the run is charged exactly once, to the narrowest region that contains
        it. Every row there is exact whatever was dropped; keys are missing only from a full table,
        and only if the drop was counted. */
    method Add(rs: seq<Region>, m: Mapped, ghost items: seq<Item>)
      requires Valid() && Exact(rs, Rows(), items) && (count < rows.Length ==> Complete(rs, Rows(), items))
      modifies this, rows
      ensures Valid() && dropped >= old(dropped)
      ensures var all := items + Items(m, m.start, m.start + m.units);
        && Exact(rs, Rows(), all) && (count < rows.Length ==> Complete(rs, Rows(), all))
        && (Complete(rs, Rows(), all) <==> old(Complete(rs, Rows(), items)) && dropped == old(dropped))
    {
      hide Exact, Complete, NextCut, Narrowest, PutRow, KeyAt, CountedAt, FindKey;
      var end := m.start + m.units;
      var at := m.start;
      assert items + Items(m, m.start, at) == items;
      while at < end
        invariant m.start <= at <= end && Valid() && dropped >= old(dropped)
        invariant var all := items + Items(m, m.start, at);
          && Exact(rs, Rows(), all) && (count < rows.Length ==> Complete(rs, Rows(), all))
          && (Complete(rs, Rows(), all) <==> old(Complete(rs, Rows(), items)) && dropped == old(dropped))
        decreases end - at
      {
        var next := NextCut(rs, at, end);
        UntilCut(rs, m, at, end);
        ghost var all, chunk := items + Items(m, m.start, at), Items(m, at, next);
        RunExact(rs, Rows(), all, chunk, KeyAt(rs, at, m.size, m.permissions), CountedAt(rs, at), rows.Length);
        RunComplete(rs, Rows(), all, chunk, KeyAt(rs, at, m.size, m.permissions), CountedAt(rs, at), rows.Length);
        Put(KeyAt(rs, at, m.size, m.permissions), CountedAt(rs, at), next - at, at);
        assert all + chunk == items + Items(m, m.start, next);
        at := next;
      }
    }
  }

  // ----- the total -----

  function SumPages(rows: seq<Row>): nat {
    if rows == [] then 0 else SumPages(rows[..|rows| - 1]) + rows[|rows| - 1].pages
  }

  function SumTally(rs: seq<Region>, rows: seq<Row>, items: seq<Item>): nat {
    if rows == [] then 0 else SumTally(rs, rows[..|rows| - 1], items) + Tally(rs, items, rows[|rows| - 1].key)
  }

  lemma {:induction false} SumsAgree(rs: seq<Region>, rows: seq<Row>, items: seq<Item>)
    requires forall i :: 0 <= i < |rows| ==> rows[i].pages == Tally(rs, items, rows[i].key)
    ensures SumPages(rows) == SumTally(rs, rows, items)
  {
    if rows != [] { SumsAgree(rs, rows[..|rows| - 1], items); }
  }

  lemma {:induction false} SumTallyNone(rs: seq<Region>, rows: seq<Row>)
    ensures SumTally(rs, rows, []) == 0
  {
    if rows != [] { SumTallyNone(rs, rows[..|rows| - 1]); }
  }

  ghost predicate HasKey(rows: seq<Row>, k: Key) {
    exists i :: 0 <= i < |rows| && rows[i].key == k
  }

  /** One more item adds one to exactly the row of its key. */
  lemma {:induction false} SumTallyStep(rs: seq<Region>, rows: seq<Row>, items: seq<Item>, x: Item)
    requires KeysDiffer(rows)
    ensures SumTally(rs, rows, items + [x]) == SumTally(rs, rows, items) + (if HasKey(rows, KeyOf(rs, x)) then 1 else 0)
  {
    hide KeyOf;
    if rows != [] {
      var n := |rows| - 1;
      SumTallyStep(rs, rows[..n], items, x);
      var k := rows[n].key;
      assert (items + [x])[..|items|] == items;
      assert Tally(rs, items + [x], k) == Tally(rs, items, k) + (if KeyOf(rs, x) == k then 1 else 0);
      if k == KeyOf(rs, x) {
        assert !HasKey(rows[..n], k) && HasKey(rows, k);
      } else {
        assert HasKey(rows, KeyOf(rs, x)) <==> HasKey(rows[..n], KeyOf(rs, x)) by {
          if i :| 0 <= i < |rows| && rows[i].key == KeyOf(rs, x) { assert rows[..n][i].key == KeyOf(rs, x); }
        }
      }
    }
  }

  lemma {:induction false} SumTallyAll(rs: seq<Region>, rows: seq<Row>, items: seq<Item>)
    requires KeysDiffer(rows) && forall j :: 0 <= j < |items| ==> HasKey(rows, KeyOf(rs, items[j]))
    ensures SumTally(rs, rows, items) == |items|
  {
    hide KeyOf, SumTally, HasKey;
    if items == [] {
      SumTallyNone(rs, rows);
    } else {
      var n := |items| - 1;
      SumTallyAll(rs, rows, items[..n]);
      SumTallyStep(rs, rows, items[..n], items[n]);
      assert items[..n] + [items[n]] == items;
    }
  }

  /** The pages of all rows together are all the mapped units: none is lost, none counted
      twice. */
  lemma PagesAddUp(rs: seq<Region>, rows: seq<Row>, items: seq<Item>)
    requires Surveyed(rs, rows, items)
    ensures SumPages(rows) == |items|
  {
    hide KeyOf, SumPages, SumTally;
    SurveyedKeys(rs, rows, items);
    forall i | 0 <= i < |rows| ensures rows[i].pages == Tally(rs, items, rows[i].key) {
      FindIs(rows, rows[i].key, i);
      assert PagesOf(rows, rows[i].key) == rows[i].pages;
    }
    SumsAgree(rs, rows, items);
    forall j | 0 <= j < |items| ensures HasKey(rows, KeyOf(rs, items[j])) {
      TallyCovers(rs, items, j);
      var k := KeyOf(rs, items[j]);
      assert FindKey(rows, k) < |rows|;
      assert rows[FindKey(rows, k)].key == k;
    }
    SumTallyAll(rs, rows, items);
  }

  // ----- the digest -----

  /** What of a row goes into its hash: the key, and the page count if the row counts. */
  function Shown(row: Row): (Key, Option<nat>) { (row.key, if row.counted then Some(row.pages) else None) }

  /** `digest`, for any row hash: the sum over the rows, the part the regions alone determine,
      and the drops, modulo 2^64. */
  function SumHash(hash: ((Key, Option<nat>)) -> nat, rows: seq<Row>): nat {
    if rows == [] then 0 else SumHash(hash, rows[..|rows| - 1]) + hash(Shown(rows[|rows| - 1]))
  }

  function Digest(hash: ((Key, Option<nat>)) -> nat, rows: seq<Row>, absentPart: nat, dropped: nat): nat {
    (SumHash(hash, rows) + absentPart + dropped) % U64
  }

  /** One row replaced changes the digest exactly when the hashes of what is shown of the two rows
      differ modulo 2^64. */
  lemma DigestSees(hash: ((Key, Option<nat>)) -> nat, rows: seq<Row>, j: nat, row: Row, absentPart: nat, dropped: nat)
    requires j < |rows|
    ensures Digest(hash, rows[j := row], absentPart, dropped) == Digest(hash, rows, absentPart, dropped)
      <==> hash(Shown(row)) % U64 == hash(Shown(rows[j])) % U64
  {
    var r := rows[j := row];
    assert Without(r, j) == Without(rows, j);
    SumHashWithout(hash, rows, j);
    SumHashWithout(hash, r, j);
    var rest := SumHash(hash, Without(rows, j)) + absentPart + dropped;
    assert SumHash(hash, r) + absentPart + dropped == rest + hash(Shown(row));
    assert SumHash(hash, rows) + absentPart + dropped == rest + hash(Shown(rows[j]));
    SumsModulo(rest, hash(Shown(row)), hash(Shown(rows[j])));
  }

  /** Two counted rows that differ in their pages only are shown differently; two rows that are not
      counted are shown alike whatever their pages. */
  lemma ShownPages(row: Row, pages: nat)
    ensures Shown(row.(pages := pages)) == Shown(row) <==> !row.counted || pages == row.pages
  {
  }

  lemma SumsModulo(a: nat, x: nat, y: nat)
    ensures (a + x) % U64 == (a + y) % U64 <==> x % U64 == y % U64
  {
  }

  lemma {:induction false} TallyOfSame(rs: seq<Region>, a: seq<Item>, b: seq<Item>, k: Key)
    requires multiset(a) == multiset(b)
    ensures Tally(rs, a, k) == Tally(rs, b, k)
  {
    hide KeyOf;
    if a == [] {
      assert |multiset(b)| == 0;
      assert b == [];
    } else {
      var n := |a| - 1;
      var x := a[n];
      assert x in multiset(a);
      var j :| 0 <= j < |b| && b[j] == x;
      var c := b[..j] + b[j + 1..];
      WithoutOne(a, n);
      WithoutOne(b, j);
      assert a[n + 1..] == [] && a[..n] + [] == a[..n];
      TallyOfSame(rs, a[..n], c, k);
      TallyWithout(rs, b, j, k);
    }
  }

  lemma WithoutOne(s: seq<Item>, j: nat)
    requires j < |s|
    ensures multiset(s[..j] + s[j + 1..]) == multiset(s) - multiset{s[j]}
  {
    assert s == s[..j] + [s[j]] + s[j + 1..];
  }

  lemma TallyWithout(rs: seq<Region>, b: seq<Item>, j: nat, k: Key)
    requires j < |b|
    ensures Tally(rs, b, k) == Tally(rs, b[..j] + b[j + 1..], k) + if KeyOf(rs, b[j]) == k then 1 else 0
  {
    hide KeyOf;
    assert b == (b[..j] + [b[j]]) + b[j + 1..];
    TallyAppend(rs, b[..j] + [b[j]], b[j + 1..], k);
    TallyAppend(rs, b[..j], [b[j]], k);
    TallyAppend(rs, b[..j], b[j + 1..], k);
    assert [b[j]][..0] == [];
  }

  lemma CountedOfSame(rs: seq<Region>, a: seq<Item>, b: seq<Item>, k: Key)
    requires multiset(a) == multiset(b) && AnyCounted(rs, a, k)
    ensures AnyCounted(rs, b, k)
  {
    var i :| 0 <= i < |a| && KeyOf(rs, a[i]) == k && CountedAt(rs, a[i].unit);
    assert a[i] in multiset(b);
    var j :| 0 <= j < |b| && b[j] == a[i];
  }

  /** Two tables that answer alike for every key. */
  ghost predicate Alike(a: seq<Row>, b: seq<Row>) {
    && KeysDiffer(a) && KeysDiffer(b)
    && forall k :: (FindKey(a, k) < |a| <==> FindKey(b, k) < |b|) && PagesOf(a, k) == PagesOf(b, k)
        && CountedOf(a, k) == CountedOf(b, k)
  }

  function Without(rows: seq<Row>, j: nat): seq<Row>
    requires j < |rows|
  {
    rows[..j] + rows[j + 1..]
  }

  lemma WithoutIndex(rows: seq<Row>, j: nat)
    requires j < |rows|
    ensures |Without(rows, j)| == |rows| - 1
    ensures forall i :: 0 <= i < |rows| - 1 ==> Without(rows, j)[i] == (if i < j then rows[i] else rows[i + 1])
  {
  }

  lemma WithoutAnswers(rows: seq<Row>, j: nat)
    requires KeysDiffer(rows) && j < |rows|
    ensures var r := Without(rows, j);
      && KeysDiffer(r) && FindKey(r, rows[j].key) == |r|
      && forall q :: q != rows[j].key ==>
           && (FindKey(r, q) < |r| <==> FindKey(rows, q) < |rows|)
           && PagesOf(r, q) == PagesOf(rows, q) && CountedOf(r, q) == CountedOf(rows, q)
  {
    hide FindKey;
    var r, k := Without(rows, j), rows[j].key;
    WithoutIndex(rows, j);
    FindIs(r, k, |r|);
    forall q | q != k
      ensures (FindKey(r, q) < |r| <==> FindKey(rows, q) < |rows|) && PagesOf(r, q) == PagesOf(rows, q)
      ensures CountedOf(r, q) == CountedOf(rows, q)
    {
      var i := FindKey(rows, q);
      if i == |rows| { FindIs(r, q, |r|); } else if i < j { FindIs(r, q, i); } else { FindIs(r, q, i - 1); }
    }
  }

  lemma {:induction false} SumHashWithout(hash: ((Key, Option<nat>)) -> nat, rows: seq<Row>, j: nat)
    requires j < |rows|
    ensures SumHash(hash, rows) == SumHash(hash, Without(rows, j)) + hash(Shown(rows[j]))
  {
    var n := |rows| - 1;
    if j == n {
      assert Without(rows, j) == rows[..n];
    } else {
      SumHashWithout(hash, rows[..n], j);
      var r := Without(rows, j);
      assert r[..|r| - 1] == Without(rows[..n], j);
      assert r[|r| - 1] == rows[n];
    }
  }

  lemma {:induction false} AlikeSum(hash: ((Key, Option<nat>)) -> nat, a: seq<Row>, b: seq<Row>)
    requires Alike(a, b)
    ensures SumHash(hash, a) == SumHash(hash, b)
    decreases |a|
  {
    hide SumHash, Without;
    if a == [] {
      if b != [] { FindIs(b, b[0].key, 0); }
    } else {
      var n := |a| - 1;
      var k := a[n].key;
      FindIs(a, k, n);
      var j := FindKey(b, k);
      assert Shown(b[j]) == Shown(a[n]) by {
        assert PagesOf(a, k) == a[n].pages && CountedOf(a, k) == a[n].counted;
        assert PagesOf(b, k) == b[j].pages && CountedOf(b, k) == b[j].counted;
      }
      WithoutAnswers(a, n);
      WithoutAnswers(b, j);
      SumHashWithout(hash, a, n);
      SumHashWithout(hash, b, j);
      WithoutShorter(a, n);
      AlikeWithout(a, n, b, j);
      AlikeSum(hash, Without(a, n), Without(b, j));
    }
  }

  lemma WithoutShorter(rows: seq<Row>, j: nat)
    requires j < |rows|
    ensures |Without(rows, j)| == |rows| - 1
  {
  }

  lemma AlikeWithout(a: seq<Row>, i: nat, b: seq<Row>, j: nat)
    requires Alike(a, b) && i < |a| && j < |b| && a[i].key == b[j].key
    ensures Alike(Without(a, i), Without(b, j))
  {
    hide Without, FindKey;
    WithoutAnswers(a, i);
    WithoutAnswers(b, j);
    var x, y, k := Without(a, i), Without(b, j), a[i].key;
    forall q
      ensures (FindKey(x, q) < |x| <==> FindKey(y, q) < |y|) && PagesOf(x, q) == PagesOf(y, q)
      ensures CountedOf(x, q) == CountedOf(y, q)
    {
      if q != k { assert PagesOf(x, q) == PagesOf(a, q) && PagesOf(y, q) == PagesOf(b, q); }
    }
  }

  /** The digest depends only on which units are mapped how: the same units, added in any
      order and cut into any runs, give the same digest. */
  lemma DigestIgnoresOrder(hash: ((Key, Option<nat>)) -> nat, rs: seq<Region>, a: seq<Row>, b: seq<Row>, x: seq<Item>,
        y: seq<Item>, absentPart: nat)
    requires Surveyed(rs, a, x) && Surveyed(rs, b, y) && multiset(x) == multiset(y)
    ensures Digest(hash, a, absentPart, 0) == Digest(hash, b, absentPart, 0)
  {
    hide SumHash, KeyOf, CountedAt, FindKey, Tally, Exact, Complete;
    SurveyedKeys(rs, a, x);
    SurveyedKeys(rs, b, y);
    forall k
      ensures (FindKey(a, k) < |a| <==> FindKey(b, k) < |b|) && PagesOf(a, k) == PagesOf(b, k)
      ensures CountedOf(a, k) == CountedOf(b, k)
    {
      TallyOfSame(rs, x, y, k);
      if AnyCounted(rs, x, k) { CountedOfSame(rs, x, y, k); }
      if AnyCounted(rs, y, k) { CountedOfSame(rs, y, x, k); }
    }
    AlikeSum(hash, a, b);
  }
}
