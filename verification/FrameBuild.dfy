/** Building the allocator from the firmware's memory map, and the quarantine in front of it. */
module FrameBuild {
  import opened Wrappers
  import opened FrameTable
  import opened FrameAllocator

  const FRAME_SIZE := 4096
  const DEFAULT_CAPACITY := 256
  const CONVENTIONAL := 7
  const VENDOR_RESERVED_START := 0x7000_0000

  datatype MapEntry = MapEntry(memoryType: nat, physStart: nat, pageCount: nat)

  /** Whether `classify` answers `Free`. */
  predicate IsFree(ty: nat) { ty == CONVENTIONAL }

  /** The counters of `ExclusionBreakdown`: one per known type other than conventional, then the
      vendor range, the null page and the unknown types. */
  const COUNTERS := 19
  const VENDOR := 16
  const NULL_PAGE := 17
  const UNKNOWN := 18

  function CounterOf(ty: nat): (k: nat)
    ensures k < COUNTERS
  {
    if ty != CONVENTIONAL && ty <= 15 then ty else if ty >= VENDOR_RESERVED_START then VENDOR else UNKNOWN
  }

  /** `total_pages`. */
  function Total(counters: seq<nat>): nat {
    if |counters| == 0 then 0 else Total(counters[..|counters| - 1]) + counters[|counters| - 1]
  }

  lemma {:induction false} TotalOfUpdate(counters: seq<nat>, k: nat, pages: nat)
    requires k < |counters|
    ensures Total(counters[k := counters[k] + pages]) == Total(counters) + pages
  {
    var n := |counters| - 1;
    var u := counters[k := counters[k] + pages];
    if k == n {
      assert u[..n] == counters[..n];
    } else {
      TotalOfUpdate(counters[..n], k, pages);
      assert u[..n] == counters[..n][k := counters[k] + pages];
    }
  }

  lemma {:induction false} TotalOfZeros(n: nat)
    ensures Total(seq(n, _ => 0)) == 0
  {
    var z: seq<nat> := seq(n, _ => 0);
    if n > 0 {
      TotalOfZeros(n - 1);
      assert z[..n - 1] == seq(n - 1, _ => 0);
    }
  }

  /** Inserting fresh frames adds exactly their number to the count. */
  lemma InsertCounts(t: seq<Range>, start: nat, count: nat)
    requires Canon(t) && Disjoint(t, start, count)
    ensures FreeCount(Insert(t, start, count)) == FreeCount(t) + count
  {
    if count > 0 {
      hide Insert, Canon, Has, Disjoint, FreeCount;
      var i, j, m := InsertShape(t, start, count);
      Replaced(t, i, j, m);
    }
  }

  // ----- what the map says -----

  function FirstFrame(e: MapEntry): nat { e.physStart / FRAME_SIZE }

  /** Frame `f` lies in entry `e`, and `e` is `EfiConventionalMemory`. */
  ghost predicate Covers(e: MapEntry, f: int) {
    e.memoryType == 7 && e.physStart / 4096 <= f < e.physStart / 4096 + e.pageCount
  }

  /** Frame `f` is conventional memory in one of the first `n` entries. */
  ghost predicate Conventional(map_: seq<MapEntry>, n: nat, f: int)
    requires n <= |map_|
  {
    exists i :: 0 <= i < n && Covers(map_[i], f)
  }

  /** Conventional entries do not overlap. */
  ghost predicate NoOverlap(map_: seq<MapEntry>) {
    forall i, j, f {:trigger Covers(map_[i], f), Covers(map_[j], f)} :: 0 <= i < j < |map_| && Covers(map_[i], f) ==>
        !Covers(map_[j], f)
  }

  function PageSum(map_: seq<MapEntry>, n: nat): nat
    requires n <= |map_|
  {
    if n == 0 then 0 else PageSum(map_, n - 1) + map_[n - 1].pageCount
  }

  /** The pages of the entries of one kind. */
  function PagesWhere(map_: seq<MapEntry>, n: nat, kind: nat -> bool): nat
    requires n <= |map_|
  {
    if n == 0 then 0
    else PagesWhere(map_, n - 1, kind) + if kind(map_[n - 1].memoryType) then map_[n - 1].pageCount else 0
  }

  /** How many conventional entries hold frame 0 as their first. */
  function NullPages(map_: seq<MapEntry>, n: nat): nat
    requires n <= |map_|
  {
    if n == 0 then 0
    else
      var e := map_[n - 1];
      NullPages(map_, n - 1) + if e.memoryType == 7 && e.physStart < 4096 && e.pageCount > 0 then 1 else 0
  }

  /** Every exclusion counter is the number of pages of exactly its types. */
  ghost predicate Counted(map_: seq<MapEntry>, n: nat, counters: seq<nat>)
    requires n <= |map_|
  {
    && |counters| == 19
    && (forall k :: 0 <= k < 16 && k != 7 ==> counters[k] == PagesWhere(map_, n, ty => ty == k))
    && counters[7] == 0
    && counters[16] == PagesWhere(map_, n, ty => ty >= 0x7000_0000)
    && counters[17] == NullPages(map_, n)
    && counters[18] == PagesWhere(map_, n, ty => 15 < ty < 0x7000_0000)
  }

  /** What the allocator and the counters hold after `n` entries. */
  ghost predicate Built(map_: seq<MapEntry>, n: nat, t: seq<Range>, counters: seq<nat>)
    requires n <= |map_|
  {
    && Canon(t) && Counted(map_, n, counters)
    && (forall f :: Has(t, f) <==> f != 0 && Conventional(map_, n, f))
    && FreeCount(t) + Total(counters) == PageSum(map_, n)
  }

  lemma ConventionalStep(map_: seq<MapEntry>, n: nat)
    requires n < |map_|
    ensures forall f :: Conventional(map_, n + 1, f) <==> Conventional(map_, n, f) || Covers(map_[n], f)
  {
  }

  /** An entry that adds nothing, one that is excluded, and one that is free. */
  lemma SkipEntry(map_: seq<MapEntry>, n: nat, t: seq<Range>, counters: seq<nat>)
    requires n < |map_| && Built(map_, n, t, counters) && map_[n].pageCount == 0
    ensures Built(map_, n + 1, t, counters)
  {
    hide Has, Canon, FreeCount, Total;
    ConventionalStep(map_, n);
  }

  lemma ExcludeEntry(map_: seq<MapEntry>, n: nat, t: seq<Range>, counters: seq<nat>, k: nat)
    requires n < |map_| && Built(map_, n, t, counters) && !IsFree(map_[n].memoryType)
    requires k == CounterOf(map_[n].memoryType)
    ensures Built(map_, n + 1, t, counters[k := counters[k] + map_[n].pageCount])
  {
    hide Has, Canon, FreeCount, Total;
    ConventionalStep(map_, n);
    TotalOfUpdate(counters, k, map_[n].pageCount);
  }

  /** The frames of a free entry that go to the allocator: all but frame 0. */
  function Usable(e: MapEntry): Range
    requires e.pageCount > 0
  {
    if FirstFrame(e) == 0 then Range(1, e.pageCount - 1) else Range(FirstFrame(e), e.pageCount)
  }

  lemma FreeEntry(map_: seq<MapEntry>, n: nat, t: seq<Range>, counters: seq<nat>)
    requires n < |map_| && NoOverlap(map_) && Built(map_, n, t, counters) && IsFree(map_[n].memoryType)
    requires map_[n].pageCount > 0
    ensures var u := Usable(map_[n]);
      && Disjoint(t, u.start, u.count)
      && Built(map_, n + 1, Insert(t, u.start, u.count), if FirstFrame(map_[n]) == 0
            then counters[NULL_PAGE := counters[NULL_PAGE] + 1] else counters)
  {
    hide Has, Canon, FreeCount, Total, Insert, Disjoint;
    var u := Usable(map_[n]);
    ConventionalStep(map_, n);
    FreshEntry(map_, n, t, u.start, u.count);
    InsertAdds(t, u.start, u.count);
    InsertCounts(t, u.start, u.count);
    TotalOfUpdate(counters, NULL_PAGE, 1);
  }

  lemma NothingBuilt(map_: seq<MapEntry>)
    ensures Built(map_, 0, [], seq(COUNTERS, _ => 0))
  {
    TotalOfZeros(COUNTERS);
    HasNone();
  }

  /** Entry `n` does not go in: with the entries before it the table is full, and neither frame
      next to those of the entry is free. */
  ghost predicate Overflows(map_: seq<MapEntry>, n: nat, t: seq<Range>, counters: seq<nat>)
    requires n <= |map_|
  {
    && n < |map_| && IsFree(map_[n].memoryType) && map_[n].pageCount > 0
    && Built(map_, n, t, counters) && |t| == DEFAULT_CAPACITY
    && var u := Usable(map_[n]); u.count > 0 && !Has(t, u.start - 1) && !Has(t, End(u))
  }

  lemma RefusedEntry(map_: seq<MapEntry>, n: nat, t: seq<Range>, counters: seq<nat>)
    requires n < |map_| && IsFree(map_[n].memoryType) && map_[n].pageCount > 0 && Built(map_, n, t, counters)
    requires |t| <= DEFAULT_CAPACITY
    requires var u := Usable(map_[n]); Disjoint(t, u.start, u.count) && |Insert(t, u.start, u.count)| > DEFAULT_CAPACITY
    ensures Overflows(map_, n, t, counters)
  {
    hide Has, Disjoint, Total, FreeCount;
    var u := Usable(map_[n]);
    if u.count > 0 { InsertTouches(t, u.start, u.count); }
  }

  /** `build`: on success the free set is exactly the conventional frames without frame 0, and
      free plus excluded pages are all the pages of the map; it fails only where an entry needs a
      range of its own and the array is full. */
  method Build(map_: seq<MapEntry>) returns (r: Option<(FrameAllocator, seq<nat>)>)
    requires NoOverlap(map_)
    ensures r.Some? ==>
      var a := r.value.0; fresh(a) && a.Valid() && Built(map_, |map_|, a.Table(), r.value.1)
    ensures r.None? ==> exists n: nat, t, counters :: n <= |map_| && Overflows(map_, n, t, counters)
  {
    hide Built, NoOverlap, Insert, Disjoint, Canon, Has, Overflows;
    var allocator := new FrameAllocator(DEFAULT_CAPACITY);
    var counters: seq<nat> := seq(COUNTERS, _ => 0);
    NothingBuilt(map_);
    var n := 0;
    while n < |map_|
      invariant n <= |map_| && fresh(allocator) && fresh(allocator.ranges) && allocator.Valid()
          && |counters| == COUNTERS
      invariant allocator.ranges.Length == DEFAULT_CAPACITY
      invariant Built(map_, n, allocator.Table(), counters)
    {
      var entry := map_[n];
      if entry.pageCount == 0 {
        SkipEntry(map_, n, allocator.Table(), counters);
      } else if !IsFree(entry.memoryType) {
        var k := CounterOf(entry.memoryType);
        ExcludeEntry(map_, n, allocator.Table(), counters, k);
        counters := counters[k := counters[k] + entry.pageCount];
      } else {
        FreeEntry(map_, n, allocator.Table(), counters);
        ghost var t, before := allocator.Table(), counters;
        var start, count := FirstFrame(entry), entry.pageCount;
        if start == 0 {
          counters := counters[NULL_PAGE := counters[NULL_PAGE] + 1];
          start, count := 1, count - 1;
        }
        var ok := allocator.InsertFreeRange(start, count);
        if !ok {
          RefusedEntry(map_, n, t, before);
          return None;
        }
      }
      n := n + 1;
    }
    r := Some((allocator, counters));
  }

  /** The frames of an entry are not in the table yet. */
  lemma FreshEntry(map_: seq<MapEntry>, n: nat, t: seq<Range>, start: nat, count: nat)
    requires n < |map_| && NoOverlap(map_) && IsFree(map_[n].memoryType)
    requires FirstFrame(map_[n]) <= start && start + count <= FirstFrame(map_[n]) + map_[n].pageCount
    requires forall f :: Has(t, f) <==> f != 0 && Conventional(map_, n, f)
    ensures Disjoint(t, start, count)
  {
    hide Has;
    forall f | start <= f < start + count ensures !Has(t, f) {
      assert Covers(map_[n], f);
    }
  }

  // ----- the quarantine -----

  datatype Held = Held(frame: nat, generation: nat)

  class Quarantine {
    const held: array<Option<Held>>
    var overflowCount: nat

    constructor (capacity: nat)
      ensures fresh(held) && held.Length == capacity && overflowCount == 0
      ensures forall k :: 0 <= k < capacity ==> held[k].None?
    {
      held := new Option<Held>[capacity](_ => None);
      overflowCount := 0;
    }

    /** `push`: the first empty slot takes the frame; a full quarantine leaks it instead of
        handing it back. */
    method Push(frame: nat, generation: nat) returns (ok: bool)
      modifies held, this`overflowCount
      ensures ok <==> exists k :: 0 <= k < held.Length && old(held[k]).None?
      ensures overflowCount == old(overflowCount) + (if ok then 0 else 1)
      ensures ok ==>
        exists k :: 0 <= k < held.Length && old(held[k]).None? && (forall j :: 0 <= j < k ==> old(held[j]).Some?)
            && held[..] == old(held[..])[k := Some(Held(frame, generation))]
      ensures !ok ==> held[..] == old(held[..])
    {
      var k := 0;
      while k < held.Length
        invariant k <= held.Length && forall j :: 0 <= j < k ==> held[j].Some?
        invariant forall j :: 0 <= j < held.Length ==> held[j] == old(held[j])
      {
        if held[k].None? {
          held[k] := Some(Held(frame, generation));
          assert held[..] == old(held[..])[k := Some(Held(frame, generation))];
          return true;
        }
        k := k + 1;
      }
      overflowCount := overflowCount + 1;
      ok := false;
    }

    /** `release_retired`: each frame whose generation is retired goes back to the allocator,
        one by one. Nothing is lost and nothing is freed twice; a retired frame stays only because
        the allocator refused it, and when the allocator has room for them all, all go back. */
    method ReleaseRetired(allocator: FrameAllocator, retired: nat -> bool) returns (released: nat)
      requires allocator.Valid() && Separate(held[..], allocator.Table())
      modifies held, allocator`rangeCount, allocator.ranges
      ensures allocator.Valid() && Separate(held[..], allocator.Table())
      ensures Released(old(held[..]), held[..], old(allocator.Table()), allocator.Table(), retired, held.Length,
            released)
      ensures forall k :: 0 <= k < held.Length && held[k].Some? && retired(held[k].value.generation) ==>
        Refused(held[k].value.frame, old(allocator.Table()), allocator.Table(), allocator.ranges.Length)
      ensures old(allocator.rangeCount) + held.Length <= allocator.ranges.Length ==>
        forall k :: 0 <= k < held.Length && held[k].Some? ==> !retired(held[k].value.generation)
    {
      hide Has, Canon, FreeCount, Insert, Separate, Released, Refused;
      released := 0;
      ghost var h0, t0 := held[..], allocator.Table();
      NothingReleased(h0, t0, retired);
      var k := 0;
      while k < held.Length
        invariant k <= held.Length && allocator.Valid() && Separate(held[..], allocator.Table())
        invariant Released(h0, held[..], t0, allocator.Table(), retired, k, released)
        invariant allocator.rangeCount <= |t0| + k
        invariant forall j :: 0 <= j < k && held[j].Some? && retired(held[j].value.generation) ==>
          Refused(held[j].value.frame, t0, allocator.Table(), allocator.ranges.Length)
        invariant |t0| + held.Length <= allocator.ranges.Length ==>
          forall j :: 0 <= j < k && held[j].Some? ==> !retired(held[j].value.generation)
      {
        ghost var h, t := held[..], allocator.Table();
        SlotKept(h0, h, t0, t, retired, k, released);
        if held[k].Some? && retired(held[k].value.generation) {
          var frame := held[k].value.frame;
          InsertGrows(t, frame, 1);
          SlotReleased(h0, h, t0, t, retired, k, released);
          StillRefused(t0, t, frame, allocator.ranges.Length);
          RefusedFrame(h0, h, t0, t, retired, k, released, allocator.ranges.Length);
          var ok := allocator.DeallocateFrame(frame);
          if ok {
            held[k] := None;
            assert held[..] == h[k := None];
            released := released + 1;
          }
        }
        k := k + 1;
      }
    }

    method HeldCount() returns (n: nat)
      ensures n == HeldIn(held[..])
    {
      n := 0;
      var k := 0;
      while k < held.Length
        invariant k <= held.Length && n == HeldIn(held[..k])
      {
        assert held[..k + 1][..k] == held[..k];
        if held[k].Some? { n := n + 1; }
        k := k + 1;
      }
      assert held[..held.Length] == held[..];
    }
  }

  ghost predicate HoldsIn(h: seq<Option<Held>>, f: int) {
    exists k :: 0 <= k < |h| && h[k].Some? && h[k].value.frame == f
  }

  /** No frame is held twice, and none of them is free. */
  ghost predicate Separate(h: seq<Option<Held>>, t: seq<Range>) {
    && (forall i, j :: 0 <= i < j < |h| && h[i].Some? && h[j].Some? ==> h[i].value.frame != h[j].value.frame)
    && (forall i :: 0 <= i < |h| && h[i].Some? ==> !Has(t, h[i].value.frame))
  }

  /** After `k` slots: a slot is as it was or emptied because its generation is retired; the free
      frames are the old ones and those of the emptied slots; and their number adds up. */
  ghost predicate Released(h0: seq<Option<Held>>, h: seq<Option<Held>>, t0: seq<Range>, t: seq<Range>,
      retired: nat -> bool, k: nat, released: nat) {
    && |h| == |h0| && k <= |h|
    && (forall j :: k <= j < |h| ==> h[j] == h0[j])
    && (forall j :: 0 <= j < k ==> h[j] == h0[j] || (h[j].None? && retired(h0[j].value.generation)))
    && (forall f :: Has(t, f) <==> Has(t0, f) || (HoldsIn(h0, f) && !HoldsIn(h, f)))
    && FreeCount(t) == FreeCount(t0) + released
  }

  /** At some point between `t0` and `t` the array was full and `frame` next to no free one. */
  ghost predicate Refused(frame: nat, t0: seq<Range>, t: seq<Range>, capacity: nat) {
    exists u :: FullBetween(t0, u, t, capacity) && !Has(u, frame - 1) && !Has(u, frame) && !Has(u, frame + 1)
  }

  ghost predicate FullBetween(t0: seq<Range>, u: seq<Range>, t: seq<Range>, capacity: nat) {
    Canon(u) && |u| == capacity && (forall f :: Has(t0, f) ==> Has(u, f)) && (forall f :: Has(u, f) ==> Has(t, f))
  }

  /** Freeing another frame does not take that back. */
  lemma StillRefused(t0: seq<Range>, t: seq<Range>, frame: nat, capacity: nat)
    requires Canon(t) && !Has(t, frame)
    ensures forall g: nat :: Refused(g, t0, t, capacity) ==> Refused(g, t0, Insert(t, frame, 1), capacity)
  {
    hide Has, Canon, Insert;
    InsertAdds(t, frame, 1);
    forall g: nat | Refused(g, t0, t, capacity) ensures Refused(g, t0, Insert(t, frame, 1), capacity) {
      var u :| FullBetween(t0, u, t, capacity) && !Has(u, g - 1) && !Has(u, g) && !Has(u, g + 1);
      assert FullBetween(t0, u, Insert(t, frame, 1), capacity);
    }
  }

  /** What the allocator does not take needs a range of its own in a full array. */
  lemma RefusedFrame(h0: seq<Option<Held>>, h: seq<Option<Held>>, t0: seq<Range>, t: seq<Range>,
      retired: nat -> bool, k: nat, released: nat, capacity: nat)
    requires Canon(t) && Released(h0, h, t0, t, retired, k, released) && k < |h| && h[k].Some? && |t| <= capacity
    requires !Has(t, h[k].value.frame)
    ensures |Insert(t, h[k].value.frame, 1)| > capacity ==> Refused(h[k].value.frame, t0, t, capacity)
  {
    hide Has, Canon, Insert, FreeCount;
    var frame := h[k].value.frame;
    assert Disjoint(t, frame, 1);
    InsertTouches(t, frame, 1);
    if |Insert(t, frame, 1)| > capacity { assert FullBetween(t0, t, t, capacity); }
  }

  lemma NothingReleased(h0: seq<Option<Held>>, t0: seq<Range>, retired: nat -> bool)
    ensures Released(h0, h0, t0, t0, retired, 0, 0)
  {
  }

  lemma SlotKept(h0: seq<Option<Held>>, h: seq<Option<Held>>, t0: seq<Range>, t: seq<Range>,
      retired: nat -> bool, k: nat, released: nat)
    requires Released(h0, h, t0, t, retired, k, released) && k < |h|
    ensures Released(h0, h, t0, t, retired, k + 1, released)
  {
    hide Has, FreeCount, HoldsIn;
  }

  lemma SlotReleased(h0: seq<Option<Held>>, h: seq<Option<Held>>, t0: seq<Range>, t: seq<Range>,
      retired: nat -> bool, k: nat, released: nat)
    requires Canon(t) && Separate(h, t) && Released(h0, h, t0, t, retired, k, released) && k < |h| && h[k].Some?
    requires retired(h[k].value.generation)
    ensures var frame := h[k].value.frame; var t' := Insert(t, frame, 1);
      && !Has(t, frame) && Separate(h[k := None], t')
      && Released(h0, h[k := None], t0, t', retired, k + 1, released + 1)
  {
    hide Has, Canon, FreeCount, Insert;
    var frame := h[k].value.frame;
    InsertAdds(t, frame, 1);
    InsertCounts(t, frame, 1);
    var h' := h[k := None];
    forall f ensures HoldsIn(h, f) <==> HoldsIn(h', f) || f == frame {
      if HoldsIn(h, f) && f != frame {
        var j :| 0 <= j < |h| && h[j].Some? && h[j].value.frame == f;
        assert h'[j] == h[j];
      }
      if HoldsIn(h', f) {
        var j :| 0 <= j < |h'| && h'[j].Some? && h'[j].value.frame == f;
        assert h[j] == h'[j];
      }
    }
    assert !HoldsIn(h', frame);
    assert HoldsIn(h0, frame) by { assert h0[k] == h[k]; }
  }

  function HeldIn(slots: seq<Option<Held>>): nat {
    if |slots| == 0 then 0 else HeldIn(slots[..|slots| - 1]) + if slots[|slots| - 1].Some? then 1 else 0
  }

  /** One insertion adds at most one range. */
  lemma InsertGrows(t: seq<Range>, start: nat, count: nat)
    ensures |Insert(t, start, count)| <= |t| + 1
  {
  }
}
