/** The physical frame allocator: a fixed array of ranges, changed in place. */
module FrameAllocator {
  import opened Wrappers
  import opened FrameTable

  predicate PowerOfTwo(n: nat) {
    n == 1 || (n > 1 && n % 2 == 0 && PowerOfTwo(n / 2))
  }

  class FrameAllocator {
    const ranges: array<Range>
    var rangeCount: nat

    ghost predicate Valid()
      reads this, ranges
    {
      rangeCount <= ranges.Length && Canon(ranges[..rangeCount])
    }

    /** The table in use. */
    ghost function Table(): seq<Range>
      reads this, ranges
      requires rangeCount <= ranges.Length
    {
      ranges[..rangeCount]
    }

    constructor (capacity: nat)
      ensures Valid() && fresh(ranges) && ranges.Length == capacity && Table() == []
    {
      ranges := new Range[capacity](_ => Range(0, 0));
      rangeCount := 0;
    }

    /** Shifts the ranges from `i` on up by one and puts `r` in the gap. */
    method InsertAt(i: nat, r: Range)
      requires i <= rangeCount < ranges.Length
      modifies this`rangeCount, ranges
      ensures rangeCount == old(rangeCount) + 1
      ensures Table() == old(Table())[..i] + [r] + old(Table())[i..]
    {
      ghost var t := Table();
      var j := rangeCount;
      while j > i
        invariant i <= j <= rangeCount == old(rangeCount)
        invariant forall k :: 0 <= k < j ==> ranges[k] == t[k]
        invariant forall k :: j < k <= rangeCount ==> ranges[k] == t[k - 1]
      {
        ranges[j] := ranges[j - 1];
        j := j - 1;
      }
      ranges[i] := r;
      rangeCount := rangeCount + 1;
      ghost var u := t[..i] + [r] + t[i..];
      forall k | 0 <= k < rangeCount ensures Table()[k] == u[k] { }
    }

    /** Shifts the ranges behind `i` down by one. */
    method RemoveAt(i: nat)
      requires i < rangeCount <= ranges.Length
      modifies this`rangeCount, ranges
      ensures rangeCount == old(rangeCount) - 1
      ensures Table() == old(Table())[..i] + old(Table())[i + 1..]
    {
      var j := i;
      while j < rangeCount - 1
        invariant i <= j <= rangeCount - 1 && rangeCount == old(rangeCount)
        invariant forall k :: 0 <= k < i ==> ranges[k] == old(ranges[k])
        invariant forall k :: i <= k < j ==> ranges[k] == old(ranges[k + 1])
        invariant forall k :: j <= k < rangeCount ==> ranges[k] == old(ranges[k])
      {
        ranges[j] := ranges[j + 1];
        j := j + 1;
      }
      rangeCount := rangeCount - 1;
    }

    /** `try_merge_forward`. */
    method TryMergeForward(i: nat)
      requires i < rangeCount <= ranges.Length
      modifies this`rangeCount, ranges
      ensures rangeCount <= old(rangeCount) && Table() == MergedForward(old(Table()), i)
    {
      ghost var t := Table();
      if i + 1 < rangeCount && End(ranges[i]) >= ranges[i + 1].start {
        var end := Max(End(ranges[i]), End(ranges[i + 1]));
        ranges[i] := Range(ranges[i].start, end - ranges[i].start);
        ghost var u := Table();
        RemoveAt(i + 1);
        assert u[..i + 1] == t[..i] + [u[i]] && u[i + 2..] == t[i + 2..];
      }
    }

    method FindPosition(start: nat) returns (p: nat)
      requires rangeCount <= ranges.Length
      ensures p == Position(Table(), start)
    {
      p := 0;
      while p < rangeCount && ranges[p].start <= start
        invariant p <= rangeCount && forall i :: 0 <= i < p ==> ranges[i].start <= start
      {
        p := p + 1;
      }
      PositionIs(Table(), start, p);
    }

    /** The three branches of `insert_free_range`, as changes of the array. */
    method InsertRange(start: nat, count: nat) returns (ok: bool)
      requires rangeCount <= ranges.Length && count > 0
      modifies this`rangeCount, ranges
      ensures rangeCount <= ranges.Length && ok == (|Insert(old(Table()), start, count)| <= ranges.Length)
      ensures Table() == if ok then Insert(old(Table()), start, count) else old(Table())
    {
      hide Position, MergedForward;
      ghost var t := Table();
      var p := FindPosition(start);
      assert Insert(t, start, count) == InsertAtPosition(t, p, start, count);
      hide Insert;
      if p > 0 && End(ranges[p - 1]) >= start {
        GrowBack(p - 1, start + count);
        return true;
      }
      if p < rangeCount && start + count >= ranges[p].start {
        GrowFront(p, start, start + count);
        return true;
      }
      if rangeCount >= ranges.Length { return false; }
      InsertAt(p, Range(start, count));
      ok := true;
    }

    /** `insert_free_range`: fresh frames join the table, or, when they touch no range and the
        array is full, nothing changes. */
    method InsertFreeRange(start: nat, count: nat) returns (ok: bool)
      requires Valid() && Disjoint(Table(), start, count)
      modifies this`rangeCount, ranges
      ensures Valid() && ok == (|Insert(old(Table()), start, count)| <= ranges.Length)
      ensures Table() == if ok then Insert(old(Table()), start, count) else old(Table())
      ensures ok ==> forall f :: Has(Table(), f) <==> Has(old(Table()), f) || start <= f < start + count
    {
      InsertAdds(Table(), start, count);
      if count == 0 { return true; }
      hide Has, Canon, Disjoint, Insert;
      ok := InsertRange(start, count);
    }

    /** The range before the new one grows to `end`, and may then touch the one after. */
    method GrowBack(i: nat, end: nat)
      requires i < rangeCount <= ranges.Length
      modifies this`rangeCount, ranges
      ensures rangeCount <= old(rangeCount)
      ensures var t := old(Table()); Table() == MergedForward(t[i := Grown(t[i], end)], i)
    {
      hide MergedForward;
      ghost var t := Table();
      ranges[i] := Grown(ranges[i], end);
      assert Table() == t[i := ranges[i]];
      TryMergeForward(i);
    }

    /** The range behind the new one starts where the new one does. */
    method GrowFront(i: nat, start: nat, end: nat)
      requires i < rangeCount <= ranges.Length && start < ranges[i].start
      modifies ranges
      ensures var t := old(Table()); Table() == t[i := Range(start, Max(end, End(t[i])) - start)]
    {
      ghost var t := Table();
      ranges[i] := Range(start, Max(end, End(ranges[i])) - start);
      assert Table() == t[i := ranges[i]];
    }

    /** `deallocate_frame`. */
    method DeallocateFrame(frame: nat) returns (ok: bool)
      requires Valid() && !Has(Table(), frame)
      modifies this`rangeCount, ranges
      ensures Valid() && Table() == if ok then Insert(old(Table()), frame, 1) else old(Table())
      ensures ok == (|Insert(old(Table()), frame, 1)| <= ranges.Length)
      ensures forall f :: Has(Table(), f) <==> Has(old(Table()), f) || (ok && f == frame)
    {
      ok := InsertFreeRange(frame, 1);
    }

    /** Takes [s, s+n) out of range `i`. Fails, changing nothing, when pieces remain on both
        sides and the array is full. */
    method Carve(i: nat, s: nat, n: nat) returns (ok: bool)
      requires Valid() && i < rangeCount && ranges[i].start <= s && s + n <= End(ranges[i]) && n > 0
      modifies this`rangeCount, ranges
      ensures Valid() && ok == (|Carved(old(Table()), i, s, n)| <= ranges.Length)
      ensures Table() == if ok then Carved(old(Table()), i, s, n) else old(Table())
    {
      ghost var t := Table();
      CarveTakes(t, i, s, n);
      CarvedCases(t, i, s, n);
      hide Has, Canon, Carved;
      var r := ranges[i];
      var leading, trailing := s - r.start, End(r) - (s + n);
      if leading == 0 && trailing == 0 {
        RemoveAt(i);
      } else if leading == 0 {
        ranges[i] := Range(s + n, trailing);
        assert Table() == t[i := Range(s + n, trailing)];
      } else if trailing == 0 {
        ranges[i] := Range(r.start, leading);
        assert Table() == t[i := Range(r.start, leading)];
      } else {
        if rangeCount == ranges.Length { return false; }
        ranges[i] := Range(r.start, leading);
        assert Table() == t[i := Range(r.start, leading)];
        InsertAt(i + 1, Range(s + n, trailing));
      }
      ok := true;
    }

    /** `allocate_frame`: the lowest free frame. */
    method AllocateFrame() returns (frame: Option<nat>)
      requires Valid()
      modifies this`rangeCount, ranges
      ensures Valid() && (frame.None? <==> forall f :: !Has(old(Table()), f))
      ensures (frame.None? ==> Table() == old(Table()))
      ensures frame.Some? ==>
        && Has(old(Table()), frame.value) && (forall f :: Has(old(Table()), f) ==> frame.value <= f)
        && forall f :: Has(Table(), f) <==> Has(old(Table()), f) && f != frame.value
    {
      ghost var t := Table();
      if rangeCount == 0 { HasNone(); return None; }
      HasFirst(t);
      forall f | Has(t, f) ensures t[0].start <= f { FirstIsLowest(t, f); }
      var start := ranges[0].start;
      CarveTakes(t, 0, start, 1);
      assert |Carved(t, 0, start, 1)| <= |t|;
      var ok := Carve(0, start, 1);
      frame := Some(start);
    }

    /** `allocate_contiguous_aligned`: the lowest aligned free run. It answers `None` only for a
        request that makes no sense, when there is no such run, or when the lowest one would
        leave pieces on both sides and the array is full. */
    method AllocateContiguousAligned(count: nat, align: nat) returns (start: Option<nat>)
      requires Valid()
      modifies this`rangeCount, ranges
      ensures Valid() && (start.None? ==> Table() == old(Table()))
      ensures start.Some? ==>
        && count > 0 && align > 0 && FreeRun(old(Table()), start.value, count, align)
        && (forall s: nat :: FreeRun(old(Table()), s, count, align) ==> start.value <= s)
        && forall f :: Has(Table(), f) <==> Has(old(Table()), f) && !(start.value <= f < start.value + count)
      ensures start.None? <==>
        || count == 0 || align == 0 || !PowerOfTwo(align)
        || (forall s: nat :: !FreeRun(old(Table()), s, count, align))
        || exists i, s: nat :: SplitWhenFull(old(Table()), i, s, count, align, ranges.Length)
    {
      if count == 0 || align == 0 || !PowerOfTwo(align) { return None; }
      ghost var t := Table();
      var i := 0;
      while i < rangeCount && !Fits(ranges[i], count, align)
        invariant i <= rangeCount && Table() == t && Valid()
        invariant forall j :: 0 <= j < i ==> !Fits(t[j], count, align)
      {
        i := i + 1;
      }
      FirstFitIsLowest(t, i, count, align);
      hide Canon, FreeRun, Fits;
      if i == rangeCount { return None; }
      assert Fits(t[i], count, align);
      FitsMeans(t[i], count, align);
      var s := AlignUp(ranges[i].start, align);
      CarveTakes(t, i, s, count);
      var ok := Carve(i, s, count);
      if !ok {
        SplitMeans(t, i, s, count, align, ranges.Length);
        return None;
      }
      NoSplit(t, i, s, count, align, ranges.Length);
      start := Some(s);
    }

    /** `allocate_contiguous`: the lowest free run, `None` exactly when there is none. */
    method AllocateContiguous(count: nat) returns (start: Option<nat>)
      requires Valid()
      modifies this`rangeCount, ranges
      ensures Valid() && (start.None? ==> Table() == old(Table()))
      ensures start.None? <==> count == 0 || forall s: nat :: !FreeRun(old(Table()), s, count, 1)
      ensures start.Some? ==>
        && FreeRun(old(Table()), start.value, count, 1)
        && (forall s: nat :: FreeRun(old(Table()), s, count, 1) ==> start.value <= s)
        && forall f :: Has(Table(), f) <==> Has(old(Table()), f) && !(start.value <= f < start.value + count)
    {
      if count == 0 { return None; }
      ghost var t := Table();
      var i := 0;
      while i < rangeCount && ranges[i].count < count
        invariant i <= rangeCount && Table() == t && Valid()
        invariant forall j :: 0 <= j < i ==> !Fits(t[j], count, 1)
      {
        i := i + 1;
      }
      FirstFitIsLowest(t, i, count, 1);
      if i == rangeCount { return None; }
      CarveTakes(t, i, ranges[i].start, count);
      assert |Carved(t, i, ranges[i].start, count)| <= |t|;
      start := Some(ranges[i].start);
      var ok := Carve(i, ranges[i].start, count);
    }
  }

  /** The four shapes of a carved table, as array updates. */
  lemma CarvedCases(t: seq<Range>, i: nat, s: nat, n: nat)
    requires i < |t| && t[i].start <= s && s + n <= End(t[i]) && n > 0
    ensures var a, b := s - t[i].start, End(t[i]) - (s + n);
      var lead, trail := Range(t[i].start, a), Range(s + n, b);
      && (a == 0 && b == 0 ==> Carved(t, i, s, n) == t[..i] + t[i + 1..])
      && (a == 0 && b > 0 ==> Carved(t, i, s, n) == t[i := trail])
      && (a > 0 && b == 0 ==> Carved(t, i, s, n) == t[i := lead])
      && (a > 0 && b > 0 ==> Carved(t, i, s, n) == t[i := lead][..i + 1] + [trail] + t[i := lead][i + 1..])
  {
    var a, b := s - t[i].start, End(t[i]) - (s + n);
    var lead, trail := Range(t[i].start, a), Range(s + n, b);
    assert t[i := trail] == t[..i] + [trail] + t[i + 1..];
    assert t[i := lead] == t[..i] + [lead] + t[i + 1..];
    if a > 0 && b > 0 { assert Pieces(t[i], s, n) == [lead] + [trail]; }
  }

  /** The lowest aligned run starts and ends strictly inside its range, and no slot is left for
      the second piece. */
  ghost predicate SplitWhenFull(t: seq<Range>, i: int, s: nat, count: nat, align: nat, capacity: nat) {
    && 0 <= i < |t| == capacity && align > 0 && t[i].start < s && s + count < End(t[i])
    && FreeRun(t, s, count, align) && forall k: nat :: FreeRun(t, k, count, align) ==> s <= k
  }

  lemma SplitMeans(t: seq<Range>, i: nat, s: nat, count: nat, align: nat, capacity: nat)
    requires i < |t| <= capacity && t[i].start <= s && s + count <= End(t[i]) && count > 0 && align > 0
    requires |Carved(t, i, s, count)| > capacity
    requires FreeRun(t, s, count, align) && forall k: nat :: FreeRun(t, k, count, align) ==> s <= k
    ensures SplitWhenFull(t, i, s, count, align, capacity)
  {
  }

  lemma NoSplit(t: seq<Range>, i: nat, s: nat, count: nat, align: nat, capacity: nat)
    requires Canon(t) && i < |t| <= capacity && t[i].start <= s && s + count <= End(t[i]) && count > 0 && align > 0
    requires |Carved(t, i, s, count)| <= capacity
    requires FreeRun(t, s, count, align) && forall k: nat :: FreeRun(t, k, count, align) ==> s <= k
    ensures !exists j, k: nat :: SplitWhenFull(t, j, k, count, align, capacity)
  {
    forall j, k: nat ensures !SplitWhenFull(t, j, k, count, align, capacity) {
      if SplitWhenFull(t, j, k, count, align, capacity) {
        if j < i { Sorted(t, j, i); } else if i < j { Sorted(t, i, j); }
        CarvedCases(t, i, s, count);
      }
    }
  }

  lemma FitsMeans(r: Range, count: nat, align: nat)
    requires align > 0 && Fits(r, count, align)
    ensures r.start <= AlignUp(r.start, align) && AlignUp(r.start, align) + count <= End(r)
  {
  }

  lemma {:induction false} PositionIs(t: seq<Range>, start: nat, p: nat)
    requires p <= |t| && (forall i :: 0 <= i < p ==> t[i].start <= start) && (p < |t| ==> t[p].start > start)
    ensures p == Position(t, start)
  {
    if p > 0 { PositionIs(t[1..], start, p - 1); }
  }
}
