/** What a split and a merge do to a directory block: it stays tiled, and exactly one name
    comes or goes. */
module Ext2DirBlock {
  import opened Wrappers
  import opened Bytes
  import opened Ext2Layout
  import opened Ext2Dirent

  ghost predicate Has(es: seq<Binding>, name: seq<byte>) {
    exists i :: 0 <= i < |es| && es[i].0 == name
  }

  lemma {:induction false} StartsInside(img: seq<byte>, at: nat, end: nat, p: nat)
    requires end <= |img| && Tiled(img, at, end) && Starts(img, at, end, p)
    ensures at <= p && p + DIRENT_HEADER_LEN <= end && RecordOk(img, p, end)
    ensures p != at ==> at + RecLen(img, at) <= p
    ensures Tiled(img, p + RecLen(img, p), end)
    decreases end - at
  {
    if at != p { StartsInside(img, at + RecLen(img, at), end, p); }
  }

  /** A spot the scan reports: a record, and the record just before it if there is one. */
  ghost predicate SpotOk(img: seq<byte>, at: nat, end: nat, previous: Option<nat>, s: Spot)
    requires end <= |img| && Tiled(img, at, end)
  {
    && Starts(img, at, end, s.entry)
    && (s.entry == at ==> s.previous == previous)
    && (s.entry != at ==>
          && s.previous.Some? && Starts(img, at, end, s.previous.value)
          && s.previous.value + DIRENT_HEADER_LEN <= |img|
          && s.previous.value + RecLen(img, s.previous.value) == s.entry)
  }

  lemma SpotOkStep(img: seq<byte>, at: nat, end: nat, previous: Option<nat>, s: Spot)
    requires end <= |img| && Tiled(img, at, end) && at != end
    requires SpotOk(img, at + RecLen(img, at), end, Some(at), s)
    ensures SpotOk(img, at, end, previous, s)
  {
    StartsInside(img, at + RecLen(img, at), end, s.entry);
  }

  /** What the inner loop reports on a tiled block. */
  lemma {:induction false} ScanBlockFacts(img: seq<byte>, at: nat, end: nat, previous: Option<nat>, name: seq<byte>,
      want: nat, acc: Scan)
    requires end <= |img| && Tiled(img, at, end)
    ensures var r := ScanBlock(img, at, end, previous, name, want, acc);
      && r.Ok?
      && (!Has(Entries(img, at, end), name) ==> r.value.found == acc.found)
      && (Has(Entries(img, at, end), name) ==>
            r.value.found.Some? && FoundAt(img, at, end, previous, name, r.value.found.value))
      && (acc.room.Some? ==> r.value.room == acc.room)
      && (acc.room.None? && r.value.room.Some? ==> RoomAt(img, at, end, previous, want, r.value.room.value))
    decreases end - at
  {
    if at != end {
      var next := at + RecLen(img, at);
      var acc' := Noted(img, at, previous, name, want, acc);
      ScanBlockFacts(img, next, end, Some(at), name, want, acc');
      var r := ScanBlock(img, next, end, Some(at), name, want, acc').value;
      HasStep(img, at, end, name);
      if Has(Entries(img, next, end), name) { SpotOkStep(img, at, end, previous, r.found.value); }
      if acc'.room.None? && r.room.Some? { SpotOkStep(img, at, end, previous, r.room.value); }
    }
  }

  ghost predicate FoundAt(img: seq<byte>, at: nat, end: nat, previous: Option<nat>, name: seq<byte>, s: Spot)
    requires end <= |img| && Tiled(img, at, end)
  {
    && SpotOk(img, at, end, previous, s)
    && s.entry + DIRENT_HEADER_LEN <= |img| && s.entry + DIRENT_HEADER_LEN + NameLen(img, s.entry) <= |img|
    && U32(img, s.entry) != 0 && NameAt(img, s.entry) == name
  }

  ghost predicate RoomAt(img: seq<byte>, at: nat, end: nat, previous: Option<nat>, want: nat, s: Spot)
    requires end <= |img| && Tiled(img, at, end)
  {
    && SpotOk(img, at, end, previous, s)
    && s.entry + DIRENT_HEADER_LEN <= |img|
    && U32(img, s.entry) != 0 && RecLen(img, s.entry) >= Span(NameLen(img, s.entry)) + want
  }

  /** The names of a block, one record at a time, as a multiset. */
  lemma EntriesStep(img: seq<byte>, at: nat, end: nat)
    requires end <= |img| && Tiled(img, at, end) && at != end
    ensures multiset(Entries(img, at, end)) ==
      (if U32(img, at) != 0 then multiset{BindingAt(img, at)} else multiset{})
          + multiset(Entries(img, at + RecLen(img, at), end))
  {
    hide U16, U32, RecLen, NameLen, NameAt;
    var rest := Entries(img, at + RecLen(img, at), end);
    if U32(img, at) != 0 { MultisetCons(BindingAt(img, at), rest); }
  }

  lemma MultisetCons<T>(e: T, s: seq<T>)
    ensures multiset([e] + s) == multiset{e} + multiset(s)
  {
  }

  lemma HasStep(img: seq<byte>, at: nat, end: nat, name: seq<byte>)
    requires end <= |img| && Tiled(img, at, end) && at != end
    ensures Has(Entries(img, at, end), name)
      <==> (U32(img, at) != 0 && NameAt(img, at) == name) || Has(Entries(img, at + RecLen(img, at), end), name)
  {
    var rest := Entries(img, at + RecLen(img, at), end);
    var es := Entries(img, at, end);
    if U32(img, at) != 0 {
      assert es == [BindingAt(img, at)] + rest;
      assert forall i :: 0 <= i < |rest| ==> es[i + 1] == rest[i];
      assert es[0] == BindingAt(img, at);
    }
  }

  // ----- splitting -----

  /** The block stays tiled and gains exactly the new name. */
  lemma {:induction false} InsertTiles(img: seq<byte>, at: nat, end: nat, previous: nat, ino: nat, name: seq<byte>,
      kind: byte)
    requires end <= |img| && Tiled(img, at, end) && Starts(img, at, end, previous)
    requires Splittable(img, previous, |name|) && 0 < ino < 0x1_0000_0000 && |name| <= MAX_NAME_LEN
    ensures var r := Insert(img, previous, ino, name, kind);
      && Tiled(r, at, end)
      && multiset(Entries(r, at, end)) == multiset(Entries(img, at, end)) + multiset{(name, ino, kind)}
    decreases end - at
  {
    hide Insert, U16, U32, RecLen, NameLen, NameAt, Span, Entries;
    var r := Insert(img, previous, ino, name, kind);
    InsertReads(img, previous, ino, name, kind);
    StartsInside(img, at, end, previous);
    if at == previous {
      SplitHere(img, r, at, end, ino, name, kind);
    } else {
      var next := at + RecLen(img, at);
      SameRecord(img, r, at, end);
      InsertTiles(img, next, end, previous, ino, name, kind);
      EntriesStep(img, at, end);
      EntriesStep(r, at, end);
    }
  }

  /** The image around a split at `at`: two records in place of one, the rest untouched. */
  ghost predicate SplitAt(img: seq<byte>, r: seq<byte>, at: nat, end: nat, ino: nat, name: seq<byte>, kind: byte) {
    && end <= |img| == |r| && Tiled(img, at, end) && at != end && Splittable(img, at, |name|) && 0 < ino
    && var entry := EntryOf(img, at);
       && entry + DIRENT_HEADER_LEN + |name| <= |img|
       && RecLen(r, at) == Span(NameLen(img, at)) && NameLen(r, at) == NameLen(img, at)
       && BindingAt(r, at) == BindingAt(img, at)
       && RecLen(r, entry) == RecLen(img, at) - Span(NameLen(img, at))
       && NameLen(r, entry) == |name| && BindingAt(r, entry) == (name, ino, kind)
       && Same(img, r, at + RecLen(img, at), |img|)
  }

  lemma SplitTiled(img: seq<byte>, r: seq<byte>, at: nat, end: nat, ino: nat, name: seq<byte>, kind: byte)
    requires SplitAt(img, r, at, end, ino, name, kind)
    ensures var entry, next := EntryOf(img, at), at + RecLen(img, at);
      && Tiled(r, at, end) && at + RecLen(r, at) == entry
      && entry + DIRENT_HEADER_LEN <= end && RecordOk(r, entry, end) && Tiled(r, entry, end)
      && entry + RecLen(r, entry) == next
      && Tiled(img, next, end) && Tiled(r, next, end) && Entries(r, next, end) == Entries(img, next, end)
  {
    hide U16, U32, RecLen, NameLen, NameAt, Span;
    var entry, next := EntryOf(img, at), at + RecLen(img, at);
    SpanCovers(NameLen(img, at));
    SpanCovers(|name|);
    SameTiling(img, r, next, end);
    assert RecordOk(r, entry, end);
    assert Tiled(r, entry, end);
    assert RecordOk(r, at, end);
  }

  lemma SplitHere(img: seq<byte>, r: seq<byte>, at: nat, end: nat, ino: nat, name: seq<byte>, kind: byte)
    requires SplitAt(img, r, at, end, ino, name, kind)
    ensures Tiled(r, at, end)
    ensures multiset(Entries(r, at, end)) == multiset(Entries(img, at, end)) + multiset{(name, ino, kind)}
  {
    hide U16, U32, RecLen, NameLen, NameAt, Span, Entries, RecordOk, Tiled;
    SplitTiled(img, r, at, end, ino, name, kind);
    EntriesStep(img, at, end);
    EntriesStep(r, at, end);
    EntriesStep(r, EntryOf(img, at), end);
  }

  /** The scan succeeds and reports `s`. */
  ghost predicate Finds(r: Res<Scan>, s: Spot) {
    r.Ok? && r.value.found == Some(s)
  }

  /** After a split the scan finds the new record, with the split one before it. */
  lemma {:induction false} ScanFindsInserted(img: seq<byte>, at: nat, end: nat, before: Option<nat>, previous: nat,
      ino: nat, name: seq<byte>, kind: byte, want: nat, acc: Scan)
    requires end <= |img| && Tiled(img, at, end) && Starts(img, at, end, previous)
    requires Splittable(img, previous, |name|) && 0 < ino < 0x1_0000_0000 && |name| <= MAX_NAME_LEN
    requires !Has(Entries(img, at, end), name)
    ensures Finds(ScanBlock(Insert(img, previous, ino, name, kind), at, end, before, name, want, acc),
          Spot(EntryOf(img, previous), Some(previous)))
    decreases end - at
  {
    hide Insert, U16, U32, RecLen, NameLen, NameAt, Span, EntryOf, Entries, Has;
    var r := Insert(img, previous, ino, name, kind);
    InsertReads(img, previous, ino, name, kind);
    StartsInside(img, at, end, previous);
    HasStep(img, at, end, name);
    if at == previous {
      ScanFindsSplit(img, r, at, end, before, ino, name, kind, want, acc);
    } else {
      SameRecord(img, r, at, end);
      ScanFindsInserted(img, at + RecLen(img, at), end, Some(at), previous, ino, name, kind, want,
        Noted(r, at, before, name, want, acc));
    }
  }

  lemma ScanFindsSplit(img: seq<byte>, r: seq<byte>, at: nat, end: nat, before: Option<nat>, ino: nat, name: seq<byte>,
      kind: byte, want: nat, acc: Scan)
    requires SplitAt(img, r, at, end, ino, name, kind) && !Has(Entries(img, at, end), name)
    ensures Finds(ScanBlock(r, at, end, before, name, want, acc), Spot(EntryOf(img, at), Some(at)))
  {
    SplitTiled(img, r, at, end, ino, name, kind);
    HasStep(img, at, end, name);
    hide U16, U32, RecLen, NameLen, NameAt, Span, Entries, Has, EntryOf, Tiled;
    var entry, next := EntryOf(img, at), at + RecLen(img, at);
    var one := Noted(r, at, before, name, want, acc);
    var two := Noted(r, entry, Some(at), name, want, one);
    hide Noted;
    ScanBlockFacts(r, next, end, Some(entry), name, want, two);
    assert ScanBlock(r, entry, end, Some(at), name, want, one) == ScanBlock(r, next, end, Some(entry), name, want, two);
    assert ScanBlock(r, at, end, before, name, want, acc) == ScanBlock(r, entry, end, Some(at), name, want, one);
    assert two.found == Some(Spot(entry, Some(at))) by { NotedHit(r, entry, Some(at), name, want, one); }
  }

  lemma NotedHit(r: seq<byte>, at: nat, previous: Option<nat>, name: seq<byte>, want: nat, acc: Scan)
    requires at + DIRENT_HEADER_LEN <= |r| && at + DIRENT_HEADER_LEN + NameLen(r, at) <= |r| && U32(r, at) != 0
    requires NameAt(r, at) == name
    ensures Noted(r, at, previous, name, want, acc).found == Some(Spot(at, previous))
  {
  }

  // ----- merging -----

  /** Bytes outside two writes are the same. */
  lemma TwoPuts(img: seq<byte>, a: nat, x: seq<byte>, b: nat, y: seq<byte>)
    requires a + |x| <= |img| && b + |y| <= |img|
    ensures var r := Put(Put(img, a, x), b, y);
      |r| == |img| && forall p :: 0 <= p < |img| && !(a <= p < a + |x|) && !(b <= p < b + |y|) ==> r[p] == img[p]
  {
  }

  lemma NamesSame(img: seq<byte>, r: seq<byte>, at: nat)
    requires at + DIRENT_HEADER_LEN <= |img| == |r| && r[at + 6] == img[at + 6] && r[at + 7] == img[at + 7]
    requires at + DIRENT_HEADER_LEN + NameLen(img, at) <= |img|
    requires forall p :: at + DIRENT_HEADER_LEN <= p < at + DIRENT_HEADER_LEN + NameLen(img, at) ==> r[p] == img[p]
    ensures NameLen(r, at) == NameLen(img, at) && NameAt(r, at) == NameAt(img, at) && KindAt(r, at) == KindAt(img, at)
  {
  }

  lemma RemoveReads(img: seq<byte>, entry: nat, previous: nat)
    requires entry + DIRENT_HEADER_LEN <= |img| && previous + DIRENT_HEADER_LEN <= |img|
    requires entry + RecLen(img, entry) <= |img| && previous + RecLen(img, previous) == entry
    requires RecLen(img, previous) >= DIRENT_HEADER_LEN + NameLen(img, previous)
    requires Remove(img, entry, previous).0.Ok?
    ensures var r := Remove(img, entry, previous).1;
      && RecLen(r, previous) == RecLen(img, previous) + RecLen(img, entry)
      && NameLen(r, previous) == NameLen(img, previous) && BindingAt(r, previous) == BindingAt(img, previous)
      && Same(img, r, 0, previous) && Same(img, r, entry + RecLen(img, entry), |img|)
  {
    hide U16, U32, Put, Le16, NameAt;
    var merged := RecLen(img, previous) + RecLen(img, entry);
    var x := Put(img, previous + 4, Le16(merged));
    var zeros := Zeros(RecLen(img, entry));
    Put16Read(img, previous + 4, merged);
    Read16Apart(x, entry, zeros, previous + 4);
    Read32Apart(img, previous + 4, Le16(merged), previous);
    Read32Apart(x, entry, zeros, previous);
    TwoPuts(img, previous + 4, Le16(merged), entry, zeros);
    NamesSame(img, Put(x, entry, zeros), previous);
  }

  /** Merging an entry into the one before it takes exactly that entry away. */
  lemma {:induction false} RemoveTiles(img: seq<byte>, at: nat, end: nat, entry: nat, previous: nat)
    requires end <= |img| && Tiled(img, at, end) && Starts(img, at, end, entry) && Starts(img, at, end, previous)
    requires entry + DIRENT_HEADER_LEN <= |img| && previous + DIRENT_HEADER_LEN <= |img|
    requires entry + RecLen(img, entry) <= |img| && previous + RecLen(img, previous) == entry
    requires entry + DIRENT_HEADER_LEN + NameLen(img, entry) <= |img| && U32(img, entry) != 0
    requires Remove(img, entry, previous).0.Ok?
    ensures var r := Remove(img, entry, previous).1;
      && Tiled(r, at, end)
      && multiset(Entries(img, at, end))
          == multiset(Entries(r, at, end)) + multiset{BindingAt(img, entry)}
    decreases end - at
  {
    hide Remove, U16, U32, RecLen, NameLen, NameAt, Span, Entries;
    var r := Remove(img, entry, previous).1;
    StartsInside(img, at, end, previous);
    StartsInside(img, at, end, entry);
    RemoveReads(img, entry, previous);
    var next := at + RecLen(img, at);
    if at == previous {
      MergeHere(img, r, at, end, entry);
    } else {
      SameRecord(img, r, at, end);
      RemoveTiles(img, next, end, entry, previous);
      EntriesStep(img, at, end);
      EntriesStep(r, at, end);
    }
  }

  ghost predicate MergeAt(img: seq<byte>, r: seq<byte>, at: nat, end: nat, entry: nat) {
    && end <= |img| == |r| && Tiled(img, at, end) && at != end && entry == at + RecLen(img, at)
    && entry + DIRENT_HEADER_LEN <= end && RecordOk(img, entry, end) && U32(img, entry) != 0
    && RecLen(r, at) == RecLen(img, at) + RecLen(img, entry) && NameLen(r, at) == NameLen(img, at)
    && BindingAt(r, at) == BindingAt(img, at)
    && Same(img, r, entry + RecLen(img, entry), |img|)
  }

  lemma MergeTiled(img: seq<byte>, r: seq<byte>, at: nat, end: nat, entry: nat)
    requires MergeAt(img, r, at, end, entry)
    ensures var next := entry + RecLen(img, entry);
      && Tiled(img, entry, end) && Tiled(img, next, end) && Tiled(r, next, end)
      && Entries(r, next, end) == Entries(img, next, end)
      && Tiled(r, at, end) && at + RecLen(r, at) == next
  {
    hide U16, U32, RecLen, NameLen, NameAt, Span, Entries;
    var next := entry + RecLen(img, entry);
    assert Tiled(img, entry, end);
    SameTiling(img, r, next, end);
    assert RecordOk(r, at, end);
  }

  lemma MergeHere(img: seq<byte>, r: seq<byte>, at: nat, end: nat, entry: nat)
    requires MergeAt(img, r, at, end, entry)
    ensures Tiled(r, at, end)
    ensures multiset(Entries(img, at, end))
      == multiset(Entries(r, at, end)) + multiset{BindingAt(img, entry)}
  {
    hide U16, U32, RecLen, NameLen, NameAt, Span, Entries, RecordOk, Tiled;
    MergeTiled(img, r, at, end, entry);
    EntriesStep(img, at, end);
    EntriesStep(img, entry, end);
    EntriesStep(r, at, end);
  }

  /** Merging the new entry back restores every byte, if the slack it was cut from was zero. */
  lemma RemoveUndoesInsert(img: seq<byte>, previous: nat, ino: nat, name: seq<byte>, kind: byte)
    requires Splittable(img, previous, |name|) && ino < 0x1_0000_0000 && |name| <= MAX_NAME_LEN
    requires SlackZero(img, previous)
    ensures var r := Insert(img, previous, ino, name, kind); var entry := EntryOf(img, previous);
      && entry + DIRENT_HEADER_LEN <= |img| && entry + RecLen(r, entry) <= |img|
      && Remove(r, entry, previous) == (Ok(()), img)
  {
    hide Put, U16, U32, RecordBytes, Span, RecLen, NameLen, Le16, Insert, Remove, NameAt;
    var n, len := Span(NameLen(img, previous)), RecLen(img, previous);
    SpanCovers(NameLen(img, previous));
    SpanCovers(|name|);
    var e := len - n;
    var entry := previous + n;
    var r := Insert(img, previous, ino, name, kind);
    InsertReads(img, previous, ino, name, kind);
    InsertShape(img, previous, ino, name, kind);
    var x := Put(img, previous + 4, Le16(n));
    var rec := RecordBytes(ino, e, name, kind);
    // wiping covers the record, and commutes with restoring the length
    PutCommute(x, entry, rec, previous + 4, Le16(len));
    PutCovers(img, previous + 4, Le16(n), previous + 4, Le16(len));
    var y := Put(r, previous + 4, Le16(len));
    assert Put(img, previous + 4, Le16(len)) == img by { Le16Is(img, previous); PutSame(img, previous + 4, Le16(len)); }
    assert y == Put(img, entry, rec);
    PutCovers(img, entry, rec, entry, Zeros(e));
    assert img[entry..entry + e] == Zeros(e);
    PutSame(img, entry, Zeros(e));
    RemoveShape(r, entry, previous);
  }

  lemma InsertShape(img: seq<byte>, previous: nat, ino: nat, name: seq<byte>, kind: byte)
    requires Splittable(img, previous, |name|) && ino < 0x1_0000_0000 && |name| <= MAX_NAME_LEN
    ensures var n := Span(NameLen(img, previous));
      && previous + n + DIRENT_HEADER_LEN + |name| <= |img|
      && Insert(img, previous, ino, name, kind)
         == Put(Put(img, previous + 4, Le16(n)), previous + n, RecordBytes(ino, RecLen(img, previous) - n, name, kind))
  {
  }

  lemma RemoveShape(img: seq<byte>, entry: nat, previous: nat)
    requires entry + DIRENT_HEADER_LEN <= |img| && previous + DIRENT_HEADER_LEN <= |img|
    requires entry + RecLen(img, entry) <= |img| && RecLen(img, previous) + RecLen(img, entry) < 0x1_0000
    ensures Remove(img, entry, previous)
         == (Ok(()), Put(Put(img, previous + 4, Le16(RecLen(img, previous) + RecLen(img, entry))), entry,
               Zeros(RecLen(img, entry))))
  {
  }

  lemma Le16Is(img: seq<byte>, previous: nat)
    requires previous + DIRENT_HEADER_LEN <= |img|
    ensures Le16(RecLen(img, previous)) == img[previous + 4..previous + 6]
  {
    Le16Of(img, previous + 4);
  }

  /** Everything a record owns past its own name is zero. */
  ghost predicate SlackZero(img: seq<byte>, at: nat)
    requires at + DIRENT_HEADER_LEN <= |img|
  {
    forall p :: EntryOf(img, at) <= p < at + RecLen(img, at) && p < |img| ==> img[p] == 0
  }
}
