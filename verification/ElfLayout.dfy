/** The load-layout check of an executable's segments: which lists it accepts, and what that
    guarantees about every page. */
module ElfLayout {
  import opened Wrappers

  const LOAD_PAGE_SIZE := 4096
  const U64_MAX := 0xFFFF_FFFF_FFFF_FFFF

  /** A `PT_LOAD` header; its flags kept to the three permissions. */
  datatype Permissions = Permissions(r: bool, w: bool, x: bool)

  datatype Segment = Segment(vaddr: nat, memsz: nat, filesz: nat, permissions: Permissions)

  datatype LayoutError =
    | EmptySegment(index: nat)
    | AddressOverflow(index: nat)
    | WritableAndExecutable(index: nat)
    | OutOfOrder(index: nat)
    | Overlap(index: nat)
    | MixedPermissionsInPage(index: nat, page: nat)
    | FileDataInSharedPage(index: nat, page: nat)

  function End(s: Segment): nat { s.vaddr + s.memsz }

  /** The page an address is in. */
  function PageOf(address: nat): nat { address / LOAD_PAGE_SIZE }

  // ----- the rules -----

  /** What is asked of one segment by itself. */
  predicate Sound(s: Segment) {
    s.memsz > 0 && End(s) + (LOAD_PAGE_SIZE - 1) <= U64_MAX && !(s.permissions.w && s.permissions.x)
  }

  /** What is asked of two neighbours. */
  predicate Follows(p: Segment, s: Segment)
    requires p.memsz > 0
  {
    && End(p) <= s.vaddr
    && (PageOf(End(p) - 1) == PageOf(s.vaddr) ==> s.permissions == p.permissions && s.filesz == 0)
  }

  ghost predicate Acceptable(ss: seq<Segment>) {
    && (forall i :: 0 <= i < |ss| ==> Sound(ss[i]))
    && (forall i :: 0 < i < |ss| ==> Follows(ss[i - 1], ss[i]))
  }

  /** The error one segment draws, given the one before it. */
  function Fault(p: Option<Segment>, s: Segment, index: nat): Option<LayoutError>
    requires p.Some? ==> p.value.memsz > 0
  {
    if s.memsz == 0 then Some(EmptySegment(index))
    else if End(s) > U64_MAX || End(s) + (LOAD_PAGE_SIZE - 1) > U64_MAX then Some(AddressOverflow(index))
    else if s.permissions.w && s.permissions.x then Some(WritableAndExecutable(index))
    else if p.None? then None
    else if s.vaddr < p.value.vaddr then Some(OutOfOrder(index))
    else if s.vaddr < End(p.value) then Some(Overlap(index))
    else if PageOf(End(p.value) - 1) == PageOf(s.vaddr) then
      if s.permissions != p.value.permissions then Some(MixedPermissionsInPage(index, PageOf(s.vaddr) * LOAD_PAGE_SIZE))
      else if s.filesz != 0 then Some(FileDataInSharedPage(index, PageOf(s.vaddr) * LOAD_PAGE_SIZE))
      else None
    else None
  }

  /** What each error says of the segment, and of the one before it: the first rule broken, in the
      order of the rules. */
  predicate Blames(p: Option<Segment>, s: Segment, e: LayoutError) {
    match e
    case EmptySegment(_) => s.memsz == 0
    case AddressOverflow(_) => s.memsz > 0 && s.vaddr + s.memsz + 4095 > 0xFFFF_FFFF_FFFF_FFFF
    case WritableAndExecutable(_) =>
      s.memsz > 0 && s.vaddr + s.memsz + 4095 <= 0xFFFF_FFFF_FFFF_FFFF && s.permissions.w && s.permissions.x
    case OutOfOrder(_) => Sound(s) && p.Some? && s.vaddr < p.value.vaddr
    case Overlap(_) => Sound(s) && p.Some? && p.value.vaddr <= s.vaddr < p.value.vaddr + p.value.memsz
    case MixedPermissionsInPage(_, page) =>
      Sound(s) && p.Some? && Share(p.value, s, page) && s.permissions != p.value.permissions
    case FileDataInSharedPage(_, page) =>
      Sound(s) && p.Some? && Share(p.value, s, page) && s.permissions == p.value.permissions && s.filesz > 0
  }

  /** `s` starts after the end of `p`, but in its last page, which starts at `page`. */
  predicate Share(p: Segment, s: Segment, page: nat) {
    page % 4096 == 0 && page <= p.vaddr + p.memsz - 1 < s.vaddr < page + 4096
  }

  lemma FaultBlames(p: Option<Segment>, s: Segment, index: nat)
    requires p.Some? ==> p.value.memsz > 0
    ensures var e := Fault(p, s, index); e.Some? ==> Blames(p, s, e.value) && e.value.index == index
  {
    if p.Some? {
      var a, b := End(p.value) - 1, s.vaddr;
      assert PageOf(a) * 4096 <= a < PageOf(a) * 4096 + 4096;
      assert PageOf(b) * 4096 <= b < PageOf(b) * 4096 + 4096;
    }
  }

  /** `check_load_layout`: it accepts exactly the acceptable lists, and otherwise reports the
      first segment that breaks a rule, with the first rule it breaks. */
  method CheckLoadLayout(segments: seq<Segment>) returns (e: Option<LayoutError>)
    ensures e.None? <==> Acceptable(segments)
    ensures e.Some? ==>
      && e.value.index < |segments| && Acceptable(segments[..e.value.index])
      && Blames(if e.value.index == 0 then None else Some(segments[e.value.index - 1]), segments[e.value.index],
            e.value)
  {
    var previous: Option<Segment> := None;
    var index := 0;
    while index < |segments|
      invariant index <= |segments| && Acceptable(segments[..index])
      invariant previous == if index == 0 then None else Some(segments[index - 1])
      invariant previous.Some? ==> previous.value.memsz > 0
    {
      var s := segments[index];
      e := Fault(previous, s, index);
      FaultBlames(previous, s, index);
      if e.Some? {
        Broken(segments, index);
        return e;
      }
      Extend(segments, index);
      previous := Some(s);
      index := index + 1;
    }
    assert segments[..index] == segments;
    e := None;
  }

  lemma Extend(ss: seq<Segment>, n: nat)
    requires n < |ss| && Acceptable(ss[..n]) && (n > 0 ==> ss[n - 1].memsz > 0)
    requires Fault(if n == 0 then None else Some(ss[n - 1]), ss[n], n).None?
    ensures Acceptable(ss[..n + 1])
  {
    var a, b := ss[..n], ss[..n + 1];
    forall i | 0 <= i < |b| ensures Sound(b[i]) { if i < n { assert b[i] == a[i]; } }
    forall i | 0 < i < |b| ensures Follows(b[i - 1], b[i]) { if i < n { assert b[i] == a[i] && b[i - 1] == a[i - 1]; } }
  }

  lemma Broken(ss: seq<Segment>, n: nat)
    requires n < |ss| && (n > 0 ==> ss[n - 1].memsz > 0)
    requires Fault(if n == 0 then None else Some(ss[n - 1]), ss[n], n).Some?
    ensures !Acceptable(ss)
  {
    if Sound(ss[n]) { assert n > 0 && !Follows(ss[n - 1], ss[n]); }
  }

  // ----- what acceptance guarantees -----

  /** Segments of an accepted list are disjoint and in order, all of them, not only
      neighbours. */
  lemma {:induction false} AllPairsApart(ss: seq<Segment>, i: nat, j: nat)
    requires Acceptable(ss) && i < j < |ss|
    ensures End(ss[i]) <= ss[j].vaddr
    decreases j
  {
    assert Follows(ss[j - 1], ss[j]);
    if i < j - 1 {
      AllPairsApart(ss, i, j - 1);
      assert Sound(ss[j - 1]);
    }
  }

  /** Segment `s` has an address in `page`. */
  ghost predicate Touches(s: Segment, page: nat) {
    exists a: nat {:trigger PageOf(a)} :: s.vaddr <= a < End(s) && PageOf(a) == page
  }

  lemma TouchesRange(s: Segment, page: nat)
    requires s.memsz > 0 && Touches(s, page)
    ensures PageOf(s.vaddr) <= page <= PageOf(End(s) - 1)
  {
  }

  /** In a page two segments touch, neighbours between them share that page too. */
  lemma BetweenIsInside(ss: seq<Segment>, i: nat, j: nat, page: nat)
    requires Acceptable(ss) && i < j < |ss| && Touches(ss[i], page) && Touches(ss[j], page)
    ensures PageOf(End(ss[j - 1]) - 1) == page && PageOf(ss[j].vaddr) == page && Touches(ss[j - 1], page)
  {
    assert Sound(ss[i]) && Sound(ss[j]) && Sound(ss[j - 1]) && Follows(ss[j - 1], ss[j]);
    TouchesRange(ss[i], page);
    TouchesRange(ss[j], page);
    if i < j - 1 { AllPairsApart(ss, i, j - 1); }
    assert End(ss[i]) <= End(ss[j - 1]);
    assert page <= PageOf(End(ss[i]) - 1) <= PageOf(End(ss[j - 1]) - 1) <= PageOf(ss[j].vaddr) <= page;
    assert PageOf(End(ss[j - 1]) - 1) == page;
  }

  /** Every page that several segments touch has one permission set, and file data only from
      the first of them. */
  lemma {:induction false} SharedPages(ss: seq<Segment>, i: nat, j: nat, page: nat)
    requires Acceptable(ss) && i < j < |ss| && Touches(ss[i], page) && Touches(ss[j], page)
    ensures ss[i].permissions == ss[j].permissions && ss[j].filesz == 0
    decreases j
  {
    BetweenIsInside(ss, i, j, page);
    assert Follows(ss[j - 1], ss[j]);
    if i < j - 1 { SharedPages(ss, i, j - 1, page); }
  }

  /** No page of an accepted list is both writable and executable. */
  lemma NoPageWritableAndExecutable(ss: seq<Segment>, i: nat, j: nat, page: nat)
    requires Acceptable(ss) && i < |ss| && j < |ss| && Touches(ss[i], page) && Touches(ss[j], page)
    ensures !(ss[i].permissions.w && ss[j].permissions.x)
  {
    assert Sound(ss[i]) && Sound(ss[j]);
    if i < j { SharedPages(ss, i, j, page); } else if j < i { SharedPages(ss, j, i, page); }
  }
}
