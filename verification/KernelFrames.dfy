/** Frames and translations: no frame is free while any TLB can still reach it. */
module KernelFrames {
  import opened Wrappers
  import opened KernelMachine
  import opened KernelSafety

  /** The phase of the owner after a step. */
  lemma OwnerPhaseStep(s: State, a: Action)
    requires Enabled(s, a) && LockInv(s)
    ensures OwnerAction(a) ==>
      && OwnerPhase(Do(s, a)) == NewPhase(s, a) && s.owner == Some(TopAt(s, a.c))
      && OwnerPhase(s) == Top(s.cores[a.c]).phase
    ensures a.work.ClearHeld? ==> OwnerPhase(Do(s, a)) == Running && OwnerPhase(s) == Unnamed
    ensures a.work.Swap? && !s.held ==> OwnerPhase(Do(s, a)) == Won && OwnerPhase(s) == Running
    ensures !OwnerAction(a) && !a.work.ClearHeld? && !(a.work.Swap? && !s.held) ==>
      OwnerPhase(Do(s, a)) == OwnerPhase(s) && Do(s, a).owner == s.owner
    ensures OwnerAction(a) ==> Do(s, a).owner == s.owner
  {
    hide Put, Advance;
    if OwnerAction(a) {
      OwnerIs(s, a.c);
      LockOwnerStep(s, a);
      TopMoves(s, a);
    } else if a.work.ClearHeld? {
      OwnerIs(s, a.c);
    } else if a.work.Swap? && !s.held {
      assert Entry(Do(s, a), TopAt(s, a.c));
    } else if a.work.StartCore? {
      StartQuiet(s, a.c);
    } else {
      OtherQuiet(s, a);
      QuietLock(s, Do(s, a), a.c);
    }
  }

  /** A step inside the lock is a step of the owner. */
  lemma InsideIsOwner(s: State, c: nat)
    requires LockInv(s) && At(s, c, Inside)
    ensures OwnerPhase(s) == Inside && s.owner == Some(TopAt(s, c))
  {
    OwnerIs(s, c);
  }

  // ----- where every frame is -----

  /** Frames unmapped by the retirement under way and not yet handed to the quarantine. */
  function Pending(s: State): set<Frame> {
    match OwnerPhase(s)
    case Detached(frames) => frames
    case Bumped(frames, _) => frames
    case _ => {}
  }

  /** Every frame is in exactly one place, and every mapped frame is mapped once. */
  ghost predicate FramesInv(s: State, all: set<Frame>) {
    && (forall f :: f in all <==>
          f in s.free || f in s.owned || FrameMapped(s, f) || f in Pending(s) || f in s.quarantine || f in s.leaked)
    && (forall f :: f in s.free ==>
          f !in s.owned && !FrameMapped(s, f) && f !in Pending(s) && f !in s.quarantine && f !in s.leaked)
    && (forall f :: f in s.owned ==> !FrameMapped(s, f) && f !in Pending(s) && f !in s.quarantine && f !in s.leaked)
    && (forall f :: f in Pending(s) ==> !FrameMapped(s, f) && f !in s.quarantine && f !in s.leaked)
    && (forall f :: f in s.quarantine ==> !FrameMapped(s, f) && f !in s.leaked)
    && (forall f :: f in s.leaked ==> !FrameMapped(s, f))
    && (forall t, u :: Live(s, t) && Live(s, u) && t.frame == u.frame ==> t == u)
  }

  lemma LiveIsMapped(s: State, t: Translation)
    requires Live(s, t)
    ensures FrameMapped(s, t.frame)
  {
  }

  lemma SameMappings(s: State, r: State)
    requires r.spaces == s.spaces
    ensures forall f :: FrameMapped(r, f) <==> FrameMapped(s, f)
    ensures forall t :: Live(r, t) <==> Live(s, t)
  {
  }

  predicate FrameAction(a: Action) {
    a.work.NewSpace? || a.work.Map? || a.work.Detach? || a.work.Push? || a.work.Allocate? || a.work.Deallocate?
        || a.work.Release?
  }

  lemma FramesQuiet(s: State, a: Action, all: set<Frame>)
    requires Enabled(s, a) && LockInv(s) && FramesInv(s, all) && !FrameAction(a)
    ensures FramesInv(Do(s, a), all)
  {
    hide LockInv, Do, Enabled;
    OwnerPhaseStep(s, a);
    FieldsQuiet(s, a);
    SameMappings(s, Do(s, a));
    PendingQuiet(s, a);
  }

  lemma PendingQuiet(s: State, a: Action)
    requires Enabled(s, a) && LockInv(s) && !FrameAction(a)
    ensures Pending(Do(s, a)) == Pending(s)
  {
    hide LockInv, Do;
    OwnerPhaseStep(s, a);
  }

  lemma FieldsQuiet(s: State, a: Action)
    requires Enabled(s, a) && !FrameAction(a)
    ensures var r := Do(s, a);
      && r.spaces == s.spaces && r.free == s.free && r.owned == s.owned && r.quarantine == s.quarantine
      && r.leaked == s.leaked
  {
    hide DoEntry, DoLock, EnabledEntry, EnabledLock, To, WithTop, Put, Advance, Top;
  }

  // ----- the fields after each frame action -----

  lemma InsideFields(s: State, a: Action)
    requires Enabled(s, a) && (a.work.Allocate? || a.work.Deallocate? || a.work.Release?)
    ensures var r, f := Do(s, a), a.work.f;
      && At(s, a.c, Inside) && r.spaces == s.spaces && r.leaked == s.leaked
      && r.free == (if a.work.Allocate? then s.free - {f} else s.free + {f})
      && (a.work.Allocate? ==> f in s.free && r.owned == s.owned + {f} && r.quarantine == s.quarantine)
      && (a.work.Deallocate? ==> f in s.owned && r.owned == s.owned - {f} && r.quarantine == s.quarantine)
      && (a.work.Release? ==> f in s.quarantine && r.owned == s.owned && r.quarantine == s.quarantine - {f})
  {
    hide DoEntry, DoLock, EnabledEntry, EnabledLock, Retired, Top;
  }

  lemma NewSpaceFields(s: State, a: Action)
    requires Enabled(s, a) && a.work.NewSpace?
    ensures var r := Do(s, a);
      && At(s, a.c, Inside) && a.work.s !in s.spaces && r.spaces == s.spaces[a.work.s := map[]] && r.free == s.free
      && r.owned == s.owned && r.quarantine == s.quarantine && r.leaked == s.leaked
  {
    hide DoEntry, DoLock, EnabledEntry, EnabledLock, Top;
  }

  lemma MapFields(s: State, a: Action)
    requires Enabled(s, a) && a.work.Map?
    ensures var r, w := Do(s, a), a.work;
      && At(s, a.c, Inside) && w.s in s.spaces && w.p !in s.spaces[w.s] && w.f in s.owned
      && r.spaces == s.spaces[w.s := Mapping(s.spaces[w.s], w.p, w.f)] && r.owned == s.owned - {w.f}
      && r.free == s.free && r.quarantine == s.quarantine && r.leaked == s.leaked
  {
    hide DoEntry, DoLock, EnabledEntry, EnabledLock, Top;
  }

  lemma DetachFields(s: State, a: Action)
    requires Enabled(s, a) && a.work.Detach?
    ensures var r, w := Do(s, a), a.work;
      && w.s in s.spaces && w.kept <= FramesOf(s.spaces[w.s]) && r.spaces == s.spaces - {w.s}
      && r.leaked == s.leaked + (FramesOf(s.spaces[w.s]) - w.kept)
      && r.free == s.free && r.owned == s.owned && r.quarantine == s.quarantine
  {
    hide DoEntry, DoLock, EnabledEntry, EnabledLock, Put, Advance, Top;
  }

  lemma PushFields(s: State, a: Action)
    requires Enabled(s, a) && a.work.Push?
    ensures IsCore(s, a.c)
    ensures var r, f, p := Do(s, a), a.work.f, Top(s.cores[a.c]).phase;
      && p.Bumped? && f in p.frames && r.spaces == s.spaces && r.free == s.free && r.owned == s.owned
      && (a.work.fits ==> r.quarantine == s.quarantine[f := p.stamp] && r.leaked == s.leaked)
      && (!a.work.fits ==> r.quarantine == s.quarantine && r.leaked == s.leaked + {f})
  {
    hide DoEntry, DoLock, EnabledEntry, EnabledLock, Put, Advance;
  }

  // ----- each keeps every frame in one place -----

  lemma FramesInside(s: State, a: Action, all: set<Frame>)
    requires Enabled(s, a) && LockInv(s) && FramesInv(s, all)
    requires (a.work.Allocate? || a.work.Deallocate? || a.work.Release?)
    ensures FramesInv(Do(s, a), all)
  {
    hide LockInv, Do, Enabled, FrameMapped, Live, OwnerPhase;
    InsideFields(s, a);
    OwnerPhaseStep(s, a);
    InsideIsOwner(s, a.c);
    SameMappings(s, Do(s, a));
  }

  /** Mappings after a new, empty space. */
  lemma NewSpaceMappings(s: State, r: State, sp: Space)
    requires sp !in s.spaces && r.spaces == s.spaces[sp := map[]]
    ensures forall t :: Live(r, t) <==> Live(s, t)
    ensures forall f :: FrameMapped(r, f) <==> FrameMapped(s, f)
  {
    forall f ensures FrameMapped(r, f) <==> FrameMapped(s, f) {
      if FrameMapped(s, f) {
        var sq, p :| sq in s.spaces && p in s.spaces[sq] && s.spaces[sq][p] == f;
        assert sq in r.spaces && p in r.spaces[sq] && r.spaces[sq][p] == f;
      }
    }
  }

  lemma FramesNewSpace(s: State, a: Action, all: set<Frame>)
    requires Enabled(s, a) && LockInv(s) && FramesInv(s, all) && a.work.NewSpace?
    ensures FramesInv(Do(s, a), all)
  {
    hide LockInv, Do, Enabled, FrameMapped, Live, OwnerPhase;
    NewSpaceFields(s, a);
    OwnerPhaseStep(s, a);
    NewSpaceMappings(s, Do(s, a), a.work.s);
  }

  /** Mappings after one more page. */
  lemma MapMappings(s: State, r: State, sp: Space, p: Page, f: Frame)
    requires sp in s.spaces && p !in s.spaces[sp] && r.spaces == s.spaces[sp := Mapping(s.spaces[sp], p, f)]
    ensures forall t :: Live(r, t) <==> Live(s, t) || t == Translation(sp, p, f)
    ensures forall g :: FrameMapped(r, g) <==> FrameMapped(s, g) || g == f
  {
    forall g ensures FrameMapped(r, g) <==> FrameMapped(s, g) || g == f {
      if FrameMapped(s, g) {
        var sq, q :| sq in s.spaces && q in s.spaces[sq] && s.spaces[sq][q] == g;
        assert sq in r.spaces && q in r.spaces[sq] && r.spaces[sq][q] == g;
      }
      if g == f { assert sp in r.spaces && p in r.spaces[sp] && r.spaces[sp][p] == f; }
    }
  }

  lemma FramesMap(s: State, a: Action, all: set<Frame>)
    requires Enabled(s, a) && LockInv(s) && FramesInv(s, all) && a.work.Map?
    ensures FramesInv(Do(s, a), all)
  {
    hide LockInv, Do, Enabled, FrameMapped, Live, OwnerPhase;
    MapFields(s, a);
    OwnerPhaseStep(s, a);
    var r := Do(s, a);
    MapMappings(s, r, a.work.s, a.work.p, a.work.f);
    forall t, u | Live(r, t) && Live(r, u) && t.frame == u.frame ensures t == u {
      if Live(s, t) { LiveIsMapped(s, t); }
      if Live(s, u) { LiveIsMapped(s, u); }
    }
  }

  lemma MappedOnce(s: State, t: Translation, u: Translation, all: set<Frame>)
    requires FramesInv(s, all) && Live(s, t) && t.space in s.spaces && t.space != u.space && u.frame == t.frame
    ensures !Live(s, u)
  {
  }

  /** Mappings after a space is gone: what it mapped is mapped nowhere else. */
  lemma DetachMappings(s: State, r: State, sp: Space, all: set<Frame>)
    requires FramesInv(s, all) && sp in s.spaces && r.spaces == s.spaces - {sp}
    ensures forall t :: Live(r, t) <==> Live(s, t) && t.space != sp
    ensures forall f :: FrameMapped(s, f) <==> FrameMapped(r, f) || f in FramesOf(s.spaces[sp])
    ensures forall f :: f in FramesOf(s.spaces[sp]) ==> !FrameMapped(r, f)
  {
    hide Pending;
    forall f ensures FrameMapped(s, f) <==> FrameMapped(r, f) || f in FramesOf(s.spaces[sp]) {
      if FrameMapped(s, f) {
        var sq, p :| sq in s.spaces && p in s.spaces[sq] && s.spaces[sq][p] == f;
        if sq != sp { assert sq in r.spaces && p in r.spaces[sq] && r.spaces[sq][p] == f; }
      }
    }
    forall f | f in FramesOf(s.spaces[sp]) ensures !FrameMapped(r, f) {
      var p :| p in s.spaces[sp] && s.spaces[sp][p] == f;
      assert Live(s, Translation(sp, p, f));
      if FrameMapped(r, f) {
        var sq, q :| sq in r.spaces && q in r.spaces[sq] && r.spaces[sq][q] == f;
        MappedOnce(s, Translation(sp, p, f), Translation(sq, q, f), all);
      }
    }
  }

  lemma FramesDetach(s: State, a: Action, all: set<Frame>)
    requires Enabled(s, a) && LockInv(s) && FramesInv(s, all) && a.work.Detach?
    ensures FramesInv(Do(s, a), all)
  {
    hide LockInv, Do, Enabled, FrameMapped, Live, OwnerPhase, FramesOf;
    DetachFields(s, a);
    OwnerPhaseStep(s, a);
    DetachMappings(s, Do(s, a), a.work.s, all);
    DetachPending(s, a);
  }

  lemma DetachPending(s: State, a: Action)
    requires Enabled(s, a) && LockInv(s) && a.work.Detach?
    ensures Pending(s) == {} && Pending(Do(s, a)) == a.work.kept
  {
    hide LockInv, Do;
    OwnerPhaseStep(s, a);
    InsideIsOwner(s, a.c);
  }

  lemma FramesPush(s: State, a: Action, all: set<Frame>)
    requires Enabled(s, a) && LockInv(s) && FramesInv(s, all) && a.work.Push?
    ensures FramesInv(Do(s, a), all)
  {
    hide LockInv, Do, Enabled, FrameMapped, Live, OwnerPhase;
    PushFields(s, a);
    SameMappings(s, Do(s, a));
    PushPending(s, a);
  }

  lemma PushPending(s: State, a: Action)
    requires Enabled(s, a) && LockInv(s) && a.work.Push?
    ensures a.work.f in Pending(s) && Pending(Do(s, a)) == Pending(s) - {a.work.f}
  {
    hide LockInv, Do;
    OwnerPhaseStep(s, a);
    PushFields(s, a);
  }

  lemma FramesStep(s: State, a: Action, all: set<Frame>)
    requires Enabled(s, a) && LockInv(s) && FramesInv(s, all)
    ensures FramesInv(Do(s, a), all)
  {
    hide LockInv, FramesInv, Do, Enabled;
    if !FrameAction(a) { FramesQuiet(s, a, all); }
    else if a.work.NewSpace? { FramesNewSpace(s, a, all); }
    else if a.work.Map? { FramesMap(s, a, all); }
    else if a.work.Detach? { FramesDetach(s, a, all); }
    else if a.work.Push? { FramesPush(s, a, all); }
    else { FramesInside(s, a, all); }
  }

  // ----- what the TLBs may hold -----

  /** Core `c` may still hold `t` although its mapping is gone: the frame is leaked, or it waits
      for a generation this core has not seen, or its retirement is still under way. */
  ghost predicate Stale(s: State, c: nat, t: Translation)
    requires c < |s.cores|
  {
    || t.frame in s.leaked
    || (t.frame in s.quarantine && s.cores[c].seen < s.quarantine[t.frame])
    || (OwnerPhase(s).Detached? && t.frame in OwnerPhase(s).frames)
    || (OwnerPhase(s).Bumped? && t.frame in OwnerPhase(s).frames && s.cores[c].seen < OwnerPhase(s).stamp)
  }

  /** Generations only run ahead of what the cores have seen, and the owner's local copy is the
      current one: nobody else can raise it. */
  ghost predicate GenInv(s: State) {
    && (forall c :: 0 <= c < |s.cores| ==> s.cores[c].seen <= s.generation)
    && (forall f :: f in s.quarantine ==> s.quarantine[f] <= s.generation)
    && (OwnerPhase(s).Loaded? ==> OwnerPhase(s).current == s.generation)
    && (OwnerPhase(s).Flushed? ==> OwnerPhase(s).current == s.generation)
    && (OwnerPhase(s).Entering? && s.owner.Some? && s.owner.value.0 < |s.cores| ==>
          s.cores[s.owner.value.0].seen == s.generation)
    && (OwnerPhase(s).Bumped? ==> OwnerPhase(s).stamp == s.generation)
  }

  ghost predicate TlbInv(s: State) {
    && (forall c, t :: 0 <= c < |s.cores| && t in s.cores[c].tlb ==> Live(s, t) || Stale(s, c, t))
    && (OwnerPhase(s).Flushed? && s.owner.Some? && s.owner.value.0 < |s.cores| ==>
          forall t :: t in s.cores[s.owner.value.0].tlb ==> Live(s, t))
  }

  lemma GenStep(s: State, a: Action)
    requires Enabled(s, a) && LockInv(s) && GenInv(s)
    ensures GenInv(Do(s, a))
  {
    hide LockInv, Holding, Shown, Counted;
    OwnerPhaseStep(s, a);
    SeenStep(s, a);
    CountersStep(s, a);
    GenFrom(s, a, Do(s, a));
  }

  /** The same from the collected facts. */
  lemma GenFrom(s: State, a: Action, r: State)
    requires Enabled(s, a) && GenInv(s) && r == Do(s, a) && LockInv(s)
    requires OwnerAction(a) ==>
      && OwnerPhase(r) == NewPhase(s, a) && s.owner == Some(TopAt(s, a.c)) && OwnerPhase(s) == Top(s.cores[a.c]).phase
      && r.owner == s.owner
    requires a.work.ClearHeld? ==> OwnerPhase(r) == Running
    requires a.work.Swap? && !s.held ==> OwnerPhase(r) == Won
    requires !OwnerAction(a) && !a.work.ClearHeld? && !(a.work.Swap? && !s.held) ==>
      OwnerPhase(r) == OwnerPhase(s) && r.owner == s.owner
    requires |r.cores| >= |s.cores| && forall c :: 0 <= c < |s.cores| ==> r.cores[c].seen == SeenAfter(s, a, c)
    requires forall c :: |s.cores| <= c < |r.cores| ==> r.cores[c].seen == 0
    requires r.generation == (if a.work.Bump? then s.generation + 1 else s.generation)
    requires forall f :: f in r.quarantine ==>
      || (f in s.quarantine && r.quarantine[f] == s.quarantine[f])
      || (a.work.Push? && f == a.work.f && r.quarantine[f] == Top(s.cores[a.c]).phase.stamp)
    ensures GenInv(r)
  {
    hide Do, Holding, Shown, Counted, OwnerPhase;
  }

  function SeenAfter(s: State, a: Action, c: nat): nat
    requires Enabled(s, a) && c < |s.cores|
  {
    if a.work.StoreSeen? && a.c == c then Top(s.cores[c]).phase.current else s.cores[c].seen
  }

  /** `seen` changes only where the source stores it; a core that starts has seen nothing and
      holds nothing. */
  lemma SeenStep(s: State, a: Action)
    requires Enabled(s, a)
    ensures |Do(s, a).cores| >= |s.cores|
    ensures forall c :: 0 <= c < |s.cores| ==> Do(s, a).cores[c].seen == SeenAfter(s, a, c)
    ensures forall c :: |s.cores| <= c < |Do(s, a).cores| ==> Do(s, a).cores[c].seen == 0 && Do(s, a).cores[c].tlb == {}
  {
    if !a.work.StartCore? {
      OthersSame(s, a);
      OwnSeen(s, a);
    }
  }

  lemma OwnSeen(s: State, a: Action)
    requires Enabled(s, a) && !a.work.StartCore?
    ensures a.c < |s.cores| == |Do(s, a).cores| && Do(s, a).cores[a.c].seen == SeenAfter(s, a, a.c)
  {
    hide To, WithTop, Put, Advance;
    if IsEntry(a) {
      hide DoLock, DoMemory, EnabledLock, EnabledMemory;
      assert Do(s, a) == DoEntry(s, a);
    } else if IsLock(a) {
      hide DoEntry, DoMemory, EnabledEntry, EnabledMemory;
      assert Do(s, a) == DoLock(s, a);
    } else {
      hide DoEntry, DoLock, EnabledEntry, EnabledLock;
      assert Do(s, a) == DoMemory(s, a);
    }
  }

  lemma CountersStep(s: State, a: Action)
    requires Enabled(s, a)
    ensures Do(s, a).generation == (if a.work.Bump? then s.generation + 1 else s.generation)
    ensures forall f :: f in Do(s, a).quarantine ==>
      || (f in s.quarantine && Do(s, a).quarantine[f] == s.quarantine[f])
      || (a.work.Push? && f == a.work.f && Do(s, a).quarantine[f] == Top(s.cores[a.c]).phase.stamp)
  {
    GenerationStep(s, a);
    hide Do, Enabled;
    if a.work.Push? {
      PushFields(s, a);
    } else if a.work.Release? {
      InsideFields(s, a);
    } else {
      QuarantineQuiet(s, a);
    }
  }

  lemma GenerationStep(s: State, a: Action)
    requires Enabled(s, a)
    ensures Do(s, a).generation == (if a.work.Bump? then s.generation + 1 else s.generation)
  {
    hide DoEntry, DoLock, EnabledEntry, EnabledLock, To, WithTop, Put, Advance, Retired;
  }

  lemma QuarantineQuiet(s: State, a: Action)
    requires Enabled(s, a) && !a.work.Push? && !a.work.Release?
    ensures Do(s, a).quarantine == s.quarantine
  {
    hide DoEntry, DoLock, EnabledEntry, EnabledLock, To, WithTop, Put, Advance, Retired;
  }

  lemma TlbsStep(s: State, a: Action)
    requires Enabled(s, a)
    ensures |Do(s, a).cores| >= |s.cores|
    ensures forall c, t :: 0 <= c < |s.cores| && t in Do(s, a).cores[c].tlb ==>
      t in s.cores[c].tlb || (a.work.Fill? && Live(s, t))
    ensures a.work.Flush? ==> a.c < |s.cores| && Do(s, a).cores[a.c].tlb == {}
  {
    if !a.work.StartCore? {
      OthersSame(s, a);
      OwnTlb(s, a);
      hide Do, Enabled, Live;
    }
  }

  lemma OwnTlb(s: State, a: Action)
    requires Enabled(s, a) && !a.work.StartCore?
    ensures a.c < |s.cores| == |Do(s, a).cores|
    ensures forall t :: t in Do(s, a).cores[a.c].tlb ==> t in s.cores[a.c].tlb || (a.work.Fill? && Live(s, t))
    ensures a.work.Flush? ==> Do(s, a).cores[a.c].tlb == {}
  {
    hide To, WithTop, Put, Advance, Live;
    if IsEntry(a) {
      hide DoLock, DoMemory, EnabledLock, EnabledMemory;
      assert Do(s, a) == DoEntry(s, a);
    } else if IsLock(a) {
      hide DoEntry, DoMemory, EnabledEntry, EnabledMemory;
      assert Do(s, a) == DoLock(s, a);
    } else {
      hide DoEntry, DoLock, EnabledEntry, EnabledLock;
      assert Do(s, a) == DoMemory(s, a);
    }
  }

  /** What becomes of a live mapping in one step. */
  lemma LiveStep(s: State, a: Action, t: Translation)
    requires Enabled(s, a) && Live(s, t)
    ensures
      || Live(Do(s, a), t)
      || (a.work.Detach? && t.space == a.work.s && (t.frame in a.work.kept || t.frame in Do(s, a).leaked))
  {
    hide Do, Enabled;
    if !FrameAction(a) { FieldsQuiet(s, a); }
    else if a.work.NewSpace? { NewSpaceFields(s, a); }
    else if a.work.Map? { MapFields(s, a); }
    else if a.work.Push? { PushFields(s, a); }
    else if !a.work.Detach? { InsideFields(s, a); }
    else {
      DetachFields(s, a);
      if t.space == a.work.s { assert t.frame in FramesOf(s.spaces[t.space]); }
    }
  }

  lemma LeakedStep(s: State, a: Action)
    requires Enabled(s, a)
    ensures s.leaked <= Do(s, a).leaked
    ensures forall f :: f in s.quarantine && !(a.work.Release? && a.work.f == f) && !(a.work.Push? && a.work.f == f) ==>
      f in Do(s, a).quarantine && Do(s, a).quarantine[f] == s.quarantine[f]
    ensures a.work.Push? ==>
      || (a.work.f in Do(s, a).quarantine && Do(s, a).quarantine[a.work.f] == Top(s.cores[a.c]).phase.stamp)
      || a.work.f in Do(s, a).leaked
  {
    hide Do, Enabled;
    if !FrameAction(a) { FieldsQuiet(s, a); }
    else if a.work.NewSpace? { NewSpaceFields(s, a); }
    else if a.work.Map? { MapFields(s, a); }
    else if a.work.Detach? { DetachFields(s, a); }
    else if a.work.Push? { PushFields(s, a); }
    else { InsideFields(s, a); }
  }

  /** A stale translation stays accounted for, unless the step flushes it or releases its frame,
      which only happens once this core has seen its generation. */
  lemma StaleStep(s: State, a: Action, c: nat, t: Translation, all: set<Frame>)
    requires Enabled(s, a) && LockInv(s) && GenInv(s) && FramesInv(s, all) && c < |s.cores| && Stale(s, c, t)
    requires !(a.work.StoreSeen? && a.c == c)
    ensures c < |Do(s, a).cores| && Stale(Do(s, a), c, t)
  {
    hide Do, LockInv, Holding, Shown, Counted, OwnerPhase, FrameMapped, Live;
    OwnerPhaseStep(s, a);
    SeenStep(s, a);
    LeakedStep(s, a);
    var r := Do(s, a);
    assert r.cores[c].seen == s.cores[c].seen;
    if t.frame in s.leaked {
    } else if t.frame in s.quarantine && s.cores[c].seen < s.quarantine[t.frame] {
      if a.work.Release? && a.work.f == t.frame { NotYetRetired(s, c, s.quarantine[t.frame]); }
      if a.work.Push? { PushedIsPending(s, a, all); }
    } else if a.work.Bump? {
    }
  }

  lemma NotYetRetired(s: State, c: nat, g: nat)
    requires c < |s.cores| && s.cores[c].seen < g
    ensures !Retired(s, g)
  {
  }

  lemma PushedIsPending(s: State, a: Action, all: set<Frame>)
    requires Enabled(s, a) && a.work.Push? && LockInv(s) && FramesInv(s, all)
    ensures a.work.f in Pending(s) && a.work.f !in s.quarantine
  {
    OwnerPhaseStep(s, a);
  }

  lemma TlbStep(s: State, a: Action, all: set<Frame>)
    requires Enabled(s, a) && LockInv(s) && GenInv(s) && FramesInv(s, all) && TlbInv(s)
    ensures TlbInv(Do(s, a))
  {
    hide Do, LockInv, Holding, Shown, Counted, OwnerPhase, FrameMapped, Live, FramesInv, GenInv, Stale;
    OwnerPhaseStep(s, a);
    SeenStep(s, a);
    TlbsStep(s, a);
    var r := Do(s, a);
    forall c, t | 0 <= c < |r.cores| && t in r.cores[c].tlb
      ensures Live(r, t) || Stale(r, c, t)
    {
      assert c < |s.cores|;
      if Live(s, t) {
        LiveStep(s, a, t);
        DetachedIsStale(s, a, c, t);
      } else {
        assert Stale(s, c, t);
        if a.work.StoreSeen? && a.c == c { StoreSeenClean(s, c, t); }
        StaleStep(s, a, c, t, all);
      }
    }
    FlushedStep(s, a);
  }

  /** When a core stores the generation it has seen, its TLB holds nothing but live mappings. */
  lemma StoreSeenClean(s: State, c: nat, t: Translation)
    requires Enabled(s, Act(c, StoreSeen)) && LockInv(s) && TlbInv(s) && t in s.cores[c].tlb
    ensures Live(s, t)
  {
    OwnerIs(s, c);
  }

  lemma DetachedIsStale(s: State, a: Action, c: nat, t: Translation)
    requires Enabled(s, a) && LockInv(s) && c < |s.cores|
    requires (Live(Do(s, a), t) || (a.work.Detach? && (t.frame in a.work.kept || t.frame in Do(s, a).leaked)))
    ensures c < |Do(s, a).cores| && (Live(Do(s, a), t) || Stale(Do(s, a), c, t))
  {
    hide Do, LockInv, Holding, Shown, Counted, OwnerPhase, Live;
    OwnerPhaseStep(s, a);
    SeenStep(s, a);
  }

  lemma FlushedStep(s: State, a: Action)
    requires Enabled(s, a) && LockInv(s) && TlbInv(s)
    ensures var r := Do(s, a); OwnerPhase(r).Flushed? && r.owner.Some? && r.owner.value.0 < |r.cores| ==>
        forall t :: t in r.cores[r.owner.value.0].tlb ==> Live(r, t)
  {
    hide Do, LockInv, Holding, Shown, Counted, OwnerPhase, Live, Stale;
    OwnerPhaseStep(s, a);
    TlbsStep(s, a);
    SeenStep(s, a);
    var r := Do(s, a);
    if OwnerPhase(r).Flushed? && r.owner.Some? && r.owner.value.0 < |r.cores| {
      var c := r.owner.value.0;
      if !a.work.Flush? {
        assert OwnerPhase(s) == OwnerPhase(r) && s.owner == r.owner;
        OwnerInRange(s);
        forall t | t in r.cores[c].tlb ensures Live(r, t) {
          assert Live(s, t);
          LiveStep(s, a, t);
        }
      }
    }
  }

  lemma OwnerInRange(s: State)
    requires LockInv(s) && s.owner.Some?
    ensures s.owner.value.0 < |s.cores|
  {
  }
}
