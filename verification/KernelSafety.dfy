/** What holds in every state the machine can reach. */
module KernelSafety {
  import opened Wrappers
  import opened KernelMachine

  // ----- the lock -----

  /** Phases between winning the swap and clearing the flag. */
  predicate Holding(p: Phase) {
    p.Won? || p.Unnamed? || Shown(p)
  }

  /** Phases in which `holder_cpu` names this core. */
  predicate Shown(p: Phase) {
    p.Named? || p.Loaded? || p.Flushed? || p.Entering? || p.Uncounted? || Counted(p)
  }

  /** Phases that are part of the in-section count. */
  predicate Counted(p: Phase) {
    p.Inside? || p.Detached? || p.Bumped?
  }

  /** Phases in which the guard keeps interrupts masked. */
  predicate Masked(p: Phase) {
    p.Spinning? || p.Lost? || p.Halted? || p.Unheld? || Holding(p)
  }

  predicate Entry(s: State, e: (nat, nat)) {
    e.0 < |s.cores| && e.1 < |s.cores[e.0].stack|
  }

  function PhaseAt(s: State, e: (nat, nat)): Phase
    requires Entry(s, e)
  {
    s.cores[e.0].stack[e.1].phase
  }

  function OwnerPhase(s: State): Phase {
    if s.owner.Some? && Entry(s, s.owner.value) then PhaseAt(s, s.owner.value) else Running
  }

  /** The flag, the diagnostic holder and the counter tell the truth about the one owner. */
  ghost predicate LockInv(s: State) {
    && (s.held <==> s.owner.Some?)
    && (s.owner.Some? ==> Entry(s, s.owner.value) && Holding(PhaseAt(s, s.owner.value)))
    && (forall e: (nat, nat) :: Entry(s, e) && Holding(PhaseAt(s, e)) ==> s.owner == Some(e))
    && s.holder == (if Shown(OwnerPhase(s)) then Some(s.owner.value.0) else None)
    && s.inSection == (if Counted(OwnerPhase(s)) then 1 else 0)
  }

  // ----- interrupts -----

  /** IF while entry `i` runs: now if it is the top, else when the entry above it began. */
  function Here(core: Core, i: nat): bool
    requires i < |core.stack|
  {
    if i == |core.stack| - 1 then core.flag else core.stack[i + 1].outer
  }

  predicate ContextOk(core: Core, i: nat)
    requires i < |core.stack|
  {
    var x := core.stack[i];
    && (i == 0 <==> x.phase.Running?)
    && (x.irq ==> x.outer)
    && (x.phase.Called? ==> Here(core, i) == (x.outer && !x.irq))
    && (Masked(x.phase) ==> !Here(core, i) && x.saved == (x.outer && !x.irq))
    && (x.phase.Returning? ==> Here(core, i) == x.saved == (x.outer && !x.irq))
    && (0 < i < |core.stack| - 1 ==> x.phase.Called? || x.phase.Inside? || x.phase.Returning?)
  }

  /** Above a masked entry interrupts stay masked. */
  ghost predicate FlagInv(core: Core) {
    && |core.stack| > 0
    && (forall i :: 0 <= i < |core.stack| ==> ContextOk(core, i))
    && (forall i :: 0 <= i < |core.stack| && Masked(core.stack[i].phase) ==> !core.flag)
    && (forall i, j :: 0 <= i < j < |core.stack| && Masked(core.stack[i].phase) ==> !core.stack[j].outer)
  }

  ghost predicate FlagsInv(s: State) {
    forall c :: 0 <= c < |s.cores| ==> FlagInv(s.cores[c])
  }

  // ----- the lock, step by step -----

  /** Nothing of the lock's state changed, and the stacks agree but for a top entry that holds
      nothing before or after. */
  ghost predicate QuietAt(s: State, r: State, c: nat) {
    && c < |s.cores| && |r.cores| >= |s.cores|
    && r.held == s.held && r.holder == s.holder && r.inSection == s.inSection && r.owner == s.owner
    && (forall e: (nat, nat) :: Entry(s, e) && e.0 != c ==> Entry(r, e) && PhaseAt(r, e) == PhaseAt(s, e))
    && (forall e: (nat, nat) :: Entry(r, e) && e.0 != c ==>
          (Entry(s, e) && PhaseAt(r, e) == PhaseAt(s, e)) || !Holding(PhaseAt(r, e)))
    && (forall i: nat :: i < |s.cores[c].stack| ==>
          (Entry(r, (c, i)) && PhaseAt(r, (c, i)) == PhaseAt(s, (c, i))) || !Holding(PhaseAt(s, (c, i))))
    && (forall i: nat :: i < |r.cores[c].stack| ==>
          (Entry(s, (c, i)) && PhaseAt(r, (c, i)) == PhaseAt(s, (c, i))) || !Holding(PhaseAt(r, (c, i))))
  }

  lemma QuietLock(s: State, r: State, c: nat)
    requires LockInv(s) && QuietAt(s, r, c)
    ensures LockInv(r) && OwnerPhase(r) == OwnerPhase(s)
  {
    if s.owner.Some? {
      var e := s.owner.value;
      if e.0 == c { assert e.1 < |s.cores[c].stack|; }
    }
    forall e: (nat, nat) | Entry(r, e) && Holding(PhaseAt(r, e)) ensures s.owner == Some(e) {
      if e.0 == c { assert e.1 < |r.cores[c].stack|; }
    }
  }

  /** The owner's own entry moves from one holding phase to another. */
  ghost predicate OwnerMoves(s: State, r: State, c: nat, phase: Phase) {
    && IsCore(s, c) && c < |r.cores| && Holding(Top(s.cores[c]).phase) && Holding(phase)
    && r.cores == s.cores[c := r.cores[c]]
    && r.cores[c].stack == s.cores[c].stack[..|s.cores[c].stack| - 1] + [Top(s.cores[c]).(phase := phase)]
    && r.held == s.held && r.owner == s.owner
    && r.holder == (if Shown(phase) then Some(c) else None) && r.inSection == (if Counted(phase) then 1 else 0)
  }

  lemma OwnerIs(s: State, c: nat)
    requires LockInv(s) && IsCore(s, c) && Holding(Top(s.cores[c]).phase)
    ensures s.owner == Some(TopAt(s, c)) && OwnerPhase(s) == Top(s.cores[c]).phase
  {
    assert Entry(s, TopAt(s, c));
  }

  lemma OwnerMoved(s: State, r: State, c: nat, phase: Phase)
    requires LockInv(s) && c < |s.cores| == |r.cores| && OwnerMoves(s, r, c, phase)
    ensures LockInv(r) && OwnerPhase(r) == phase
  {
    OwnerIs(s, c);
    var e := TopAt(s, c);
    assert Entry(r, e) && PhaseAt(r, e) == phase;
    forall d: (nat, nat) | Entry(r, d) && d != e ensures Entry(s, d) && PhaseAt(s, d) == PhaseAt(r, d) { }
  }

  predicate OwnerAction(a: Action) {
    || a.work.StoreHolder? || a.work.LoadGeneration? || a.work.Flush? || a.work.StoreSeen? || a.work.Count?
    || a.work.Uncount? || a.work.ClearHolder? || a.work.Detach? || a.work.Bump? || a.work.Push? || a.work.EndRetire?
  }

  /** The lock's fields after a step of the owner. */
  lemma LockFields(s: State, a: Action)
    requires Enabled(s, a) && OwnerAction(a)
    ensures var r := Do(s, a);
      && r.held == s.held && r.owner == s.owner
      && r.holder == (if a.work.StoreHolder? then Some(a.c) else if a.work.ClearHolder? then None else s.holder)
      && r.inSection
          == (if a.work.Count? then s.inSection + 1 else if a.work.Uncount? then s.inSection - 1 else s.inSection)
  {
    hide DoEntry, DoMemory, EnabledEntry, EnabledMemory, To, WithTop, Put, Advance, Top;
  }

  lemma OwnerCores(s: State, a: Action)
    requires Enabled(s, a) && OwnerAction(a) && IsCore(s, a.c) && |Do(s, a).cores| == |s.cores|
    requires forall d :: 0 <= d < |s.cores| && d != a.c ==> Do(s, a).cores[d] == s.cores[d]
    ensures Do(s, a).cores == s.cores[a.c := Do(s, a).cores[a.c]]
  {
    hide Do, Enabled;
  }

  lemma LockOwnerStep(s: State, a: Action)
    requires Enabled(s, a) && LockInv(s) && OwnerAction(a)
    ensures LockInv(Do(s, a)) && Holding(Top(s.cores[a.c]).phase) && Do(s, a).owner == s.owner
    ensures IsCore(Do(s, a), a.c) && OwnerPhase(Do(s, a)) == Top(Do(s, a).cores[a.c]).phase
  {
    hide Do;
    OwnerIs(s, a.c);
    TopMoves(s, a);
    OthersSame(s, a);
    LockFields(s, a);
    OwnerCores(s, a);
    OwnerMoved(s, Do(s, a), a.c, NewPhase(s, a));
  }

  lemma WinStep(s: State, c: nat)
    requires Enabled(s, Act(c, Swap)) && LockInv(s) && !s.held
    ensures LockInv(Do(s, Act(c, Swap)))
  {
    hide DoEntry, DoMemory, EnabledEntry, EnabledMemory;
    var r := Do(s, Act(c, Swap));
    var e := TopAt(s, c);
    assert Entry(r, e) && PhaseAt(r, e) == Won;
    forall d: (nat, nat) | Entry(r, d) && d != e ensures Entry(s, d) && PhaseAt(s, d) == PhaseAt(r, d) { }
  }

  lemma ClearStep(s: State, c: nat)
    requires Enabled(s, Act(c, ClearHeld)) && LockInv(s)
    ensures LockInv(Do(s, Act(c, ClearHeld))) && s.owner == Some(TopAt(s, c))
  {
    hide DoEntry, DoMemory, EnabledEntry, EnabledMemory;
    OwnerIs(s, c);
    var r := Do(s, Act(c, ClearHeld));
    forall d: (nat, nat) | Entry(r, d) && d != TopAt(s, c) ensures Entry(s, d) && PhaseAt(s, d) == PhaseAt(r, d) { }
  }

  lemma {:induction false} LockStep(s: State, a: Action)
    requires Enabled(s, a) && LockInv(s)
    ensures LockInv(Do(s, a))
  {
    if OwnerAction(a) {
      LockOwnerStep(s, a);
    } else if a.work.ClearHeld? {
      ClearStep(s, a.c);
    } else if a.work.Swap? && !s.held {
      WinStep(s, a.c);
    } else if a.work.StartCore? {
      StartQuiet(s, a.c);
    } else {
      hide LockInv;
      OtherQuiet(s, a);
      QuietLock(s, Do(s, a), a.c);
    }
  }

  lemma StartQuiet(s: State, c: nat)
    requires LockInv(s)
    ensures LockInv(Do(s, Act(c, StartCore))) && OwnerPhase(Do(s, Act(c, StartCore))) == OwnerPhase(s)
  {
    var r := Do(s, Act(c, StartCore));
    forall d: (nat, nat) | Entry(r, d) && Holding(PhaseAt(r, d)) ensures Entry(s, d) && PhaseAt(s, d) == PhaseAt(r, d) {
    }
    if s.owner.Some? { assert PhaseAt(r, s.owner.value) == PhaseAt(s, s.owner.value); }
  }

  /** The lock's own fields and all cores but `c` are the same. */
  ghost predicate Beside(s: State, r: State, c: nat) {
    && c < |s.cores| && |r.cores| == |s.cores|
    && r.held == s.held && r.holder == s.holder && r.inSection == s.inSection && r.owner == s.owner
    && forall d :: 0 <= d < |s.cores| && d != c ==> r.cores[d] == s.cores[d]
  }

  /** All entries below the top ones are the same, and the top ones hold nothing, or all are. */
  lemma QuietShape(s: State, r: State, c: nat, n: nat)
    requires Beside(s, r, c) && n <= |s.cores[c].stack| <= n + 1 && n <= |r.cores[c].stack| <= n + 1
    requires forall i :: 0 <= i < n ==> r.cores[c].stack[i].phase == s.cores[c].stack[i].phase
    requires n < |s.cores[c].stack| ==> !Holding(s.cores[c].stack[n].phase)
    requires n < |r.cores[c].stack| ==> !Holding(r.cores[c].stack[n].phase)
    ensures QuietAt(s, r, c)
  {
    forall i: nat | i < |s.cores[c].stack|
      ensures (Entry(r, (c, i)) && PhaseAt(r, (c, i)) == PhaseAt(s, (c, i))) || !Holding(PhaseAt(s, (c, i)))
    {
      if i < n { assert Entry(r, (c, i)); }
    }
    forall i: nat | i < |r.cores[c].stack|
      ensures (Entry(s, (c, i)) && PhaseAt(r, (c, i)) == PhaseAt(s, (c, i))) || !Holding(PhaseAt(r, (c, i)))
    {
      if i < n { assert Entry(s, (c, i)); }
    }
  }

  lemma EntryQuiet(s: State, a: Action)
    requires Enabled(s, a) && IsEntry(a)
    ensures a.c < |s.cores| && QuietAt(s, Do(s, a), a.c)
  {
    hide QuietAt, Put, DoLock, DoMemory, EnabledLock, EnabledMemory;
    var n := |s.cores[a.c].stack|;
    QuietShape(s, Do(s, a), a.c, if a.work.Cli? || a.work.Restore? || a.work.Return? then n - 1 else n);
  }

  lemma SpinQuiet(s: State, a: Action)
    requires Enabled(s, a) && ((a.work.Swap? && s.held) || a.work.LoadHolder?)
    ensures a.c < |s.cores| && QuietAt(s, Do(s, a), a.c)
  {
    hide QuietAt, Put, Advance, DoEntry, DoMemory, EnabledEntry, EnabledMemory;
    QuietShape(s, Do(s, a), a.c, |s.cores[a.c].stack| - 1);
  }

  lemma MemoryQuiet(s: State, a: Action)
    requires Enabled(s, a) && !IsEntry(a) && !IsLock(a) && !OwnerAction(a) && !a.work.StartCore?
    ensures a.c < |s.cores| && QuietAt(s, Do(s, a), a.c)
  {
    hide QuietAt, Put, Advance, DoEntry, DoLock, EnabledEntry, EnabledLock, Top, Retired;
    QuietShape(s, Do(s, a), a.c, |s.cores[a.c].stack|);
  }

  lemma OtherQuiet(s: State, a: Action)
    requires Enabled(s, a) && !OwnerAction(a) && !a.work.ClearHeld? && !(a.work.Swap? && !s.held) && !a.work.StartCore?
    ensures a.c < |s.cores| && QuietAt(s, Do(s, a), a.c)
  {
    hide QuietAt, Do, Enabled;
    if IsEntry(a) { EntryQuiet(s, a); } else if IsLock(a) { SpinQuiet(s, a); } else { MemoryQuiet(s, a); }
  }

  // ----- interrupts, step by step -----

  /** A masked entry moves on and stays masked. */
  lemma MaskedMove(core: Core, r: Core, phase: Phase)
    requires FlagInv(core) && Masked(Top(core).phase) && Masked(phase)
    requires r.stack == To(core, phase).stack && r.flag == core.flag
    ensures FlagInv(r)
  {
    var n := |core.stack| - 1;
    assert forall i :: 0 <= i < n ==> r.stack[i] == core.stack[i];
    forall i | 0 <= i < |r.stack| ensures ContextOk(r, i) { assert ContextOk(core, i); }
  }

  lemma PushedOk(core: Core, r: Core, irq: bool)
    requires FlagInv(core) && (Interruptible(Top(core).phase) || Top(core).phase.Inside?)
    requires r.stack == core.stack + [Context(Called, irq, core.flag, false)] && r.flag == (core.flag && !irq)
    requires (irq ==> core.flag)
    ensures FlagInv(r)
  {
    var n := |core.stack|;
    forall i | 0 <= i < |r.stack| ensures ContextOk(r, i) {
      if i < n { assert ContextOk(core, i); }
    }
  }

  lemma CliOk(core: Core, r: Core)
    requires FlagInv(core) && Top(core).phase.Called?
    requires r.stack == WithTop(core, Top(core).(phase := Spinning, saved := core.flag)).stack && !r.flag
    ensures FlagInv(r)
  {
    var n := |core.stack| - 1;
    assert ContextOk(core, n);
    assert forall i :: 0 <= i < n ==> r.stack[i] == core.stack[i];
    forall i | 0 <= i < |r.stack| ensures ContextOk(r, i) { assert ContextOk(core, i); }
  }

  lemma RestoreOk(core: Core, r: Core)
    requires FlagInv(core) && Top(core).phase.Unheld?
    requires r.stack == To(core, Returning).stack && r.flag == Top(core).saved
    ensures FlagInv(r)
  {
    var n := |core.stack| - 1;
    assert ContextOk(core, n);
    assert forall i :: 0 <= i < n ==> r.stack[i] == core.stack[i];
    forall i | 0 <= i < |r.stack| ensures ContextOk(r, i) { assert ContextOk(core, i); }
  }

  /** Returning from an entry puts IF back to what it was when the entry began. */
  lemma ReturnRestores(core: Core)
    requires FlagInv(core) && Top(core).phase.Returning?
    ensures (if Top(core).irq then Top(core).outer else core.flag) == Top(core).outer
    ensures |core.stack| > 1
  {
    assert ContextOk(core, |core.stack| - 1);
  }

  lemma PoppedOk(core: Core, r: Core)
    requires FlagInv(core) && Top(core).phase.Returning? && r.stack == Popped(core).stack && r.flag == Top(core).outer
    ensures FlagInv(r)
  {
    var n := |core.stack| - 1;
    ReturnRestores(core);
    assert r.stack[n - 1] == core.stack[n - 1];
    assert ContextOk(core, n);
    forall i | 0 <= i < |r.stack| ensures ContextOk(r, i) { assert ContextOk(core, i); }
  }

  lemma SetFlagOk(core: Core, r: Core)
    requires FlagInv(core) && Top(core).phase.Running? && r.stack == core.stack
    ensures FlagInv(r)
  {
    assert ContextOk(core, |core.stack| - 1);
    assert |core.stack| == 1;
  }

  lemma FlagStep(s: State, a: Action)
    requires Enabled(s, a) && FlagsInv(s)
    ensures FlagsInv(Do(s, a))
  {
    hide FlagInv;
    var r := Do(s, a);
    if a.work.StartCore? {
      StartedOk(r.cores[|s.cores|]);
    } else {
      var c := a.c;
      assert FlagInv(s.cores[c]);
      OthersSame(s, a);
      if OwnerAction(a) || IsLock(a) { MaskedActionStep(s, a); } else { FlagCoreStep(s, a); }
      forall d | 0 <= d < |r.cores| && d != c ensures FlagInv(r.cores[d]) { assert r.cores[d] == s.cores[d]; }
    }
  }

  lemma StartedOk(core: Core)
    requires core.stack == [Context(Running, false, false, false)]
    ensures FlagInv(core)
  {
  }

  lemma SameFlags(core: Core, r: Core)
    requires FlagInv(core) && r.stack == core.stack && r.flag == core.flag
    ensures FlagInv(r)
  {
    forall i | 0 <= i < |r.stack| ensures ContextOk(r, i) { assert ContextOk(core, i); }
  }

  lemma FlagCoreStep(s: State, a: Action)
    requires Enabled(s, a) && !a.work.StartCore? && !OwnerAction(a) && !IsLock(a) && FlagInv(s.cores[a.c])
    ensures a.c < |Do(s, a).cores| && FlagInv(Do(s, a).cores[a.c])
  {
    hide FlagInv;
    if IsEntry(a) {
      FlagEntryStep(s, a);
    } else {
      hide DoEntry, DoLock, EnabledEntry, EnabledLock, Put, Advance, Retired, Live;
      SameFlags(s.cores[a.c], Do(s, a).cores[a.c]);
    }
  }

  lemma FlagEntryStep(s: State, a: Action)
    requires Enabled(s, a) && IsEntry(a) && FlagInv(s.cores[a.c])
    ensures a.c < |Do(s, a).cores| && FlagInv(Do(s, a).cores[a.c])
  {
    hide FlagInv, DoLock, DoMemory, EnabledLock, EnabledMemory, Put;
    var core, r := s.cores[a.c], Do(s, a).cores[a.c];
    match a.work
    case SetFlag(_) => SetFlagOk(core, r);
    case Call => PushedOk(core, r, false);
    case Reenter => PushedOk(core, r, false);
    case Interrupt => PushedOk(core, r, true);
    case Cli => CliOk(core, r);
    case Restore => RestoreOk(core, r);
    case Return => ReturnRestores(core); PoppedOk(core, r);
  }

  /** Where the top entry of the acting core goes. */
  function NewPhase(s: State, a: Action): Phase
    requires Enabled(s, a) && (IsLock(a) || OwnerAction(a))
  {
    var p := Top(s.cores[a.c]).phase;
    var c := a.c;
    match a.work
    case Swap => if !s.held then Won else Lost
    case LoadHolder => if s.holder == Some(c) then Halted else Spinning
    case StoreHolder => Named
    case LoadGeneration => if s.cores[c].seen == s.generation then Entering else Loaded(s.generation)
    case Flush => Flushed(p.current)
    case StoreSeen => Entering
    case Count => Inside
    case Uncount => Uncounted
    case ClearHolder => Unnamed
    case ClearHeld => Unheld
    case Detach(_, kept) => Detached(kept)
    case Bump => Bumped(p.frames, s.generation + 1)
    case Push(f, _) => Bumped(p.frames - {f}, p.stamp)
    case EndRetire => Inside
  }

  lemma TopMovesLock(s: State, a: Action)
    requires Enabled(s, a) && IsLock(a)
    ensures IsCore(s, a.c) && a.c < |Do(s, a).cores|
    ensures var core, r := s.cores[a.c], Do(s, a).cores[a.c];
      r.stack == To(core, NewPhase(s, a)).stack && r.flag == core.flag
    ensures Masked(Top(s.cores[a.c]).phase) && Masked(NewPhase(s, a))
  {
    var core := s.cores[a.c];
    assert To(core, Top(core).phase).stack == core.stack;
    hide To, WithTop, Put, Advance, DoEntry, EnabledEntry, DoMemory, EnabledMemory;
  }

  lemma TopMovesMemory(s: State, a: Action)
    requires Enabled(s, a) && !IsEntry(a) && !IsLock(a) && OwnerAction(a)
    ensures IsCore(s, a.c) && a.c < |Do(s, a).cores|
    ensures var core, r := s.cores[a.c], Do(s, a).cores[a.c];
      r.stack == To(core, NewPhase(s, a)).stack && r.flag == core.flag
    ensures Masked(Top(s.cores[a.c]).phase) && Masked(NewPhase(s, a))
  {
    hide To, WithTop, Put, Advance, DoEntry, EnabledEntry, DoLock, EnabledLock;
  }

  lemma TopMoves(s: State, a: Action)
    requires Enabled(s, a) && (OwnerAction(a) || IsLock(a))
    ensures IsCore(s, a.c) && a.c < |Do(s, a).cores|
    ensures var core, r := s.cores[a.c], Do(s, a).cores[a.c];
      r.stack == To(core, NewPhase(s, a)).stack && r.flag == core.flag
    ensures Masked(Top(s.cores[a.c]).phase) && Masked(NewPhase(s, a))
  {
    hide Do, Enabled, NewPhase, Masked;
    if IsLock(a) { TopMovesLock(s, a); } else { TopMovesMemory(s, a); }
  }

  lemma MaskedActionStep(s: State, a: Action)
    requires Enabled(s, a) && (OwnerAction(a) || IsLock(a)) && FlagInv(s.cores[a.c])
    ensures a.c < |Do(s, a).cores| && FlagInv(Do(s, a).cores[a.c])
  {
    hide FlagInv, Do, Enabled, NewPhase;
    TopMoves(s, a);
    MaskedMove(s.cores[a.c], Do(s, a).cores[a.c], NewPhase(s, a));
  }

  lemma OthersSame(s: State, a: Action)
    requires Enabled(s, a) && !a.work.StartCore?
    ensures a.c < |s.cores| && |Do(s, a).cores| == |s.cores|
    ensures forall d :: 0 <= d < |s.cores| && d != a.c ==> Do(s, a).cores[d] == s.cores[d]
  {
    hide To, WithTop, Put, Advance, Top;
  }

  /** The core that holds the lock has interrupts masked, from the swap to the clearing of the
      flag, whatever it does in between. */
  lemma HolderIsMasked(s: State, c: nat, i: nat)
    requires LockInv(s) && FlagsInv(s) && s.owner == Some((c, i))
    ensures c < |s.cores| && !s.cores[c].flag
  {
    assert Masked(s.cores[c].stack[i].phase);
  }
}
