/** The big kernel lock, the TLB generation and the frame quarantine as one multi-core step
    system. Every atomic access of `acquire`, of the guard's drop and of `retire_address_space`
    is a step of its own; cores interleave freely, and the hardware may fill a TLB entry from
    any live mapping at any moment, whoever holds the lock. */
module KernelMachine {
  import opened Wrappers

  type Frame = nat
  type Page = nat
  type Space = nat

  datatype Translation = Translation(space: Space, page: Page, frame: Frame)

  /** How far one entry into the kernel has come. */
  datatype Phase =
    | Running                                    // not inside an entry
    | Called                                     // `acquire` called, interrupts not yet masked
    | Spinning                                   // masked, swapping `held` until it was false
    | Lost                                       // `swap` returned true; about to look at the holder
    | Halted                                     // the recursion report: this core stops
    | Won                                        // `swap` returned false
    | Named                                      // `holder_cpu` stored
    | Loaded(current: nat)                       // TLB_GENERATION read, and it is not the seen one
    | Flushed(current: nat)                      // root reloaded
    | Entering                                   // seen generation up to date
    | Inside                                     // the guard is alive
    | Detached(frames: set<Frame>)               // a space is unmapped, the generation not yet raised
    | Bumped(frames: set<Frame>, stamp: nat)     // raised; these frames still go to the quarantine
    | Uncounted                                  // dropping: left the in-section count
    | Unnamed                                    // `holder_cpu` cleared
    | Unheld                                     // `held` cleared
    | Returning                                  // the guard restored IF

  /** One entry: its phase, whether an interrupt started it, IF when it started, and the IF its
      guard saved. */
  datatype Context = Context(phase: Phase, irq: bool, outer: bool, saved: bool)

  /** A core: nested entries (the last one runs), IF, the TLB and the generation it has seen. */
  datatype Core = Core(stack: seq<Context>, flag: bool, tlb: set<Translation>, seen: nat)

  datatype State = State(
    cores: seq<Core>,
    held: bool, holder: Option<nat>, inSection: nat,
    generation: nat,
    spaces: map<Space, map<Page, Frame>>,
    free: set<Frame>, owned: set<Frame>, quarantine: map<Frame, nat>, leaked: set<Frame>,
    owner: Option<(nat, nat)>)  // history only: which entry won the swap; no step reads it

  /** One step: the core that takes it (ignored by `StartCore`) and what it does. */
  datatype Action = Act(c: nat, work: Work)

  datatype Work =
    | SetFlag(flag: bool)
    | Call | Reenter | Interrupt
    | Cli | Swap | LoadHolder | StoreHolder | LoadGeneration | Flush | StoreSeen | Count
    | Uncount | ClearHolder | ClearHeld | Restore | Return
    | Fill(t: Translation) | Evict(t: Translation) | StartCore
    | NewSpace(s: Space) | Allocate(f: Frame) | Deallocate(f: Frame) | Map(s: Space, p: Page, f: Frame)
    | Detach(s: Space, kept: set<Frame>) | Bump | Push(f: Frame, fits: bool) | EndRetire
    | Release(f: Frame)

  function Top(core: Core): Context
    requires |core.stack| > 0
  {
    core.stack[|core.stack| - 1]
  }

  function WithTop(core: Core, ctx: Context): (r: Core)
    requires |core.stack| > 0
    ensures r == core.(stack := r.stack) && |r.stack| == |core.stack| && Top(r) == ctx
  {
    core.(stack := core.stack[..|core.stack| - 1] + [ctx])
  }

  function To(core: Core, phase: Phase): (r: Core)
    requires |core.stack| > 0
    ensures r == core.(stack := r.stack) && |r.stack| == |core.stack| && Top(r) == Top(core).(phase := phase)
  {
    WithTop(core, Top(core).(phase := phase))
  }

  function Pushed(core: Core, ctx: Context): Core {
    core.(stack := core.stack + [ctx])
  }

  function Popped(core: Core): Core
    requires |core.stack| > 0
  {
    core.(stack := core.stack[..|core.stack| - 1])
  }

  predicate IsCore(s: State, c: nat) {
    c < |s.cores| && |s.cores[c].stack| > 0
  }

  predicate At(s: State, c: nat, phase: Phase) {
    IsCore(s, c) && Top(s.cores[c]).phase == phase
  }

  /** A mapping that is in force. */
  predicate Live(s: State, t: Translation) {
    t.space in s.spaces && t.page in s.spaces[t.space] && s.spaces[t.space][t.page] == t.frame
  }

  predicate FrameMapped(s: State, f: Frame) {
    exists sp, p :: sp in s.spaces && p in s.spaces[sp] && s.spaces[sp][p] == f
  }

  function FramesOf(m: map<Page, Frame>): set<Frame> {
    set p | p in m :: m[p]
  }

  function Mapping(m: map<Page, Frame>, p: Page, f: Frame): map<Page, Frame> {
    m[p := f]
  }

  /** `generation_is_retired`: every participating core has seen it, compared with `>=`. */
  predicate Retired(s: State, g: nat) {
    forall c :: 0 <= c < |s.cores| ==> s.cores[c].seen >= g
  }

  /** Entering and leaving, the lock, and memory: the three groups of actions. */
  predicate IsEntry(a: Action) {
    || a.work.SetFlag? || a.work.Call? || a.work.Reenter? || a.work.Interrupt? || a.work.Cli? || a.work.Restore?
    || a.work.Return?
  }

  predicate IsLock(a: Action) {
    || a.work.Swap? || a.work.LoadHolder? || a.work.StoreHolder? || a.work.LoadGeneration? || a.work.Flush?
    || a.work.StoreSeen? || a.work.Count? || a.work.Uncount? || a.work.ClearHolder? || a.work.ClearHeld?
  }

  /** Where an interrupt may come in, if IF is set: outside an entry, before `acquire` masks, and
      after the guard has put IF back. */
  predicate Interruptible(p: Phase) {
    p.Running? || p.Called? || p.Returning?
  }

  predicate EnabledEntry(s: State, a: Action) {
    var c := a.c;
    match a.work
    case SetFlag(_) => At(s, c, Running)
    case Call => At(s, c, Running)
    case Reenter => At(s, c, Inside)
    case Interrupt => IsCore(s, c) && s.cores[c].flag && Interruptible(Top(s.cores[c]).phase)
    case Cli => At(s, c, Called)
    case Restore => At(s, c, Unheld)
    case Return => At(s, c, Returning)
    case _ => false
  }

  predicate EnabledLock(s: State, a: Action) {
    var c := a.c;
    match a.work
    case Swap => At(s, c, Spinning)
    case LoadHolder => At(s, c, Lost)
    case StoreHolder => At(s, c, Won)
    case LoadGeneration => At(s, c, Named)
    case Flush => IsCore(s, c) && Top(s.cores[c]).phase.Loaded?
    case StoreSeen => IsCore(s, c) && Top(s.cores[c]).phase.Flushed?
    case Count => At(s, c, Entering)
    case Uncount => At(s, c, Inside) && s.inSection > 0
    case ClearHolder => At(s, c, Uncounted)
    case ClearHeld => At(s, c, Unnamed)
    case _ => false
  }

  predicate EnabledMemory(s: State, a: Action) {
    var c := a.c;
    match a.work
    case Fill(t) => IsCore(s, c) && Live(s, t)
    case Evict(t) => IsCore(s, c)
    case StartCore => true
    case NewSpace(sp) => At(s, c, Inside) && sp !in s.spaces
    case Allocate(f) => At(s, c, Inside) && f in s.free
    case Deallocate(f) => At(s, c, Inside) && f in s.owned
    case Map(sp, p, f) => At(s, c, Inside) && sp in s.spaces && p !in s.spaces[sp] && f in s.owned
    case Detach(sp, kept) => At(s, c, Inside) && sp in s.spaces && kept <= FramesOf(s.spaces[sp])
    case Bump => IsCore(s, c) && Top(s.cores[c]).phase.Detached?
    case Push(f, _) => IsCore(s, c) && Top(s.cores[c]).phase.Bumped? && f in Top(s.cores[c]).phase.frames
    case EndRetire => IsCore(s, c) && Top(s.cores[c]).phase.Bumped? && Top(s.cores[c]).phase.frames == {}
    case Release(f) => At(s, c, Inside) && f in s.quarantine && Retired(s, s.quarantine[f])
    case _ => false
  }

  predicate Enabled(s: State, a: Action) {
    if IsEntry(a) then EnabledEntry(s, a) else if IsLock(a) then EnabledLock(s, a) else EnabledMemory(s, a)
  }

  function Put(s: State, c: nat, core: Core): (r: State)
    requires c < |s.cores|
    ensures r == s.(cores := r.cores) && |r.cores| == |s.cores| && r.cores[c] == core
    ensures forall d :: 0 <= d < |s.cores| && d != c ==> r.cores[d] == s.cores[d]
  {
    s.(cores := s.cores[c := core])
  }

  function Advance(s: State, c: nat, phase: Phase): (r: State)
    requires IsCore(s, c)
    ensures r == s.(cores := r.cores) && |r.cores| == |s.cores| && r.cores[c] == To(s.cores[c], phase)
    ensures forall d :: 0 <= d < |s.cores| && d != c ==> r.cores[d] == s.cores[d]
  {
    Put(s, c, To(s.cores[c], phase))
  }

  /** The index of the entry that runs on core `c`. */
  function TopAt(s: State, c: nat): (nat, nat)
    requires IsCore(s, c)
  {
    (c, |s.cores[c].stack| - 1)
  }

  function DoEntry(s: State, a: Action): (r: State)
    requires EnabledEntry(s, a)
    ensures r == s.(cores := r.cores) && |r.cores| == |s.cores|
  {
    var c := a.c;
    match a.work
    case SetFlag(flag) => Put(s, c, s.cores[c].(flag := flag))
    case Call => Put(s, c, Pushed(s.cores[c], Context(Called, false, s.cores[c].flag, false)))
    case Reenter => Put(s, c, Pushed(s.cores[c], Context(Called, false, s.cores[c].flag, false)))
    case Interrupt => Put(s, c, Pushed(s.cores[c], Context(Called, true, s.cores[c].flag, false)).(flag := false))
    case Cli => Put(s, c,
          WithTop(s.cores[c], Top(s.cores[c]).(phase := Spinning, saved := s.cores[c].flag)).(flag := false))
    case Restore => Put(s, c, To(s.cores[c], Returning).(flag := Top(s.cores[c]).saved))
    case Return =>
      var top := Top(s.cores[c]);
      Put(s, c, Popped(s.cores[c]).(flag := if top.irq then top.outer else s.cores[c].flag))
  }

  function DoLock(s: State, a: Action): (r: State)
    requires EnabledLock(s, a)
    ensures r == s.(cores := r.cores, held := r.held, holder := r.holder, inSection := r.inSection, owner := r.owner)
    ensures |r.cores| == |s.cores|
  {
    var c := a.c;
    match a.work
    case Swap =>
      if !s.held then Advance(s, c, Won).(held := true, owner := Some(TopAt(s, c))) else Advance(s, c, Lost)
    case LoadHolder => Advance(s, c, if s.holder == Some(c) then Halted else Spinning)
    case StoreHolder => Advance(s, c, Named).(holder := Some(c))
    case LoadGeneration => Advance(s, c, if s.cores[c].seen == s.generation then Entering else Loaded(s.generation))
    case Flush => Put(s, c, To(s.cores[c], Flushed(Top(s.cores[c]).phase.current)).(tlb := {}))
    case StoreSeen => Put(s, c, To(s.cores[c], Entering).(seen := Top(s.cores[c]).phase.current))
    case Count => Advance(s, c, Inside).(inSection := s.inSection + 1)
    case Uncount => Advance(s, c, Uncounted).(inSection := s.inSection - 1)
    case ClearHolder => Advance(s, c, Unnamed).(holder := None)
    case ClearHeld => Advance(s, c, Unheld).(held := false, owner := None)
  }

  function DoMemory(s: State, a: Action): (r: State)
    requires EnabledMemory(s, a)
    ensures r.held == s.held && r.holder == s.holder && r.inSection == s.inSection && r.owner == s.owner
    ensures |r.cores| == |s.cores| + if a.work.StartCore? then 1 else 0
  {
    var c := a.c;
    match a.work
    case Fill(t) => Put(s, c, s.cores[c].(tlb := s.cores[c].tlb + {t}))
    case Evict(t) => Put(s, c, s.cores[c].(tlb := s.cores[c].tlb - {t}))
    case StartCore => s.(cores := s.cores + [Core([Context(Running, false, false, false)], false, {}, 0)])
    case NewSpace(sp) => s.(spaces := s.spaces[sp := map[]])
    case Allocate(f) => s.(free := s.free - {f}, owned := s.owned + {f})
    case Deallocate(f) => s.(free := s.free + {f}, owned := s.owned - {f})
    case Map(sp, p, f) => s.(spaces := s.spaces[sp := Mapping(s.spaces[sp], p, f)], owned := s.owned - {f})
    case Detach(sp, kept) =>
      Advance(s, c, Detached(kept)).(spaces := s.spaces - {sp}, leaked := s.leaked + (FramesOf(s.spaces[sp]) - kept))
    case Bump => Advance(s, c, Bumped(Top(s.cores[c]).phase.frames, s.generation + 1)).(generation := s.generation + 1)
    case Push(f, fits) =>
      var p := Top(s.cores[c]).phase;
      var next := Advance(s, c, Bumped(p.frames - {f}, p.stamp));
      if fits then next.(quarantine := s.quarantine[f := p.stamp]) else next.(leaked := s.leaked + {f})
    case EndRetire => Advance(s, c, Inside)
    case Release(f) => s.(quarantine := s.quarantine - {f}, free := s.free + {f})
  }

  function Do(s: State, a: Action): State
    requires Enabled(s, a)
  {
    if IsEntry(a) then DoEntry(s, a) else if IsLock(a) then DoLock(s, a) else DoMemory(s, a)
  }
}
