/** The promises of the lock, the generation and the quarantine, over every run. */
module KernelRuns {
  import opened Wrappers
  import opened KernelMachine
  import opened KernelSafety
  import opened KernelFrames

  ghost predicate Inv(s: State, all: set<Frame>) {
    LockInv(s) && FlagsInv(s) && FramesInv(s, all) && GenInv(s) && TlbInv(s)
  }

  /** The machine at the start: one core, no lock taken, every frame free. */
  ghost predicate Init(s: State, all: set<Frame>) {
    && |s.cores| == 1 && s.cores[0].stack == [Context(Running, false, false, false)] && s.cores[0].tlb == {}
    && s.cores[0].seen == 0
    && !s.held && s.holder == None && s.inSection == 0 && s.owner == None && s.generation == 0
    && s.spaces == map[] && s.free == all && s.owned == {} && s.quarantine == map[] && s.leaked == {}
  }

  /** A run: enabled actions, each leading from one state to the next. */
  ghost predicate Run(states: seq<State>, actions: seq<Action>, all: set<Frame>)
    ensures Run(states, actions, all) ==> |states| == |actions| + 1
  {
    && |states| == |actions| + 1 && Init(states[0], all)
    && forall n {:trigger actions[n]} :: 0 <= n < |actions| ==> Goes(states[n], actions[n], states[n + 1])
  }

  ghost predicate Goes(s: State, a: Action, r: State) {
    Enabled(s, a) && Do(s, a) == r
  }

  lemma InitInv(s: State, all: set<Frame>)
    requires Init(s, all)
    ensures Inv(s, all)
  {
    StartedOk(s.cores[0]);
    assert !exists e: (nat, nat) :: Entry(s, e) && Holding(PhaseAt(s, e)) by {
      forall e: (nat, nat) | Entry(s, e) ensures !Holding(PhaseAt(s, e)) { assert e == (0, 0); }
    }
    assert forall f :: !FrameMapped(s, f);
  }

  lemma StepInv(s: State, a: Action, all: set<Frame>)
    requires Inv(s, all) && Enabled(s, a)
    ensures Inv(Do(s, a), all)
  {
    hide LockInv, FlagsInv, FramesInv, GenInv, TlbInv, Do, Enabled;
    LockStep(s, a);
    FlagStep(s, a);
    FramesStep(s, a, all);
    GenStep(s, a);
    TlbStep(s, a, all);
  }

  lemma {:induction false} RunInv(states: seq<State>, actions: seq<Action>, all: set<Frame>, n: nat)
    requires Run(states, actions, all) && n < |states|
    ensures Inv(states[n], all)
  {
    hide Inv, Enabled, Do;
    if n == 0 {
      InitInv(states[0], all);
    } else {
      RunInv(states, actions, all, n - 1);
      assert Goes(states[n - 1], actions[n - 1], states[n]);
      StepInv(states[n - 1], actions[n - 1], all);
    }
  }

  // ----- translations and frames -----

  /** In every state of every run, no core's TLB holds a translation to a free frame: a frame
      cannot be handed out while anyone can still reach it through a retired address space. */
  lemma FreeIsUnreachable(states: seq<State>, actions: seq<Action>, all: set<Frame>, n: nat, f: Frame, c: nat,
      t: Translation)
    requires Run(states, actions, all) && n < |states| && f in states[n].free && c < |states[n].cores|
    requires t in states[n].cores[c].tlb
    ensures t.frame != f
  {
    hide LockInv, FlagsInv, Run;
    RunInv(states, actions, all, n);
    if Live(states[n], t) { LiveIsMapped(states[n], t); }
  }

  /** Conservation: in every state of every run each frame is in exactly one place, and a
      release moves exactly one frame from the quarantine to the free set. */
  lemma FramesConserved(states: seq<State>, actions: seq<Action>, all: set<Frame>, n: nat)
    requires Run(states, actions, all) && n < |actions|
    ensures FramesInv(states[n], all) && FramesInv(states[n + 1], all)
    ensures actions[n].work.Release? ==>
      var f := actions[n].work.f;
      && f in states[n].quarantine && f !in states[n].free
      && states[n + 1].free == states[n].free + {f} && states[n + 1].quarantine.Keys == states[n].quarantine.Keys - {f}
      && states[n + 1].owned == states[n].owned && states[n + 1].leaked == states[n].leaked
      && states[n + 1].spaces == states[n].spaces
  {
    hide LockInv, FlagsInv, GenInv, TlbInv;
    RunInv(states, actions, all, n);
    RunInv(states, actions, all, n + 1);
    assert Goes(states[n], actions[n], states[n + 1]);
  }

  // ----- the lock -----

  /** In every state of every run: at most one entry of one core holds the lock, its core has
      interrupts masked, and the in-section count is at most 1. */
  lemma MutualExclusion(states: seq<State>, actions: seq<Action>, all: set<Frame>, n: nat, e: (nat, nat), d: (nat, nat))
    requires Run(states, actions, all) && n < |states|
    requires Entry(states[n], e) && Holding(PhaseAt(states[n], e)) && Entry(states[n], d)
    requires Holding(PhaseAt(states[n], d))
    ensures e == d && states[n].held && !states[n].cores[e.0].flag
    ensures states[n].inSection <= 1 && (states[n].inSection == 1 <==> Counted(PhaseAt(states[n], e)))
  {
    hide FramesInv, GenInv, TlbInv, Run;
    RunInv(states, actions, all, n);
    HolderIsMasked(states[n], e.0, e.1);
  }

  /** The recursion report fires exactly when the core that spins already holds the lock itself: an
      entry below the one that spins is inside the lock. */
  lemma HaltIsRecursion(states: seq<State>, actions: seq<Action>, all: set<Frame>, n: nat, c: nat)
    requires Run(states, actions, all) && n < |actions| && actions[n] == Act(c, LoadHolder)
    ensures At(states[n + 1], c, Halted) || At(states[n + 1], c, Spinning)
    ensures At(states[n + 1], c, Halted) <==> states[n].owner.Some? && states[n].owner.value.0 == c
    ensures At(states[n + 1], c, Halted) <==>
      c < |states[n].cores|
      && exists i :: 0 <= i < |states[n].cores[c].stack| - 1 && states[n].cores[c].stack[i].phase == Inside
  {
    hide FramesInv, GenInv, TlbInv, Run;
    RunInv(states, actions, all, n);
    RunGoes(states, actions, all, n);
    var s := states[n];
    if s.holder == Some(c) {
      var i := s.owner.value.1;
      assert ContextOk(s.cores[c], i);
      assert s.cores[c].stack[i].phase == Inside;
    }
    if i: nat :| i < |s.cores[c].stack| - 1 && s.cores[c].stack[i].phase == Inside { InsideIsNamed(s, c, i); }
    if s.owner.Some? && s.owner.value.0 == c { OwnerBelowTop(s, c); }
  }

  /** Who is inside the lock is its owner, and named as the holder. */
  lemma InsideIsNamed(s: State, c: nat, i: nat)
    requires LockInv(s) && c < |s.cores| && i < |s.cores[c].stack| && s.cores[c].stack[i].phase == Inside
    ensures s.owner == Some((c, i)) && s.holder == Some(c)
  {
    assert Entry(s, (c, i)) && Holding(PhaseAt(s, (c, i)));
  }

  lemma OwnerBelowTop(s: State, c: nat)
    requires LockInv(s) && FlagsInv(s) && IsCore(s, c) && s.owner.Some? && s.owner.value.0 == c
    requires Top(s.cores[c]).phase == Lost
    ensures s.holder == Some(c)
  {
    var i := s.owner.value.1;
    assert ContextOk(s.cores[c], i);
  }

  lemma RunGoes(states: seq<State>, actions: seq<Action>, all: set<Frame>, n: nat)
    requires Run(states, actions, all) && n < |actions|
    ensures Goes(states[n], actions[n], states[n + 1])
  {
  }

  /** Entries below the top never hold the lock. */
  ghost predicate Straight(s: State) {
    forall c, i :: 0 <= c < |s.cores| && 0 <= i < |s.cores[c].stack| ==>
      !s.cores[c].stack[i].phase.Halted? && (i < |s.cores[c].stack| - 1 ==> !Holding(s.cores[c].stack[i].phase))
  }

  lemma StraightStep(s: State, a: Action)
    requires Straight(s) && LockInv(s) && Enabled(s, a) && !a.work.Reenter?
    ensures Straight(Do(s, a))
  {
    var r := Do(s, a);
    if !a.work.StartCore? {
      OthersSame(s, a);
      StraightCore(s, a);
    }
  }

  predicate StraightStack(k: seq<Context>) {
    forall i :: 0 <= i < |k| ==> !k[i].phase.Halted? && (i < |k| - 1 ==> !Holding(k[i].phase))
  }

  lemma StraightCore(s: State, a: Action)
    requires Straight(s) && LockInv(s) && Enabled(s, a) && !a.work.Reenter? && !a.work.StartCore?
    ensures a.c < |Do(s, a).cores| && StraightStack(Do(s, a).cores[a.c].stack)
  {
    assert StraightStack(s.cores[a.c].stack);
    if OwnerAction(a) || IsLock(a) {
      StraightMove(s, a);
    } else {
      StraightOther(s, a);
    }
  }

  lemma StraightOther(s: State, a: Action)
    requires Enabled(s, a) && !a.work.Reenter? && !a.work.StartCore? && !OwnerAction(a) && !IsLock(a)
    requires StraightStack(s.cores[a.c].stack)
    ensures a.c < |Do(s, a).cores| && StraightStack(Do(s, a).cores[a.c].stack)
  {
    hide DoLock, EnabledLock, Put, Advance;
    if IsEntry(a) { hide DoMemory, EnabledMemory; } else { hide DoEntry, EnabledEntry; }
  }

  lemma StraightMove(s: State, a: Action)
    requires Straight(s) && LockInv(s) && Enabled(s, a) && (OwnerAction(a) || IsLock(a))
    ensures a.c < |Do(s, a).cores| && StraightStack(Do(s, a).cores[a.c].stack)
  {
    hide Do;
    TopMoves(s, a);
    NoSelfSpin(s, a);
    assert StraightStack(s.cores[a.c].stack);
  }

  /** A straight core that spins is not the holder. */
  lemma NoSelfSpin(s: State, a: Action)
    requires Straight(s) && LockInv(s) && Enabled(s, a) && (OwnerAction(a) || IsLock(a))
    ensures !NewPhase(s, a).Halted?
  {
    if a.work.LoadHolder? && s.held {
      var e := s.owner.value;
      assert Holding(s.cores[e.0].stack[e.1].phase);
    }
  }

  /** Without a call of `acquire` from inside the lock, nobody ever halts. */
  lemma {:induction false} NoHaltWithoutReentry(states: seq<State>, actions: seq<Action>, all: set<Frame>, n: nat)
    requires Run(states, actions, all) && n < |states|
    requires forall m :: 0 <= m < |actions| ==> !actions[m].work.Reenter?
    ensures Straight(states[n])
  {
    hide Inv, Enabled, Do, LockInv;
    if n > 0 {
      NoHaltWithoutReentry(states, actions, all, n - 1);
      RunInv(states, actions, all, n - 1);
      InvLock(states[n - 1], all);
      RunGoes(states, actions, all, n - 1);
      StraightStep(states[n - 1], actions[n - 1]);
    }
  }

  lemma InvLock(s: State, all: set<Frame>)
    requires Inv(s, all)
    ensures LockInv(s) && GenInv(s) && FlagsInv(s)
  {
  }

  /** Leaving an entry puts IF back to what it was when the entry began. */
  lemma EntryRestoresFlag(states: seq<State>, actions: seq<Action>, all: set<Frame>, n: nat, c: nat)
    requires Run(states, actions, all) && n < |actions| && actions[n] == Act(c, Return)
    ensures IsCore(states[n], c) && c < |states[n + 1].cores|
    ensures states[n + 1].cores[c].flag == Top(states[n].cores[c]).outer
  {
    hide FramesInv, GenInv, TlbInv, LockInv, Run;
    RunInv(states, actions, all, n);
    RunGoes(states, actions, all, n);
    ReturnRestores(states[n].cores[c]);
  }

  // ----- retirement comes to an end -----

  lemma {:induction false} GenerationGrows(states: seq<State>, actions: seq<Action>, all: set<Frame>, n: nat, m: nat)
    requires Run(states, actions, all) && n <= m < |states|
    ensures states[n].generation <= states[m].generation
    decreases m - n
  {
    hide Enabled, Do;
    if n < m {
      GenerationGrows(states, actions, all, n, m - 1);
      RunGoes(states, actions, all, m - 1);
      CountersStep(states[m - 1], actions[m - 1]);
    }
  }

  lemma {:induction false} SeenGrows(states: seq<State>, actions: seq<Action>, all: set<Frame>, n: nat, m: nat, c: nat)
    requires Run(states, actions, all) && n <= m < |states| && c < |states[n].cores|
    ensures c < |states[m].cores| && states[n].cores[c].seen <= states[m].cores[c].seen
    decreases m - n
  {
    hide Inv, Enabled, Do, LockInv, GenInv, FlagsInv;
    if n < m {
      SeenGrows(states, actions, all, n, m - 1, c);
      RunInv(states, actions, all, m - 1);
      InvLock(states[m - 1], all);
      RunGoes(states, actions, all, m - 1);
      SeenStep(states[m - 1], actions[m - 1]);
      StoredIsCurrent(states[m - 1], actions[m - 1], c);
    }
  }

  lemma StoredIsCurrent(s: State, a: Action, c: nat)
    requires LockInv(s) && GenInv(s) && Enabled(s, a) && c < |s.cores|
    ensures s.cores[c].seen <= SeenAfter(s, a, c)
  {
    if a.work.StoreSeen? && a.c == c { OwnerIs(s, c); }
  }

  /** Whoever enters the section has seen the current generation. */
  lemma EnteringHasSeen(s: State, c: nat, all: set<Frame>)
    requires Inv(s, all) && Enabled(s, Act(c, Count))
    ensures s.cores[c].seen == s.generation
  {
    hide FramesInv, TlbInv, FlagsInv;
    OwnerIs(s, c);
  }

  /** Core `c` completed an `acquire` between states `n` and `m`. */
  ghost predicate AcquiredBetween(actions: seq<Action>, n: nat, m: nat, c: nat) {
    exists k :: n <= k < m && k < |actions| && actions[k] == Act(c, Count)
  }

  /** A frame in quarantine becomes releasable as soon as every participating core has acquired
      the lock once since: no acknowledgement is needed, and `>=` is enough. */
  lemma RetiresAfterEveryoneAcquired(states: seq<State>, actions: seq<Action>, all: set<Frame>, n: nat, m: nat,
      f: Frame)
    requires Run(states, actions, all) && n <= m < |states| && f in states[n].quarantine
    requires forall c :: 0 <= c < |states[m].cores| ==> AcquiredBetween(actions, n, m, c)
    ensures Retired(states[m], states[n].quarantine[f])
  {
    hide Inv, Run, Enabled, Do;
    RunInv(states, actions, all, n);
    InvGen(states[n], all, f);
    forall c | 0 <= c < |states[m].cores| ensures states[m].cores[c].seen >= states[n].quarantine[f] {
      assert AcquiredBetween(actions, n, m, c);
      var k :| n <= k < m && k < |actions| && actions[k] == Act(c, Count);
      RunInv(states, actions, all, k);
      RunGoes(states, actions, all, k);
      CoreIsThere(states[k], c);
      EnteringHasSeen(states[k], c, all);
      GenerationGrows(states, actions, all, n, k);
      SeenGrows(states, actions, all, k, m, c);
    }
  }

  lemma CoreIsThere(s: State, c: nat)
    requires Enabled(s, Act(c, Count))
    ensures c < |s.cores|
  {
  }

  lemma InvGen(s: State, all: set<Frame>, f: Frame)
    requires Inv(s, all) && f in s.quarantine
    ensures s.quarantine[f] <= s.generation
  {
  }
}
