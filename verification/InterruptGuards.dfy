/** `InterruptGuard` and `EntryInterruptGuard` on one core: what IF and the nesting depth are
    while guards come and go, in the order they were made or in any other. */
module InterruptGuards {
  /** What a guard keeps: the IF it found, and whether it counts towards the nesting depth
      (`InterruptGuard` does, `EntryInterruptGuard` does not). */
  datatype Guard = Guard(saved: bool, counted: bool)

  datatype Cpu = Cpu(enabled: bool, depth: nat, live: map<nat, Guard>)

  datatype Act = Enter(id: nat, counted: bool) | Drop(id: nat)

  predicate Allowed(c: Cpu, a: Act) {
    match a
    case Enter(id, _) => id !in c.live
    case Drop(id) => id in c.live && (c.live[id].counted ==> c.depth > 0)
  }

  /** Entering masks and then counts; dropping uncounts and then restores, and only ever
      enables what it found enabled. */
  function Do(c: Cpu, a: Act): Cpu
    requires Allowed(c, a)
  {
    match a
    case Enter(id, counted) => Cpu(false, c.depth + (if counted then 1 else 0), c.live[id := Guard(c.enabled, counted)])
    case Drop(id) =>
      var g := c.live[id];
      Cpu(c.enabled || g.saved, c.depth - (if g.counted then 1 else 0), c.live - {id})
  }

  /** The live guards that count. */
  function CountedIds(live: map<nat, Guard>): set<nat> {
    set id | id in live && live[id].counted
  }

  /** Interrupts are on exactly when they were to begin with and no live guard took them; at
      most one live guard did; and the depth is the number of live counting guards. */
  ghost predicate Inv(c: Cpu, base: bool) {
    && (c.enabled <==> base && forall id :: id in c.live ==> !c.live[id].saved)
    && (forall i, j :: i in c.live && j in c.live && c.live[i].saved && c.live[j].saved ==> i == j)
    && (forall i :: i in c.live && c.live[i].saved ==> base)
    && c.depth == |CountedIds(c.live)|
  }

  lemma EnterInv(c: Cpu, id: nat, counted: bool, base: bool)
    requires Inv(c, base) && id !in c.live
    ensures Inv(Do(c, Enter(id, counted)), base)
  {
    var r := Do(c, Enter(id, counted));
    EnterCount(c, id, counted);
    assert r.live[id].saved == c.enabled;
    forall i | i in c.live ensures r.live[i] == c.live[i] { }
    if base && !c.enabled {
      var i :| i in c.live && c.live[i].saved;
      assert r.live[i].saved;
    }
  }

  lemma EnterCount(c: Cpu, id: nat, counted: bool)
    requires id !in c.live
    ensures |CountedIds(c.live[id := Guard(c.enabled, counted)])| == |CountedIds(c.live)| + (if counted then 1 else 0)
  {
    var live := c.live[id := Guard(c.enabled, counted)];
    if counted {
      assert CountedIds(live) == CountedIds(c.live) + {id};
    } else {
      assert CountedIds(live) == CountedIds(c.live);
    }
  }

  lemma DropInv(c: Cpu, id: nat, base: bool)
    requires Inv(c, base) && id in c.live
    ensures Allowed(c, Drop(id)) && Inv(Do(c, Drop(id)), base)
  {
    if c.live[id].counted { assert id in CountedIds(c.live); }
    var r := Do(c, Drop(id));
    assert CountedIds(r.live) == CountedIds(c.live) - {id};
    if c.live[id].saved {
      forall i | i in r.live ensures !r.live[i].saved { assert i != id; }
    } else if !c.enabled && base {
      var i :| i in c.live && c.live[i].saved;
      assert i in r.live && r.live[i].saved;
    }
  }

  /** A run of guards on one core, starting with none alive. */
  ghost predicate Run(cpus: seq<Cpu>, acts: seq<Act>, base: bool)
    ensures Run(cpus, acts, base) ==> |cpus| == |acts| + 1
  {
    && |cpus| == |acts| + 1 && cpus[0] == Cpu(base, 0, map[])
    && forall n {:trigger acts[n]} :: 0 <= n < |acts| ==> Goes(cpus[n], acts[n], cpus[n + 1])
  }

  ghost predicate Goes(c: Cpu, a: Act, r: Cpu) {
    Allowed(c, a) && Do(c, a) == r
  }

  lemma {:induction false} RunInv(cpus: seq<Cpu>, acts: seq<Act>, base: bool, n: nat)
    requires Run(cpus, acts, base) && n < |cpus|
    ensures Inv(cpus[n], base)
  {
    if n == 0 {
      assert CountedIds(cpus[0].live) == {};
    } else {
      RunInv(cpus, acts, base, n - 1);
      assert Goes(cpus[n - 1], acts[n - 1], cpus[n]);
      match acts[n - 1]
      case Enter(id, counted) => EnterInv(cpus[n - 1], id, counted, base);
      case Drop(id) => DropInv(cpus[n - 1], id, base);
    }
  }

  /** Whatever the order of the drops, once no guard is alive IF and the depth are back to what
      they were. */
  lemma AllDroppedRestores(cpus: seq<Cpu>, acts: seq<Act>, base: bool, n: nat)
    requires Run(cpus, acts, base) && n < |cpus| && cpus[n].live == map[]
    ensures cpus[n].enabled == base && cpus[n].depth == 0
  {
    hide Run;
    RunInv(cpus, acts, base, n);
    assert CountedIds(cpus[n].live) == {};
  }

  /** The depth counts exactly the live `InterruptGuard`s, at every point. */
  lemma DepthCountsGuards(cpus: seq<Cpu>, acts: seq<Act>, base: bool, n: nat)
    requires Run(cpus, acts, base) && n < |cpus|
    ensures cpus[n].depth == |CountedIds(cpus[n].live)|
  {
    RunInv(cpus, acts, base, n);
  }

  // ----- proper nesting -----

  /** Guards are dropped in the reverse order of their making: `nest` lists the live ones. */
  ghost predicate Nested(c: Cpu, nest: seq<nat>, base: bool) {
    && (forall i :: 0 <= i < |nest| ==> nest[i] in c.live)
    && (forall id :: id in c.live ==> id in nest)
    && (forall i, j :: 0 <= i < j < |nest| ==> nest[i] != nest[j])
    && (forall i :: 0 <= i < |nest| ==> c.live[nest[i]].saved == (i == 0 && base))
  }

  function Renest(nest: seq<nat>, a: Act): seq<nat> {
    match a
    case Enter(id, _) => nest + [id]
    case Drop(_) => if |nest| == 0 then nest else nest[..|nest| - 1]
  }

  /** The drop is of the innermost guard. */
  predicate Innermost(nest: seq<nat>, a: Act) {
    a.Drop? ==> |nest| > 0 && nest[|nest| - 1] == a.id
  }

  function NestAt(acts: seq<Act>, n: nat): seq<nat>
    requires n <= |acts|
  {
    if n == 0 then [] else Renest(NestAt(acts, n - 1), acts[n - 1])
  }

  ghost predicate ProperlyNested(acts: seq<Act>) {
    forall n {:trigger acts[n]} :: 0 <= n < |acts| ==> Innermost(NestAt(acts, n), acts[n])
  }

  lemma NestStep(c: Cpu, nest: seq<nat>, a: Act, base: bool)
    requires Inv(c, base) && Nested(c, nest, base) && Allowed(c, a) && Innermost(nest, a)
    ensures Nested(Do(c, a), Renest(nest, a), base)
  {
    var r, m := Do(c, a), Renest(nest, a);
    match a
    case Enter(id, counted) =>
      forall i | 0 <= i < |nest| ensures nest[i] != id && r.live[nest[i]] == c.live[nest[i]] { }
      if |nest| == 0 { assert c.live == map[]; } else { assert c.live[nest[0]].saved == base; }
      forall x | x in r.live ensures x in m { if x != id { assert x in nest; } else { assert m[|nest|] == id; } }
    case Drop(id) =>
      forall x | x in r.live ensures x in m {
        var i :| 0 <= i < |nest| && nest[i] == x;
        assert i < |nest| - 1;
        assert m[i] == x;
      }
  }

  lemma GoesAt(cpus: seq<Cpu>, acts: seq<Act>, base: bool, n: nat)
    requires Run(cpus, acts, base) && n < |acts|
    ensures Goes(cpus[n], acts[n], cpus[n + 1])
  {
  }

  lemma InnermostAt(acts: seq<Act>, n: nat)
    requires ProperlyNested(acts) && n < |acts|
    ensures Innermost(NestAt(acts, n), acts[n])
  {
    hide NestAt, Innermost;
  }

  lemma NestedAtStart(cpus: seq<Cpu>, acts: seq<Act>, base: bool)
    requires Run(cpus, acts, base)
    ensures Nested(cpus[0], NestAt(acts, 0), base)
  {
  }

  lemma {:induction false} NestedAt(cpus: seq<Cpu>, acts: seq<Act>, base: bool, n: nat)
    requires Run(cpus, acts, base) && ProperlyNested(acts) && n < |cpus|
    ensures Nested(cpus[n], NestAt(acts, n), base)
  {
    hide Nested, Inv, Do, Allowed, Innermost, Renest, ProperlyNested, Run;
    if n == 0 {
      NestedAtStart(cpus, acts, base);
    } else {
      NestedAt(cpus, acts, base, n - 1);
      RunInv(cpus, acts, base, n - 1);
      GoesAt(cpus, acts, base, n - 1);
      InnermostAt(acts, n - 1);
      NestStep(cpus[n - 1], NestAt(acts, n - 1), acts[n - 1], base);
    }
  }

  /** With properly nested guards interrupts are masked whenever any guard is alive. */
  lemma NestedStaysMasked(cpus: seq<Cpu>, acts: seq<Act>, base: bool, n: nat)
    requires Run(cpus, acts, base) && ProperlyNested(acts) && n < |cpus| && cpus[n].live != map[]
    ensures !cpus[n].enabled
  {
    hide Run, ProperlyNested;
    NestedAt(cpus, acts, base, n);
    RunInv(cpus, acts, base, n);
    var nest := NestAt(acts, n);
    var id :| id in cpus[n].live;
    assert id in nest;
    assert cpus[n].live[nest[0]].saved == base;
  }

  /** Nesting is needed: drop the outer guard first and the inner one is alive with IF set. */
  lemma OutOfOrderUnmasks() returns (cpus: seq<Cpu>, acts: seq<Act>)
    ensures Run(cpus, acts, true) && cpus[|acts|].live != map[] && cpus[|acts|].enabled
  {
    acts := [Enter(0, true), Enter(1, true), Drop(0)];
    var a := Cpu(true, 0, map[]);
    var b := Do(a, acts[0]);
    var c := Do(b, acts[1]);
    var d := Do(c, acts[2]);
    assert 1 in d.live;
    cpus := [a, b, c, d];
  }

  /** In general, with some guard alive, interrupts are masked exactly when they were off to
      begin with or the guard that found them on is still alive. */
  lemma MaskedExactlyWhen(cpus: seq<Cpu>, acts: seq<Act>, base: bool, n: nat)
    requires Run(cpus, acts, base) && n < |cpus|
    ensures !cpus[n].enabled <==> !base || exists id :: id in cpus[n].live && cpus[n].live[id].saved
  {
    RunInv(cpus, acts, base, n);
  }
}
