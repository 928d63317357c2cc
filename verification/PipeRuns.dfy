/** Every run of a pipe: what the reader gets, and who may be asleep. */
module PipeRuns {
  import opened Bytes
  import opened Pipe

  /** A pipe with its history since it was created: everything written, everything read, how
      many tasks sleep on either side, and the ends that exist. */
  datatype History = History(pipe: State, written: seq<byte>, taken: seq<byte>, sleepingReaders: nat,
        sleepingWriters: nat, ends: Ends)

  /** How many ends of each kind were opened and closed since the pipe was created, and whether a
      reader is still promised. */
  datatype Ends = Ends(readsOpened: nat, readsClosed: nat, writesOpened: nat, writesClosed: nat, promised: bool)

  /** Nothing was ever opened. */
  const NO_ENDS := Ends(0, 0, 0, 0, false)

  /** What an action does to the ends, whatever the pipe makes of it: a new pipe opens one write
      end, the promise becomes one read end or lapses, and an end that is open is closed. */
  function EndsAfter(e: Ends, a: Action): Ends {
    match a
    case Create(reserve) => Ends(0, 0, 1, 0, reserve)
    case Claim => if e.promised then e.(readsOpened := e.readsOpened + 1, promised := false) else e
    case DropReservation => e.(promised := false)
    case CloseRead => if e.readsClosed < e.readsOpened then e.(readsClosed := e.readsClosed + 1) else e
    case CloseWrite => if e.writesClosed < e.writesOpened then e.(writesClosed := e.writesClosed + 1) else e
    case _ => e
  }

  datatype Action =
    | Create(reserve: bool) | Claim | DropReservation
    | ReadBy(want: nat) | WriteBy(src: seq<byte>)
    | CloseRead | CloseWrite

  /** A task reads or writes only through an end it holds, and writes at least one byte. */
  predicate Allowed(h: History, a: Action) {
    match a
    case Create(_) => !h.pipe.inUse
    case ReadBy(_) => h.pipe.readers > 0
    case WriteBy(src) => h.pipe.writers > 0 && src != [] && |h.pipe.data| <= PIPE_RING
    case _ => true
  }

  /** A task that finds the pipe empty (full) goes to sleep; the wake-ups are those of the
      source: bytes read, bytes written, the last end closed, the reservation dropped. */
  function Do(h: History, a: Action): History
    requires Allowed(h, a)
  {
    PipeAfter(h, a).(ends := EndsAfter(h.ends, a))
  }

  function PipeAfter(h: History, a: Action): History
    requires Allowed(h, a)
  {
    match a
    case Create(reserve) => h.(pipe := Created(reserve), written := [], taken := [])
    case Claim => h.(pipe := Claimed(h.pipe).1)
    case DropReservation =>
      var (dropped, p) := Unreserved(h.pipe);
      h.(pipe := p, sleepingWriters := if dropped then 0 else h.sleepingWriters)
    case ReadBy(want) =>
      var (r, p) := ReadFrom(h.pipe, want);
      match r {
        case Read(bytes) => h.(pipe := p, taken := h.taken + bytes, sleepingWriters := 0)
        case Empty => h.(pipe := p, sleepingReaders := h.sleepingReaders + 1)
        case Eof => h.(pipe := p)
      }
    case WriteBy(src) =>
      var (r, p) := WriteTo(h.pipe, src);
      match r {
        case Wrote(n) => h.(pipe := p, written := h.written + src[..Min(n, |src|)], sleepingReaders := 0)
        case Full => h.(pipe := p, sleepingWriters := h.sleepingWriters + 1)
        case NoReader => h.(pipe := p)
      }
    case CloseRead =>
      var (last, p) := ReadClosed(h.pipe);
      h.(pipe := p, sleepingWriters := if last then 0 else h.sleepingWriters)
    case CloseWrite =>
      var (last, p) := WriteClosed(h.pipe);
      h.(pipe := p, sleepingReaders := if last then 0 else h.sleepingReaders)
  }

  /** The pipe's counts are the ends that exist: at most one read end is ever opened. */
  ghost predicate Counts(p: State, e: Ends) {
    && p.readers == e.readsOpened - e.readsClosed && p.writers == e.writesOpened - e.writesClosed
    && p.reserved == e.promised && e.readsOpened + (if e.promised then 1 else 0) <= 1
  }

  ghost predicate Inv(h: History) {
    && |h.pipe.data| <= PIPE_RING && Counts(h.pipe, h.ends)
    && (h.pipe.inUse <==> h.pipe.readers > 0 || h.pipe.writers > 0 || h.pipe.reserved)
    && (h.pipe.inUse ==> h.written == h.taken + h.pipe.data)
    && h.taken <= h.written
    && (h.sleepingReaders > 0 ==> h.pipe.data == [] && h.pipe.writers > 0)
    && (h.sleepingWriters > 0 ==> |h.pipe.data| == PIPE_RING && (h.pipe.readers > 0 || h.pipe.reserved))
  }

  lemma StepInv(h: History, a: Action)
    requires Inv(h) && Allowed(h, a)
    ensures Inv(Do(h, a))
  {
    match a
    case ReadBy(want) => ReadStep(h, want);
    case WriteBy(src) => WriteStep(h, src);
    case _ =>
  }

  lemma ReadStep(h: History, want: nat)
    requires Inv(h) && Allowed(h, ReadBy(want))
    ensures Inv(Do(h, ReadBy(want)))
  {
    var d := h.pipe.data;
    if d != [] {
      var n := Min(want, |d|);
      assert h.taken + d == (h.taken + d[..n]) + d[n..];
    }
  }

  lemma WriteStep(h: History, src: seq<byte>)
    requires Inv(h) && Allowed(h, WriteBy(src))
    ensures Inv(Do(h, WriteBy(src)))
  {
    var n := Min(|src|, PIPE_RING - |h.pipe.data|);
    assert Min(n, |src|) == n;
    assert (h.taken + h.pipe.data) + src[..n] == h.taken + (h.pipe.data + src[..n]);
  }

  ghost predicate Run(states: seq<History>, actions: seq<Action>)
    ensures Run(states, actions) ==> |states| == |actions| + 1
  {
    && |states| == |actions| + 1 && states[0] == History(UNUSED, [], [], 0, 0, NO_ENDS)
    && forall n {:trigger actions[n]} :: 0 <= n < |actions| ==> Goes(states[n], actions[n], states[n + 1])
  }

  ghost predicate Goes(h: History, a: Action, r: History) {
    Allowed(h, a) && Do(h, a) == r
  }

  lemma UnusedInv()
    ensures Inv(History(UNUSED, [], [], 0, 0, NO_ENDS))
  {
  }

  lemma {:induction false} RunInv(states: seq<History>, actions: seq<Action>, n: nat)
    requires Run(states, actions) && n < |states|
    ensures Inv(states[n])
  {
    hide Do, Allowed, Inv;
    if n == 0 {
      UnusedInv();
    } else {
      RunInv(states, actions, n - 1);
      assert Goes(states[n - 1], actions[n - 1], states[n]);
      StepInv(states[n - 1], actions[n - 1]);
    }
  }

  /** At every point of every run the bytes read are the first of the bytes written, in order. */
  lemma ReadIsPrefix(states: seq<History>, actions: seq<Action>, n: nat)
    requires Run(states, actions) && n < |states|
    ensures states[n].taken <= states[n].written
  {
    hide Run;
    RunInv(states, actions, n);
  }

  /** When a reader sees the end, everything ever written has been read, including what was
      written before a reserved reader started. */
  lemma EofMeansAll(states: seq<History>, actions: seq<Action>, n: nat, want: nat)
    requires Run(states, actions) && n < |actions| && actions[n] == ReadBy(want)
    requires ReadFrom(states[n].pipe, want).0 == Eof
    ensures states[n].taken == states[n].written && states[n].ends.writesClosed == states[n].ends.writesOpened
  {
    RunInv(states, actions, n);
    assert Goes(states[n], actions[n], states[n + 1]);
    assert states[n].taken + [] == states[n].taken;
  }

  /** No lost wake-up: a reader sleeps only on an empty pipe that still has a writer, a writer
      only on a full pipe that still has a reader or a reservation. */
  lemma SleepersHaveReason(states: seq<History>, actions: seq<Action>, n: nat)
    requires Run(states, actions) && n < |states|
    ensures states[n].sleepingReaders > 0 ==> states[n].pipe.data == [] && states[n].pipe.writers > 0
    ensures states[n].sleepingWriters > 0 ==>
      |states[n].pipe.data| == 256 && (states[n].pipe.readers > 0 || states[n].pipe.reserved)
    ensures states[n].sleepingReaders == 0 || states[n].sleepingWriters == 0
  {
    hide Run;
    RunInv(states, actions, n);
  }

  /** A read answers end of file exactly when nothing is queued and every write end that was opened
      has been closed. */
  lemma EofExactly(states: seq<History>, actions: seq<Action>, n: nat, want: nat)
    requires Run(states, actions) && n < |states|
    ensures var h := states[n];
      ReadFrom(h.pipe, want).0 == Eof <==> h.pipe.data == [] && h.ends.writesClosed == h.ends.writesOpened
  {
    hide Run;
    RunInv(states, actions, n);
  }

  /** A write answers that there is no reader exactly when every read end that was opened has been
      closed and none is promised. */
  lemma NoReaderExactly(states: seq<History>, actions: seq<Action>, n: nat, src: seq<byte>)
    requires Run(states, actions) && n < |states|
    ensures var h := states[n];
      && |h.pipe.data| <= 256
      && (WriteTo(h.pipe, src).0 == NoReader <==> h.ends.readsClosed == h.ends.readsOpened && !h.ends.promised)
  {
    hide Run;
    RunInv(states, actions, n);
  }

  /** A read takes bytes from the front, and stops only at what was asked for or at the end of the
      queue; it answers `Empty` exactly when nothing is queued and a write end is open. */
  lemma ReadTakesAll(states: seq<History>, actions: seq<Action>, n: nat, want: nat)
    requires Run(states, actions) && n < |states|
    ensures var h := states[n]; var (r, p) := ReadFrom(h.pipe, want);
      && (r.Read? ==> r.bytes + p.data == h.pipe.data != [] && (|r.bytes| == want || p.data == []))
      && (r == Empty <==> h.pipe.data == [] && h.ends.writesClosed < h.ends.writesOpened)
      && p == h.pipe.(data := p.data)
  {
    hide Run;
    RunInv(states, actions, n);
  }

  /** A write puts the front of its bytes at the end of the queue, and stops only at the last of them
      or at a full ring. */
  lemma WriteGivesAll(states: seq<History>, actions: seq<Action>, n: nat, src: seq<byte>)
    requires Run(states, actions) && n < |states|
    ensures var h := states[n];
      && |h.pipe.data| <= 256
      && var (r, p) := WriteTo(h.pipe, src);
         && (r.Wrote? ==>
               && 0 < r.count <= |src| && p.data == h.pipe.data + src[..r.count]
               && (r.count == |src| || |p.data| == 256))
         && p == h.pipe.(data := p.data) && (!r.Wrote? ==> p == h.pipe)
  {
    hide Run;
    RunInv(states, actions, n);
  }

  /** The slot is in use exactly while an end is open or a reader promised. */
  lemma InUseExactlyWhileHeld(states: seq<History>, actions: seq<Action>, n: nat)
    requires Run(states, actions) && n < |states|
    ensures var e := states[n].ends;
      states[n].pipe.inUse <==> e.readsClosed < e.readsOpened || e.writesClosed < e.writesOpened || e.promised
  {
    hide Run;
    RunInv(states, actions, n);
  }

  /** The need for non-empty writes: a write of nothing to a pipe with room reports `Full`, so
      a task that slept on it would sleep on a pipe that is not full. */
  lemma EmptyWriteReportsFull()
    ensures WriteTo(Created(true), []).0 == Full && |Created(true).data| < PIPE_RING
  {
  }

  /** `Full` is the answer exactly when somebody may read and there is nothing to write or no room. */
  lemma FullExactly(p: State, src: seq<byte>)
    requires |p.data| <= PIPE_RING
    ensures WriteTo(p, src).0 == Full <==> (p.readers > 0 || p.reserved) && (src == [] || |p.data| == PIPE_RING)
  {
  }

  /** So `Full` tells of a full ring, whatever the pipe, exactly when the write was not empty. */
  lemma FullMeansFullRing(src: seq<byte>)
    ensures (forall p: State :: |p.data| <= PIPE_RING && WriteTo(p, src).0 == Full ==> |p.data| == PIPE_RING) <==>
      src != []
  {
    if src == [] {
      EmptyWriteReportsFull();
      assert WriteTo(Created(true), src).0 == Full;
    } else {
      forall p: State | |p.data| <= PIPE_RING && WriteTo(p, src).0 == Full ensures |p.data| == PIPE_RING {
        FullExactly(p, src);
      }
    }
  }
}
