/** A pipe over a ring buffer: the ring as a queue, the pipe's end counts and reservation, and
    what every run of a pipe delivers and wakes. */
module Pipe {
  import opened Bytes

  const PIPE_RING := 256

  // ----- the ring -----

  function Min(a: nat, b: nat): nat { if a < b then a else b }

  /** Position `i` of a ring of `n` bytes that starts at `head`. */
  function Slot(head: nat, i: nat, n: nat): (p: nat)
    requires head < n && i <= n
    ensures p < n
  {
    if head + i < n then head + i else head + i - n
  }

  lemma SlotIsMod(head: nat, i: nat, n: nat)
    requires head < n && i <= n
    ensures (head + i) % n == Slot(head, i, n)
  {
    QuotRemIsDivMod(head + i, n);
    if head + i >= n { assert Rem(head + i, n) == Rem(head + i - n, n); }
  }

  class Ring {
    const buf: array<byte>
    var head: nat
    var len: nat

    ghost predicate Valid()
      reads this
    {
      head < buf.Length && len <= buf.Length
    }

    /** What the ring holds, oldest byte first. */
    ghost function Contents(): (s: seq<byte>)
      requires Valid()
      reads this, buf
      ensures |s| == len
    {
      seq(len, i requires 0 <= i < len && Valid() reads this, buf => buf[Slot(head, i, buf.Length)])
    }

    constructor (n: nat)
      requires n > 0
      ensures Valid() && fresh(buf) && buf.Length == n && Contents() == []
    {
      buf := new byte[n](_ => 0);
      head, len := 0, 0;
    }

    /** `put`: as much of `src` as there is room for goes to the end of the queue. */
    method Put(src: seq<byte>) returns (put: nat)
      requires Valid()
      modifies this, buf
      ensures Valid() && put == Min(|src|, buf.Length - old(len))
      ensures Contents() == old(Contents()) + src[..put]
    {
      put := Min(|src|, buf.Length - len);
      var n := 0;
      ghost var before := Contents();
      while n < put
        invariant n <= put && Valid() && head == old(head) && len == old(len) + n
        invariant Contents() == before + src[..n]
      {
        SlotIsMod(head, len, buf.Length);
        ghost var now := Contents();
        buf[(head + len) % buf.Length] := src[n];
        len := len + 1;
        assert Contents() == now + [src[n]];
        assert src[..n + 1] == src[..n] + [src[n]];
        n := n + 1;
      }
    }

    /** `take`: up to `want` bytes leave the front of the queue. */
    method Take(want: nat) returns (bytes: seq<byte>)
      requires Valid()
      modifies this
      ensures Valid() && |bytes| == Min(want, old(len))
      ensures old(Contents()) == bytes + Contents()
    {
      var take := Min(want, len);
      bytes := [];
      ghost var before := Contents();
      var at, n := head, 0;
      while n < take
        invariant Valid() && n <= take && head == old(head) && len == old(len) && at == Slot(head, n, buf.Length)
        invariant bytes == before[..n] && Contents() == before
      {
        bytes := bytes + [buf[at]];
        SlotIsMod(at, 1, buf.Length);
        at := (at + 1) % buf.Length;
        n := n + 1;
      }
      head, len := at, len - take;
      assert Contents() == before[take..];
    }
  }

  // ----- the pipe -----

  datatype ReadOutcome = Read(bytes: seq<byte>) | Eof | Empty

  datatype WriteOutcome = Wrote(count: nat) | Full | NoReader

  /** A pipe's value: the queue, the open ends and the reservation. */
  datatype State = State(data: seq<byte>, readers: nat, writers: nat, reserved: bool, inUse: bool)

  const UNUSED := State([], 0, 0, false, false)

  function ReleasedIfUnused(p: State): State {
    if p.readers == 0 && p.writers == 0 && !p.reserved then UNUSED else p
  }

  /** `create`, on a slot that is not in use. */
  function Created(reserve: bool): State { State([], 0, 1, reserve, true) }

  /** `claim_reserved_reader`. */
  function Claimed(p: State): (r: (bool, State)) {
    if !p.inUse || !p.reserved then (false, p)
    else (true, p.(reserved := false, readers := if p.readers < 255 then p.readers + 1 else 255))
  }

  /** `drop_reservation`. */
  function Unreserved(p: State): (r: (bool, State)) {
    if !p.inUse || !p.reserved then (false, p) else (true, ReleasedIfUnused(p.(reserved := false)))
  }

  /** `read_into`, for a buffer of `want` bytes. */
  function ReadFrom(p: State, want: nat): (ReadOutcome, State) {
    if p.data == [] then (if p.writers == 0 then Eof else Empty, p)
    else
      var n := Min(want, |p.data|);
      (Read(p.data[..n]), p.(data := p.data[n..]))
  }

  /** `write_from`. */
  function WriteTo(p: State, src: seq<byte>): (WriteOutcome, State)
    requires |p.data| <= PIPE_RING
  {
    if p.readers == 0 && !p.reserved then (NoReader, p)
    else
      var n := Min(|src|, PIPE_RING - |p.data|);
      if n == 0 then (Full, p) else (Wrote(n), p.(data := p.data + src[..n]))
  }

  /** `close_read_end`; the first part says whether the last reader went. */
  function ReadClosed(p: State): (bool, State) {
    if !p.inUse || p.readers == 0 then (false, p)
    else (p.readers == 1, ReleasedIfUnused(p.(readers := p.readers - 1)))
  }

  function WriteClosed(p: State): (bool, State) {
    if !p.inUse || p.writers == 0 then (false, p)
    else (p.writers == 1, ReleasedIfUnused(p.(writers := p.writers - 1)))
  }

  /** The pipe as the table slot it is. */
  class PipeSlot {
    var ring: Ring
    var readers: nat
    var writers: nat
    var reserved: bool
    var inUse: bool

    ghost predicate Valid()
      reads this, ring
    {
      ring.Valid() && ring.buf.Length == PIPE_RING
    }

    ghost function Value(): State
      requires Valid()
      reads this, ring, ring.buf
    {
      State(ring.Contents(), readers, writers, reserved, inUse)
    }

    constructor ()
      ensures Valid() && fresh(ring) && fresh(ring.buf) && Value() == UNUSED
    {
      ring := new Ring(PIPE_RING);
      readers, writers, reserved, inUse := 0, 0, false, false;
    }

    method Reset()
      requires Valid()
      modifies this
      ensures Valid() && fresh(ring) && fresh(ring.buf) && Value() == UNUSED
    {
      ring := new Ring(PIPE_RING);
      readers, writers, reserved, inUse := 0, 0, false, false;
    }

    method ReleaseIfUnused()
      requires Valid()
      modifies this
      ensures Valid() && Value() == ReleasedIfUnused(old(Value()))
      ensures ring == old(ring) || (fresh(ring) && fresh(ring.buf))
    {
      if readers == 0 && writers == 0 && !reserved { Reset(); }
    }

    /** `create`: refused while the slot is in use. */
    method Create(reserve: bool) returns (ok: bool)
      requires Valid()
      modifies this
      ensures Valid() && ok == !old(inUse) && Value() == if ok then Created(reserve) else old(Value())
    {
      if inUse { return false; }
      Reset();
      inUse, writers, reserved := true, 1, reserve;
      ok := true;
    }

    method ClaimReservedReader() returns (ok: bool)
      requires Valid()
      modifies this
      ensures Valid() && (ok, Value()) == Claimed(old(Value()))
    {
      if !inUse || !reserved { return false; }
      reserved := false;
      readers := if readers < 255 then readers + 1 else 255;
      ok := true;
    }

    method DropReservation() returns (ok: bool)
      requires Valid()
      modifies this
      ensures Valid() && (ok, Value()) == Unreserved(old(Value()))
    {
      if !inUse || !reserved { return false; }
      reserved := false;
      ReleaseIfUnused();
      ok := true;
    }

    method ReadInto(want: nat) returns (r: ReadOutcome)
      requires Valid()
      modifies ring
      ensures Valid() && (r, Value()) == ReadFrom(old(Value()), want)
    {
      if ring.len == 0 { return if writers == 0 then Eof else Empty; }
      ghost var before := ring.Contents();
      var bytes := ring.Take(want);
      assert before[..|bytes|] == bytes && before[|bytes|..] == ring.Contents();
      r := Read(bytes);
    }

    method WriteFrom(src: seq<byte>) returns (r: WriteOutcome)
      requires Valid()
      modifies ring, ring.buf
      ensures Valid() && (r, Value()) == WriteTo(old(Value()), src)
    {
      if readers == 0 && !reserved { return NoReader; }
      ghost var before := ring.Contents();
      var put := ring.Put(src);
      if put == 0 {
        assert before + src[..0] == before;
        return Full;
      }
      r := Wrote(put);
    }

    method CloseReadEnd() returns (last: bool)
      requires Valid()
      modifies this
      ensures Valid() && (last, Value()) == ReadClosed(old(Value()))
    {
      if !inUse || readers == 0 { return false; }
      readers := readers - 1;
      last := readers == 0;
      ReleaseIfUnused();
    }

    method CloseWriteEnd() returns (last: bool)
      requires Valid()
      modifies this
      ensures Valid() && (last, Value()) == WriteClosed(old(Value()))
    {
      if !inUse || writers == 0 { return false; }
      writers := writers - 1;
      last := writers == 0;
      ReleaseIfUnused();
    }
  }
}
