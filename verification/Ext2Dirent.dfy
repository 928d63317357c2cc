/** Directory blocks: records that tile the block, the writer's scan, and splitting and
    merging records in place. */
module Ext2Dirent {
  import opened Wrappers
  import opened Bytes
  import opened Ext2Layout
  import opened Ext2File

  const DIRENT_HEADER_LEN := 8
  const MAX_NAME_LEN := 255
  const DIRENT_TYPE_REGULAR: byte := 1
  const DIRENT_TYPE_DIRECTORY: byte := 2
  const USIZE_MAX := 0xFFFF_FFFF_FFFF_FFFF

  /** `dirent_span`: the header and the name, rounded up to four bytes. */
  function Span(nameLen: nat): nat {
    (DIRENT_HEADER_LEN + nameLen + 3) / 4 * 4
  }

  predicate IsDirectoryMode(mode: nat) { mode / 0x1000 == 4 }

  predicate IsRegularMode(mode: nat) { mode / 0x1000 == 8 }

  /** What an inode says of itself that names have to agree with. */
  datatype Node = Node(mode: nat, links: nat)

  // ----- records -----

  function RecLen(img: seq<byte>, at: nat): (n: nat)
    requires at + DIRENT_HEADER_LEN <= |img|
    ensures n < 0x1_0000
  {
    U16(img, at + 4)
  }

  function NameLen(img: seq<byte>, at: nat): (n: nat)
    requires at + DIRENT_HEADER_LEN <= |img|
    ensures n < 256
  {
    img[at + 6]
  }

  /** What the record says its inode is: 1 for a regular file, 2 for a directory. */
  function KindAt(img: seq<byte>, at: nat): byte
    requires at + DIRENT_HEADER_LEN <= |img|
  {
    img[at + 7]
  }

  /** The three checks both the reader and the writer make on a record. */
  predicate RecordOk(img: seq<byte>, at: nat, end: nat)
    requires at + DIRENT_HEADER_LEN <= end <= |img|
  {
    && RecLen(img, at) % 4 == 0
    && RecLen(img, at) >= DIRENT_HEADER_LEN + NameLen(img, at)
    && at + RecLen(img, at) <= end
  }

  function NameAt(img: seq<byte>, at: nat): seq<byte>
    requires at + DIRENT_HEADER_LEN <= |img| && at + DIRENT_HEADER_LEN + NameLen(img, at) <= |img|
  {
    img[at + DIRENT_HEADER_LEN..at + DIRENT_HEADER_LEN + NameLen(img, at)]
  }

  /** [at, end) is exactly a sequence of well-formed records. */
  predicate Tiled(img: seq<byte>, at: nat, end: nat)
    requires end <= |img|
    decreases end - at
  {
    || at == end
    || (at + DIRENT_HEADER_LEN <= end && RecordOk(img, at, end) && Tiled(img, at + RecLen(img, at), end))
  }

  /** A name, the inode it leads to, and the kind its record states. */
  type Binding = (seq<byte>, nat, byte)

  function BindingAt(img: seq<byte>, at: nat): Binding
    requires at + DIRENT_HEADER_LEN <= |img| && at + DIRENT_HEADER_LEN + NameLen(img, at) <= |img|
  {
    (NameAt(img, at), U32(img, at), KindAt(img, at))
  }

  /** What is bound in [at, end), in order; records with inode 0 bind nothing. */
  function Entries(img: seq<byte>, at: nat, end: nat): seq<Binding>
    requires end <= |img| && Tiled(img, at, end)
    decreases end - at
  {
    if at == end then []
    else
      var rest := Entries(img, at + RecLen(img, at), end);
      if U32(img, at) == 0 then rest else [BindingAt(img, at)] + rest
  }

  /** `p` is where one of the records of [at, end) starts. */
  predicate Starts(img: seq<byte>, at: nat, end: nat, p: nat)
    requires end <= |img| && Tiled(img, at, end)
    decreases end - at
  {
    at < end && (at == p || Starts(img, at + RecLen(img, at), end, p))
  }

  // ----- the writer's scan -----

  /** An entry and, unless it opens its block, the entry before it. */
  datatype Spot = Spot(entry: nat, previous: Option<nat>)

  datatype Scan = Scan(found: Option<Spot>, room: Option<Spot>)

  /** What one record adds to the scan: the last match wins, the first gap wins. */
  function Noted(img: seq<byte>, at: nat, previous: Option<nat>, name: seq<byte>, want: nat, acc: Scan): Scan
    requires at + DIRENT_HEADER_LEN <= |img| && at + DIRENT_HEADER_LEN + NameLen(img, at) <= |img|
  {
    var live := U32(img, at) != 0;
    var found := if live && NameAt(img, at) == name then Some(Spot(at, previous)) else acc.found;
    var fits := live && RecLen(img, at) >= Span(NameLen(img, at)) + want;
    Scan(found, if acc.room.None? && fits then Some(Spot(at, previous)) else acc.room)
  }

  /** The inner loop of `scan_directory`. */
  function ScanBlock(img: seq<byte>, at: nat, end: nat, previous: Option<nat>, name: seq<byte>, want: nat,
      acc: Scan): Res<Scan>
    requires end <= |img|
    decreases end - at
  {
    if at + DIRENT_HEADER_LEN > end then Ok(acc)
    else if !RecordOk(img, at, end) then Err(DirectoryCorrupt)
    else
      ScanBlock(img, at + RecLen(img, at), end, Some(at), name, want, Noted(img, at, previous, name, want, acc))
  }

  /** The outer loop of `scan_directory`. */
  function ScanFrom(img: seq<byte>, L: Layout, dirAt: nat, index: nat, blocks: nat, name: seq<byte>, want: nat,
      acc: Scan): Res<Scan>
    requires LayoutOf(|img|, L) && dirAt + L.inodeSize <= |img| && blocks <= DIRECT_BLOCK_COUNT
    decreases blocks - index
  {
    if index >= blocks then Ok(acc)
    else
      var b := U32(img, SlotAt(dirAt, index));
      if b == 0 then ScanFrom(img, L, dirAt, index + 1, blocks, name, want, acc)
      else
        var base := BlockAt(L, b);
        if base + L.bs > |img| then Err(ImageTooSmall)
        else
          match ScanBlock(img, base, base + L.bs, None, name, want, acc)
          case Err(e) => Err(e)
          case Ok(acc') => ScanFrom(img, L, dirAt, index + 1, blocks, name, want, acc')
  }

  /** How many blocks of a directory the scan looks at. */
  function ScanBlocks(L: Layout, size: nat): nat
    requires L.bs > 0
  {
    if Quot(size, L.bs) < DIRECT_BLOCK_COUNT then Quot(size, L.bs) else DIRECT_BLOCK_COUNT
  }

  /** `scan_directory`. */
  function ScanDirectory(img: seq<byte>, L: Layout, dir: nat, name: seq<byte>, want: nat): Res<Scan>
    requires LayoutOf(|img|, L)
  {
    match InodeAt(img, L, dir)
    case None => Err(InodeOutOfRange(dir))
    case Some(at) =>
      if !IsDirectoryMode(U16(img, at)) then Err(NotADirectory(dir))
      else ScanFrom(img, L, at, 0, ScanBlocks(L, U32(img, at + 4)), name, want, Scan(None, None))
  }

  // ----- splitting and merging -----

  /** A record can be split after its own name to make room for a name of `n` bytes. */
  predicate Splittable(img: seq<byte>, previous: nat, n: nat)
    ensures Splittable(img, previous, n) ==> previous + DIRENT_HEADER_LEN <= |img|
  {
    && previous + DIRENT_HEADER_LEN <= |img|
    && RecLen(img, previous) >= Span(NameLen(img, previous)) + Span(n)
    && previous + RecLen(img, previous) <= |img|
  }

  function EntryOf(img: seq<byte>, previous: nat): nat
    requires previous + DIRENT_HEADER_LEN <= |img|
  {
    previous + Span(NameLen(img, previous))
  }

  function RecordBytes(ino: nat, len: nat, name: seq<byte>, kind: byte): (r: seq<byte>)
    requires ino < 0x1_0000_0000 && len < 0x1_0000 && |name| <= MAX_NAME_LEN
    ensures |r| == DIRENT_HEADER_LEN + |name|
  {
    Le32(ino) + Le16(len) + [|name|, kind] + name
  }

  /** `insert_dirent`: the record at `previous` keeps what its name needs, the new record gets
      the rest. */
  function Insert(img: seq<byte>, previous: nat, ino: nat, name: seq<byte>, kind: byte): (r: seq<byte>)
    requires Splittable(img, previous, |name|) && ino < 0x1_0000_0000 && |name| <= MAX_NAME_LEN
    ensures |r| == |img|
  {
    var previousLen := Span(NameLen(img, previous));
    var entryLen := RecLen(img, previous) - previousLen;
    Put(Put(img, previous + 4, Le16(previousLen)), previous + previousLen, RecordBytes(ino, entryLen, name, kind))
  }

  /** `remove_dirent`: the record before swallows the entry, whose bytes become zero. */
  function Remove(img: seq<byte>, entry: nat, previous: nat): (r: (Res<()>, seq<byte>))
    requires entry + DIRENT_HEADER_LEN <= |img| && previous + DIRENT_HEADER_LEN <= |img|
    requires entry + RecLen(img, entry) <= |img|
    ensures |r.1| == |img|
  {
    var merged := RecLen(img, previous) + RecLen(img, entry);
    if merged >= 0x1_0000 then (Err(DirectoryCorrupt), img)
    else (Ok(()), Put(Put(img, previous + 4, Le16(merged)), entry, Zeros(RecLen(img, entry))))
  }

  // ----- lemmas -----

  ghost predicate Same(img: seq<byte>, r: seq<byte>, at: nat, end: nat) {
    |r| == |img| && forall p :: at <= p < end && p < |img| ==> r[p] == img[p]
  }

  lemma SameRecord(img: seq<byte>, r: seq<byte>, at: nat, end: nat)
    requires at + DIRENT_HEADER_LEN <= end <= |img| && RecordOk(img, at, end)
    requires Same(img, r, at, at + RecLen(img, at))
    ensures RecLen(r, at) == RecLen(img, at) && NameLen(r, at) == NameLen(img, at) && U32(r, at) == U32(img, at)
    ensures RecordOk(r, at, end) && NameAt(r, at) == NameAt(img, at) && KindAt(r, at) == KindAt(img, at)
  {
    assert r[at + 7] == img[at + 7];
    assert r[at] == img[at] && r[at + 1] == img[at + 1] && r[at + 2] == img[at + 2] && r[at + 3] == img[at + 3];
    assert r[at + 4] == img[at + 4] && r[at + 5] == img[at + 5] && r[at + 6] == img[at + 6];
  }

  /** Equal bytes read alike. */
  lemma {:induction false} SameTiling(img: seq<byte>, r: seq<byte>, at: nat, end: nat)
    requires end <= |img| && Tiled(img, at, end) && Same(img, r, at, end)
    ensures Tiled(r, at, end) && Entries(r, at, end) == Entries(img, at, end)
    decreases end - at
  {
    if at != end {
      SameRecord(img, r, at, end);
      SameTiling(img, r, at + RecLen(img, at), end);
    }
  }

  lemma {:induction false} SameScan(img: seq<byte>, r: seq<byte>, at: nat, end: nat, previous: Option<nat>,
      name: seq<byte>, want: nat, acc: Scan)
    requires end <= |img| && Tiled(img, at, end) && Same(img, r, at, end)
    ensures ScanBlock(r, at, end, previous, name, want, acc) == ScanBlock(img, at, end, previous, name, want, acc)
    decreases end - at
  {
    if at != end {
      SameRecord(img, r, at, end);
      SameScan(img, r, at + RecLen(img, at), end, Some(at), name, want, Noted(img, at, previous, name, want, acc));
    }
  }

  lemma SpanCovers(n: nat)
    ensures Span(n) >= DIRENT_HEADER_LEN + n && Span(n) % 4 == 0 && Span(n) < DIRENT_HEADER_LEN + n + 4
  {
  }

  /** The two records a split leaves, and everything it leaves alone. */
  lemma InsertReads(img: seq<byte>, previous: nat, ino: nat, name: seq<byte>, kind: byte)
    requires Splittable(img, previous, |name|) && ino < 0x1_0000_0000 && |name| <= MAX_NAME_LEN
    ensures var r := Insert(img, previous, ino, name, kind); var entry := EntryOf(img, previous);
      && entry + DIRENT_HEADER_LEN + |name| <= |img|
      && RecLen(r, previous) == Span(NameLen(img, previous)) && NameLen(r, previous) == NameLen(img, previous)
      && BindingAt(r, previous) == BindingAt(img, previous)
      && RecLen(r, entry) == RecLen(img, previous) - Span(NameLen(img, previous))
      && NameLen(r, entry) == |name| && BindingAt(r, entry) == (name, ino, kind)
      && Same(img, r, 0, previous) && Same(img, r, previous + RecLen(img, previous), |img|)
  {
    var n := Span(NameLen(img, previous));
    SpanCovers(NameLen(img, previous));
    SpanCovers(|name|);
    var e := RecLen(img, previous) - n;
    var entry := previous + n;
    var x := Put(img, previous + 4, Le16(n));
    var rec := RecordBytes(ino, e, name, kind);
    var r := Put(x, entry, rec);
    Put16Read(img, previous + 4, n);
    Read16Apart(x, entry, rec, previous + 4);
    Read32Apart(img, previous + 4, Le16(n), previous);
    Read32Apart(x, entry, rec, previous);
    RecordReads(x, entry, ino, e, name, kind);
    assert r[previous + 6] == img[previous + 6] && r[previous + 7] == img[previous + 7];
    assert NameAt(r, previous) == NameAt(img, previous);
  }

  lemma RecordReads(x: seq<byte>, entry: nat, ino: nat, len: nat, name: seq<byte>, kind: byte)
    requires ino < 0x1_0000_0000 && len < 0x1_0000 && |name| <= MAX_NAME_LEN
    requires entry + DIRENT_HEADER_LEN + |name| <= |x|
    ensures var r := Put(x, entry, RecordBytes(ino, len, name, kind));
      RecLen(r, entry) == len && NameLen(r, entry) == |name| && BindingAt(r, entry) == (name, ino, kind)
  {
    var rec := RecordBytes(ino, len, name, kind);
    var r := Put(x, entry, rec);
    assert rec[..4] == Le32(ino) && rec[4..6] == Le16(len) && rec[6] == |name| && rec[8..] == name;
    assert r[entry..entry + |rec|] == rec;
    assert r[entry..entry + 4] == Le32(ino) by { assert r[entry..entry + 4] == rec[..4]; }
    Put32Read(r, entry, ino);
    PutSame(r, entry, Le32(ino));
    assert r[entry + 4..entry + 6] == Le16(len) by { assert r[entry + 4..entry + 6] == rec[4..6]; }
    Put16Read(r, entry + 4, len);
    PutSame(r, entry + 4, Le16(len));
    assert r[entry + 6] == rec[6] && r[entry + 7] == rec[7];
    assert NameAt(r, entry) == rec[8..];
  }
}
