/** Creating and removing files and directories. */
module Ext2Ops {
  import opened Wrappers
  import opened Bytes
  import opened Ext2Layout
  import opened Ext2Alloc
  import opened Ext2File
  import opened Ext2Dirent

  const SEPARATOR: byte := 47
  const DOT: seq<byte> := [46]
  const DOT_DOT: seq<byte> := [46, 46]
  const FILE_MODE := 0x81A4  // MODE_REGULAR | 0o644
  const DIRECTORY_MODE := 0x41ED  // MODE_DIRECTORY | 0o755
  const DOT_LEN := 12  // dirent_span(1)

  predicate ValidName(name: seq<byte>) {
    0 < |name| <= MAX_NAME_LEN && SEPARATOR !in name && name != DOT && name != DOT_DOT
  }

  // ----- creating -----

  /** What both `create_file` and `create_directory` check first: the record to split. */
  function PlanCreate(img: seq<byte>, L: Layout, dir: nat, name: seq<byte>): Res<nat>
    requires LayoutOf(|img|, L)
  {
    if !ValidName(name) then Err(BadName)
    else
      match ScanDirectory(img, L, dir, name, Span(|name|))
      case Err(e) => Err(e)
      case Ok(scan) =>
        if scan.found.Some? then Err(NameTaken)
        else if scan.room.None? then Err(NoRoomInDirectory)
        else Ok(scan.room.value.entry)
  }

  /** A slot's bytes with `i_extra_isize` filled in when the superblock asks for it. */
  function WithExtra(slot: seq<byte>, L: Layout): (r: seq<byte>)
    requires |slot| == L.inodeSize && L.wantExtra < 0x1_0000 && (L.wantExtra != 0 ==> 130 <= L.inodeSize)
    ensures |r| == |slot|
  {
    if L.wantExtra != 0 then Put(slot, 128, Le16(L.wantExtra)) else slot
  }

  lemma ExtraFits(len: nat, L: Layout)
    requires LayoutOf(len, L)
    ensures L.wantExtra < 0x1_0000 && (L.wantExtra != 0 ==> 130 <= L.inodeSize)
  {
  }

  /** The slot of a fresh regular file: mode, one link, nothing else. */
  function FreshFile(len: nat, L: Layout): (r: seq<byte>)
    requires LayoutOf(len, L)
    ensures |r| == L.inodeSize
  {
    ExtraFits(len, L);
    Put(WithExtra(Put(Zeros(L.inodeSize), 0, Le16(FILE_MODE)), L), 26, Le16(1))
  }

  /** Take an inode and initialise its slot. */
  function NewFile(img: seq<byte>, L: Layout): (r: (Res<nat>, seq<byte>))
    requires LayoutOf(|img|, L)
    ensures |r.1| == |img|
    ensures r.0.Ok? ==> 0 < r.0.value <= L.inodesCount
  {
    var (ino, img1) := AllocInode(img, L);
    if ino.Err? then (ino, img1)
    else
      match InodeAt(img1, L, ino.value)
      case None => (Err(InodeOutOfRange(ino.value)), img1)
      case Some(at) => (ino, Put(img1, at, FreshFile(|img|, L)))
  }

  /** The record chosen before the inode was taken can still be split afterwards. Where this
      fails the source would index out of bounds. */
  predicate CreateInBounds(img: seq<byte>, L: Layout, dir: nat, name: seq<byte>) {
    && LayoutOf(|img|, L)
    && (PlanCreate(img, L, dir, name).Ok? && NewFile(img, L).0.Ok? ==>
          Splittable(NewFile(img, L).1, PlanCreate(img, L, dir, name).value, |name|))
  }

  /** `create_file`. */
  function CreateFile(img: seq<byte>, L: Layout, dir: nat, name: seq<byte>): (r: (Res<nat>, seq<byte>))
    requires CreateInBounds(img, L, dir, name)
    ensures |r.1| == |img|
  {
    match PlanCreate(img, L, dir, name)
    case Err(e) => (Err(e), img)
    case Ok(previous) =>
      var (ino, img1) := NewFile(img, L);
      if ino.Err? then (ino, img1)
      else (ino, Insert(img1, previous, ino.value, name, DIRENT_TYPE_REGULAR))
  }

  /** The slot of a fresh directory that owns one block. */
  function FreshDirectory(len: nat, L: Layout, block: nat): (r: seq<byte>)
    requires LayoutOf(len, L) && block < 0x1_0000_0000
    ensures |r| == L.inodeSize
  {
    ExtraFits(len, L);
    var a := Put(Put(Zeros(L.inodeSize), 0, Le16(DIRECTORY_MODE)), 4, Le32(L.bs));
    var b := Put(Put(a, 26, Le16(2)), 28, Le32(SectorsPerBlock(L)));
    WithExtra(Put(b, 40, Le32(block)), L)
  }

  /** The first block of a directory: `.` and `..`, the latter taking all the rest. */
  function FreshBody(len: nat, L: Layout, ino: nat, parent: nat): (r: seq<byte>)
    requires LayoutOf(len, L) && ino < 0x1_0000_0000 && parent < 0x1_0000_0000
    ensures |r| == L.bs
  {
    Put(Put(Zeros(L.bs), 0, RecordBytes(ino, DOT_LEN, DOT, DIRENT_TYPE_DIRECTORY)),
        DOT_LEN, RecordBytes(parent, L.bs - DOT_LEN, DOT_DOT, DIRENT_TYPE_DIRECTORY))
  }

  /** Take an inode and a block, and initialise both. */
  function NewDirectory(img: seq<byte>, L: Layout, parent: nat): (r: (Res<nat>, seq<byte>))
    requires LayoutOf(|img|, L) && parent < 0x1_0000_0000
    ensures |r.1| == |img|
    ensures r.0.Ok? ==> 0 < r.0.value <= L.inodesCount
  {
    var (ino, img1) := AllocInode(img, L);
    if ino.Err? then (ino, img1)
    else
      var (block, img2) := AllocBlock(img1, L);
      if block.Err? then (Err(block.error), img2)
      else
        match InodeAt(img2, L, ino.value)
        case None => (Err(InodeOutOfRange(ino.value)), img2)
        case Some(at) =>
          DataBlockInside(img2, L, block.value);
          (ino, Put(Put(img2, at, FreshDirectory(|img|, L, block.value)), BlockAt(L, block.value),
                FreshBody(|img|, L, ino.value, parent)))
  }

  /** `bump_links`. */
  function BumpLinks(img: seq<byte>, L: Layout, ino: nat, delta: int): (r: (Res<()>, seq<byte>))
    requires LayoutOf(|img|, L)
    ensures |r.1| == |img|
  {
    match InodeAt(img, L, ino)
    case None => (Err(InodeOutOfRange(ino)), img)
    case Some(at) =>
      var next := U16(img, at + 26) + delta;
      if 0 <= next < 0x1_0000 then (Ok(()), Put(img, at + 26, Le16(next))) else (Err(DirectoryCorrupt), img)
  }

  /** `bump_used_dirs`. */
  function BumpDirs(img: seq<byte>, L: Layout, ino: nat, delta: int): (r: (Res<()>, seq<byte>))
    requires LayoutOf(|img|, L) && 0 < ino
    ensures |r.1| == |img|
  {
    var g := GroupOfInode(L, ino);
    if g >= L.groupCount then (Err(ImageTooSmall), img)
    else
      GroupStarts(|img|, L, g);
      var next := U16(img, DescAt(L, g) + 16) + delta;
      if 0 <= next < 0x1_0000 then (Ok(()), Put(img, DescAt(L, g) + 16, Le16(next)))
          else (Err(FreeCountInconsistent), img)
  }

  predicate MkdirInBounds(img: seq<byte>, L: Layout, parent: nat, name: seq<byte>) {
    && LayoutOf(|img|, L) && parent < 0x1_0000_0000
    && (PlanCreate(img, L, parent, name).Ok? && NewDirectory(img, L, parent).0.Ok? ==>
          Splittable(NewDirectory(img, L, parent).1, PlanCreate(img, L, parent, name).value, |name|))
  }

  /** `create_directory`. */
  function CreateDirectory(img: seq<byte>, L: Layout, parent: nat, name: seq<byte>): (r: (Res<nat>, seq<byte>))
    requires MkdirInBounds(img, L, parent, name)
    ensures |r.1| == |img|
  {
    match PlanCreate(img, L, parent, name)
    case Err(e) => (Err(e), img)
    case Ok(previous) =>
      var (ino, img1) := NewDirectory(img, L, parent);
      if ino.Err? then (ino, img1)
      else
        var img2 := Insert(img1, previous, ino.value, name, DIRENT_TYPE_DIRECTORY);
        var (links, img3) := BumpLinks(img2, L, parent, 1);
        if links.Err? then (Err(links.error), img3)
        else
          var (dirs, img4) := BumpDirs(img3, L, ino.value, 1);
          if dirs.Err? then (Err(dirs.error), img4) else (ino, img4)
  }

  // ----- removing -----

  datatype Victim = Victim(entry: nat, previous: nat, ino: nat, at: nat)

  /** What both `unlink_file` and `remove_directory` look up first. */
  function PlanRemove(img: seq<byte>, L: Layout, dir: nat, name: seq<byte>): (r: Res<Victim>)
    requires LayoutOf(|img|, L)
    ensures r.Ok? ==>
      && r.value.entry + DIRENT_HEADER_LEN <= |img| && r.value.previous + DIRENT_HEADER_LEN <= |img|
      && InodeAt(img, L, r.value.ino) == Some(r.value.at)
  {
    if |name| == 0 || |name| > MAX_NAME_LEN then Err(BadName)
    else
      match ScanDirectory(img, L, dir, name, USIZE_MAX)
      case Err(e) => Err(e)
      case Ok(scan) =>
        if scan.found.None? then Err(NoSuchEntry)
        else if scan.found.value.previous.None? then Err(NoPreviousEntry)
        else
          ScanSpots(img, L, dir, name, USIZE_MAX);
          var ino := U32(img, scan.found.value.entry);
          match InodeAt(img, L, ino)
          case None => Err(InodeOutOfRange(ino))
          case Some(at) => Ok(Victim(scan.found.value.entry, scan.found.value.previous.value, ino, at))
  }

  /** Give back the content, wipe the slot, give back the inode. */
  function Release(img: seq<byte>, L: Layout, ino: nat, at: nat): (r: (Res<()>, seq<byte>))
    requires LayoutOf(|img|, L) && InodeAt(img, L, ino) == Some(at)
    requires SlotAt(at, CeilQuot(U32(img, at + 4), L.bs)) <= |img|
    ensures |r.1| == |img|
  {
    var (cut, img1) := Truncate(img, L, ino, 0);
    if cut.Err? then (cut, img1) else FreeInode(Put(img1, at, Zeros(L.inodeSize)), L, ino)
  }

  predicate UnlinkInBounds(img: seq<byte>, L: Layout, dir: nat, name: seq<byte>) {
    && LayoutOf(|img|, L)
    && (PlanRemove(img, L, dir, name).Ok? ==>
          var v := PlanRemove(img, L, dir, name).value;
          IsRegularMode(U16(img, v.at)) ==>
            && SlotAt(v.at, CeilQuot(U32(img, v.at + 4), L.bs)) <= |img|
            && (Release(img, L, v.ino, v.at).0.Ok? ==>
                  v.entry + RecLen(Release(img, L, v.ino, v.at).1, v.entry) <= |img|))
  }

  /** `unlink_file`. */
  function UnlinkFile(img: seq<byte>, L: Layout, dir: nat, name: seq<byte>): (r: (Res<()>, seq<byte>))
    requires UnlinkInBounds(img, L, dir, name)
    ensures |r.1| == |img|
  {
    match PlanRemove(img, L, dir, name)
    case Err(e) => (Err(e), img)
    case Ok(v) =>
      if !IsRegularMode(U16(img, v.at)) then (Err(NotARegularFile(v.ino)), img)
      else
        var (freed, img1) := Release(img, L, v.ino, v.at);
        if freed.Err? then (freed, img1) else Remove(img1, v.entry, v.previous)
  }

  /** The loop of `directory_is_empty`. */
  function EmptyFrom(img: seq<byte>, body: nat, offset: nat, bs: nat): Res<bool>
    requires EmptyInBounds(img, body, offset, bs)
    decreases bs - offset
  {
    if offset + DIRENT_HEADER_LEN > bs then Ok(true)
    else
      var entry := body + offset;
      if RecLen(img, entry) < DIRENT_HEADER_LEN || offset + RecLen(img, entry) > bs then Err(DirectoryCorrupt)
      else if U32(img, entry) != 0 && NameAt(img, entry) != DOT && NameAt(img, entry) != DOT_DOT then Ok(false)
      else EmptyFrom(img, body, offset + RecLen(img, entry), bs)
  }

  /** Every record and name that loop looks at is inside the image. */
  predicate EmptyInBounds(img: seq<byte>, body: nat, offset: nat, bs: nat)
    decreases bs - offset
  {
    offset + DIRENT_HEADER_LEN > bs ||
    (body + offset + DIRENT_HEADER_LEN <= |img| &&
     var entry := body + offset;
     (RecLen(img, entry) >= DIRENT_HEADER_LEN && offset + RecLen(img, entry) <= bs ==>
        (U32(img, entry) != 0 ==> entry + DIRENT_HEADER_LEN + NameLen(img, entry) <= |img|)
        && EmptyInBounds(img, body, offset + RecLen(img, entry), bs)))
  }

  /** `directory_is_empty` for the inode at `at`. */
  function IsEmpty(img: seq<byte>, L: Layout, at: nat): Res<bool>
    requires LayoutOf(|img|, L) && at + L.inodeSize <= |img|
    requires var block := U32(img, at + 40); block != 0 ==> EmptyInBounds(img, BlockAt(L, block), 0, L.bs)
  {
    var block := U32(img, at + 40);
    if block == 0 then Ok(true) else EmptyFrom(img, BlockAt(L, block), 0, L.bs)
  }

  /** The removal of a directory that was found stays inside the image. */
  predicate VictimInBounds(img: seq<byte>, L: Layout, parent: nat, v: Victim)
    requires LayoutOf(|img|, L) && InodeAt(img, L, v.ino) == Some(v.at)
    requires v.entry + DIRENT_HEADER_LEN <= |img| && v.previous + DIRENT_HEADER_LEN <= |img|
  {
    IsDirectoryMode(U16(img, v.at)) ==>
      && (U32(img, v.at + 40) != 0 ==> EmptyInBounds(img, BlockAt(L, U32(img, v.at + 40)), 0, L.bs))
      && (IsEmpty(img, L, v.at) == Ok(true) ==>
            && SlotAt(v.at, CeilQuot(U32(img, v.at + 4), L.bs)) <= |img|
            && (Unbumped(img, L, parent, v).0.Ok? ==>
                  v.entry + RecLen(Unbumped(img, L, parent, v).1, v.entry) <= |img|))
  }

  predicate RmdirInBounds(img: seq<byte>, L: Layout, parent: nat, name: seq<byte>) {
    && LayoutOf(|img|, L)
    && (PlanRemove(img, L, parent, name).Ok? ==> VictimInBounds(img, L, parent, PlanRemove(img, L, parent, name).value))
  }

  /** Everything `remove_directory` gives back before it removes the name. */
  function Unbumped(img: seq<byte>, L: Layout, parent: nat, v: Victim): (r: (Res<()>, seq<byte>))
    requires LayoutOf(|img|, L) && InodeAt(img, L, v.ino) == Some(v.at)
    requires SlotAt(v.at, CeilQuot(U32(img, v.at + 4), L.bs)) <= |img|
    ensures |r.1| == |img|
  {
    var (freed, img1) := Release(img, L, v.ino, v.at);
    if freed.Err? then (freed, img1)
    else
      var (dirs, img2) := BumpDirs(img1, L, v.ino, -1);
      if dirs.Err? then (dirs, img2) else BumpLinks(img2, L, parent, -1)
  }

  /** `remove_directory` once the entry is found. */
  function RemoveVictim(img: seq<byte>, L: Layout, parent: nat, v: Victim): (r: (Res<()>, seq<byte>))
    requires LayoutOf(|img|, L) && InodeAt(img, L, v.ino) == Some(v.at)
    requires v.entry + DIRENT_HEADER_LEN <= |img| && v.previous + DIRENT_HEADER_LEN <= |img|
    requires VictimInBounds(img, L, parent, v)
    ensures |r.1| == |img|
  {
    if !IsDirectoryMode(U16(img, v.at)) then (Err(NotADirectory(v.ino)), img)
    else
      match IsEmpty(img, L, v.at)
      case Err(e) => (Err(e), img)
      case Ok(empty) =>
        if !empty then (Err(DirectoryNotEmpty(v.ino)), img)
        else
          var (given, img1) := Unbumped(img, L, parent, v);
          if given.Err? then (given, img1) else Remove(img1, v.entry, v.previous)
  }

  /** `remove_directory`. */
  function RemoveDirectory(img: seq<byte>, L: Layout, parent: nat, name: seq<byte>): (r: (Res<()>, seq<byte>))
    requires RmdirInBounds(img, L, parent, name)
    ensures |r.1| == |img|
  {
    match PlanRemove(img, L, parent, name)
    case Err(e) => (Err(e), img)
    case Ok(v) => RemoveVictim(img, L, parent, v)
  }

  // ----- the scan reports records inside the image -----

  ghost predicate SpotInside(len: nat, s: Option<Spot>) {
    s.Some? ==>
      && s.value.entry + DIRENT_HEADER_LEN <= len
      && (s.value.previous.Some? ==> s.value.previous.value + DIRENT_HEADER_LEN <= len)
  }

  lemma {:induction false} ScanBlockSpots(img: seq<byte>, at: nat, end: nat, previous: Option<nat>, name: seq<byte>,
      want: nat, acc: Scan)
    requires end <= |img| && SpotInside(|img|, acc.found)
    requires previous.Some? ==> previous.value + DIRENT_HEADER_LEN <= |img|
    ensures ScanBlock(img, at, end, previous, name, want, acc).Ok? ==>
      SpotInside(|img|, ScanBlock(img, at, end, previous, name, want, acc).value.found)
    decreases end - at
  {
    if at + DIRENT_HEADER_LEN <= end && RecordOk(img, at, end) {
      ScanBlockSpots(img, at + RecLen(img, at), end, Some(at), name, want, Noted(img, at, previous, name, want, acc));
    }
  }

  lemma {:induction false} ScanFromSpots(img: seq<byte>, L: Layout, dirAt: nat, index: nat, blocks: nat,
      name: seq<byte>, want: nat, acc: Scan)
    requires LayoutOf(|img|, L) && dirAt + L.inodeSize <= |img| && blocks <= DIRECT_BLOCK_COUNT
    requires SpotInside(|img|, acc.found)
    ensures ScanFrom(img, L, dirAt, index, blocks, name, want, acc).Ok? ==>
      SpotInside(|img|, ScanFrom(img, L, dirAt, index, blocks, name, want, acc).value.found)
    decreases blocks - index
  {
    hide ScanBlock, U32, Times;
    if index < blocks {
      var b := U32(img, SlotAt(dirAt, index));
      if b == 0 {
        ScanFromSpots(img, L, dirAt, index + 1, blocks, name, want, acc);
      } else if BlockAt(L, b) + L.bs <= |img| {
        ScanBlockSpots(img, BlockAt(L, b), BlockAt(L, b) + L.bs, None, name, want, acc);
        var x := ScanBlock(img, BlockAt(L, b), BlockAt(L, b) + L.bs, None, name, want, acc);
        if x.Ok? { ScanFromSpots(img, L, dirAt, index + 1, blocks, name, want, x.value); }
      }
    }
  }

  lemma ScanSpots(img: seq<byte>, L: Layout, dir: nat, name: seq<byte>, want: nat)
    requires LayoutOf(|img|, L)
    ensures ScanDirectory(img, L, dir, name, want).Ok? ==>
      SpotInside(|img|, ScanDirectory(img, L, dir, name, want).value.found)
  {
    hide ScanFrom, U32, U16;
    match InodeAt(img, L, dir)
    case None =>
    case Some(at) => ScanFromSpots(img, L, at, 0, ScanBlocks(L, U32(img, at + 4)), name, want, Scan(None, None));
  }
}
