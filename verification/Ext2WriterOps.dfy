/** Creating and removing files and directories in place. */
module Ext2WriterOps {
  import opened Wrappers
  import opened Bytes
  import opened Ext2Layout
  import opened Ext2Alloc
  import opened Ext2File
  import opened Ext2Dirent
  import opened Ext2Ops
  import opened Ext2Writer

  lemma PutInside(s: seq<byte>, at: nat, x: seq<byte>, o: nat, y: seq<byte>)
    requires at + |x| <= |s| && o + |y| <= |x|
    ensures Put(s, at, Put(x, o, y)) == Put(Put(s, at, x), at + o, y)
  {
  }

  /** The slot of a fresh regular file, written field by field. */
  method WriteFreshFile(image: array<byte>, L: Layout, at: nat)
    requires LayoutOf(image.Length, L) && at + L.inodeSize <= image.Length
    modifies image
    ensures image[..] == Put(old(image[..]), at, FreshFile(image.Length, L))
  {
    hide Put, Le16, LayoutOf;
    ExtraFits(image.Length, L);
    ghost var img := image[..];
    Wipe(image, at, L.inodeSize);
    Store(image, at, Le16(FILE_MODE));
    ghost var a := Put(Zeros(L.inodeSize), 0, Le16(FILE_MODE));
    PutInside(img, at, Zeros(L.inodeSize), 0, Le16(FILE_MODE));
    if L.wantExtra != 0 {
      Store(image, at + 128, Le16(L.wantExtra));
      PutInside(img, at, a, 128, Le16(L.wantExtra));
    }
    Store(image, at + 26, Le16(1));
    PutInside(img, at, WithExtra(a, L), 26, Le16(1));
  }

  /** What both creations check first. */
  method Plan(image: array<byte>, L: Layout, dir: nat, name: seq<byte>) returns (r: Res<nat>)
    requires LayoutOf(image.Length, L)
    ensures r == PlanCreate(image[..], L, dir, name)
  {
    hide ScanDirectory, Span, LayoutOf;
    if |name| == 0 || |name| > MAX_NAME_LEN || SEPARATOR in name || name == DOT || name == DOT_DOT {
      return Err(BadName);
    }
    var scan := ScanNames(image, L, dir, name, Span(|name|));
    if scan.Err? { return Err(scan.error); }
    if scan.value.found.Some? { return Err(NameTaken); }
    if scan.value.room.None? { return Err(NoRoomInDirectory); }
    r := Ok(scan.value.room.value.entry);
  }

  /** `create_file`. */
  method MakeFile(image: array<byte>, L: Layout, dir: nat, name: seq<byte>) returns (r: Res<nat>)
    requires CreateInBounds(image[..], L, dir, name)
    modifies image
    ensures (r, image[..]) == CreateFile(old(image[..]), L, dir, name)
  {
    hide PlanCreate, InodeAt, AllocInode, Put, FreshFile, Insert, Splittable;
    var previous := Plan(image, L, dir, name);
    if previous.Err? { return Err(previous.error); }
    var ino := AllocateInode(image, L);
    if ino.Err? { return ino; }
    var at := LocateInode(image, L, ino.value);
    if at.None? { return Err(InodeOutOfRange(ino.value)); }
    WriteFreshFile(image, L, at.value);
    NameFits(old(image[..]), L, dir, name);
    InsertDirent(image, previous.value, ino.value, name, DIRENT_TYPE_REGULAR);
    r := ino;
  }

  lemma NameFits(img: seq<byte>, L: Layout, dir: nat, name: seq<byte>)
    requires LayoutOf(|img|, L) && PlanCreate(img, L, dir, name).Ok?
    ensures |name| <= MAX_NAME_LEN && L.inodesCount < 0x1_0000_0000
  {
  }

  /** `unlink_file` and `remove_directory` up to the inode of the entry. */
  method FindVictim(image: array<byte>, L: Layout, dir: nat, name: seq<byte>) returns (r: Res<Victim>)
    requires LayoutOf(image.Length, L)
    ensures r == PlanRemove(image[..], L, dir, name)
  {
    hide ScanDirectory, LayoutOf, InodeAt, U32;
    if |name| == 0 || |name| > MAX_NAME_LEN { return Err(BadName); }
    var scan := ScanNames(image, L, dir, name, USIZE_MAX);
    if scan.Err? { return Err(scan.error); }
    if scan.value.found.None? { return Err(NoSuchEntry); }
    var spot := scan.value.found.value;
    if spot.previous.None? { return Err(NoPreviousEntry); }
    ScanSpots(image[..], L, dir, name, USIZE_MAX);
    var ino := ReadU32(image, spot.entry);
    var at := LocateInode(image, L, ino);
    if at.None? { return Err(InodeOutOfRange(ino)); }
    r := Ok(Victim(spot.entry, spot.previous.value, ino, at.value));
  }

  /** Content, slot and inode given back. */
  method GiveBack(image: array<byte>, L: Layout, ino: nat, at: nat) returns (r: Res<()>)
    requires LayoutOf(image.Length, L) && InodeAt(image[..], L, ino) == Some(at)
    requires SlotAt(at, CeilQuot(U32(image[..], at + 4), L.bs)) <= image.Length
    modifies image
    ensures (r, image[..]) == Release(old(image[..]), L, ino, at)
  {
    hide InodeAt, Truncate, FreeInode, CeilQuot, U32, Put, LayoutOf;
    r := TruncateTo(image, L, ino, 0);
    if r.Err? { return r; }
    Wipe(image, at, L.inodeSize);
    r := ReleaseInode(image, L, ino);
  }

  /** `unlink_file`. */
  method RemoveFile(image: array<byte>, L: Layout, dir: nat, name: seq<byte>) returns (r: Res<()>)
    requires UnlinkInBounds(image[..], L, dir, name)
    modifies image
    ensures (r, image[..]) == UnlinkFile(old(image[..]), L, dir, name)
  {
    hide PlanRemove, InodeAt, Release, CeilQuot, Remove, U16, U32, IsRegularMode;
    var victim := FindVictim(image, L, dir, name);
    if victim.Err? { return Err(victim.error); }
    var v := victim.value;
    if !IsRegularMode(ReadU16(image, v.at)) { return Err(NotARegularFile(v.ino)); }
    r := GiveBack(image, L, v.ino, v.at);
    if r.Err? { return r; }
    r := RemoveDirent(image, v.entry, v.previous);
  }

  // ----- directories -----

  method WriteFreshDirectory(image: array<byte>, L: Layout, at: nat, block: nat)
    requires LayoutOf(image.Length, L) && at + L.inodeSize <= image.Length && block < 0x1_0000_0000
    modifies image
    ensures image[..] == Put(old(image[..]), at, FreshDirectory(image.Length, L, block))
  {
    hide Put, Le16, Le32, LayoutOf;
    ExtraFits(image.Length, L);
    ghost var img := image[..];
    ghost var z := Zeros(L.inodeSize);
    Wipe(image, at, L.inodeSize);
    Store(image, at, Le16(DIRECTORY_MODE));
    PutInside(img, at, z, 0, Le16(DIRECTORY_MODE));
    ghost var a := Put(z, 0, Le16(DIRECTORY_MODE));
    Store(image, at + 4, Le32(L.bs));
    PutInside(img, at, a, 4, Le32(L.bs));
    ghost var b := Put(a, 4, Le32(L.bs));
    Store(image, at + 26, Le16(2));
    PutInside(img, at, b, 26, Le16(2));
    ghost var c := Put(b, 26, Le16(2));
    Store(image, at + 28, Le32(SectorsPerBlock(L)));
    PutInside(img, at, c, 28, Le32(SectorsPerBlock(L)));
    ghost var d := Put(c, 28, Le32(SectorsPerBlock(L)));
    Store(image, at + 40, Le32(block));
    PutInside(img, at, d, 40, Le32(block));
    if L.wantExtra != 0 {
      Store(image, at + 128, Le16(L.wantExtra));
      PutInside(img, at, Put(d, 40, Le32(block)), 128, Le16(L.wantExtra));
    }
  }

  method WriteFreshBody(image: array<byte>, L: Layout, body: nat, ino: nat, parent: nat)
    requires LayoutOf(image.Length, L) && body + L.bs <= image.Length && ino < 0x1_0000_0000 && parent < 0x1_0000_0000
    modifies image
    ensures image[..] == Put(old(image[..]), body, FreshBody(image.Length, L, ino, parent))
  {
    hide Put, RecordBytes, LayoutOf;
    ghost var img := image[..];
    Wipe(image, body, L.bs);
    var dot := RecordBytes(ino, DOT_LEN, DOT, DIRENT_TYPE_DIRECTORY);
    Store(image, body, dot);
    PutInside(img, body, Zeros(L.bs), 0, dot);
    var dotdot := RecordBytes(parent, L.bs - DOT_LEN, DOT_DOT, DIRENT_TYPE_DIRECTORY);
    Store(image, body + DOT_LEN, dotdot);
    PutInside(img, body, Put(Zeros(L.bs), 0, dot), DOT_LEN, dotdot);
  }

  /** `bump_links`. */
  method ChangeLinks(image: array<byte>, L: Layout, ino: nat, delta: int) returns (r: Res<()>)
    requires LayoutOf(image.Length, L)
    modifies image
    ensures (r, image[..]) == BumpLinks(old(image[..]), L, ino, delta)
  {
    hide InodeAt, U16, Put, Le16, LayoutOf;
    var at := LocateInode(image, L, ino);
    if at.None? { return Err(InodeOutOfRange(ino)); }
    var next := ReadU16(image, at.value + 26) + delta;
    if !(0 <= next < 0x1_0000) { return Err(DirectoryCorrupt); }
    Store(image, at.value + 26, Le16(next));
    r := Ok(());
  }

  /** `bump_used_dirs`. */
  method ChangeDirs(image: array<byte>, L: Layout, ino: nat, delta: int) returns (r: Res<()>)
    requires LayoutOf(image.Length, L) && 0 < ino
    modifies image
    ensures (r, image[..]) == BumpDirs(old(image[..]), L, ino, delta)
  {
    hide U16, Put, Le16, LayoutOf, GroupOfInode, Times;
    var g := GroupOfInode(L, ino);
    if g >= L.groupCount { return Err(ImageTooSmall); }
    GroupStarts(image.Length, L, g);
    var next := ReadU16(image, DescAt(L, g) + 16) + delta;
    if !(0 <= next < 0x1_0000) { return Err(FreeCountInconsistent); }
    Store(image, DescAt(L, g) + 16, Le16(next));
    r := Ok(());
  }

  /** An inode and a block taken, and both initialised. */
  method TakeDirectory(image: array<byte>, L: Layout, parent: nat) returns (r: Res<nat>)
    requires LayoutOf(image.Length, L) && parent < 0x1_0000_0000
    modifies image
    ensures (r, image[..]) == NewDirectory(old(image[..]), L, parent)
  {
    hide InodeAt, AllocInode, AllocBlock, Put, FreshDirectory, FreshBody, Times;
    var ino := AllocateInode(image, L);
    if ino.Err? { return ino; }
    var block := AllocateBlock(image, L);
    if block.Err? { return Err(block.error); }
    var at := LocateInode(image, L, ino.value);
    if at.None? { return Err(InodeOutOfRange(ino.value)); }
    DataBlockInside(image[..], L, block.value);
    WriteFreshDirectory(image, L, at.value, block.value);
    WriteFreshBody(image, L, BlockAt(L, block.value), ino.value, parent);
    r := ino;
  }

  /** `create_directory`. */
  method MakeDirectory(image: array<byte>, L: Layout, parent: nat, name: seq<byte>) returns (r: Res<nat>)
    requires MkdirInBounds(image[..], L, parent, name)
    modifies image
    ensures (r, image[..]) == CreateDirectory(old(image[..]), L, parent, name)
  {
    hide PlanCreate, NewDirectory, Insert, BumpLinks, BumpDirs, Splittable;
    var previous := Plan(image, L, parent, name);
    if previous.Err? { return Err(previous.error); }
    var ino := TakeDirectory(image, L, parent);
    if ino.Err? { return ino; }
    NameFits(old(image[..]), L, parent, name);
    InsertDirent(image, previous.value, ino.value, name, DIRENT_TYPE_DIRECTORY);
    var links := ChangeLinks(image, L, parent, 1);
    if links.Err? { return Err(links.error); }
    var dirs := ChangeDirs(image, L, ino.value, 1);
    if dirs.Err? { return Err(dirs.error); }
    r := ino;
  }

  /** The loop of `directory_is_empty`. */
  method OnlyDotEntries(image: array<byte>, body: nat, bs: nat) returns (r: Res<bool>)
    requires EmptyInBounds(image[..], body, 0, bs)
    ensures r == EmptyFrom(image[..], body, 0, bs)
  {
    hide U16, U32;
    var offset := 0;
    while offset + DIRENT_HEADER_LEN <= bs
      invariant EmptyInBounds(image[..], body, offset, bs)
      invariant EmptyFrom(image[..], body, 0, bs) == EmptyFrom(image[..], body, offset, bs)
      decreases bs - offset
    {
      var entry := body + offset;
      var recLen := ReadU16(image, entry + 4);
      if recLen < DIRENT_HEADER_LEN || offset + recLen > bs { return Err(DirectoryCorrupt); }
      if ReadU32(image, entry) != 0 {
        var nameLen := image[entry + 6];
        var dot := SameName(image, entry + DIRENT_HEADER_LEN, nameLen, DOT);
        var dotDot := SameName(image, entry + DIRENT_HEADER_LEN, nameLen, DOT_DOT);
        if !dot && !dotDot { return Ok(false); }
      }
      offset := offset + recLen;
    }
    r := Ok(true);
  }

  /** `remove_directory`. */
  method DropDirectory(image: array<byte>, L: Layout, parent: nat, name: seq<byte>) returns (r: Res<()>)
    requires RmdirInBounds(image[..], L, parent, name)
    modifies image
    ensures (r, image[..]) == RemoveDirectory(old(image[..]), L, parent, name)
  {
    hide PlanRemove, InodeAt, Release, CeilQuot, Remove, U16, U32, IsDirectoryMode, EmptyFrom, EmptyInBounds,
      BumpLinks, BumpDirs, Times;
    var victim := FindVictim(image, L, parent, name);
    if victim.Err? { return Err(victim.error); }
    var v := victim.value;
    if !IsDirectoryMode(ReadU16(image, v.at)) { return Err(NotADirectory(v.ino)); }
    var block := ReadU32(image, v.at + 40);
    if block != 0 {
      var empty := OnlyDotEntries(image, BlockAt(L, block), L.bs);
      if empty.Err? { return Err(empty.error); }
      if !empty.value { return Err(DirectoryNotEmpty(v.ino)); }
    }
    r := GiveBack(image, L, v.ino, v.at);
    if r.Err? { return r; }
    r := ChangeDirs(image, L, v.ino, -1);
    if r.Err? { return r; }
    r := ChangeLinks(image, L, parent, -1);
    if r.Err? { return r; }
    r := RemoveDirent(image, v.entry, v.previous);
  }
}
