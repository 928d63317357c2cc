/** What the reader decodes and refuses, with every field at its place in the format. */
module Ext2Decode {
  import opened Wrappers
  import opened Bytes
  import opened Ext2Layout
  import opened Ext2File
  import opened Ext2Dirent
  import opened Ext2Reader
  import opened Ext2ReadFile

  // ----- inodes -----

  /** The descriptor of group `g`: 32 bytes each, from the block after the superblock's. */
  function DescriptorAt(L: Layout, g: nat): nat { Times(L.firstData + 1, L.bs) + 32 * g }

  /** Group and index of an inode: numbers start at 1. */
  function GroupAndIndex(L: Layout, ino: nat): (nat, nat)
    requires 0 < ino && 0 < L.ipg
  {
    ((ino - 1) / L.ipg, (ino - 1) % L.ipg)
  }

  /** Where the slot of an inode is: its index in the table `bg_inode_table` names. */
  function PlaceOf(img: seq<byte>, L: Layout, ino: nat): nat
    requires LayoutOf(|img|, L) && 0 < ino && GroupAndIndex(L, ino).0 < L.groupCount
  {
    var (g, i) := GroupAndIndex(L, ino);
    GroupStarts(|img|, L, g);
    Times(U32(img, DescriptorAt(L, g) + 8), L.bs) + Times(i, L.inodeSize)
  }

  /** The three block numbers of a descriptor name blocks of the file system. */
  ghost predicate DescriptorFits(img: seq<byte>, L: Layout, g: nat)
    requires LayoutOf(|img|, L) && g < L.groupCount
  {
    GroupStarts(|img|, L, g);
    var d := DescriptorAt(L, g);
    U32(img, d) < L.blocksCount && U32(img, d + 4) < L.blocksCount && U32(img, d + 8) < L.blocksCount
  }

  /** `i_mode`, `i_size` (with its upper half for a regular file), `i_links_count`, `i_blocks` and the
      15 words of `i_block`. */
  function Decode(img: seq<byte>, ino: nat, at: nat): Inode
    requires at + 128 <= |img|
  {
    var mode := U16(img, at);
    Inode(ino, mode, U32(img, at + 4) + (if mode / 4096 == 8 then 0x1_0000_0000 * U32(img, at + 108) else 0),
          U16(img, at + 26), U32(img, at + 28), seq(15, j requires 0 <= j < 15 => U32(img, at + 40 + 4 * j)))
  }

  /** Inode `ino` can be read. */
  ghost predicate Decodes(img: seq<byte>, L: Layout, ino: nat)
    requires LayoutOf(|img|, L)
  {
    && 0 < ino <= L.inodesCount && GroupAndIndex(L, ino).0 < L.groupCount
    && DescriptorFits(img, L, GroupAndIndex(L, ino).0) && PlaceOf(img, L, ino) + 128 <= |img|
    && forall j :: 0 <= j < 15 ==> Decode(img, ino, PlaceOf(img, L, ino)).blocks[j] < L.blocksCount
  }

  lemma {:induction false} SlotsFit(img: seq<byte>, L: Layout, ino: nat, at: nat, j: nat)
    requires at + 128 <= |img| && j <= 15 && 0 < L.blocksCount
    ensures BadSlot(img, L, at, j).None? <==>
      forall k :: j <= k < 15 ==> Decode(img, ino, at).blocks[k] < L.blocksCount
    decreases 15 - j
  {
    hide U32;
    if j < 15 {
      SlotsFit(img, L, ino, at, j + 1);
      assert Decode(img, ino, at).blocks[j] == U32(img, SlotAt(at, j));
    }
  }

  /** `inode` succeeds exactly then, and returns the fields of the slot. */
  lemma InodeExactly(img: seq<byte>, L: Layout, ino: nat)
    requires LayoutOf(|img|, L)
    ensures InodeOf(img, L, ino).Got? <==> Decodes(img, L, ino)
    ensures Decodes(img, L, ino) ==> InodeOf(img, L, ino) == Got(Decode(img, ino, PlaceOf(img, L, ino)))
    ensures InodeOf(img, L, ino) == Bad(BadInode(ino)) <==> ino == 0 || ino > L.inodesCount
  {
    hide U32, U16, Times, BadSlot;
    if 0 < ino <= L.inodesCount {
      QuotRemIsDivMod(ino - 1, L.ipg);
      var g := GroupOfInode(L, ino);
      if g < L.groupCount {
        var at := PlaceOf(img, L, ino);
        if at + 128 <= |img| {
          SlotsFit(img, L, ino, at, 0);
          assert SlotsOf(img, at) == Decode(img, ino, at).blocks;
        }
      }
    }
  }

  /** The writer finds the slot in the same place. */
  lemma InodeAtPlace(img: seq<byte>, L: Layout, ino: nat)
    requires LayoutOf(|img|, L) && InodeAt(img, L, ino).Some?
    ensures GroupAndIndex(L, ino).0 < L.groupCount && InodeAt(img, L, ino) == Some(PlaceOf(img, L, ino))
    ensures forall j :: 0 <= j < 15 ==> SlotAt(PlaceOf(img, L, ino), j) == PlaceOf(img, L, ino) + 40 + 4 * j
  {
    hide U32, Times;
    QuotRemIsDivMod(ino - 1, L.ipg);
  }

  // ----- directory records -----

  /** The record at `offset`: `rec_len`, `name_len` and the inode number. */
  ghost predicate Sensible(bytes: seq<byte>, L: Layout, offset: nat) {
    && offset + 8 <= |bytes|
    && var recLen, nameLen := U16(bytes, offset + 4), bytes[offset + 6] as nat;
       recLen % 4 == 0 && 8 + nameLen <= recLen <= |bytes| - offset && U32(bytes, offset) <= L.inodesCount
  }

  /** What each error says of a record: the first check that fails, with its numbers. */
  ghost predicate Rejects(bytes: seq<byte>, L: Layout, blockIndex: nat, offset: nat, e: Ext2Error)
    requires offset < |bytes|
  {
    if e.DirEntryTruncated? then e == DirEntryTruncated(blockIndex, |bytes| - offset) && |bytes| - offset < 8
    else
      && offset + 8 <= |bytes|
      && var recLen, nameLen, left := U16(bytes, offset + 4), bytes[offset + 6] as nat, |bytes| - offset;
         match e
         case DirEntryMisaligned(n) => n == recLen && recLen % 4 != 0
         case DirEntryRecordTooSmall(n, m) => n == recLen && m == nameLen && recLen % 4 == 0 && recLen < 8 + nameLen
         case DirEntryRecordPastBlock(n, m) =>
           n == recLen && m == left && recLen % 4 == 0 && 8 + nameLen <= recLen && left < recLen
         case BadInode(i) =>
           i == U32(bytes, offset) > L.inodesCount && recLen % 4 == 0 && 8 + nameLen <= recLen <= left
         case _ => false
  }

  /** The walk takes a record exactly when it makes sense, and otherwise says why not. */
  lemma CheckExactly(bytes: seq<byte>, L: Layout, blockIndex: nat, offset: nat)
    requires offset < |bytes|
    ensures Check(bytes, L, blockIndex, offset).None? <==> Sensible(bytes, L, offset)
    ensures Check(bytes, L, blockIndex, offset).Some? ==>
      Rejects(bytes, L, blockIndex, offset, Check(bytes, L, blockIndex, offset).value)
  {
    hide U16, U32;
  }
}
