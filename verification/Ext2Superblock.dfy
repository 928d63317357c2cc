/** What `parse` accepts: exactly the images whose superblock says, field by field at the places of
    the format, a layout that fits the image. */
module Ext2Superblock {
  import opened Bytes
  import opened Ext2Layout
  import opened Ext2Reader

  /** The fields of the superblock at byte 1024: `s_inodes_count`, `s_blocks_count`,
      `s_first_data_block`, `s_log_block_size`, `s_blocks_per_group`, `s_inodes_per_group`, `s_magic`,
      `s_rev_level`, `s_first_ino`, `s_inode_size`, `s_feature_incompat` and `s_want_extra_isize`. */
  ghost predicate Says(img: seq<byte>, L: Layout) {
    && 1024 + 104 <= |img|
    && U32(img, 1024) == L.inodesCount && U32(img, 1024 + 4) == L.blocksCount && U32(img, 1024 + 20) == L.firstData
    && U32(img, 1024 + 24) <= 6 && L.bs == 1024 * Pow2(U32(img, 1024 + 24))
    && U32(img, 1024 + 32) == L.bpg && U32(img, 1024 + 40) == L.ipg
    && U16(img, 1024 + 56) == 0xEF53 && U32(img, 1024 + 76) == 1
    && U32(img, 1024 + 84) == L.firstInode && U16(img, 1024 + 88) == L.inodeSize && U32(img, 1024 + 96) in {0, 2}
    && L.wantExtra == ExtraSaid(img, L.inodeSize)
  }

  /** `s_want_extra_isize`, when it is in the image and fits the inode. */
  ghost function ExtraSaid(img: seq<byte>, inodeSize: nat): nat {
    if 1024 + 352 <= |img| && 128 + U16(img, 1024 + 350) <= inodeSize then U16(img, 1024 + 350) else 0
  }

  /** The number of groups follows from the block count. */
  lemma GroupsAre(n: nat, unit: nat, groups: nat)
    requires unit > 0 && groups > 0 && Times(groups - 1, unit) < n <= Times(groups, unit)
    ensures CeilQuot(n, unit) == groups
  {
    CeilBounds(n, unit);
    var c := CeilQuot(n, unit);
    if c < groups {
      if c < groups - 1 { TimesMonotone(c, groups - 1, unit); }
    } else if groups < c {
      if groups < c - 1 { TimesMonotone(groups, c - 1, unit); }
    }
  }

  lemma SizesSay(img: seq<byte>, bs: nat, inodeSize: nat, L: Layout)
    requires |img| >= 1024 + 104 && Says(img, L) && LayoutOf(|img|, L) && bs == L.bs && inodeSize == L.inodeSize
    ensures ParseSizes(img, bs, inodeSize) == Got(L)
  {
    hide U16, U32, Times, CeilQuot, Pow2;
    GroupsAre(L.blocksCount - L.firstData, L.bpg, L.groupCount);
  }

  /** `parse` yields layout `L` exactly when the superblock says so and the layout fits the image. */
  lemma ParseExactly(img: seq<byte>, L: Layout)
    ensures Parse(img) == Got(L) <==> Says(img, L) && LayoutOf(|img|, L)
  {
    hide U16, U32, Times, CeilQuot, Pow2;
    if Parse(img) == Got(L) {
      ParseGivesLayout(img);
      ParsedSays(img, L);
    }
    if Says(img, L) && LayoutOf(|img|, L) { SizesSay(img, L.bs, L.inodeSize, L); }
  }

  lemma ParsedSays(img: seq<byte>, L: Layout)
    requires Parse(img) == Got(L)
    ensures Says(img, L)
  {
    hide U16, U32, Times, CeilQuot, Pow2;
    var incompat := U32(img, 1024 + 96);
    assert incompat == 0 || incompat == 2;
  }

  // ----- what is refused -----

  /** The superblock is there, of the one revision, with a block size. */
  ghost predicate Sized(img: seq<byte>) {
    && 1024 + 104 <= |img| && U16(img, 1024 + 56) == 0xEF53 && U32(img, 1024 + 76) == 1 && U32(img, 1024 + 24) <= 6
  }

  /** A power of two from 128 to the block size. */
  ghost predicate InodesSized(img: seq<byte>)
    requires Sized(img)
  {
    var n := U16(img, 1024 + 88);
    n in {128, 256, 512, 1024, 2048, 4096, 8192, 16384, 32768} && n <= 1024 * Pow2(U32(img, 1024 + 24))
  }

  /** The incompatible features other than file types in directory records. */
  ghost function Unknown(img: seq<byte>): nat
    requires 1024 + 104 <= |img|
  {
    var bits := U32(img, 1024 + 96);
    if bits / 2 % 2 == 1 then bits - 2 else bits
  }

  ghost predicate Understood(img: seq<byte>) {
    Sized(img) && InodesSized(img) && Unknown(img) == 0
  }

  /** Why an image is refused: the first check that fails, with the number it failed on. */
  ghost predicate Refuses(img: seq<byte>, e: Ext2Error) {
    match e
    case TooShort => |img| < 1024 + 104
    case BadMagic => 1024 + 104 <= |img| && U16(img, 1024 + 56) != 0xEF53
    case UnsupportedRevision(r) => 1024 + 104 <= |img| && U16(img, 1024 + 56) == 0xEF53 && r == U32(img, 1024 + 76) != 1
    case BadBlockSizeShift(n) =>
      1024 + 104 <= |img| && U16(img, 1024 + 56) == 0xEF53 && U32(img, 1024 + 76) == 1 && n == U32(img, 1024 + 24) > 6
    case BadInodeSize(n) => Sized(img) && n == U16(img, 1024 + 88) && !InodesSized(img)
    case UnsupportedIncompatFeatures(bits) => Sized(img) && InodesSized(img) && bits == Unknown(img) != 0
    case ZeroPerGroup => Understood(img) && (U32(img, 1024 + 32) == 0 || U32(img, 1024 + 40) == 0)
    case ImageShort(needed, actual) =>
      Understood(img) && needed == Times(U32(img, 1024 + 4), 1024 * Pow2(U32(img, 1024 + 24))) > |img| == actual
    case BadBlock(b) => Understood(img) && b == U32(img, 1024 + 20) >= U32(img, 1024 + 4)
    case GroupDescriptorsOutOfRange => Understood(img) && !TableFits(img)
    case _ => false
  }

  /** The group table, from the block after the superblock's, lies in the image. */
  ghost predicate TableFits(img: seq<byte>)
    requires Sized(img)
  {
    var first, blocks, bpg := U32(img, 1024 + 20), U32(img, 1024 + 4), U32(img, 1024 + 32);
    bpg > 0 && first < blocks
    && Times(first + 1, 1024 * Pow2(U32(img, 1024 + 24))) + 32 * CeilQuot(blocks - first, bpg) <= |img|
  }

  lemma RefusedRightly(img: seq<byte>)
    requires Parse(img).Bad?
    ensures Refuses(img, Parse(img).error)
  {
    hide U16, U32, Times, CeilQuot, Pow2;
    if Sized(img) { assert Unknown(img) == 0 || !Understood(img); }
  }
}
