# ZeikOS verification

A Dafny model of the parts of the ZeikOS kernel whose correctness is hardest to see from the
code, with proofs over every input, every run and every interleaving.

* **The ext2 file system on one byte image** (`Ext2*.dfy`, `Bytes.dfy`). Every writer operation
  is a function from image to result and image (`Ext2Alloc`, `Ext2File`, `Ext2Dirent`, `Ext2Ops`)
  and a method that changes an `array<byte>` in place and is proved to leave exactly that image
  (`Ext2Writer`, `Ext2WriterOps`). Above them:
  * create, any appends, unlink gives back every byte (`Ext2CreateUnlink`), and so does mkdir
    followed by rmdir (`Ext2MkdirRmdir`); any appends followed by a truncation to the old size
    give back every byte exactly when the file's tail was zero and its sector count right
    (`Ext2AppendTruncate`);
  * one invariant of the whole image, `Ext2Fs.Fs`: metadata areas apart, free counts equal to
    the clear bits they count, free blocks hold no metadata, no block referenced twice, every
    directory in use exactly tiled by records. All six writers keep it, say exactly what they
    change, and leave every inode they do not name byte for byte as it was
    (`Ext2FsFile`, `Ext2FsCut`, `Ext2FsNames`, `Ext2FsTree`);
  * the tree of names an image stands for (`Ext2Tree`), what each writer does to it
    (`Ext2FsView`), and whole runs: every name leads to an inode in use, no inode has two names,
    every record states the kind of its inode, and every link count is the number of records that
    lead there, names are distinct in each directory and can be spelled in a path (`Ext2FsRuns`);
    so a listing tells the truth, a lookup finds exactly what was created and not what was
    unlinked (`Ext2FsListing`), and a path resolves exactly to where its components lead in the
    tree (`Ext2Path`);
  * on such an image, exactly when each writer succeeds, which error it gives otherwise, and what
    it then leaves behind (`Ext2Outcomes`, `Ext2RmdirOutcome`, `Ext2AppendOutcome`); the scan
    reports the last match and the first gap, and the allocators take the lowest free block and
    inode (`Ext2Outcomes`);
  * the reader: the directory walk ends, only moves forward and can be resumed at any entry
    (`Ext2Walk`); it agrees with the writer's scan on every name (`Ext2Lookup`); after an append
    it reads the old content followed by the data (`Ext2FsReads`); byte for byte, any file with
    holes and one indirect table reads as the blocks behind it (`Ext2ReadFile`); it accepts exactly
    the images whose superblock says a layout that fits (`Ext2Superblock`), and decodes inodes and
    records at their places in the format, with the reason for every refusal (`Ext2Decode`);
  * two operations on a small disk worked out by hand, every byte before and after written out
    (`Ext2ByHand`).
* **The big kernel lock, the TLB generation and the frame quarantine** as one multi-core step
  system with one step per atomic access (`Kernel*.dfy`).
* **The physical frame allocator**: the range array as a set, its canonical form, lowest-fit
  allocation, the build from the memory map, and the quarantine in front of it (`Frame*.dfy`).
* **Interrupt guards** dropped in any order (`InterruptGuards.dfy`), **pipes over a ring buffer**
  (`Pipe.dfy`, `PipeRuns.dfy`), **the ELF load-layout check** (`ElfLayout.dfy`), **the two UTF-8
  decoders** (`Utf8.dfy`) and **the page-permission survey** (`PageSurvey.dfy`).

Conventions. The default build is modelled. Machine integers are unbounded numbers with the
source's checks written out: `u16`/`u32` fields are read and written as little-endian bytes,
`checked_add`/`checked_sub` are explicit comparisons, `usize` is taken to be 64 bits wide.
Products, quotients and bit masks are defined by recursion (`Bytes.Times`, `Bytes.Quot`,
`Bytes.Bit`) and related to `*`, `/` and `%` by lemmas. Where an operation fails, its
specification function gives the error and the image that is left.
`InBounds` predicates say where the source would index outside the image; on a sound image they
always hold (`Ext2FsRuns.InBounds`).

What the theorems about images assume:

* `Ext2Layout.Geometry`: the superblock, the group table, the bitmaps and the inode tables lie
  inside the image and do not overlap, and a bitmap is long enough for its group. Every writer
  theorem assumes it, and every writer keeps it.
* `Ext2Unwind.Dense`: an inode's first `n` direct slots hold `n` different used data blocks and
  the other direct slots are zero. `Ext2Directory.Dir` adds that each block of a directory is
  exactly tiled by records.
* `Ext2Unwind.FreeIsData`: free blocks hold no metadata. `Ext2Unwind.FreeIsZero`: they are zero,
  which is how the writers leave them. The byte-for-byte round trips need this, and the one for
  files and directories also that unused inode slots and the slack after directory records are
  zero (`Ext2RoundTrip.Pristine`, `Ext2DirBlock.SlackZero`): otherwise there is no telling what
  was there before.
* `Ext2Fs.Fs`: the invariant above. It holds of every image of a run that starts sound.
* `Ext2FsRuns.Sound`: that, names that form a tree (`Ext2Tree.TreeOk`) and are counted right
  (`Ext2Tree.LinksCounted`), distinct and well spelled (`Ext2Tree.Spelled`).

A disk of eight blocks with an empty root directory meets all of them at once
(`Ext2SmallDisk.HypothesesMet`).

Where the code does less than one might expect, the code is followed. Each of these has an input
(`Ext2SmallDisk`) and the exact condition:

* A refused operation does not always leave the image alone. `create_directory` with an inode but
  no block to be had answers `Full` and keeps the inode (`Ext2Outcomes.CreateDirectoryRefused`); a
  refused append keeps the blocks it had linked (`Ext2AppendOutcome.RefusedAppendUnchanged`); with
  64 KiB blocks `unlink_file` can free the file and then fail to remove its name
  (`Ext2Outcomes.UnlinkFileOutcome`), and `remove_directory` fails halfway on a counter that is 0 or
  an entry that leads to the directory itself (`Ext2RmdirOutcome.RemoveDirectoryOutcome`).
* `directory_is_empty` looks at the first block only, so `remove_directory` removes a directory with
  names in later blocks (`Ext2FsTree.EmptyExact`).
* `unlink_file` does not look at the link count: another name of the file then leads to a free
  inode (`Ext2FsView.UnlinkLeads`).

Elsewhere: a write of zero bytes to a pipe with room answers `Full` (`PipeRuns.FullMeansFullRing`);
guards dropped out of order unmask interrupts early (`InterruptGuards.OutOfOrderUnmasks`, with the
exact condition in `MaskedExactlyWhen`). That a task which finds a pipe empty or full goes to sleep
in one step rests on the big kernel lock: it is held from looking at the pipe until the task is
marked as waiting (kernel/src/syscall.rs:1124-1139), and writes of zero bytes are answered before
they get there (kernel/src/syscall.rs:1157-1159).

`dafny verify dfyconfig.toml` checks everything.

## Model

| member | source | states |
|---|---|---|
| Ext2Alloc.GiveUndoesTake | common/src/ext2.rs:1336-1432 | freeing what was just allocated restores every byte: the bit and both counters |
| Ext2Areas.AllocBlockTakes | common/src/ext2.rs:1336-1388 | a successful allocation hands out a block whose bit was clear and takes exactly it; a failed one changes nothing |
| Ext2Areas.AllocInodeTakes | common/src/ext2.rs:1658-1717 | the same for inodes, never one below the first unreserved number |
| Ext2Areas.TakeBit | common/src/ext2.rs:1336-1388 | taking a position sets that bit, lowers both its counters by one and leaves every other bit of every bitmap |
| Ext2Areas.GiveBit | common/src/ext2.rs:1394-1432 | giving back clears that bit, raises both counters by one and leaves every other bit |
| Ext2Writer.AllocateBlock | common/src/ext2.rs:1336-1388 | the in-place search and update leave exactly the image and result of the specification |
| Ext2Writer.ReleaseBlock | common/src/ext2.rs:1394-1432 | in place, against the specification, all four errors included |
| Ext2Writer.AllocateInode | common/src/ext2.rs:1658-1717 | in place; the bit is set before the counters are checked, so the last error leaves it set |
| Ext2Writer.ReleaseInode | common/src/ext2.rs:1723-1758 | in place, against the specification |
| Ext2Writer.LocateInode | common/src/ext2.rs:1241-1259 | the offset of a slot that is wholly inside the image, or nothing |
| Ext2Writer.AppendToFile | common/src/ext2.rs:1459-1537 | the loop over chunks leaves the image of the specification, partial writes on error included |
| Ext2Writer.TruncateTo | common/src/ext2.rs:1546-1629 | the loop over slots, the wiped tail and the size fields, against the specification |
| Ext2Writer.ScanNames | common/src/ext2.rs:1780-1846 | both nested loops compute the scan: last match, first gap, or the error |
| Ext2Writer.InsertDirent | common/src/ext2.rs:2262-2280 | splits the record in place as specified |
| Ext2Writer.RemoveDirent | common/src/ext2.rs:2291-2313 | merges and wipes in place as specified, or refuses a length that does not fit |
| Ext2WriterOps.MakeFile | common/src/ext2.rs:1873-1949 | `create_file` in place, every error path included |
| Ext2WriterOps.RemoveFile | common/src/ext2.rs:1974-2002 | `unlink_file` in place |
| Ext2WriterOps.MakeDirectory | common/src/ext2.rs:2029-2118 | `create_directory` in place |
| Ext2WriterOps.DropDirectory | common/src/ext2.rs:2134-2172 | `remove_directory` in place |
| Ext2WriterOps.OnlyDotEntries | common/src/ext2.rs:2180-2210 | the loop of `directory_is_empty` |
| Ext2WriterOps.ChangeLinks | common/src/ext2.rs:2216-2226 | the link count moved by delta, or an error when it would leave 16 bits |
| Ext2WriterOps.ChangeDirs | common/src/ext2.rs:2231-2249 | the group's directory count moved by delta, or an error |
| Ext2Unwind.FreeSlotUndoesLink | common/src/ext2.rs:1546-1629 | wiping, unlinking and freeing a block undoes taking, linking and filling a zeroed one, byte for byte |
| Ext2Append.AppendLoopGrows | common/src/ext2.rs:1459-1537 | the loop grows a dense file by exactly the blocks the new size needs, keeps everything foreign, and cutting back undoes it |
| Ext2DirBlock.InsertTiles | common/src/ext2.rs:2262-2280 | the block stays exactly tiled and gains exactly the one binding |
| Ext2DirBlock.RemoveTiles | common/src/ext2.rs:2291-2313 | the block stays exactly tiled and loses exactly the one binding |
| Ext2DirBlock.RemoveUndoesInsert | common/src/ext2.rs:2262-2313 | merging the inserted record back restores every byte when the slack was zero |
| Ext2Outcomes.ScanBlockExact | common/src/ext2.rs:1780-1846 | in a block the last match and the first gap are reported, and nothing exactly when there is none |
| Ext2Outcomes.ScanDirectoryExact | common/src/ext2.rs:1780-1846 | over the whole directory: the last record of the name or none exactly when no live record binds it, the first record with the space or none exactly when no live record has it |
| Ext2DirChange.DirInsert | common/src/ext2.rs:2262-2280 | the directory stays well formed, one block changes, and the multiset of bindings gains one |
| Ext2DirChange.DirRemove | common/src/ext2.rs:2291-2313 | the directory stays well formed and the multiset of bindings loses one |
| Ext2CreateUnlink.CreateAppendUnlink | common/src/ext2.rs:1873-2002 | on a well-formed image whose unused places are zero, create, any successful appends, then unlink succeed and give back every byte |
| Ext2MkdirRmdir.CreateRemoveDirectory | common/src/ext2.rs:2029-2249 | a successful mkdir followed by rmdir succeeds and gives back every byte, link count, directory count, bitmaps and free counts included |
| Ext2AppendTruncate.AppendTruncate | common/src/ext2.rs:1459-1629 | on a dense file of any size, any successful appends followed by a truncation to the old size succeed and leave exactly what that truncation alone leaves |
| Ext2AppendTruncate.AppendTruncateRestores | common/src/ext2.rs:1459-1629 | they restore every byte if and only if the bytes after the old end were zero and `i_blocks` was the count of the size |
| Ext2AppendTruncate.CutsLoop | common/src/ext2.rs:1473-1509 | throughout the append loop, freeing the blocks past the old size gives the old image up to the tail and the size fields |
| Ext2Accounting.TakeAccounts | common/src/ext2.rs:1336-1388 | taking a block or inode keeps every group count equal to its clear bits and the totals equal to the sums |
| Ext2Accounting.GiveAccounts | common/src/ext2.rs:1394-1432 | giving one back keeps them equal |
| Ext2Accounting.AllocBlockComplete | common/src/ext2.rs:1336-1388 | under the accounting invariant allocation succeeds or answers Full, and Full exactly when no block is free |
| Ext2Giving.AllocInodeComplete | common/src/ext2.rs:1658-1717 | the same for inodes: Full exactly when no unreserved inode is free |
| Ext2Giving.FreeBlockSucceeds | common/src/ext2.rs:1394-1432 | under the invariant freeing a used block cannot fail: no counter is at its limit |
| Ext2Giving.FreeBlockRefuses | common/src/ext2.rs:1394-1432 | freeing a free or out-of-range block reports which and changes nothing |
| Ext2Giving.FreeInodeSucceeds | common/src/ext2.rs:1723-1758 | under the invariant freeing a used inode cannot fail |
| Ext2Giving.FreeInodeRefuses | common/src/ext2.rs:1723-1758 | freeing a free inode is refused and changes nothing |
| Ext2Outcomes.AllocBlockLowest | common/src/ext2.rs:1336-1388 | every block below the one handed out is used |
| Ext2Outcomes.AllocInodeLowest | common/src/ext2.rs:1658-1717 | every unreserved inode below the one handed out is used |
| Ext2AppendOutcome.AllocCounts | common/src/ext2.rs:1336-1388 | under the accounting invariant allocation succeeds exactly when the superblock's free count is not zero, and lowers it by one |
| Ext2AppendOutcome.AppendOutcome | common/src/ext2.rs:1459-1537 | succeeds exactly when there are direct slots and free blocks for the new size, else answers Full, with the size unchanged and as many blocks taken as there were |
| Ext2AppendOutcome.AppendRefused | common/src/ext2.rs:1459-1537 | a refused append leaves the image sound and everybody else untouched; the file's extra references are blocks that were free, and its blocks hold the old content and as much of the data as fits |
| Ext2AppendOutcome.RefusedAppendUnchanged | common/src/ext2.rs:1459-1537 | it leaves the image unchanged if and only if no slot or no block was left and the rest of the last block held the first bytes of the data already |
| Ext2Outcomes.CreateFileOutcome | common/src/ext2.rs:1873-1949 | bad name, name taken, no room and no inode each exactly when so, in that order, with the image unchanged; success otherwise |
| Ext2Outcomes.CreateDirectoryOutcome | common/src/ext2.rs:2029-2118 | the same refusals; with an inode but no block, Full with the inode taken; otherwise success exactly when neither the parent's link count nor the group's directory count is at its limit |
| Ext2Outcomes.CreateDirectoryRefused | common/src/ext2.rs:2029-2118 | a refused mkdir leaves the image unchanged if and only if the entry was refused or no inode was free |
| Ext2Outcomes.PlanRemoveExact | common/src/ext2.rs:1974-1990 | bad name, no such entry, no previous entry and no such inode each exactly when so, in that order, about the last record of the name; otherwise that record is the victim |
| Ext2Outcomes.UnlinkFileOutcome | common/src/ext2.rs:1974-2002 | refusals that look only leave the image unchanged; past them it succeeds exactly when the inode is in use and the merged record fits 16 bits; where the record does not fit, the file is gone and its name still bound |
| Ext2RmdirOutcome.RemoveDirectoryOutcome | common/src/ext2.rs:2134-2210 | refusals that look only leave the image unchanged, among them a first block that is not empty; past them it succeeds exactly when neither counter is 0, the victim is not the parent itself and the merged record fits; where it fails, which error, and that the inode is free and its name still bound |
| Ext2RmdirOutcome.ReleaseKeepsDirs | common/src/ext2.rs:2134-2172 | giving back content, slot and inode leaves every group's directory count |
| Ext2SmallDisk.HypothesesMet | common/src/ext2.rs:598-714 | one image, given by its bytes, is accepted with its layout, meets the invariant of runs and the round trips' hypothesis, and lets a file be created |
| Ext2SmallDisk.RefusalChangesImage | common/src/ext2.rs:2029-2118 | an image on which a refused mkdir changes the image |
| Ext2SmallDisk.RefusedAppendChangesImage | common/src/ext2.rs:1459-1537 | a file and data that does not fit: the append is refused and the image is not the one it was given |
| Ext2SmallDisk.UnlinkLeavesName | common/src/ext2.rs:1974-2002 | two names for one inode: unlinking one leaves the other leading to a free inode |
| Ext2SmallDisk.UnlinkFailsHalfway | common/src/ext2.rs:1974-2002 | 64 KiB blocks and a directory block of two records: unlinking the second frees the file and fails |
| Ext2SmallDisk.RemovesNonEmpty | common/src/ext2.rs:2134-2210 | a directory with a name in its second block is removed |
| Ext2SmallDisk.RootFreesItself | common/src/ext2.rs:2134-2172 | an empty root asked to remove its own `..` is freed, and the removal fails |
| Ext2FsFile.AppendKeepsFs | common/src/ext2.rs:1459-1537 | a successful append keeps the image sound, makes the content the old one followed by the data, keeps mode and link count, makes 512 times `i_blocks` the bytes of the blocks, and touches nobody else |
| Ext2FsCut.TruncateKeepsFs | common/src/ext2.rs:1546-1629 | cutting back always succeeds on a sound image, leaves exactly the first bytes, keeps mode and link count and the law of `i_blocks`, keeps the image sound and touches nobody else |
| Ext2FsCut.TruncateOutcome | common/src/ext2.rs:1546-1629 | it succeeds exactly when it would not lengthen the file; otherwise it answers NotAllocated with the image unchanged |
| Ext2FsNames.CreateKeepsFs | common/src/ext2.rs:1873-1949 | a successful create keeps the image sound, adds exactly one binding, of kind 1, of a name that was not there to an inode that was free; the new file has mode 0x81A4, one link, no sectors and no content; everybody else is untouched |
| Ext2FsNames.UnlinkKeepsFs | common/src/ext2.rs:1974-2002 | a successful unlink was of an inode in use; it keeps the image sound, removes exactly one binding, frees the inode, everybody else is untouched |
| Ext2FsNames.ReleaseWithin | common/src/ext2.rs:1974-2002 | giving back content, slot and inode cannot fail on a sound image and touches only the inode's own blocks |
| Ext2FsNames.ReleaseRefused | common/src/ext2.rs:1974-2002 | on an inode that is free already it gives back the blocks and then fails |
| Ext2FsTree.MkdirKeepsFs | common/src/ext2.rs:2029-2118 | a successful mkdir keeps the image sound, adds one binding of kind 2 to the parent and one link; the new directory has mode 0x41ED, two links and one block, and binds exactly `.` and `..`, both of kind 2 |
| Ext2FsTree.RmdirKeepsFs | common/src/ext2.rs:2134-2172 | a successful rmdir keeps the image sound, removes one binding, frees the inode of a directory whose first block bound only `.` and `..`, and takes one link from the parent |
| Ext2FsTree.EmptyMeans | common/src/ext2.rs:2180-2210 | on a tiled block the emptiness check stays in bounds and answers whether only `.` and `..` are bound |
| Ext2FsTree.VictimBlock | common/src/ext2.rs:2180-2210 | the answer is exactly about the first block of the directory |
| Ext2FsTree.EmptyExact | common/src/ext2.rs:2180-2210 | the answer is whether the directory is empty if and only if a directory whose first block is empty has nothing in its other blocks either |
| Ext2FsTree.OwnEntry | common/src/ext2.rs:2134-2172 | a removal through an entry that leads to the directory itself frees it and then fails |
| Ext2FsRuns.InBounds | common/src/ext2.rs:1459-2313 | on a sound image no operation reads or writes outside the image |
| Ext2FsView.AppendView | common/src/ext2.rs:1459-1537 | an append changes nothing of which name leads where |
| Ext2FsView.TruncateView | common/src/ext2.rs:1546-1629 | nor does a truncation |
| Ext2FsView.CreateView | common/src/ext2.rs:1873-1949 | a successful create does to the tree of names exactly this: a new inode in use, a regular file with one link, and one entry of kind 1 that leads to it |
| Ext2FsView.MkdirView | common/src/ext2.rs:2029-2118 | a successful mkdir: a directory with two links, an entry of kind 2 that leads to it, its `.` and `..`, and one more link of the directory above |
| Ext2FsView.UnlinkView | common/src/ext2.rs:1974-2002 | a successful unlink: one entry less and its inode no longer in use |
| Ext2FsView.RmdirView | common/src/ext2.rs:2134-2172 | a successful rmdir: the same, the directory gone, and one link less of the directory above |
| Ext2FsView.CreateLeads | common/src/ext2.rs:1873-1949 | a successful create keeps every name leading to an inode in use |
| Ext2FsView.MkdirLeads | common/src/ext2.rs:2029-2118 | so does a successful mkdir |
| Ext2FsView.UnlinkLeads | common/src/ext2.rs:1974-2002 | a successful unlink does if and only if no other live record led to the inode |
| Ext2FsView.RmdirLeads | common/src/ext2.rs:2134-2172 | a successful rmdir does if and only if no live record outside the directory but the removed one led to it |
| Ext2Tree.PrunedOk | common/src/ext2.rs:1974-2172 | in a tree of names (every name leads to an inode in use and states its kind, none has two names, the dots lead home) a removal leaves a tree if and only if the removed name was the only one |
| Ext2Tree.BareIsSole | common/src/ext2.rs:1974-2172 | in such a tree the name of a file or of an empty directory is the only one |
| Ext2Tree.EnteredCounted | common/src/ext2.rs:1873-1949 | a new file's one name is its one link, and every other link count stays the number of records |
| Ext2Tree.PlantedCounted | common/src/ext2.rs:2029-2118 | a new directory's name and `.` are its two links, its `..` the one more of the directory above, and every link count stays the number of records |
| Ext2Tree.PrunedCounted | common/src/ext2.rs:1974-2172 | removing a file or an empty directory keeps every link count the number of records |
| Ext2Tree.EnteredSpelled | common/src/ext2.rs:1873-1949 | a new name of 1 to 255 bytes without a slash that is not taken keeps all names such names, distinct in each directory |
| Ext2FsRuns.ValidIsProper | common/src/ext2.rs:1873-1886 | the names that can be created are exactly those of 1 to 255 bytes without a slash, the dots aside |
| Ext2FsRuns.StepKeepsSound | common/src/ext2.rs:1459-2313 | any successful operation keeps the invariant, the tree of names, the kinds, the link counts, the spelling and distinctness of names and every inode it does not name |
| Ext2FsRuns.RunKeepsSound | common/src/ext2.rs:1459-2313 | every image of every run of successful operations is sound and its names form a tree |
| Ext2FsRuns.RunNamesLead | common/src/ext2.rs:1459-2313 | at every point of every run every name leads to an inode in use and no inode has two names |
| Ext2FsRuns.RunNamesTell | common/src/ext2.rs:1459-2313 | and every entry has kind 1 exactly when its inode has a regular mode, kind 2 exactly when a directory mode, and the inode's link count is the number of records that lead to it |
| Ext2FsRuns.RunKeepsSmall | common/src/ext2.rs:1459-2313 | from an image whose directories have one block each, the same whatever directories are removed, and the directories stay so |
| Ext2FsRuns.RunKeepsOthers | common/src/ext2.rs:1459-2313 | across any run, an inode no operation names keeps its slot, its references and the bytes of every block it references |
| Ext2Reader.ParseGivesLayout | common/src/ext2.rs:598-714 | every image `parse` accepts satisfies the layout facts all other operations rely on |
| Ext2ByHand.CreateByHand | common/src/ext2.rs:1873-1949 | creating `a` on a disk given by its bytes hands out inode 3 and changes exactly the bytes listed |
| Ext2ByHand.MkdirByHand | common/src/ext2.rs:2029-2118 | so does making directory `a`: both bitmaps, five counters, slot, block, record and link count |
| Ext2Superblock.RefusedRightly | common/src/ext2.rs:598-714 | every other image is refused with the first check that fails and the number it failed on |
| Ext2Decode.InodeExactly | common/src/ext2.rs:867-931 | `inode` succeeds exactly for a number in range whose descriptor and 15 block words name blocks of the file system, and returns the fields of the slot, each from its place |
| Ext2Decode.InodeAtPlace | common/src/ext2.rs:1241-1259 | the writer finds slot and block words in the same places |
| Ext2Decode.CheckExactly | common/src/ext2.rs:531-570 | the walk takes a record exactly when its length is a multiple of 4, covers header and name, stays in the block and its inode number is in range; otherwise the error says which, with its numbers |
| Ext2ByHand.PathsByHand | common/src/ext2.rs:1083-1109 | that disk meets what the theorem about paths asks, and `/` is its root |
| Ext2Superblock.ParseExactly | common/src/ext2.rs:598-714 | `parse` yields a layout exactly when the fields of the superblock, at their places in the format, say it and it fits the image |
| Ext2ReadFile.FileBlockExactly | common/src/ext2.rs:933-1016 | on any accepted image a block reads exactly when it starts before the end, no double or triple slot is used, the table reaches it and the block behind exists; it is then the bytes of slot `index` or of table word `index - 12`, zeros for a hole, cut at the size |
| Ext2ReadFile.ReadAllExactly | common/src/ext2.rs:933-1016 | a whole file reads exactly when every byte's block does, and gives as many bytes as the size says, each from the block behind it |
| Ext2ReadFile.BehindIsRef | common/src/ext2.rs:967-1016 | the block behind an index is the reference the invariant speaks of |
| Ext2ReadFile.SoundFilesRead | common/src/ext2.rs:933-1016 | on a sound image every file in use within the table's reach reads to its end |
| Ext2FsReads.FileBlockIs | common/src/ext2.rs:933-965 | block `j` of a direct file reads as exactly the bytes of the block its slot names, up to the size |
| Ext2Walk.RoundMoves | common/src/ext2.rs:498-592 | one turn of the walk stays inside the block and moves at least 8 bytes, to the next block, or ends |
| Ext2Walk.DirectoryWalk | common/src/ext2.rs:1038-1057 | on any accepted image, any directory inode and any start: at most one item per 8 bytes and one more, errors only last, and restarting at any entry's next offset yields exactly the rest |
| Ext2Walk.Resume | common/src/ext2.rs:498-592 | the restart property from any cursor, errors included |
| Ext2Walk.DirEntries.TakeTurn | common/src/ext2.rs:498-592 | one turn of the loop in place, against the specification |
| Ext2Walk.DirEntries.Advance | common/src/ext2.rs:498-592 | the iterator object refines the walk: each call takes exactly the first remaining item |
| Ext2Lookup.WalkIsNames | common/src/ext2.rs:498-592 | the walk of a well-formed directory is exactly its bindings, in order |
| Ext2FsListing.ListingTells | common/src/ext2.rs:451-592 | listing any directory of a sound image succeeds, and each entry's kind and its inode's link count are what the inodes and the names say |
| Ext2FsListing.SoundLookup | common/src/ext2.rs:1119-1127 | in a directory of a sound image a lookup misses exactly the names that are not taken and leads to the one inode every other is bound to |
| Ext2FsListing.CreatedIsFound | common/src/ext2.rs:1119-1949 | what was created is found under its name |
| Ext2FsListing.UnlinkedIsGone | common/src/ext2.rs:1119-2002 | what was unlinked is not |
| Ext2Path.PathFollowsTree | common/src/ext2.rs:1083-1109 | on a sound image whose inodes can be read an absolute path resolves exactly when it has at most 64 components and they lead somewhere from inode 2 in the tree of names, and then to that inode; with a slash at the end only to a directory |
| Ext2Path.SplitSpelled | common/src/ext2.rs:1090-1094 | splitting at the slashes and dropping empty pieces undoes spelling a path, with or without a slash at the end |
| Ext2Path.FollowsTree | common/src/ext2.rs:1088-1102 | any pieces, empty ones included, followed from any inode in use lead where the tree says |
| Ext2Lookup.SearchFinds | common/src/ext2.rs:1119-1127 | the lookup loop leads to the inode of the first item of the name |
| Ext2Lookup.ScanAgreesWithLookup | common/src/ext2.rs:1119-1127 | with distinct names, writer's scan and reader's lookup miss the same names and lead to the same inode for the others |
| Ext2FsReads.UntouchedReads | common/src/ext2.rs:867-1016 | an untouched inode decodes the same and every one of its blocks reads the same, indirect ones included |
| Ext2FsReads.ReadAllIs | common/src/ext2.rs:933-1016 | concatenating `file_block` over a direct file yields its content |
| Ext2FsReads.AppendReads | common/src/ext2.rs:933-1016 | after an append the reader gets the old content followed by the data, and every other inode reads back unchanged |
| KernelSafety.LockStep | kernel/src/bkl.rs:433-492 | flag, diagnostic holder and in-section counter keep telling the truth about the one owner, step by step |
| KernelSafety.FlagStep | common/src/critical.rs:248-268 | every step keeps interrupts masked above and inside a masked entry |
| KernelFrames.FramesStep | kernel/src/quarantine.rs:98-206 | every step keeps each frame in exactly one place |
| KernelFrames.StaleStep | kernel/src/bkl.rs:379-424 | a stale translation stays accounted for by a generation its core has not seen |
| KernelFrames.TlbStep | kernel/src/bkl.rs:396-424 | every step keeps each TLB entry live or accounted for |
| KernelRuns.RunInv | kernel/src/bkl.rs:319-492 | the whole invariant holds in every state of every run |
| KernelRuns.FreeIsUnreachable | kernel/src/bkl.rs:379-424 | in every state of every run no TLB holds a translation to a free frame |
| KernelRuns.FramesConserved | kernel/src/quarantine.rs:98-206 | frames are conserved, and a release moves exactly one from quarantine to free |
| KernelRuns.RetiresAfterEveryoneAcquired | kernel/src/bkl.rs:379-382 | a quarantined frame is releasable once every participating core has acquired the lock once since |
| KernelRuns.MutualExclusion | kernel/src/bkl.rs:433-492 | at most one entry holds the lock, its core has IF=0, the in-section count is at most 1 |
| KernelRuns.HaltIsRecursion | kernel/src/bkl.rs:433-476 | the spinning core halts exactly when it already holds the lock itself, in an entry below |
| KernelRuns.NoHaltWithoutReentry | kernel/src/bkl.rs:433-476 | without a call of `acquire` from inside the lock nobody ever halts |
| KernelRuns.EntryRestoresFlag | common/src/critical.rs:248-268 | leaving an entry puts IF back to what it was when the entry began |
| FrameTable.Canonical | kernel/src/frame_allocator.rs:203-271 | the set of free frames determines the range table |
| FrameTable.InsertAdds | kernel/src/frame_allocator.rs:203-271 | inserting fresh frames keeps ranges non-empty, sorted and separated, and adds exactly those frames |
| FrameTable.InsertTouches | kernel/src/frame_allocator.rs:203-254 | an insertion needs a range of its own if and only if neither neighbouring frame is free |
| FrameTable.OrderDoesNotMatter | kernel/src/frame_allocator.rs:203-307 | giving back the same frames in any order and any pieces yields the identical table |
| FrameTable.CarveTakes | kernel/src/frame_allocator.rs:332-416 | cutting a run out of a range keeps the form and removes exactly those frames |
| FrameTable.FirstFitIsLowest | kernel/src/frame_allocator.rs:332-416 | the first range that fits gives the lowest free aligned run, and none fits exactly when there is no such run |
| FrameAllocator.FrameAllocator.InsertFreeRange | kernel/src/frame_allocator.rs:203-254 | in place; a failed insert changes nothing and happens exactly when a new range is needed and the array is full |
| FrameAllocator.FrameAllocator.TryMergeForward | kernel/src/frame_allocator.rs:258-271 | the forward merge in place |
| FrameAllocator.FrameAllocator.AllocateFrame | kernel/src/frame_allocator.rs:278-301 | the lowest free frame, none exactly when nothing is free, and exactly that frame leaves the set |
| FrameAllocator.FrameAllocator.DeallocateFrame | kernel/src/frame_allocator.rs:304-307 | exactly that frame joins the set, or nothing changes |
| FrameAllocator.FrameAllocator.AllocateContiguousAligned | kernel/src/frame_allocator.rs:332-387 | the lowest aligned run, refused exactly for a senseless request, when there is none, or when the lowest needs a split and the array is full |
| FrameAllocator.FrameAllocator.AllocateContiguous | kernel/src/frame_allocator.rs:389-416 | the lowest run, none exactly when there is none |
| FrameBuild.InsertCounts | kernel/src/frame_allocator.rs:168-173 | the free count grows by exactly the frames inserted |
| FrameBuild.Build | kernel/src/frame_allocator.rs:650-688 | on success a frame is free exactly when it is not 0 and an entry of type 7 covers it, every exclusion counter is the pages of exactly its types, the null-page counter the free entries that start at frame 0, and all of them with the free frames are all pages of the map; it fails only where the array is full and the next entry touches no free frame |
| FrameBuild.Quarantine.Push | kernel/src/quarantine.rs:163-176 | the first empty slot and no other takes the frame; a full quarantine counts an overflow and keeps it out |
| FrameBuild.Quarantine.ReleaseRetired | kernel/src/quarantine.rs:182-206 | exactly frames of retired generations go back, one by one, none lost or freed twice; a retired frame stays only because at some point the array was full and the frame next to no free one; all go back when there is room |
| FrameBuild.Quarantine.HeldCount | kernel/src/quarantine.rs:223-225 | the number of occupied slots |
| InterruptGuards.AllDroppedRestores | common/src/critical.rs:164-215 | whatever the drop order, with no guard alive IF and depth are back |
| InterruptGuards.DepthCountsGuards | common/src/critical.rs:164-215 | the nesting depth is the number of live `InterruptGuard`s |
| InterruptGuards.NestedStaysMasked | common/src/critical.rs:164-268 | properly nested guards keep interrupts masked while any is alive |
| InterruptGuards.OutOfOrderUnmasks | common/src/critical.rs:203-215 | dropped out of order they do not: a concrete run |
| InterruptGuards.MaskedExactlyWhen | common/src/critical.rs:164-268 | interrupts are masked exactly when they were off to begin with or the guard that found them on is alive |
| Pipe.Ring.Put | kernel/src/ring.rs:67-75 | as many bytes as there is room for join the end of the queue |
| Pipe.Ring.Take | kernel/src/ring.rs:56-64 | bytes leave the front of the queue in order |
| Pipe.PipeSlot.Create | kernel/src/pipe.rs:135-154 | a free slot becomes an empty pipe with one writer; a slot in use is refused |
| Pipe.PipeSlot.ClaimReservedReader | kernel/src/pipe.rs:159-166 | the reservation becomes a reader, once |
| Pipe.PipeSlot.DropReservation | kernel/src/pipe.rs:174-191 | the reservation goes, and the slot with it if nothing else holds it |
| Pipe.PipeSlot.ReadInto | kernel/src/pipe.rs:210-233 | bytes from the front, end of file, or empty |
| Pipe.PipeSlot.WriteFrom | kernel/src/pipe.rs:257-282 | bytes at the end, full, or no reader |
| Pipe.PipeSlot.CloseReadEnd | kernel/src/pipe.rs:287-304 | one reader less, whether it was the last, and release when unused |
| Pipe.PipeSlot.CloseWriteEnd | kernel/src/pipe.rs:311-331 | one writer less, whether it was the last, and release when unused |
| PipeRuns.RunInv | kernel/src/pipe.rs:135-331 | in every state of every run the bytes written are those read followed by those queued, and the counts of ends are the ends opened less those closed |
| PipeRuns.ReadIsPrefix | kernel/src/pipe.rs:210-282 | at every point of every run the bytes read are a prefix of the bytes written |
| PipeRuns.EofMeansAll | kernel/src/pipe.rs:210-233 | at end of file everything ever written has been read |
| PipeRuns.EofExactly | kernel/src/pipe.rs:210-233 | a read answers end of file exactly when nothing is queued and every write end opened since `create` has been closed |
| PipeRuns.NoReaderExactly | kernel/src/pipe.rs:257-282 | a write answers that there is no reader exactly when every read end opened has been closed and none is promised |
| PipeRuns.ReadTakesAll | kernel/src/pipe.rs:210-233 | a read takes bytes from the front and stops only at what was asked for or at the end of the queue; Empty exactly when nothing is queued and a write end is open |
| PipeRuns.WriteGivesAll | kernel/src/pipe.rs:257-282 | a write stops only at its last byte or at a full ring of 256 |
| PipeRuns.SleepersHaveReason | kernel/src/pipe.rs:174-331 | a reader sleeps only on an empty pipe with a writer, a writer only on a full one with a reader or reservation |
| PipeRuns.InUseExactlyWhileHeld | kernel/src/pipe.rs:68-72 | the slot is in use exactly while an end is open or a reader promised |
| PipeRuns.EmptyWriteReportsFull | kernel/src/pipe.rs:257-282 | why writes must not be empty: a write of nothing answers Full on a pipe with room |
| PipeRuns.FullMeansFullRing | kernel/src/pipe.rs:257-282 | Full means a full ring, whatever the pipe, if and only if the write was not empty |
| ElfLayout.CheckLoadLayout | common/src/elf.rs:314-353 | accepts exactly the lists the rules allow, and otherwise reports the first segment at fault with an error that says what is wrong with it, and the page in question |
| ElfLayout.AllPairsApart | common/src/elf.rs:314-353 | in an accepted list all pairs are disjoint and in order |
| ElfLayout.SharedPages | common/src/elf.rs:314-353 | a page several segments touch has one permission set and file data only from the first |
| ElfLayout.NoPageWritableAndExecutable | common/src/elf.rs:314-353 | no page is both writable and executable, across segments |
| Utf8.CharAt | common/src/text.rs:200-219 | a character of its announced length when well formed, else one replacement of one byte |
| Utf8.EncodedReads | common/src/text.rs:200-219 | every Unicode scalar value's encoding (section 3 of RFC 3629) is well formed and reads as that value |
| Utf8.ReadsEncoded | common/src/text.rs:200-219 | every well-formed sequence is the encoding of the value it reads as |
| Utf8.CharAtExactly | common/src/text.rs:200-219 | `char_at` answers with a value and its length exactly where its encoding stands |
| Utf8.TextReads | common/src/text.rs:134-219 | any text reads back from its encoding, through `char_at` and through the stream |
| Utf8.CodePointsDiffer | common/src/text.rs:200-219 | different well-formed sequences are different characters, so there are no overlong forms |
| Utf8.FeedAgrees | common/src/text.rs:134-191 | one fed byte: output, then what is held in front of the rest, reads as before |
| Utf8.DecodersAgree | common/src/text.rs:134-219 | on every byte string the stream's output and one replacement per held byte equal repeated `char_at` |
| Utf8.Utf8Decoder.FeedByte | common/src/text.rs:134-161 | the decoder object does what the specification says |
| Utf8.FindPrevBoundary | common/src/text.rs:244-259 | the backward search loop |
| Utf8.NothingAcross | common/src/text.rs:233-259 | no multi-byte character reaches across a position the forward walk stops at |
| Utf8.PrevUndoesNext | common/src/text.rs:233-259 | back undoes forward on every reachable position, broken input included |
| Utf8.NextUndoesPrev | common/src/text.rs:233-259 | forward undoes back on every reachable position |
| PageSurvey.SameUntilCut | kernel/src/page_survey.rs:202-237 | between two cuts every unit has the same narrowest region |
| PageSurvey.Survey.Put | kernel/src/page_survey.rs:239-274 | the row of the key grows, a row is added, or the drop is counted |
| PageSurvey.RowsSay | kernel/src/page_survey.rs:202-274 | a row's pages are exactly the units whose narrowest region carries its name and mark (or that are in no region) with its size and permissions; it counts exactly when one of their regions does |
| PageSurvey.Survey.Add | kernel/src/page_survey.rs:202-237 | every unit of the run is charged once; every row stays exact whatever is dropped; a key has no row only if the table is full, and exactly if a drop was counted |
| PageSurvey.PagesAddUp | kernel/src/page_survey.rs:202-274 | the pages of all rows sum to the mapped units |
| PageSurvey.DigestSees | kernel/src/page_survey.rs:298-330 | one row replaced changes the digest exactly when the hashes of the two rows differ modulo 2^64 |
| PageSurvey.DigestIgnoresOrder | kernel/src/page_survey.rs:298-330 | the digest is the same for any order and any re-chunking of the same mapped units |

## Left out

- Truncating or unlinking a file with holes or indirect blocks, and the writers on corrupt images: the functions model the code there as far as it stays inside the image, the theorems need a file without holes whose blocks are all direct.
- `Debug` output, feature words and the free counts kept by the reader: they would add easy members only.
- Hard links are not made by this writer; a run starts from an image on which no inode has two names.
- Blocks reached through double or triple indirection are not counted as references; the reader refuses such files.
- Shared memory frames mapped in two address spaces: each mapped frame belongs to one space in the step system.
- Weak memory ordering, the timeout of the spin loop, diagnostics and the real CR3 and flag instructions: the step system is sequentially consistent.
- The step system lets a root switch keep TLB entries and a core walk any space, which is more than the hardware does.
- `Locked<T>`: its swap, holder and drop order are those of the big kernel lock, and contention halts; only its guard is modelled.
- Reading the raw bytes of the memory map (`parse_entries`): `Build` starts from the entries. Of `classify` only the question `build` asks is modelled, whether a type is free.
- `Elf::parse`, program headers and segment data: bounds checks on one header at a time.
- The Fnv hash behind the survey digest: any hash of a row will do.
- Region bounds of the survey are taken in whole 4 KiB units, after the rounding of `bounds`.
- `display_column`, `line_end` and the other cursor helpers on top of the boundaries.
- Sabotage features and test scaffolding.
