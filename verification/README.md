# Models and proofs for a systems-programming portfolio

This project models, in Dafny, the parts of the repository that keep state under
real invariants, and proves what the code does: where the code meets its
documented promise, that it does; where it does not, exactly when it does.

| files | what they model |
|---|---|
| `Ospfs*.dfy` | the OSPFS kernel module: block allocator, pointer trees, resizing, reading and writing, directories, and whole runs of calls |
| `Osprd*.dfy` | the ticketed reader/writer lock of the RAM disk, and every interleaving of its requests |
| `Shell*.dfy` | the shell parser and printer |
| `Md5*.dfy` | two copies of MD5 that buffer and count differently |
| `Format*.dfy` | the OSPFS image formatter: block cache, tree builder, bitmap, and the volume that the kernel module finds on the finished disk |
| `PeerText.dfy`, `PeerBuffer.dfy` | message formatting and scanning, and the circular task buffer, of the peer-to-peer client |
| `SchedosShare.dfy` | the proportional-share scheduler |
| `Common.dfy` | what several of them use |

`dafny verify dfyconfig.toml` checks everything.

## How the models are built

Each imperative part exists twice: as functions on values, which follow the
source line by line and carry the theorems, and as classes and loops over
arrays and fields, whose `ensures` clauses equate the new state with those
functions of the old one.

* **OSPFS.** `OspfsVolume` has the abstract steps: a set of free blocks, and for
  each file a map from places in the pointer tree (`Slot`) to block numbers.
  `Sound` says that no block is reached twice and every reached block is a used
  data block; `Tight` adds that every tree has the shape its size calls for and
  that no used block is lost. `OspfsModule` runs the same steps on bitmap words,
  disk bytes and inode fields. `OspfsFile` puts a byte-array view above that, and
  `OspfsDir`, `OspfsNames` and `OspfsRuns` add directories and runs of calls;
  `OspfsEntries` says what each call does to entries and look-ups.
  What concerns one file (`GoodFile`) asks for nothing of the others.
  `OspfsWitness` has volumes from which runs start, `OspfsDepartures` one input
  for each line that does not do what its comment says.
* **Lock.** An event is one region of `osprd_ioctl` that holds the mutex, or one
  evaluation of the condition a sleeping request waits for. `granted` is the
  history of grants.
* **Shell.** A `Source` is a tree together with what a text may choose (optional
  semicolons, order of the redirects). Parsing is compared with the texts of
  trees in both directions; `ShellFaults` says what a text without one is reported
  for.
* **MD5.** The step tables are the ones of the two files, line by line. The
  ghost field `message` is everything fed so far. `Md5Vectors` ties what both
  copies share to the values that RFC 1321 prints.
* **Formatter.** The cache refines a flat disk; `storeblk` and the writing loop
  are functions on the flat disk and methods that go through the cache.
  `FormatFiles` follows many files and what is in them, `FormatVolume` reads the finished
  image with the kernel module's own look-ups.

## Where the code departs from its own comments

The models follow the code. Each departure has a lemma that says exactly when it
matters.

* `File_System/ospfsmod.c:797`: `indir_index(n) == 0` also holds for file blocks
  266 to 521, so these overwrite entries of the first indirect block
  (`OspfsLayout.StoredInPlaceIff`, `OspfsExact.AddBlockExact`; an input:
  `OspfsDepartures.MisfiledBlock266`).
* `File_System/ospfsmod.c:994-1001`: when a block under the doubly indirect one
  becomes empty, the first indirect block is freed instead
  (`OspfsExact.RemoveBlockExact`, `OspfsResize.ShrinkExact`; an input:
  `OspfsDepartures.MisfreedBlock266`).
* `File_System/ospfsmod.c:1067-1075`: after the rollback the loop starts again
  instead of returning -ENOSPC (`OspfsGrow.ChangeSizeNeverNoSpace`). On a disk
  without room it goes round for ever, with two exceptions: past a misfiled block
  the rollback gives up with -EIO, and a rollback that frees the first indirect
  block may let the second attempt through
  (`OspfsHang.GrowHangsExactly`; inputs for both outcomes:
  `OspfsDepartures.FullDiskHangs`, `OspfsDepartures.OneShortSucceeds`).
* `File_System/ospfsmod.c:634`: the guard also protects the first data block
  when the inode count is a multiple of 16 (`OspfsLayout.RefusedDataBlocks`; an
  input: `OspfsDepartures.RefusedFirstBlock`). In every run that starts with the
  root directory owning that block it never matters (`OspfsRuns.NothingRefused`).
* `File_System/ospfsmod.c:1535-1553`: the inode found has no names, but a write
  through a file that was unlinked while it was open may have given it blocks;
  they are lost (`OspfsRuns.CreateLoses`, `OspfsWitness.OpenUnlinkedRunLeaks`).
* `File_System/ospfsmod.c:1466`: a linked name is stored without a terminator
  (`OspfsDir.StoredNames`, `OspfsEntries.LinkIsFound`).
* `File_System/ospfsmod.c:1150-1213`: reading behind the end gives -EIO, not 0
  (`OspfsFile.Read`).
* `Shell_Interpreter/parser.c:191,274,331,364`: the scans look at the token at
  `end` too. It never matters for ranges that the parser itself makes, and the
  lines that `read-command.c` passes end at a newline, a semicolon or the end of
  the array; `ShellSound.LooksPastTheEnd` shows a range for which it does.
* `File_System/md5.c:272-281`: two carry tests count a carry twice and the bytes
  beyond 2^32 are not shifted on (`Md5Digest.FinalLengthExact`).
* `P2P/writescan.c:204`: the overflow guard refuses the ten largest integers
  (`PeerText.NumberExact`).
* `WeensyOS/weensyos2/schedos-kern.c:278-292`: shares are zero until a process
  sets its own; with no positive share the scheduler does not end
  (`SchedosShare.EndsExactly`).

## Model

| member | source | states |
|---|---|---|
| OspfsLayout.RefusedDataBlocks | File_System/ospfsmod.c:628-639 | the guard of `free_block` refuses exactly one block of the data area, the first, and only when the inode count is a multiple of 16 |
| OspfsLayout.Size2NBlocks | File_System/ospfsmod.c:138-142 | the least number of blocks that holds the size, except that the 32-bit sum wraps to zero for the last 1023 sizes |
| OspfsLayout.SizeStep | File_System/ospfsmod.c:138-142 | adding or taking 1024 bytes in 32 bits moves the block count by exactly one and is undone by the other, although the size may wrap below zero |
| OspfsLayout.SlotIndexOfDataSlot | File_System/ospfsmod.c:661-732 | the places for file blocks in the pointer tree and the file block numbers correspond one to one (one direction) |
| OspfsLayout.DataSlotOfSlotIndex | File_System/ospfsmod.c:661-732 | the other direction of that correspondence |
| OspfsLayout.StoredInPlaceIff | File_System/ospfsmod.c:797-798 | `add_block` stores file block `n` in its own place if and only if `n` is not one of the 256 blocks from 266 on |
| OspfsLayout.MisfiledOverwrites | File_System/ospfsmod.c:797-850 | the place that a misfiled block takes belongs to an earlier block of the same file |
| OspfsSafety.AddBlockSound | File_System/ospfsmod.c:766-898 | whatever it returns, no block is reached twice afterwards and every reached block is a used block of the data area |
| OspfsSafety.RemoveBlockSound | File_System/ospfsmod.c:923-1010 | the same for removing a block, including the removals that lose blocks |
| OspfsSafety.ShrinkToSound | File_System/ospfsmod.c:1078-1087 | the same for any number of removals |
| OspfsSafety.GrowToSound | File_System/ospfsmod.c:1055-1076 | the same for the growing loop with its rollbacks, after any number of rounds |
| OspfsSafety.ChangeSizeSound | File_System/ospfsmod.c:1049-1095 | the same for resizing, for every volume in which it holds before |
| OspfsExact.AddBlockExact | File_System/ospfsmod.c:766-898 | for a file in shape it succeeds exactly when as many blocks are free as the new file block costs (one, or two with a new pointer block), changes nothing otherwise, and leaves the file in shape, and a volume in order in order, exactly when the new block is not misfiled |
| OspfsExact.RemoveBlockExact | File_System/ospfsmod.c:923-1010 | on a volume in order it never fails, and leaves the volume in order exactly when it neither drops the first indirect block by mistake nor gives back the refused block |
| OspfsExact.CutKeepsTight | File_System/ospfsmod.c:924-1010 | cutting a file back loses no block and keeps all trees in shape, unless the refused block is cut off |
| OspfsExact.CutUndoesAdd | File_System/ospfsmod.c:766-1010 | removing the block just added gives the very same volume back, whatever the other files look like |
| OspfsCount.NewSlotsCount | File_System/ospfsmod.c:797-890 | how many blocks the next file block costs: one, two or three |
| OspfsCount.ShapedCount | File_System/ospfsmod.c:739-765 | a file of `n` blocks owns exactly its data blocks and the indirect blocks above them |
| OspfsCount.Ledger | File_System/ospfsmod.c:596-639 | free blocks and blocks that file sizes account for add up to the data area: nothing leaks |
| OspfsCount.LedgerOfTwo | File_System/ospfsmod.c:596-639 | between two volumes in order that differ in one file, free blocks make up for the difference of the trees |
| OspfsResize.SmallFilesAreClean | File_System/ospfsmod.c:797-1005 | files of at most 266 blocks stay clear of both faulty lines |
| OspfsResize.ShrinkToIsCut | File_System/ospfsmod.c:1078-1087 | repeated removal from a file in shape gives it its first blocks, everything behind them free, and nothing else changed |
| OspfsResize.ShrinkBackExact | File_System/ospfsmod.c:1067-1075 | a rollback ends with exactly the cut-back file if and only if none of the blocks it removes is misfreed |
| OspfsResize.ShrinkExact | File_System/ospfsmod.c:1078-1087 | shrinking leaves a volume in order if and only if no removed block is misfreed and the refused block is not given back |
| OspfsGrow.AddSucceedsIff | File_System/ospfsmod.c:766-898 | the next block can be had if and only if the free blocks cover the cost of the longer tree |
| OspfsGrow.GrowSucceeds | File_System/ospfsmod.c:1055-1076 | with room the growing loop ends after as many rounds as blocks are missing and keeps every old block in place; the rest of the volume need not be in order |
| OspfsGrow.GrowSpins | File_System/ospfsmod.c:1055-1076 | without room, if every part of the growth that there is room for can be cut off again, the loop goes round for ever and the volume is always the old one with some blocks added that a cut takes away again |
| OspfsGrow.RollbackExact | File_System/ospfsmod.c:1067-1075 | from as far as the growth got, the rollback restores the volume exactly if and only if none of the blocks it removes is misfreed |
| OspfsGrow.GrownTight | File_System/ospfsmod.c:1055-1076 | growth loses no block: a volume in order stays in order |
| OspfsGrow.GrowToConserves | File_System/ospfsmod.c:1055-1076 | however often the loop goes round, free blocks and blocks of the file together never become more |
| OspfsGrow.GrowExact | File_System/ospfsmod.c:1055-1076 | growing a file in shape leaves it in shape if and only if no block is misfiled on the way and there is room, in any sound volume |
| OspfsGrow.ChangeSizeGrows | File_System/ospfsmod.c:1049-1095 | the same for the whole resizing towards a larger size, with the old blocks in place and a volume in order kept in order |
| OspfsGrow.ChangeSizeExact | File_System/ospfsmod.c:1049-1095 | resizing succeeds with the volume in order if and only if the condition that a caller can check before holds; when it holds, the call ends |
| OspfsGrow.ChangeSizeNeverNoSpace | File_System/ospfsmod.c:1026-1028 | the documented -ENOSPC is returned on no volume whatever |
| OspfsHang.GrowHangsExactly | File_System/ospfsmod.c:1055-1076 | for every file in shape and every larger size the growing loop runs for ever if and only if the caller's condition holds; otherwise it ends within two passes |
| OspfsHang.SecondAttempt | File_System/ospfsmod.c:1055-1076 | one block short, past the misfiled blocks: the rollback frees the first indirect block and the second attempt reaches the end with the tree out of shape |
| OspfsHang.ChangeSizeHangs | File_System/ospfsmod.c:1049-1095 | resizing to a larger size never returns exactly under that condition; where the second attempt gets through it reports success with the tree out of shape |
| OspfsBits.WordSet | File_System/ospfsmod.c:106-110 | setting a bit of the word vector sets that bit and no other |
| OspfsBits.WordCleared | File_System/ospfsmod.c:113-117 | clearing a bit clears that bit and no other |
| OspfsBits.Set | File_System/ospfsmod.c:106-110 | in place: the vector afterwards has that bit set and all others as before |
| OspfsBits.Clear | File_System/ospfsmod.c:113-117 | in place: that bit is clear and all others are as before |
| OspfsBits.Test | File_System/ospfsmod.c:120-124 | tells whether the bit is set |
| OspfsDisk.IndWritten | File_System/ospfsmod.c:797-850 | a word stored in the first indirect block changes that one pointer of the tree |
| OspfsDisk.UndWritten | File_System/ospfsmod.c:851-890 | a word stored in a block under the doubly indirect one changes that one pointer |
| OspfsDisk.Ind2Written | File_System/ospfsmod.c:851-890 | a blank block entered in the doubly indirect block adds that one pointer |
| OspfsModule.Ospfs.AllocateBlock | File_System/ospfsmod.c:596-614 | takes the lowest free block out of the bitmap, or gives 0 when there is none |
| OspfsModule.Ospfs.FreeBlock | File_System/ospfsmod.c:628-639 | puts the block back unless its guard refuses it |
| OspfsModule.Ospfs.AddBlock | File_System/ospfsmod.c:766-898 | on disk bytes, bitmap words and inode fields: the same volume as the abstract step, and only free blocks and the file's pointer blocks are written |
| OspfsModule.Ospfs.RemoveBlock | File_System/ospfsmod.c:923-1010 | the same for removing; no data block is written |
| OspfsModule.Ospfs.ShrinkTo | File_System/ospfsmod.c:1078-1087 | the shrinking loop, with the same abstraction |
| OspfsModule.Ospfs.GrowTo | File_System/ospfsmod.c:1055-1076 | the growing loop with its rollback refines the abstract one; whatever happens, only blocks that were free or the file's own are written, and with room and no misfiled block the new blocks hold zeros |
| OspfsModule.Ospfs.ChangeSize | File_System/ospfsmod.c:1049-1095 | the whole resizing on the disk refines the abstract one; whatever happens, only blocks that were free or the file's own are written, and a file that could grow cleanly has zeros in its new blocks |
| OspfsFile.LookupInRange | File_System/ospfsmod.c:184-200 | inside a file the look-up gives the data block of that offset exactly when the tree has it, behind the end 0 |
| OspfsFile.Read | File_System/ospfsmod.c:1150-1213 | for every file, also one that lacks blocks: the number of bytes up to the end when all their blocks are there and -EIO otherwise, also behind the end; what is copied out stops at the first missing block, and each byte is the one at its place in its disk block; for a file that has all its blocks that is the slice of its contents |
| OspfsFile.CopyIn | File_System/ospfsmod.c:1270-1313 | the block-by-block copy returns the length exactly when all the blocks are there and -EIO otherwise, and writes the buffer's bytes up to the first missing block, each to its place, and not one other byte of the disk; on a file that has all its blocks it overlays the buffer, whatever state the rest of the volume is in |
| OspfsFile.BlockWritten | File_System/ospfsmod.c:1285-1305 | a write inside one data block overlays one stretch of one file |
| OspfsFile.GrownContents | File_System/ospfsmod.c:1049-1095 | growing a file in shape keeps the old bytes and appends zeros |
| OspfsFile.OtherContentsKept | File_System/ospfsmod.c:1049-1095 | writing only to free blocks and to one file's own leaves the pointers and bytes of all other files, in any sound volume |
| OspfsFile.WrittenAfterGrowth | File_System/ospfsmod.c:1233-1313 | overlaying after growing is the byte-array write |
| OspfsFile.Extend | File_System/ospfsmod.c:1259-1263 | the resizing at the start of a write, with the state in which the copying starts |
| OspfsFile.Write | File_System/ospfsmod.c:1233-1313 | always: the volume is the resized one, the answer is 0 if resizing fails, otherwise the length exactly when all blocks are there, the file holds the buffer's bytes up to the first missing block, and no byte of any other file changes; if the caller's check passes, whatever the state of the other files, the file is its old bytes grown with zeros and overlaid at the position |
| OspfsDir.StoredNames | File_System/ospfsmod.c:1461-1469 | create and symlink store the name asked for; link does exactly when the reused entry happens to hold a terminator at that place |
| OspfsDir.LinkNameTail | File_System/ospfsmod.c:1466 | a concrete link whose stored name is wrong |
| OspfsEntries.LinkStores | File_System/ospfsmod.c:1439-1473 | a link that answers 0, in every state of every run: exactly one entry is taken, the first blank one or a new one, gets the inode number and the bytes of the name and keeps the rest of its name field; all other entries and directories stay, the link count rises by one, and no inode but that and the directory's changes |
| OspfsEntries.LinkIsFound | File_System/ospfsmod.c:1439-1473 | the linked name is found if and only if the entry taken held a terminator at that place; every name that it does not begin finds what it found |
| OspfsEntries.CreateStores | File_System/ospfsmod.c:1504-1566 | a create that answers 0, in every directory: the first unused inode is a regular file of size 0 with one name and no blocks, one entry holds the name with its terminator, looking the name up gives that entry, and every other name finds what it found |
| OspfsEntries.SymlinkStores | File_System/ospfsmod.c:1591-1650 | the same for a symbolic link, whose size is the length of its target |
| OspfsEntries.UnlinkBlanks | File_System/ospfsmod.c:531-569 | exactly the entry found is blanked and keeps its name field; all other names find what they found |
| OspfsEntries.CreateThenUnlink | File_System/ospfsmod.c:531-1566 | creating a file and removing it again: every name in every directory leads where it led at first |
| OspfsEntries.SizesSet | File_System/ospfsmod.c:1049-1095 | a write or a truncation that succeeds leaves exactly the size it stands for, and no name, link count or other inode changes |
| OspfsEntries.LinkAnswers | File_System/ospfsmod.c:1439-1473 | which answer a link gives: name too long, name taken, success when there is a blank entry or a block for one, and otherwise the call never ends; -ENOSPC is not among them |
| OspfsEntries.CreateAnswers | File_System/ospfsmod.c:1504-1532 | the same for create, with -ENOSPC exactly when no inode is unused |
| OspfsEntries.SymlinkAnswers | File_System/ospfsmod.c:1591-1625 | the same for symlink, with a target that is too long |
| OspfsEntries.UnlinkAnswers | File_System/ospfsmod.c:540-549 | unlink misses exactly the names that no entry has, and then changes nothing |
| OspfsRuns.BlankEntryWired | File_System/ospfsmod.c:1372-1408 | finding or making a blank entry keeps every link count right, changes no other file and leaves the refused block with the root directory |
| OspfsRuns.LinkWired | File_System/ospfsmod.c:1439-1473 | a new name and the raised link count match again |
| OspfsRuns.MakeInodeWired | File_System/ospfsmod.c:1504-1650 | a new inode starts with one name and link count one |
| OspfsRuns.UnlinkWired | File_System/ospfsmod.c:531-569 | a removed name and the lowered link count match again |
| OspfsRuns.StepWired | File_System/ospfsmod.c:531-1650 | every call, also a write to or a truncation of a file without a name, keeps ownership of blocks, and every call that returns keeps link counts equal to the number of names |
| OspfsRuns.RunsAreSound | File_System/ospfsmod.c:531-1650 | in every state of every run no block is reached twice and every reached block is a used data block; link counts are right |
| OspfsRuns.ResizeExact | File_System/ospfsmod.c:1049-1095 | a resizing that succeeds leaves the volume in order exactly when the caller's check held, whether the file still has a name or not |
| OspfsRuns.UnlinkExact | File_System/ospfsmod.c:531-569 | removing a name leaves the volume in order exactly when the file it may cut can be cut cleanly |
| OspfsRuns.StepExact | File_System/ospfsmod.c:531-1650 | one call on a volume in order leaves it in order when its check holds, and was clean if it succeeds and leaves it so; for create and symlink the check is that the unused inode found owns nothing |
| OspfsRuns.NothingRefused | File_System/ospfsmod.c:628-639 | the block that `free_block` refuses belongs to the root directory, so no other file can lose it |
| OspfsRuns.MakeInodeExact | File_System/ospfsmod.c:1504-1650 | a new file or symbolic link leaves the volume in order exactly when its inode owned nothing |
| OspfsRuns.CreateLoses | File_System/ospfsmod.c:1535-1553 | an inode without names that was written to is taken again by the next create, and its blocks are lost |
| OspfsRuns.LastUnlinkFrees | File_System/ospfsmod.c:531-569 | removing the last name gives back every block of the file; removing another name touches none |
| OspfsRuns.RunsStayInOrder | File_System/ospfsmod.c:531-1650 | over a run of clean calls that return, every tree keeps its shape and used plus free blocks are the data area |
| OspfsRuns.RunsInOrderIff | File_System/ospfsmod.c:531-1650 | a run of successful calls stays in order all the way if and only if every call was clean |
| OspfsNames.Names.FindDirentry | File_System/ospfsmod.c:1327-1341 | finds the first entry of that name, or none |
| OspfsNames.Names.CreateBlankDirentry | File_System/ospfsmod.c:1372-1408 | reuses a blank entry or grows the directory, with the abstract step's answer |
| OspfsNames.Names.Link | File_System/ospfsmod.c:1439-1473 | on the inode table, the entries and the disk: the link whose effect `OspfsEntries.LinkStores` states, with its error answers in the same order |
| OspfsNames.Names.MakeInode | File_System/ospfsmod.c:1504-1650 | the common part of create and symlink, on the inode table, the entries and the disk |
| OspfsNames.Names.Create | File_System/ospfsmod.c:1504-1566 | creating a file, with the effect of `OspfsEntries.CreateStores` and its error answers |
| OspfsNames.Names.MakeSymlink | File_System/ospfsmod.c:1591-1650 | creating a symbolic link, with the effect of `OspfsEntries.SymlinkStores` and its error answers |
| OspfsNames.Names.Unlink | File_System/ospfsmod.c:531-569 | removing a name, and the last one's blocks |
| OspfsWitness.BareInOrder | File_System/ospfsformat.c:787-822 | the image made from an empty directory is in order if and only if `free_block` refuses no free block |
| OspfsWitness.RootedInOrder | File_System/ospfsformat.c:787-822 | every disk with a data block has a volume in order: a start for all runs |
| OspfsWitness.FirstCreate | File_System/ospfsmod.c:1504-1565 | the first name in an empty image goes into a block that the root directory gets then, and the volume is in order afterwards for every number of inodes |
| OspfsWitness.OpenUnlinkedRunLeaks | File_System/ospfsmod.c:1233-1553 | create, unlink, write through the open file, create again: every call succeeds and a block is lost, on every disk with two data blocks |
| OspfsDepartures.MadeTight | File_System/ospfsmod.c:661-732 | for every file size there is a volume in order with such a file |
| OspfsDepartures.MisfiledBlock266 | File_System/ospfsmod.c:797-850 | a file of 266 blocks that gets one more: the block goes to the place of file block 10 |
| OspfsDepartures.MisfreedBlock266 | File_System/ospfsmod.c:994-1001 | a file of 267 blocks that loses one: file blocks 10 to 265 are no longer reached |
| OspfsDepartures.FullDiskHangs | File_System/ospfsmod.c:1067-1075 | a full disk on which writing behind the end never returns |
| OspfsDepartures.OneShortSucceeds | File_System/ospfsmod.c:1067-1075 | a file of 532 blocks that wants 790 with one block too few: the call reports success and leaves the tree out of shape |
| OspfsDepartures.RefusedFirstBlock | File_System/ospfsmod.c:628-639 | with sixteen inodes a file that has the first data block loses it when it is cut |
| OsprdLock.InsertKeepsOrder | RAMDisk/osprd.c:243-277 | a ticket given up joins the list, which stays in ascending order |
| OsprdLock.CarriedExact | RAMDisk/osprd.c:279-289 | one pass over the list moves the tail over dead tickets only, never past the asking one, and stops at a live one |
| OsprdLock.RunsIffAllBelowAreDead | RAMDisk/osprd.c:279-297 | a ticket may run if and only if every ticket from the tail up to it is dead |
| OsprdLock.WithoutOne | RAMDisk/osprd.c:568-589 | the traversal takes exactly one reader out, and the count follows |
| OsprdLock.Osprd.TerminateTicket | RAMDisk/osprd.c:243-277 | the list method inserts where the specification says |
| OsprdLock.Osprd.CanRunTicket | RAMDisk/osprd.c:279-297 | the loop leaves the tail where one specified pass leaves it |
| OsprdLock.Osprd.IsReader | RAMDisk/osprd.c:416-424 | finds the process among the readers if and only if it is there |
| OsprdLock.Osprd.TakeTicket | RAMDisk/osprd.c:358-369 | hands out the next ticket, given up at once if the process is the writer |
| OsprdLock.Osprd.AcquireTurn | RAMDisk/osprd.c:427-457 | one locked turn of the waiting loop: grants or leaves waiting, as specified |
| OsprdLock.Osprd.TryFinish | RAMDisk/osprd.c:482-544 | the second region of a request that never blocks: granted or busy, with the ticket given up |
| OsprdLock.Osprd.RemoveReader | RAMDisk/osprd.c:568-589 | takes the process out of the reader list and counts it off |
| OsprdLock.Osprd.Release | RAMDisk/osprd.c:547-595 | gives the lock back, or answers invalid for a file that has none |
| OsprdLock.Osprd.CloseLast | RAMDisk/osprd.c:173-226 | closing gives the lock back if the file has it |
| OsprdRuns.CanRunExact | RAMDisk/osprd.c:279-297 | in every safe state a live ticket may run exactly when every smaller ticket was granted or given up |
| OsprdRuns.SettledIffNobodyInFront | RAMDisk/osprd.c:358-369 | ... which is exactly when no request with a smaller ticket is under way |
| OsprdRuns.StepKeepsOrder | RAMDisk/osprd.c:307-600 | every atomic region keeps the ticket invariant: each ticket is granted, dead or owned by one live request, and grants ascend |
| OsprdRuns.StepKeepsFlags | RAMDisk/osprd.c:307-600 | every atomic region keeps readers and writer exclusive, the count right, and flagged files matched with holders |
| OsprdRuns.StepKeepsWaiters | RAMDisk/osprd.c:363-425 | a request that waits comes from a process that does not hold the lock |
| OsprdRuns.OthersLeaveHoldingAlone | RAMDisk/osprd.c:307-600 | a process gains or loses the lock in its own events only |
| OsprdRuns.RunsAreSafe | RAMDisk/osprd.c:173-600 | every interleaving of acquire, try, signal, release and close keeps all of the above, and grants are only ever appended |
| OsprdRuns.NobodyOvertakes | RAMDisk/osprd.c:332-334 | no request is granted while one with a smaller ticket still waits |
| OsprdRuns.OldestIsServed | RAMDisk/osprd.c:387-457 | when the lock is free for the oldest request, its next poll and turn get it, signal or not |
| OsprdRuns.TryExact | RAMDisk/osprd.c:481-546 | the second region of a request that does not block: success exactly when the lock admits it, the process does not read already and all earlier tickets are settled; otherwise busy |
| OsprdRuns.TryFromArrival | RAMDisk/osprd.c:460-546 | the whole request that does not block, from its arrival, whatever others do between its regions: busy at once exactly for the writer; otherwise success exactly when its process did not hold the lock as it came in, the lock admits it and all earlier tickets are settled |
| OsprdRuns.TryIsAcquire | RAMDisk/osprd.c:460-468 | trying is acquiring without the wait: where acquiring would get the lock at once trying gets it and leaves the same state, and where acquiring would wait or answer deadlock trying is busy |
| OsprdRuns.AnswersMean | RAMDisk/osprd.c:320-600 | a request is answered with success if and only if its ticket was granted; then its file has the lock and its process holds it as the file was opened; nothing else grants, and only release and close take the flag off |
| OsprdRuns.AnswersSettle | RAMDisk/osprd.c:320-546 | every answer ends the request and settles its ticket, and without success the process holds what it held |
| OsprdRuns.TurnExact | RAMDisk/osprd.c:427-447 | asking under the mutex grants exactly when the lock admits the request and every earlier ticket is settled; otherwise the request sleeps |
| OsprdRuns.PollExact | RAMDisk/osprd.c:431-436 | a sleeping request goes back to ask exactly when it could be granted, signal or not; otherwise a signal wakes it to give up |
| OsprdRuns.AbandonExact | RAMDisk/osprd.c:432-437 | a request that gives up after a signal answers interrupted, its ticket is dead, and the lock is as it was |
| OsprdRuns.CloseExact | RAMDisk/osprd.c:173-226 | closing the file that has the lock gives it back; closing another changes nothing |
| OsprdRuns.DeadlockExact | RAMDisk/osprd.c:343-424 | a blocking request answers deadlock exactly when its process held the lock when it came in, whatever others do meanwhile; otherwise it goes on to ask with the ticket it was given |
| OsprdRuns.ReleaseExact | RAMDisk/osprd.c:547-595 | release succeeds exactly through the file that has the lock, and then the process holds nothing |
| OsprdRuns.NothingIsLost | RAMDisk/osprd.c:243-297 | with no request under way every ticket ever issued is settled, so the next one runs |
| ShellTree.PrintedSpells | Shell_Interpreter/print-command.c:24-81 | the printed token sequence spells the tree that is printed |
| ShellNesting.TokensCalm | Shell_Interpreter/parser.c:37-75 | over a well-formed tree the nesting counter returns to zero, never goes below it, and outside nesting there is a separator only where the tree is a chain |
| ShellNesting.ScanPasses | Shell_Interpreter/parser.c:150-191 | the scan to the right passes over a well-formed body without seeing a mark |
| ShellNesting.SplitPasses | Shell_Interpreter/parser.c:37-115 | the scan to the left passes over a part that has no separator outside nesting |
| ShellComplete.ParseComplete | Shell_Interpreter/parser.c:15-411 | every text of a well-formed tree parses to that tree, with or without the optional semicolons and with redirects in either order, wherever it stands in the array |
| ShellComplete.PrintThenParse | Shell_Interpreter/print-command.c:24-81 | parsing what was printed gives the tree back |
| ShellSound.SplitFound | Shell_Interpreter/parser.c:37-75 | the separator found has balanced tokens on its right |
| ShellSound.ScanFound | Shell_Interpreter/parser.c:150-191 | every mark found stands where the counter is back at zero |
| ShellSound.ParseSound | Shell_Interpreter/parser.c:22-347 | if a range parses it is a text of a well-formed tree: no token is dropped, invented or moved, and that tree is the result |
| ShellSound.ParseExact | Shell_Interpreter/parser.c:22-411 | a range parses to a tree if and only if it is a text of that tree |
| ShellSound.LooksPastTheEnd | Shell_Interpreter/parser.c:155-191 | a concrete range without `fi` that parses because the scan looks at the token behind it |
| ShellSound.RedirectsSound | Shell_Interpreter/parser.c:383-411 | redirects that are accepted are at most one of each kind, and fill the range |
| ShellFaults.ScanExact | Shell_Interpreter/parser.c:150-191 | the scan misses the closing word if and only if there is none outside the nesting, and sees a part of the command only where one stands |
| ShellFaults.Unclosed | Shell_Interpreter/parser.c:193-196 | a command that is opened and never closed is reported for the word that would have closed it, whatever separators stand in it |
| ShellFaults.Partless | Shell_Interpreter/parser.c:198-202 | a command that is closed and has no `then` or no `do` is reported for that, before anything inside it is looked at |
| ShellFaults.NoCommand | Shell_Interpreter/parser.c:117-135 | a text whose first token begins no command is reported for that token, whatever separators follow |
| ShellLoops.ScanLeft | Shell_Interpreter/parser.c:37-75 | the do-while scan finds the separator that the specification names |
| ShellLoops.ScanIf | Shell_Interpreter/parser.c:150-191 | the do-while scan of an `if` finds its last `then` and `else` and its `fi` |
| ShellLoops.ScanLoop | Shell_Interpreter/parser.c:241-274 | the do-while scan of a loop finds its last `do` and its `done` |
| ShellLoops.ScanParen | Shell_Interpreter/parser.c:304-331 | the do-while scan of a subshell finds its closing parenthesis |
| ShellLoops.ParseRange | Shell_Interpreter/parser.c:22-138 | the recursive procedure computes the specified parse, and ends on every token array |
| ShellLoops.CheckFailParse | Shell_Interpreter/parser.c:15-20 | one semicolon before the closing word is dropped |
| ShellLoops.ParseIfRange | Shell_Interpreter/parser.c:141-218 | the same for `if`, with its errors in the source's order |
| ShellLoops.ParseLoopRange | Shell_Interpreter/parser.c:221-293 | the same for `while` and `until` |
| ShellLoops.ParseParenRange | Shell_Interpreter/parser.c:296-347 | the same for subshells |
| ShellLoops.ParseWordRange | Shell_Interpreter/parser.c:350-381 | the same for simple commands |
| ShellLoops.ReadRedirects | Shell_Interpreter/parser.c:384-411 | the same for redirects |
| Md5Rounds.SameMix | File_System/md5.c:77-84 | the rewritten mixing functions equal those of section 3.4 of RFC 1321 |
| Md5Rounds.SameCompression | File_System/md5.c:87-216 | both copies compress every block alike: tables, mixing functions and regrouped sums agree |
| Md5Digest.FoldBlock | P2P/md5.c:356-358 | a block more is one compression more |
| Md5Digest.FinalLengthExact | File_System/md5.c:265-281 | the two-word bit count is right if and only if the length modulo 2^61 is below 2^32 and eight times it does not fall below it modulo 2^32 |
| Md5Digest.TailsAgreeExactly | File_System/md5.c:262-304 | the padding digested is that of RFC 1321 exactly under that condition |
| Md5Digest.DigestsAgree | File_System/md5.c:262-330 | both copies give the same digest wherever the length is right |
| Md5Digest.LengthRightBelow | File_System/md5.c:265-281 | the length is right for every message below 2^29 bytes and wrong at 2^29 |
| Md5Streams.CountAdds | P2P/md5.c:338-342 | the two-word counter with its carry adds lengths modulo 2^64 bits |
| Md5Streams.PadFromCount | P2P/md5.c:381 | the padding computed from the low counter word is that of the true length |
| Md5Streams.AppendState.Append | P2P/md5.c:327-363 | after any sequence of pieces the state is the fold over whole blocks, the rest in the buffer and the bit count |
| Md5Streams.AppendState.AppendBlocks | P2P/md5.c:356-362 | full blocks go straight from the data, the rest into the buffer |
| Md5Streams.AppendState.Finish | P2P/md5.c:365-386 | the digest is that of RFC 1321 of everything appended, however it was cut up |
| Md5Streams.UpdateContext.Flush | File_System/md5.c:227-233 | a full buffer is digested, otherwise nothing changes |
| Md5Streams.UpdateContext.Update | File_System/md5.c:224-252 | the block-counting copy keeps the same fold, whatever the pieces |
| Md5Streams.UpdateContext.Pad | File_System/md5.c:283-293 | the padding takes one block or two, as the fill level asks |
| Md5Streams.UpdateContext.DoFinal | File_System/md5.c:262-322 | the digest of the message under the length that `do_final` computes |
| Md5Streams.UpdateContext.Final | File_System/md5.c:324-330 | asking again gives the same digest |
| Md5Vectors.StartStored | P2P/md5.c:318-325 | the running words start as the sixteen bytes of section 3.3 of RFC 1321 |
| Md5Vectors.EmptyDigest | P2P/md5.c:318-386 | the digest of the empty message is that of section A.5, with the word of every line of the four rounds on the way |
| Md5Vectors.AbcDigest | P2P/md5.c:318-386 | the digest of "abc" is that of section A.5 |
| Md5Vectors.BothDigests | File_System/md5.c:63-330 | the other copy gives the same two |
| FormatCache.SlotReplaced | File_System/ospfsformat.c:235-250 | reusing a slot after writing it back changes no block for a reader |
| FormatCache.BlockCache.Search | File_System/ospfsformat.c:219-228 | finds the block's slot, or else the least recently used slot that nobody holds |
| FormatCache.BlockCache.GetBlk | File_System/ospfsformat.c:207-263 | over block numbers from 1: the block shown is the last contents given to it (zero if cleared), other blocks are unchanged, held slots are never evicted; it aborts exactly when past the disk, full of held slots, or held for another kind |
| FormatCache.BlockCache.PutBlk | File_System/ospfsformat.c:265-269 | letting go changes nothing a reader sees |
| FormatCache.BlockCache.FlushDisk | File_System/ospfsformat.c:713-721 | after flushing the disk is what readers saw |
| FormatCache.SlotLeft | File_System/ospfsformat.c:219-234 | while fewer than sixteen blocks are held, a block on the disk that nobody holds is never refused |
| FormatTree.NewSlots | File_System/ospfsformat.c:318-360 | which pointers file block `n` adds to a tree |
| FormatTree.UnderPtrs | File_System/ospfsformat.c:334-355 | a block stored under the doubly indirect one changes that place and at most one new pointer above it |
| FormatTree.StoreBuilds | File_System/ospfsformat.c:318-360 | storing the next block builds the tree of the longer list: exactly the needed places filled, all blocks distinct, between the file's first block and `nextb` |
| FormatTree.StoreFrame | File_System/ospfsformat.c:318-360 | blocks in use that hold no pointers of this inode are not written |
| FormatTree.LookupIsPtr | File_System/ospfsmod.c:184-200 | the kernel module's look-up reads the place where the formatter stores, in all three tiers |
| FormatTree.WriteBuilds | File_System/ospfsformat.c:503-523 | a whole file written is found again: the module's look-up leads from every file block to the host's bytes, and blocks taken before keep theirs |
| FormatTree.WriteFits | File_System/ospfsformat.c:503-523 | writing a file goes through exactly when it is not too large and there are blocks for it and its pointer blocks, and one more unless its last block is partly filled; it takes just those |
| FormatFiles.TreesGrow | File_System/ospfsformat.c:318-360 | whichever file or directory gets the next block, no block is in two trees or twice in one, and the blocks taken are exactly those in the trees |
| FormatFiles.AddsKeeps | File_System/ospfsformat.c:318-360 | storing a block for one file writes no data block of any file but the new one, which holds the data |
| FormatFiles.FileWritten | File_System/ospfsformat.c:503-523 | the writing loop for one file among many: this file's blocks hold the host's contents in their order, all other file blocks hold what they held, and the image stays a set of trees |
| FormatImage.ClearedExact | File_System/ospfsformat.c:687 | clearing a bit by arithmetic clears it and no other |
| FormatImage.MapBitCleared | File_System/ospfsformat.c:684-689 | clearing the bit of one block in the bitmap changes that block's bit only |
| FormatImage.Formatter.Hold | File_System/ospfsformat.c:207-263 | a block that is not held yet is refused exactly when it is past the end of the disk, and is then the one more block that is held |
| FormatImage.Formatter.OpenDisk | File_System/ospfsformat.c:294-308 | a bitmap of ones and a zeroed inode table, with the data area next, exactly when the disk has room for both |
| FormatImage.Formatter.StoreBlk | File_System/ospfsformat.c:318-360 | through the cache, with slots held and let go: the specified store, and it fails exactly where that does |
| FormatImage.Formatter.WriteBlocks | File_System/ospfsformat.c:503-523 | the writing loop through the cache, including the block taken before the end is seen; it fails exactly where the specified loop does, and holds no slot afterwards |
| FormatImage.Formatter.FinishFs | File_System/ospfsformat.c:678-711 | the free bits are exactly the blocks from `nextb` to the end of the disk, also in a partly used last bitmap block; it never fails |
| FormatVolume.LookupsAgree | File_System/ospfsmod.c:184-200 | the module's look-up on the bytes of the disk and the formatter's account of it find the same block for every offset inside a file |
| FormatVolume.ImageInOrder | File_System/ospfsformat.c:678-711 | read by the module, the finished image is a volume in order if and only if the allocator cannot hand out the block that `free_block` refuses: always once a block has been taken |
| FormatVolume.ReadsBack | File_System/ospfsmod.c:1150-1213 | a file whose blocks hold a host's contents is, read through the module's pointers, the host's bytes |
| FormatVolume.CostIsTreeSize | File_System/ospfsformat.c:318-360 | a file costs the formatter as many blocks as the module accounts for it |
| FormatMain.AddDirBlock | File_System/ospfsformat.c:410-419 | a new, cleared directory block, exactly when there is room: the image stays a set of trees and all file blocks hold what they held |
| FormatMain.AddFile | File_System/ospfsformat.c:503-525 | a new file through the cache, exactly when it fits: its tree leads to the host's blocks in their order, all other file blocks hold what they held, and the image stays a set of trees |
| FormatMain.Format | File_System/ospfsformat.c:787-822 | from an empty disk to the flushed one, with a directory block for every eight files: it goes through exactly when everything fits, every block of every host file is found in its place, and the module reads every host file byte for byte on a volume in order |
| PeerText.StringBack | P2P/writescan.c:23-54 | unescaping escaped text up to white space gives it back (escapes of section 2.2 of RFC 1738) |
| PeerText.QuoteEncodes | P2P/writescan.c:23-54 | the escaping is that of section 2.2 of RFC 1738: each octet that may stand does, each other one is a percent sign and its code in two digits; a text stays as it is exactly when all of it may stand, and the result fits the room allocated |
| PeerText.IntTakes | P2P/writescan.c:198-208 | the `%d` loop reads every number up to `INT_MAX - 10` |
| PeerText.IntStops | P2P/writescan.c:198-208 | and stops inside every larger one |
| PeerText.AddressBack | P2P/writescan.c:179-197 | a dotted address is read back as the same 32 bits |
| PeerText.RoundTrip | P2P/writescan.c:80-237 | scanning what was written with the same format gives the arguments back and consumes the whole message, for every format and arguments that meet the stated conditions |
| PeerText.NumberExact | P2P/writescan.c:198-210 | a non-negative number survives `%d` if and only if it is at most `INT_MAX - 10` |
| PeerText.HttpQuote | P2P/writescan.c:23-54 | the escaping loop computes the specified text |
| PeerText.Format | P2P/writescan.c:92-131 | the formatting loop computes the specified message |
| PeerText.Scan | P2P/writescan.c:158-237 | the scanning loops compute the specified arguments or fail as specified |
| PeerBuffer.RoomFits | P2P/osppeer.c:164-173 | the room offered to `read` covers no waiting byte, and is empty exactly when the buffer is full |
| PeerBuffer.ReadyFits | P2P/osppeer.c:192-203 | what is offered to `write` is waiting data, and is empty exactly when nothing waits |
| PeerBuffer.PendingGrows | P2P/osppeer.c:164-186 | bytes read come last among the waiting ones, also across both wraps |
| PeerBuffer.PendingShrinks | P2P/osppeer.c:192-217 | bytes written were the first waiting ones |
| PeerBuffer.Task.ReadToTaskbuf | P2P/osppeer.c:164-186 | first in, first out is kept, with the source's answer for each outcome of `read` |
| PeerBuffer.Task.WriteFromTaskbuf | P2P/osppeer.c:192-217 | what goes out continues what went out before, and everything received is sent or still waiting |
| SchedosShare.EndsExactly | WeensyOS/weensyos2/schedos-kern.c:276-293 | the search ends, within two rounds, if and only if some runnable process has a positive share |
| SchedosShare.ScheduleExact | WeensyOS/weensyos2/schedos-kern.c:276-293 | with positive shares a process goes on until its share is used up, then the next runnable one starts a block of its own |
| SchedosShare.StaysSteady | WeensyOS/weensyos2/schedos-kern.c:276-293 | among runnable processes only the current one ever has a non-zero count |
| SchedosShare.NextInRank | WeensyOS/weensyos2/schedos-kern.c:276-293 | the next process is the next in cyclic order, or the first of a new round |
| SchedosShare.RunsAreDealt | WeensyOS/weensyos2/schedos-kern.c:276-293 | over any number of dispatches each process has had whole blocks of its share, cyclically, and the current one a part of its block |
| SchedosShare.RunsAreFair | WeensyOS/weensyos2/schedos-kern.c:276-293 | completed rounds of any two runnable processes differ by at most one |
| SchedosShare.Kernel.constructor | WeensyOS/weensyos2/schedos-kern.c:70-112 | after booting, process 1 runs with count one and slot 0 is never runnable |
| SchedosShare.Kernel.Schedule | WeensyOS/weensyos2/schedos-kern.c:205-293 | the loop picks what the specification picks, and ends when the condition above holds |
| SchedosShare.Kernel.Exit | WeensyOS/weensyos2/schedos-kern.c:146-156 | the process that exits is passed over: another one, which is runnable and within its share, is current afterwards |
| SchedosShare.Kernel.SetShare | WeensyOS/weensyos2/schedos-kern.c:163-166 | the process goes on running; the scheduler ends afterwards if the new share is positive, and the round is still in order exactly when the process has run no more than that |
| SchedosShare.ShareKeepsSteady | WeensyOS/weensyos2/schedos-kern.c:163-166 | a new share for the running process keeps the round in order if and only if it is positive and not less than what the process has run |

## Left out

* Linux glue of the file system (dentries, super blocks, `ospfs_mk_linux_inode`, `readdir`, `lookup`), `ospfs_follow_link`, and faults while copying to or from user space.
* The crash countdown: `nwrites_to_crash` is fixed at -1.
* OspfsModule.Ospfs.GrowTo: the loop of a call on a full disk does not end, so the method runs it for a given number of rounds and the lemmas quantify over that number.
* OspfsModule.Ospfs.ChangeSize: sizes above the largest file size are not modelled; the source then indexes past the doubly indirect block.
* OspfsNames.Names.CreateBlankDirentry: directory entries are records beside the disk, not 128-byte pieces of directory blocks. A directory without a blank entry that would have to grow into a misfiled block (266 to 521) or past the largest size is not followed: the module would then look its new entry up through pointers that are not there and write it to block 0.
* OspfsRuns.StepWired: leaves out the same calls (`OspfsDir.DirMayGrow`).
* The inode table and the bitmap are arrays of their own, apart from the byte disk; the text of a symbolic link, which shares its bytes with the pointers, and `oi_mode` are not modelled.
* OspfsRuns.RunsAreSound: calls meet what Linux checks before it calls the module (`OspfsDir.Legal`): names lead to the inodes passed in, and only regular files are written to or truncated, with or without a name; positions in files are below 2^32. Which files are open is not tracked, so any regular inode from 2 on may be written to.
* OspfsWitness.BareInOrder: before its first name, the image made from an empty directory with a multiple of 16 inodes hands out a block that it would refuse to take back; runs are followed from the first name on (`OspfsWitness.FirstCreate`).
* OsprdRuns.RunsAreSafe: tickets are naturals (the source compares them as signed 32-bit numbers, so this is right up to 2^31 requests); each file is open for reading or for writing, not both; a process has one request under way and uses its own files; lost wake-ups and several devices are not modelled.
* The lock's linked lists are sequences; that a removed node is read once more after it was freed is not modelled.
* The data transfer, request queue and device set-up of `RAMDisk/osprd.c`.
* The tokenizer, `read-command.c` and command execution of the shell: models start from the token array. Positions outside the array read as no token, where the source reads whatever memory holds.
* ShellSound.ParseSound: assumes that a word follows each redirection sign, which the tokenizer sees to except when white space separates the sign from an operator.
* ShellLoops.ParseRange: nodes are built as values, not allocated and filled in, and error messages carry no line numbers.
* Md5Streams.AppendState.Append: piece lengths are naturals; the source's `int` arithmetic overflows for a single piece of nearly 2^31 bytes.
* The text encodings of digests, and byte orders other than little-endian.
* FormatImage.Formatter.WriteBlocks: the inode is a value that is passed along, not a piece of a held cache slot, and the host file comes as blocks; reading host files and directories, hard-link detection and symbolic links are not modelled.
* FormatMain.Format: of `allocdirentry` only the new directory block is modelled, not the entries in it, and that block is let go before the file is written, as is the inode's, so that three blocks are held at most; all names are in the root directory. `FormatCache.SlotLeft` holds for up to fifteen held blocks. `FormatFiles.TreesGrow` holds for any order of files and directories.
* FormatVolume.ImageInOrder: the bitmap is read as the formatter's words; that the module's bit operations on the same words see the same bits is not proved.
* FormatCache.BlockCache.GetBlk: the use counter does not wrap.
* PeerText.Format: running out of memory and the room kept for a number are not modelled; `write` to the socket is a foreign call.
* PeerText.Scan: behind the end of the message the scanner sees a terminator, where the source may look two bytes further.
* PeerBuffer.Task.ReadToTaskbuf: what the system call brings is a parameter; the total count does not wrap.
* Trackers, peers, forking and file transfer of the peer-to-peer client.
* Scheduling algorithms 0, 1, 2 and 4, process loading, context switches, and WeensyOS 1.
* SchedosShare.RunsAreFair: shares are fixed and positive during the run, and no process exits in it.
