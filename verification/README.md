# A verified model of the block file system

The repository is a small Unix-like file system: a disk of 4096-byte blocks with one
bitmap block, inodes that take a block each, directories of one block with 128 slots, and
files of up to 1019 blocks. `homework.c` implements create, mkdir, unlink, rmdir, rename,
chmod, truncate, write and read on it; `read-img.py` walks an image and checks it against
the bitmap; `diskfmt.py` reads the same bitmap as 32-bit words. This project models those
three files and proves what they do.

`dafny verify dfyconfig.toml` checks the whole project.

## How the model is built

- **Bytes.** A disk is a sequence of 4096-byte blocks. `Layout` gives the layout of inodes and
  directory entries in a block and proves it is a bijection, so any block, stale or not, can
  be read as an inode or as a directory, as the C code does. `DiskFormat` says of each field
  at which bytes of the block it lies, and what lookup and reading see in the bytes of an
  image; the one-bit field `valid` is the lowest bit of its word. `Modes` gives the mode masks
  by the operators of C on integers.
- **Plans.** `Operations` says for each operation what it answers, which blocks it writes in
  which order, what it does to the bitmap in memory and by how much it moves the counters
  `f_bfree` and `f_bavail`. The methods of class `FileSystem` have the loops of the C code over a
  mutable block array and bitmap, and are proved to do exactly their plan, block write by
  block write. The theorems below are about plans, hence about the methods.
- **Outcomes.** `Outcomes` says of each successful call, without the functions the plans are made
  of, what every field of the inode, every directory entry, every byte of data, every bit and
  both counters are afterwards, which blocks were written in which order, and that all other
  blocks are what they were. `Histories` follows the pointers past the end of a file over
  whole runs.
- **Views.** `View(d, q)` is what a user finds at path q: a file with its metadata and bytes, a
  directory with its metadata, or the error of looking it up. An operation is specified by
  what it does to the view of every path.
- **Ownership.** A ghost map gives each used block its one role: root inode, inode named by a
  slot of a directory at some depth, entries of a directory, or block k of a file. `WellFormed`
  says the image agrees with the map, names are unique and valid, sizes are in range and depth
  is at most 10. `Sound` adds that everything in use is marked, and `Safe` that the bitmap block
  on the disk records the bitmap in memory; this much survives crashes. `Exact` says nothing
  else is marked, and `Good` is `Safe` and `Exact`. `Attached` says every inode is still named
  by a directory; on a good image it is the same as "no block leaks".

## What the code does differently from its documentation

The code is followed. Each point has an exact condition on the state before the call, and a
concrete run from the image of disk2.in in `Examples`.

- `fs_rmdir` looks only at the first free slot, and `fs_unlink` not at all at the kind of what it
  removes: both can remove a directory with entries, whose blocks then leak. A call leaks
  exactly when its path names a directory that has entries and, for rmdir, slot 0 is free
  (`Runs.LeaksExactlyWhen`; runs `RmdirTakesANonEmptyDirectory`, `UnlinkTakesADirectory`). A full
  directory is refused with ENOSPC instead of ENOTEMPTY (`RemoveEffects.RmdirEffect`; run
  `RmdirOfAFullDirectory`).
- `fs_write` subtracts the number of blocks it needed even when that is negative: the free
  counters stay right exactly when the write does not end before the last block of the file
  (`Runs.CountedExactlyWhen`; run `ShortWriteMiscounts`), and over a run they are too high by the
  sum of the blocks such writes did not reach (`Runs.RunDrift`).
- `fs_read` past the end of a file also fetches the block after the last one and reports EIO
  exactly when that pointer cannot be followed, which is so after a truncate that gave up
  blocks (`Reads.ReadEffect`, `Regrow.ReadsPastEndFail`; run `ReadAfterTruncateFails`). Over the
  life of a file, whatever else is called, such a read fails exactly when the file once had
  more blocks than it has then (`Histories.ReadFailsIffShrunk`). So
  consecutive reads of the whole file fail exactly when one of them crosses its end
  (`Reads.ChunkedRead`).
- `fs_truncate` accepts a positive length, and can grow a file within its last block. That
  brings back bytes that had been cut off, and past the old size it shows whatever the block
  holds (`Regrow.RegrownByTruncate`; run `TruncateBringsBack`): zeros, or bytes of a deleted file,
  depending on how the block came to the file (`Regrow.TailAfterWrite`).
- create and mkdir write the directory entry before the bitmap: a crash in between leaves a
  reachable inode unmarked, at exactly those points (`Crashes.MakeCrash`; run `CreateCutShort`).
  No other operation has such a point (`Crashes.CrashSafe`), and after crashes at any other
  point the file system can go on forever without anything in use being unmarked
  (`Crashes.HistoryKeeps`).

Calls the C code gives no meaning to are not modelled. Create, mkdir, unlink and rmdir of the
root use a last component that does not exist. create takes a mode with the type bits of a
file; mkdir one with those of a directory, or none. A write that passes all checks of `fs_write`, but ends past byte
1019 * 4096, uses pointers outside the inode; one of no bytes at a block boundary copies into a
buffer of no bytes (on an empty file it depends on what `calloc` of nothing returns). Writes of
any size that `fs_write` refuses are included. These are the predicates `Runs.Allowed` and
`Operations.WriteDefined`.

## Model

| member | source | states |
|---|---|---|
| Layout.InodeRoundTrip | fs5600.h:36-44 | Reading back a written inode block gives the inode. |
| Layout.InodeLayoutIsOnto | fs5600.h:36-44 | Every block, stale ones included, is the layout of exactly the inode read from it. |
| Layout.DirRoundTrip | fs5600.h:20-24 | Reading back a written directory block gives its 128 entries, valid bit, inode and name bytes. |
| Layout.DirLayoutIsOnto | fs5600.h:20-24 | Every block is the layout of exactly the directory read from it. |
| DiskFormat.InodeBytes | fs5600.h:36-44 | uid, gid, mode, ctime, mtime, size and each of the 1019 pointers, by the bytes of the block they lie in. |
| DiskFormat.DirentBytes | fs5600.h:20-24 | Entry j: the valid bit is the lowest of byte 32j, the inode number the other 31 bits of that word, the name the 28 bytes after it. |
| DiskFormat.BitmapBytes | homework.c:43-54 | The bit of block i is bit i % 8 of byte i / 8 of the bitmap block. |
| DiskFormat.LookupBytes | homework.c:127-154 | One step of translation in the bytes of the image: EIO, ENOTDIR, ENOENT, or the number in the first entry in use that spells the name. |
| DiskFormat.PathBytes | homework.c:123-156 | Paths start at inode 2, each component is looked up in turn, and the first error stands. |
| DiskFormat.ContentBytes | homework.c:1016-1046 | Byte k of a file is byte k % 4096 of the block that pointer k / 4096 names. |
| Layout.StrnCpyName | homework.c:490-493 | After strncpy of at most 27 bytes into a field whose last byte is 0, strcmp sees exactly the new name, whatever the field held. |
| Layout.PermissionsKeepKind | homework.c:874-875 | The nine permission bits are taken from the argument, and the kind of the inode never changes. |
| Modes.PermissionBits | homework.c:874-875 | The new mode is (mode & ~0777) &#124; (argument & 0777), with the operators on 32-bit words. |
| Modes.KindsAre | diskfmt.py:39-47 | A file or directory is what S_ISREG and S_ISDIR say, by mode & 0170000. |
| Modes.DirectoryBit | homework.c:473 | For the modes mkdir takes (no type bits, or a directory's), mode &#124; S_IFDIR adds 040000 where it is missing and changes nothing else. |
| Layout.EmptyDirectory | homework.c:504-513 | A zeroed block is a directory with no valid entry. |
| Bitmap.BitSet | homework.c:43-46 | Sets the bit of block i in the byte array in place and changes no other of the 32768 bits. |
| Bitmap.BitClear | homework.c:47-50 | Clears that bit and no other. |
| Bitmap.BitTest | homework.c:51-54 | Answers whether block i is marked. |
| Bitmap.SetAndClearOneBit | homework.c:43-50 | On one byte, the or and and-not with a one-bit mask change exactly that bit. |
| Bitmap.StoredBitmap | homework.c:430-434 | Writing out the in-memory bytes stores the one block that records their bits. |
| Bitmap.BlockRoundTrip | homework.c:75-79 | Loading the bitmap block and storing it again changes no byte. |
| Bitmap.MarkAt | homework.c:416-429 | After the update loop a bit has the new value if listed, and its old value otherwise. |
| Bitmap.MarkUndone | homework.c:416-436 | Setting and then clearing a list of free blocks restores the bitmap. |
| Bitmap.FreeInMark | homework.c:86-94 | Flipping n distinct bits moves the number of free blocks by exactly n. |
| Bitmap.FindFirstNFreeBlocks | homework.c:361-383 | The scan succeeds exactly when n blocks are free and then returns the n lowest. |
| Bitmap.LowestFreeIsFree | homework.c:361-383 | What the allocator returns is in range and free. |
| Bitmap.LowestFreeIncreases | homework.c:361-383 | ... and strictly increasing, so without repeats. |
| Bitmap.LowestFreeIsLowest | homework.c:361-383 | No free block below the last one returned is skipped. |
| Bitmap.LowestFreeCount | homework.c:361-383 | Fewer than n come back exactly when fewer than n are free. |
| BitmapWords.WordBitmap.Get | diskfmt.py:26-29 | Answers bit i of the words. |
| BitmapWords.WordBitmap.Set | diskfmt.py:30-37 | Changes bit i of the 1024 words in place and no other bit. |
| BitmapWords.OneBit | diskfmt.py:30-37 | Or-ing a word with 1 << k, or and-ing it with (1 << k) ^ 0xffffffff, changes bit k and no other. |
| BitmapWords.MaskTest | diskfmt.py:26-29 | n & (1 << k) is not zero exactly when bit k of n is set. |
| BitmapWords.SameBits | diskfmt.py:24-29 | The little-endian words over a bitmap's bytes denote the same set of blocks as the bytes. |
| BitmapWords.SameDiskBits | diskfmt.py:24-29 | For any bitmap block, the words read by the tools denote what fs_init loads. |
| BitmapWords.SameUpdate | diskfmt.py:30-37 | Updating through the words leaves, byte for byte, what bit_set or bit_clear leaves. |
| Paths.StrTok | homework.c:176-179 | One strtok: skips slashes, ends the component in place, says where to go on. |
| Paths.Parse | homework.c:171-187 | In place: argv points at the first ten components, each cut to 27 bytes and ended by a zero byte. |
| Paths.ComponentsAreNames | homework.c:171-187 | Every component is non-empty, at most 27 bytes, without slash or zero, and there are at most ten. |
| Paths.FewerComponents | homework.c:174 | Stopping after m components yields the first m of those a longer scan would yield. |
| Paths.SplitPathString | homework.c:171-187 | Splitting the string of a path of at most ten names gives the path back. |
| Paths.SplitAnyString | homework.c:171-187 | Of any string: its first ten words, however many slashes are around them, each cut to its first 27 bytes. |
| Paths.Spelling | homework.c:171-187 | Every string is made of words and slashes in that way. |
| Ownership.ResolveSound | homework.c:117-158 | On a sound image translation fails only with ENOENT or ENOTDIR, and finds an inode exactly as deep as the path is long. |
| Ownership.OnePath | FORMAT.md:90 | The inode graph is a tree: two paths to the same inode are the same path. |
| Ownership.Reached | read-img.py:38-83 | Without orphans every inode in use is reached by some path. |
| Ownership.SoundNothingDangles | FORMAT.md:90 | On a sound image every block reachable from inode 2 is marked. |
| Ownership.LeaksAreOrphans | FORMAT.md:90 | On a good image, "every marked block is reachable" holds iff no inode has lost its entry. |
| Frames.TouchedSound | homework.c:865-1177 | A change confined to one inode and its own blocks keeps the whole image sound. |
| Frames.TouchedViews | homework.c:865-1177 | Such a change shows at the inode's own path and at no other path. |
| FileEffects.ChmodEffect | homework.c:865-883 | chmod fails exactly as the lookup does; otherwise it changes the mode at that path and nothing else anywhere. |
| FileEffects.TruncateEffect | homework.c:923-985 | The error order of truncate, the exact number of freed blocks, and the exact contents after it, for every length. |
| FileEffects.TruncateShrinks | homework.c:943-980 | Up to the old length truncate succeeds and leaves exactly the first len bytes. |
| FileEffects.TruncateFileEffect | homework.c:952-980 | Exactly the blocks from ceil(len/4096) on are freed; the image stays sound and exact; kept blocks keep their bytes. |
| WriteEffects.WrittenContent | homework.c:1116-1169 | After the run of block writes the file is its old bytes with the buffer spliced in, although only the ends are fetched and new blocks hold stale bytes. |
| WriteEffects.RoomIsFreeSpace | homework.c:1092-1101 | Whatever the length, enough blocks are found exactly when as many are free as the write adds. |
| WriteEffects.WriteDefinedWhen | homework.c:1067-1110 | A write has a defined meaning iff it fits the pointer array or is refused, in terms of what the caller can see. |
| WriteEffects.WriteDecision | homework.c:1067-1101 | Which error write reports, in what order, for refused calls of any size, and that it goes ahead otherwise. |
| WriteEffects.WriteFileEffect | homework.c:1092-1169 | A write touches only its own file and new blocks, and keeps the image sound and exact. |
| WriteEffects.WriteEffect | homework.c:1061-1177 | Result, new contents, new mtime, and every other path unchanged, for every offset and length the call has a meaning for. |
| MakeEffects.MakeDecision | homework.c:442-468 | Which error create and mkdir report: lookup, ENOTDIR, EEXIST, ENOSPC, in that order. |
| MakeEffects.MakeSound | homework.c:469-522 | The new image is sound and exact: planted first, then named. |
| MakeEffects.MakeEffect | homework.c:438-558 | On success one empty file or directory appears at the path, and every path not below it shows what it showed. |
| MakeEffects.MakeAttached | homework.c:438-526 | The new inode has its entry and no other inode loses its own. |
| RemoveEffects.UnlinkEffect | homework.c:619-661 | unlink removes whatever the path names: the path and all below it is ENOENT, all other paths are unchanged, and the counters grow by the exact number of blocks. |
| RemoveEffects.RmdirDecision | homework.c:663-690 | rmdir is decided by the first free slot alone. |
| RemoveEffects.RmdirEffect | homework.c:663-718 | All refusals of rmdir, and on success the path is gone and the others are unchanged. |
| RemoveEffects.RemovalSound | homework.c:577-718 | After any removal the image is sound and exact for the ownership without the removed inode. |
| RemoveEffects.RemovalAttached | homework.c:577-718 | A removal orphans inodes exactly when what it removes has entries. |
| RenameEffects.RenameDecision | homework.c:787-842 | Which error rename reports, in what order, and that it goes ahead otherwise. |
| RenameEffects.RenameEffect | homework.c:787-858 | The subtree moves: paths under the destination show what their counterparts showed, paths under the source are ENOENT, others are unchanged. |
| Outcomes.ChmodOutcome | homework.c:865-883 | The bits above the nine stay, the nine are the argument's, every other field, block, bit and counter stays. |
| Outcomes.TruncateOutcome | homework.c:943-980 | The new size; -1 in exactly the pointers given up and all others as they were; exactly their blocks freed; inode before bitmap; nothing else. |
| Outcomes.WriteOutcome | homework.c:1084-1176 | Size and mtime; the lowest free blocks in exactly the new pointers, all others as they were; every byte of every block stored, past the end too; bitmap, inode, data in that order; the counters; nothing else. |
| Outcomes.CreateOutcome | homework.c:385-522 | The new inode in full: identity, clock, mode, size 0, all 1019 pointers 0, in the lowest free block; its entry in the first free slot; the order of the writes; nothing else. |
| Outcomes.MkdirOutcome | homework.c:469-522 | The same for a directory: mode &#124; S_IFDIR, 4096 bytes, a zeroed block that is the next free one. |
| Outcomes.UnlinkOutcome | homework.c:619-661 | Exactly the valid bit of the entry is cleared, exactly the blocks of the inode are freed, directory before bitmap; nothing else. |
| Outcomes.RmdirOutcome | homework.c:696-718 | The same for rmdir. |
| Outcomes.RenameOutcome | homework.c:832-851 | Exactly the name field of the entry changes: the new name, then zeros to its 28th byte. |
| Reads.ReadEffect | homework.c:994-1051 | read returns exactly the bytes there are in the range asked for; past the end it fails exactly when the spare pointer cannot be followed. |
| Reads.SparePointerIs | homework.c:1021-1044 | On a sound image that pointer is 0, which can be read, or -1, which cannot. |
| Reads.ChunkedRead | homework.c:1009-1050 | Consecutive reads of any sizes concatenate to the file, or fail, exactly when one crosses the end and the spare pointer cannot be followed. |
| Runs.FailedCallChangesNothing | homework.c:438-1177 | A call that reports an error has written nothing and left disk, bitmap and counters as they were. |
| Runs.StepKeeps | homework.c:438-1177 | Every operation, whatever its outcome, keeps the image safe, and an exact bitmap exact. |
| Runs.RunKeeps | homework.c:438-1177 | So does every run of calls; nothing reachable is ever unmarked. |
| Runs.WritesStayOnDisk | misc.c:45-61 | No call on a safe image writes to the superblock or past the end of the disk. |
| Runs.LeaksExactlyWhen | homework.c:615-718 | An operation on an image without leaks leaks iff its path names a directory with entries and, for rmdir, slot 0 is free. |
| Runs.CountedExactlyWhen | homework.c:516-1172 | The free counters stay right iff the call is not a write ending before the last block of the file it names. |
| Runs.StepDrift | homework.c:516-1172 | From any state a call moves the counters exactly with the free blocks, plus the blocks a short write does not reach. |
| Runs.RunDrift | homework.c:516-1172 | Over any run the counters are off by exactly the sum of those. |
| Runs.NoDrift | homework.c:1092-1172 | That sum is zero iff no call of the run is a short write. |
| Runs.CarefulRun | homework.c:438-1177 | Over runs without those calls, the bitmap is exactly what is reachable and the counters are exactly the free blocks. |
| Crashes.CrashSafe | homework.c:643-1169 | After every prefix of the block writes of unlink, rmdir, rename, chmod, truncate and write, everything reachable on the disk is marked on the disk. |
| Crashes.MakeCrash | homework.c:480-522 | For create and mkdir that holds exactly before the entry is written and after the bitmap is. |
| Crashes.CrashMountable | homework.c:480-1169 | After a crash at any other point the disk satisfies the invariant with the bitmap that is on it. |
| Crashes.HistoryKeeps | homework.c:66-1177 | Any sequence of calls and such crashes, each followed by a new start, leaves nothing in use unmarked, in memory or on the disk. |
| Undo.MkdirThenRmdir | unittest-2.c:104-172 | rmdir after mkdir succeeds and restores bitmap, counters and every path. |
| Undo.EditRun | homework.c:923-1177 | Any writes and truncates of one file, failed ones included, leave every other path and everything the file does not own as it was. |
| Undo.CreateEditUnlink | unittest-2.c:104-172 | create, any writes and truncates, unlink: the bitmap is restored bit for bit, every path shows what it showed, and the counters are off by exactly the drift of the edits. |
| Appends.TakenTwice | homework.c:361-383 | Allocating m and then n blocks takes the same blocks as allocating m + n. |
| Appends.AppendRun | unittest-2.c:364-404 | Consecutive non-empty appends, each with its own clock, all succeed when the blocks for their sum are free, with the exact contents, bitmap and counters. |
| Appends.AnySplitIsTheSame | unittest-2.c:364-404 | Any two ways of cutting the same bytes end in the same bitmap, counters, contents and views, but for the mtime of the last call. |
| Regrow.RegrownByWrite | homework.c:943-1169 | After a shrinking truncate a write shows the kept bytes and its own, and none that were cut off. |
| Regrow.RegrownByTruncate | homework.c:943-963 | After a shrinking truncate a second one, to any length, succeeds iff it needs no further block, and then shows what the kept blocks hold: the bytes cut off, and past the old end whatever is there. |
| Regrow.TailAfterWrite | homework.c:1092-1169 | What a write leaves past the end in a new last block: zeros or what the block held before, and exactly when which. |
| Regrow.PointerCutOff | homework.c:957-961 | A truncate that gives up blocks leaves -1 right after the last block. |
| Regrow.ReadsPastEndFail | homework.c:1021-1044 | After such a truncate every read that asks for more than is left reports EIO. |
| Histories.PointersStep | homework.c:438-1177 | Whatever the call, the pointers past the end of a file become -1 where it gave up a block and stay what they were elsewhere. |
| Histories.SpareAfterWrite | homework.c:1108-1111 | After a write the pointer behind the last block is the one the file had there before. |
| Histories.PointersAfter | homework.c:438-1177 | After any run that spares the file they are -1 exactly where it once had a block. |
| Histories.ReadFailsIffShrunk | homework.c:1021-1044 | From its creation on, a read across the end of a file fails iff the file once had more blocks than it has then. |
| EmptyImage.FreshIsGood | disk2.in:12-18 | A freshly made image is good, leaks nothing and is counted right. |
| EmptyImage.Disk2IsFresh | disk2.in:12-18 | The 400-block image with root inode 2, entries in block 399 and two invalid entries is such an image. |
| EmptyImage.EveryRunIsSafe | disk2.in:12-18 | From a fresh image no run leaves a reachable block unmarked, and careful runs leak nothing. |
| Walk.WalkVisitsEverythingOnce | read-img.py:38-85 | On a well-formed image, whatever its bitmap, the walk visits exactly the paths that resolve, each once, and each inode once. |
| Walk.WalkFindsAllInodes | read-img.py:85-97 | Without orphans the inodes found are exactly those in use. |
| Walk.WalkReportsExactly | read-img.py:43-64 | Whatever the bitmap says, the walk reports exactly the reachable blocks it does not mark. |
| Walk.WalkReportsOnce | read-img.py:43-64 | It reports no block twice. |
| Walk.WalkIsSilentWhen | read-img.py:43-64 | It reports nothing iff nothing in use is unmarked. |
| Walk.Walker.constructor | read-img.py:13-22 | On any image the walker starts with the bits of the bitmap block and nothing found. |
| Walk.Walker.Check | read-img.py:43-56 | A block is reported exactly when its bit is clear and the walk prints. |
| Walk.Entries | read-img.py:68-74 | The children are the valid entries of any directory block, in slot order, with the spelled-out paths. |
| Walk.Walker.Inspect | read-img.py:41-77 | Looking at an inode reports exactly its unmarked blocks and finds exactly its children. |
| Walk.Walker.Iter | read-img.py:38-83 | The recursion ends, visits exactly the tour below the inode, and if told to prints it and reports its unmarked blocks. |
| Walk.Walker.Descend | read-img.py:82-83 | The calls on the children visit their tours in order. |
| Walk.Walker.WalkAll | read-img.py:85-99 | Both walks of the script: the inodes found, the paths printed, and as report exactly the reachable unmarked blocks, each once. |
| Examples.RmdirTakesANonEmptyDirectory | homework.c:684-689 | mkdir /a, create /a/x and /a/y, unlink /a/x, rmdir /a: succeeds and leaks /a/y. |
| Examples.RmdirOfAFullDirectory | homework.c:675-689 | mkdir /a and 128 creates in it: rmdir of the full directory is ENOSPC. |
| Examples.UnlinkTakesADirectory | homework.c:615-641 | mkdir /a, create /a/x, unlink /a: succeeds and leaks /a/x. |
| Examples.ShortWriteMiscounts | homework.c:1171-1172 | A one-byte write at the start of a two-block file makes the free counters wrong. |
| Examples.ReadAfterTruncateFails | homework.c:1021-1044 | After truncating a two-block file to one byte, reading two bytes is EIO and reading one is not. |
| Examples.TruncateBringsBack | homework.c:943-963 | create /a, write two bytes, truncate to 1, truncate to 3: the second byte is back, followed by a zero. |
| Examples.CreateCutShort | homework.c:480-522 | create, cut off after two of its three block writes, leaves the new inode reachable but unmarked. |
| FileSystem.FileSystem.constructor | homework.c:66-95 | Loads any image and its bitmap and counts exactly its free blocks; on a sound image, after a crash too, it is ready to work. |
| FileSystem.FileSystem.BlockRead | misc.c:32-41 | A block of the disk, or EIO outside it. |
| FileSystem.FileSystem.BlockWrite | misc.c:45-61 | Stores the block and extends the log of writes, or EIO outside the disk. |
| FileSystem.FileSystem.ModifyBitmapAndWriteback | homework.c:416-436 | Marks exactly the listed blocks in memory, then writes the one block that records the result. |
| FileSystem.FileSystem.Search | homework.c:138-149 | The inode of the first valid entry with the name, or -1. |
| FileSystem.FileSystem.Translate | homework.c:117-158 | The loop computes the recursive lookup of the path without its last `depth` components, with its exact error. |
| FileSystem.FileSystem.PathToInode | homework.c:209-230 | Number and contents of that inode, or the error. |
| FileSystem.FileSystem.ValidateDirectoryAndEntry | homework.c:310-344 | ENOTDIR, EIO, EEXIST, or the directory block. |
| FileSystem.FileSystem.FindFreeDirEntry | homework.c:346-359 | The first slot not in use, or ENOSPC. |
| FileSystem.FileSystem.WriteNewEntry | homework.c:469-525 | The inode, entry, zero and bitmap writes in their order, and the counters. |
| FileSystem.FileSystem.CreateDirectoryEntry | homework.c:438-526 | Does exactly the plan of create or mkdir, from any disk. |
| FileSystem.FileSystem.FindIndexInDir | homework.c:561-575 | The first valid slot with the name; 128 if there is none. |
| FileSystem.FileSystem.UnlinkDirectoryEntry | homework.c:577-613 | Invalidates exactly the entry of the last component, or reports the error. |
| FileSystem.FileSystem.FsUnlink | homework.c:619-661 | Does exactly the plan of unlink, loop and write-back included. |
| FileSystem.FileSystem.CheckDirEmpty | homework.c:663-690 | The checks of rmdir with their errors. |
| FileSystem.FileSystem.FsRmdir | homework.c:696-718 | Does exactly the plan of rmdir. |
| FileSystem.FileSystem.FileDir | homework.c:720-772 | The directory block of the last component, its number and the slot. |
| FileSystem.FileSystem.SameParent | homework.c:821-830 | The component loop of rename decides whether both paths have the same directory. |
| FileSystem.FileSystem.FsRename | homework.c:787-858 | Does exactly the plan of rename. |
| FileSystem.FileSystem.FsChmod | homework.c:865-883 | Does exactly the plan of chmod. |
| FileSystem.FileSystem.DropBlocks | homework.c:955-961 | The loop collects the dropped pointers and leaves -1 in their place. |
| FileSystem.FileSystem.FsTruncate | homework.c:923-985 | Does exactly the plan of truncate. |
| FileSystem.FileSystem.ReadBlocks | homework.c:1027-1044 | Fetches the blocks into one buffer, or fails exactly when some pointer is outside the disk. |
| FileSystem.FileSystem.FsRead | homework.c:994-1051 | Returns exactly the specified result of read. |
| FileSystem.FileSystem.FillBuffer | homework.c:1128-1158 | The buffer holds the caller's bytes over the old first and last block, and zeros elsewhere. |
| FileSystem.FileSystem.WriteHead | homework.c:1093-1126 | The bitmap write, when blocks are added, then the inode write, with the grown inode. |
| FileSystem.FileSystem.WriteBlocks | homework.c:1160-1169 | One write per block of the range, in order. |
| FileSystem.FileSystem.FsWrite | homework.c:1061-1177 | Does exactly the plan of write, refused calls of any size included. |
| FileSystem.FileSystem.Create | homework.c:542-545 | On a safe image: the answer, state, writes and ownership of the plan, and the image is safe again, and exact if it was. |
| FileSystem.FileSystem.Mkdir | homework.c:556-559 | The same for mkdir, with S_IFDIR added to the mode. |
| FileSystem.FileSystem.Unlink | homework.c:619-661 | The same for unlink. |
| FileSystem.FileSystem.Rmdir | homework.c:696-718 | The same for rmdir. |
| FileSystem.FileSystem.Rename | homework.c:787-858 | The same for rename. |
| FileSystem.FileSystem.Chmod | homework.c:865-883 | The same for chmod. |
| FileSystem.FileSystem.Truncate | homework.c:923-985 | The same for truncate. |
| FileSystem.FileSystem.WriteAt | homework.c:1061-1177 | The same for write. |
| FileSystem.FileSystem.ReadAt | homework.c:994-1051 | On a safe image read returns its specified result. |

## Left out

- FUSE glue, `fs_ops`, `hwfuse.c` and the printing of `fs_init` and `read-img.py`: callbacks and output. What the walk prints is kept as the list of paths with their inodes and the list of unmarked blocks.
- `fs_getattr`, `fs_readdir`, `fs_utime`, `fs_statfs`: they only copy fields and would add easy members.
- File descriptors of `misc.c`: the disk is an array of blocks. Reads and writes inside it succeed; a failing device is not modelled.
- FileSystem.FileSystem.BlockWrite: in C a write past the end of the image file succeeds and makes the file longer, and one to block 0 aborts the program; the contract says EIO and stores it. No call on a safe image does either (`Runs.WritesStayOnDisk`).
- FileSystem.FileSystem.constructor: an image whose superblock gives another size than the image has, or of fewer than three blocks, is not modelled.
- Memory management, `calloc` failure and ENOMEM.
- C integer widths beyond the field sizes: offsets, lengths and block numbers are not wrapped at 32 bits, so a pointer of 2^20 or more is outside every disk instead of wrapping when it is multiplied by 4096.
- Caller identity and clock are parameters; the two calls of `time` in one operation return the same value.
- `fs_read` of a file of the full 1019 blocks reads the word after the inode in memory: the parameter `beyond`.
- Path strings: operations take the components that `parse` yields; `Paths.Parse` is proved separately. The NULL that `get_entry_name_from_path` returns for a name over 27 bytes cannot occur after `parse`.
- Images outside the invariant, such as that of `disk1.in` with a shared inode and a two-block directory: the methods of class FileSystem follow the code on any disk, the theorems about views do not apply.
- RenamePlan: where the source entry is missing from its directory the code follows a null pointer, because `file_dir` tests the wrong pointer for NULL; the plan answers ENOENT. It cannot happen once the source path has resolved.
- `gen-disk.py`, `strip.pl`, the Makefile and the unit tests: image generation and test plumbing.
