# A model of the SVR4 UFS tools

A Dafny project beside the Rust tools that format, read, write, check and mount
System V Release 4 UFS slices and write the BFS boot slice. It models the write
path together with the allocator, the reader and the checker that must agree
with it, and proves what the randomized test of the repository samples: from a
fresh file system, after any run of successful operations, the checker has
nothing to report and the tree is the one the operations describe.

`dafny verify dfyconfig.toml` checks everything.

## How it is built

- `Geometry`, `Volume`, `Codec`: superblock geometry and its address arithmetic;
  the state of a slice (cylinder groups, totals, inode table, bytes); byte fields.
  `Vol` is the value a `Volume` object holds at one moment. Its ledger `own` is
  for specification only: which inode each allocated block belongs to, and how
  many of its fragments are taken. `BlocksOk` says that free maps and free-block
  counts are exactly what the ledger says.
- `Alloc`, `InodeAlloc`: block, fragment and inode allocation on the object.
- `Pointers`, `Inodes`, `Reader`, `Bounds`, `Write`, `Extend`: pointer trees, the
  meaning of an inode, reading, whole-file replacement and suffix-only writes.
  `FilesOk` says that the live inodes account for exactly the claimed blocks.
- `Dir`, `Directory`, `DirOps`, `Listing`: records in 512-byte blocks, whole
  directories, and the operations on them.
- `Tree`, `Mirror`, `Steps`, `Births`, `Namespace`, `Removal`, `Paths`: the
  abstract namespace (types, names, parents, file bytes), the relation `FsOk`
  between a volume and its tree, and every operation followed on both.
- `Run`, `History`: whole runs, what they keep, and reachability from the root.
- `Check`, `Clean`: the checker pass by pass, every report tied to the fault it names and
  silence to a declarative predicate, and the proof that `FsOk` implies it.
- `Recount`, `Summary`: the full recount of the summary information.
- `Layout`, `Format`, `Property`: the formatter, the place of every piece of metadata in the
  image, and format-run-check in one method.
- `Mount`, `Veil`, `Session`: the daemon's write-back buffers against plain files and names.
- `Bfs`: the boot file system, written and read back.

Products and quotients of two variables are written `Mul`, `Quot` and `Rem`,
defined by recursion and proved equal to `*`, `/` and `%`; the solver then sees
them as ordinary symbols.

## Hypotheses

- Names are ASCII, 1 to 255 bytes, and neither "." nor ".." (`Tree.PlainName`). A
  longer name is encoded but never decoded again (`Dir.LongNamesUnreadable`).
- The creators that take a parent inode are called only with names the parent does
  not have, since they do not look; the ones that do not check that the parent is
  a directory are called only on directories, and a link target exists.
- The file creators are not asked for the directory type: they would count no
  directory and write no dot entries.
- A path is not continued past something that is not a directory. The source does
  not check this: it would read the file's bytes as directory records.
- Link counts are 16-bit; an increment at 65535 stops a program built with overflow
  checks and wraps around in one built without them. It is modelled as an error.
- The invariant `FsOk` is not empty: `Format.FormatSlice` establishes it.
- Claims about a new state are for calls that succeed. Replacement frees before it
  allocates and does not roll back. What an error means is stated: a full slice,
  no free inode, the link limit, or a refusal that changes nothing.
- The formatted slice is below 128 GiB and its inode area is zeroed. The checker reads
  the superblock totals as signed 32-bit numbers, so a total of 2^31 or more would be
  reported; below 2^31 fragments and inodes none grows so large
  (`Clean.FsConsistent`, `Clean.TotalsStaySmall`).
- The layout houses its metadata (`Layout.Housed`): the last cylinder group holds its own,
  and the free map fits its header block. Only then do the header and inode sequences of
  the model stand for bytes inside the image (`Layout.PlacedIff`).
- The daemon does not take the last name of a file while it is open.

## Properties that fail as first stated

- A rename may move a directory below itself. The result satisfies the checker but
  the directory is cut off from the root: `History.StepRooted` gives the exact
  condition, `History.SwallowedDirectory` an instance.
- The formatter accepts layouts that do not fit: a last cylinder group that cannot hold its
  own metadata, so that a header or inodes lie past the end of the slice, and bare images
  whose free map outgrows its block. `Layout.PlacedIff`, `Layout.InsideIff` and
  `Layout.MapFitsIff` give the exact conditions, `Layout.UnwritableHeader`,
  `Layout.ShortLastGroup` and `Layout.OversizedMap` instances.
- A name that is not ASCII can be looked up but not removed: `Dir.RemovableIff` gives the
  exact condition. Removal also takes different names for one: `Dir.Collision`.
- The table of fragment runs drops runs of eight or more, so with sixteen fragments
  per block it need not weigh the free fragments: `Recount.AccountRuns` and
  `Recount.SummarizeBlocks` give the exact condition, `Recount.DroppedRun` an instance.
- The rotational tables have room for 32 cylinders and drop free blocks on later ones. The
  totals by cylinder add up to the free blocks exactly when no free block lies there
  (`Recount.SummarizeBlocks`): always with disk geometry (`Format.DiskCylinders`); on a bare
  image, where every block is a cylinder, exactly when no block past the first 32 is free
  (`Format.BareOnTable`, with `Recount.MissedBlock` an instance).
- A device number is stored in 32 bits and comes back only if the major number fits 14 bits
  and the minor number 18: `Namespace.DevicesTold` gives the exact condition,
  `Namespace.DevicesAlike` devices that are stored alike.
- The formatter need not reach the requested density of inodes: `Layout.InodeDensity` says
  when it stops short, `Layout.DensityMissed` is an instance.
- The boot file system writer accepts names with zero bytes and they read back cut:
  `Bfs.NamesSurvive` gives the exact condition, `Bfs.CutName` an instance.

## Model

| member | source | states |
|---|---|---|
| `Geometry.GoodBlocksApart` | crates/svr4-ufs/src/superblock.rs:138-162 | two distinct aligned blocks of the data areas never share a fragment, whatever groups they lie in |
| `VolumeState.FreeIffUnowned` | crates/svr4-ufs/src/alloc.rs:296-328 | a whole block is free in the map exactly when no inode owns it: at most one allocation per aligned block |
| `VolumeState.CountAfterMark` | crates/svr4-ufs/src/alloc.rs:360-366 | marking part of one block changes the free-block count by that block alone |
| `VolumeState.TakeKeeps` | crates/svr4-ufs/src/alloc.rs:296-375 | taking fragments from a free block keeps the free maps the exact complement of the ledger, and group and superblock free-block counts exact |
| `VolumeState.GiveKeeps` | crates/svr4-ufs/src/alloc.rs:396-450 | returning an allocation keeps maps and counts exact |
| `VolumeState.GiveUndoesTake` | crates/svr4-ufs/src/alloc.rs:296-450 | freeing an allocation restores the exact state, bitmaps and counts included, that preceded it |
| `VolumeState.LedgerFixesBitmaps` | crates/svr4-ufs/src/alloc.rs:30-43 | the free maps and the free-block counts are a function of who owns what |
| `VolumeState.CountsFit` | crates/svr4-ufs/src/alloc.rs:175-194 | free-block counts stay below 2^32, so the unsigned adjustment never wraps |
| `Codec.LittleEndian` | crates/svr4-fs-core/src/codec.rs:14-25 | the lowest byte of a 16-bit or 32-bit field comes first |
| `Alloc.Volume.CopyIn` | crates/svr4-ufs/src/write.rs:110-118 | writing into one block replaces those bytes and leaves every other block of the slice byte for byte the same |
| `Alloc.Volume.FindFreeBlock` | crates/svr4-ufs/src/alloc.rs:305-325 | the scan of a group finds its first aligned wholly free block, and reports none only when there is none |
| `Alloc.Volume.AllocateRun` | crates/svr4-ufs/src/alloc.rs:296-375 | on success a previously unowned, nonzero, in-range block is claimed with the requested fragments, its bytes zero, and everything else is framed; it is the first free block of the first group with one, counted from the inode's own; failure means no aligned free block exists in any group |
| `Alloc.Volume.AllocateAllocation` | crates/svr4-ufs/src/alloc.rs:379-393 | dispatch by size in bytes: a full block or a run of fragments; failure means a bad size or a full slice |
| `Alloc.Volume.FreeAllocation` | crates/svr4-ufs/src/alloc.rs:396-450 | exactly that claim leaves the ledger, and the invariant holds again |
| `InodeAlloc.FindFreeInode` | crates/svr4-ufs/src/alloc.rs:236-245 | the rotor search returns the first clear bit from the rotor on, cyclically, and fails only when every bit of the group is set |
| `InodeAlloc.AllocateInode` | crates/svr4-ufs/src/alloc.rs:208-264 | the slot handed out was free and only its bit, its rotor and the counts change; it is the preferred slot when that is free, else the first from the rotor in the first group with one; failure means every inode of every group is used, despite the preferred slot and the free-count shortcut |
| `InodeAlloc.FreeInode` | crates/svr4-ufs/src/alloc.rs:267-291 | succeeds exactly on a used inode, clears its bit and adjusts the counts |
| `InodeAlloc.FlipCounts` | crates/svr4-ufs/src/alloc.rs:175-202 | an inode changing hands with the matching adjustments keeps free-inode and directory counts of every group and the superblock exact |
| `InodeAlloc.InodeCountsFit` | crates/svr4-ufs/src/alloc.rs:184-202 | free-inode and directory counts stay below 2^32, so adjustment never wraps |
| `Pointers.EncodePtrs` | crates/svr4-ufs/src/write.rs:110-118 | a pointer block holds the pointers in order, zero past the end |
| `Pointers.BuildTree` | crates/svr4-ufs/src/write.rs:122-155 | the tree built over any list lists exactly that list when walked, through fresh pointer blocks disjoint from all owned blocks, and the returned count is the number of those blocks and a function of the list length |
| `Pointers.TreeFrame` | crates/svr4-ufs/src/inode.rs:106-161 | what a walk of a pointer tree returns depends only on the bytes of its own pointer blocks |
| `Write.BuildStructure` | crates/svr4-ufs/src/write.rs:159-190 | over any list of nonzero blocks the direct slots and the three trees together walk back to the same list in order, and block k is found by its number, one digit per level; it fails only on a full slice |
| `Reader.CollectData` | crates/svr4-ufs/src/inode.rs:106-137 | the recursive walk with a limit returns the prefix of the tree leaves, skipping zero pointers |
| `Reader.CollectPointers` | crates/svr4-ufs/src/inode.rs:141-161 | the walk returns every pointer block of the tree in order |
| `Reader.InodePointerBlocks` | crates/svr4-ufs/src/inode.rs:165-176 | the pointer blocks of all three levels |
| `Reader.InodeDataBlocks` | crates/svr4-ufs/src/inode.rs:180-218 | as many of the reachable blocks as the size calls for, in file order |
| `Inodes.SizesShape` | crates/svr4-ufs/src/superblock.rs:193-216 | one allocation per needed block, each a whole number of fragments of at least one and at most a block |
| `Inodes.AllocationByteSizes` | crates/svr4-ufs/src/superblock.rs:193-216 | one allocation per block of bytes; all are whole blocks but the last of a file of at most twelve, which is the bytes left rounded up to whole fragments |
| `Inodes.SizesFitted` | crates/svr4-ufs/src/superblock.rs:193-216 | the same of the specification the writer, the extender and the checker share |
| `Bounds.PointersNeeded` | crates/svr4-ufs/src/write.rs:122-190 | the number of pointer blocks of a file in closed form: none up to twelve blocks, then one, then one per full or started row of pointers at each level |
| `Bounds.SectorBytes` | crates/svr4-ufs/src/write.rs:237-245 | the recorded sectors in bytes are the file's blocks and pointer blocks, whole but for the last allocation |
| `Write.SizesCover` | crates/svr4-ufs/src/superblock.rs:183-216 | every allocation is large enough for its share of the bytes |
| `Bounds.AllocatedFits` | crates/svr4-ufs/src/write.rs:159-190 | no list of allocated blocks exceeds what direct, single, double and triple pointers can address |
| `Bounds.SectorsFit` | crates/svr4-ufs/src/write.rs:237-245 | the sector count of any file in the slice fits its 32-bit field |
| `Reader.ReadDataRange` | crates/svr4-ufs/src/reader.rs:26-59 | the block-by-block copy returns exactly that range of the joined blocks, cut where they end |
| `Reader.ReadInodeBytes` | crates/svr4-ufs/src/reader.rs:62-69 | returns the contents: as many bytes as the size says, or as the blocks hold when some are missing |
| `Reader.ReadInodeRange` | crates/svr4-ufs/src/reader.rs:72-89 | equals the matching slice of the whole contents, for every inode whose walks stay inside the image |
| `Write.FreeContents` | crates/svr4-ufs/src/write.rs:203-218 | afterwards the inode owns nothing, and no other inode is touched |
| `Write.SetInodeContents` | crates/svr4-ufs/src/write.rs:198-246 | afterwards the inode reads back exactly the data at any length, each of its blocks found by its number, its sector count is the one its size determines, every other live inode still owns, reads and records the same; fails only on a full slice and never for empty data |
| `Write.RewrittenFiles` | crates/svr4-ufs/src/write.rs:198-246 | when one inode is rewritten soundly, every other live inode keeps its record and its bytes and the whole table stays sound |
| `Inodes.OkSectors` | crates/svr4-ufs/src/write.rs:237-245 | the recorded sector count is a function of the size alone, however the file came about |
| `Inodes.ContentsFrame` | crates/svr4-ufs/src/reader.rs:62-69 | walks and contents of an inode depend only on the bytes of its own blocks |
| `Extend.CommonPrefix` | crates/svr4-ufs/src/write.rs:249-252 | the length of the longest common prefix of two allocation lists |
| `Extend.WriteDataRange` | crates/svr4-ufs/src/write.rs:256-288 | overwrites exactly that range of the joined blocks and nothing else |
| `Extend.ApplyInodeWrite` | crates/svr4-ufs/src/write.rs:301-365 | in place or by replacing only the suffix of the allocations, the result has the size, bytes and sector count that replacing the whole file with the spliced bytes gives, through tail growth and into indirect blocks, and the blocks in front of the first changed allocation stay where they are |
| `Dir.EncodeEntry` | crates/svr4-ufs/src/write.rs:370-377 | an encoded record decodes to the inode, length and name it was given |
| `Dir.LongNamesUnreadable` | crates/svr4-ufs/src/dir.rs:34-52 | a record with a name over 255 bytes is encoded without complaint but never decodes |
| `Dir.FindSlot` | crates/svr4-ufs/src/write.rs:398-483 | finds the first blank record, or slack of a live one, with enough room, and fails only when no record has it |
| `Dir.DirSizIs` | crates/svr4-fs-core/src/consts.rs:166-173 | a record takes its header, the name and a zero byte, rounded up to whole words |
| `Dir.FullIsCrowded` | crates/svr4-ufs/src/write.rs:398-483 | a block is full for a name exactly when no record leaves that many bytes, whatever `Dir.DirSiz` says |
| `Dir.RecordBytes` | crates/svr4-ufs/src/write.rs:370-377 | a record byte by byte: number and lengths lowest byte first, the name, zeros |
| `Dir.PlaceOk` | crates/svr4-ufs/src/write.rs:398-514 | placing a record into any kind of slot keeps the block tiled and adds exactly that entry at one position |
| `Dir.RemoveEntry` | crates/svr4-ufs/src/write.rs:698-725 | compares decoded text; for an ASCII name removes the first live entry of that name, by merging it into the record before it, or blanking it at the start of the block or behind its first record, keeps the block tiled and every other entry in order; none only when the name is absent |
| `Dir.Utf8Recovers` | crates/svr4-ufs/src/write.rs:370-377 | the code points of a name can be read back from the bytes it is stored as |
| `Dir.DecodedIs` | crates/svr4-ufs/src/dir.rs:90-94 | for an ASCII name, comparing decoded text is comparing bytes |
| `Dir.RemovableIff` | crates/svr4-ufs/src/write.rs:698-725 | a name found by its bytes is also found by its decoded text, and so can be removed, if and only if it is ASCII |
| `Dir.Collision` | crates/svr4-ufs/src/dir.rs:90-94 | the names U+00E9 and U+00E8 are stored as different bytes and decode to the same two replacement characters, a name that removes either |
| `Dir.RewriteEntryInode` | crates/svr4-ufs/src/write.rs:1012-1021 | changes the inode number of the first entry of that name and nothing else |
| `Directory.InsertEntry` | crates/svr4-ufs/src/write.rs:486-514 | the directory stays tiled and gains exactly that entry, in the first block with room, no other block changing; it grows by one 512-byte block exactly when no record of any block leaves the bytes a record of that name needs |
| `Directory.DotBlockOk` | crates/svr4-ufs/src/write.rs:381-387 | the first block of a directory lists "." and ".." and tiles |
| `DirOps.AddDirectoryEntry` | crates/svr4-ufs/src/write.rs:518-582 | by whichever of the three routes, the listing gains exactly that entry, no other inode is affected, the size grows by 512 exactly when no block has room for the name, and it fails only on a full slice |
| `DirOps.DeleteDirectoryEntry` | crates/svr4-ufs/src/write.rs:730-755 | for an ASCII name the listing loses exactly the first entry of that name; error exactly when there is none, and then nothing changes |
| `DirOps.UpdateDotDot` | crates/svr4-ufs/src/write.rs:1025-1049 | only the ".." entry changes, to the new parent |
| `ListingOps.LookupRecord` | crates/svr4-ufs/src/reader.rs:137-180 | on any bytes at all, also with blocks missing, the in-place scan answers with the first live record of that name in the record list; none exactly when there is none or its inode is not in the table |
| `ListingOps.ReadEntries` | crates/svr4-ufs/src/reader.rs:93-126 | the live named records of every block, in order, also of a directory whose size reaches past its blocks as long as every 512-byte step starts within them |
| `ListingOps.EntriesLive` | crates/svr4-ufs/src/dir.rs:72-86 | on a tiled directory the record walk finds exactly the live entries |
| `ListingOps.DirectoryIsEmpty` | crates/svr4-ufs/src/write.rs:798-802 | true exactly when every entry is "." or ".." |
| `Mirror.MirrorsRewritten` | crates/svr4-ufs/src/write.rs:518-582 | rewriting one inode in step with the abstract tree leaves every other directory and file as the tree says |
| `Births.NewInode` | crates/svr4-ufs/src/write.rs:56-81 | an unused number, near the parent's as `InodeAlloc.AllocateInode` chooses, a blank typed record, all counts exact, nothing else touched; fails only when every inode is used |
| `Births.ReleaseInode` | crates/svr4-ufs/src/write.rs:775-795 | the inode is gone with all its blocks, counts are exact, nothing else touched; never fails |
| `Namespace.CreateEmptyInParent` | crates/svr4-ufs/src/write.rs:840-860 | exactly one new name for a new empty file; refused without a change when the parent is no directory |
| `Namespace.SymlinkInParent` | crates/svr4-ufs/src/write.rs:890-908 | exactly one new name for a new link whose contents are the target |
| `Namespace.MknodInParent` | crates/svr4-ufs/src/write.rs:915-946 | exactly one new name for a new device with its numbers in the first two direct slots, as `Namespace.DevicesTold` says, which the tree records; other types refused |
| `Namespace.DevicesTold` | crates/svr4-ufs/src/write.rs:941-943 | the old form gives back major and minor cut to 7 and 8 bits; bit by bit the expanded form is the minor number with the major one from bit 18 on, and gives back both if and only if they fit 14 and 18 bits |
| `Namespace.DevicesAlike` | crates/svr4-ufs/src/write.rs:941-943 | larger major numbers share their stored form with a minor number of major 0 |
| `Namespace.MkdirInParent` | crates/svr4-ufs/src/write.rs:864-885 | a new directory with "." and "..", link count 2, one name, and one link more on the parent |
| `Removal.LinkInParent` | crates/svr4-ufs/src/write.rs:949-966 | one more name and one more link for a file; directories refused |
| `Removal.UnlinkInParent` | crates/svr4-ufs/src/write.rs:970-988 | succeeds exactly on an existing non-directory; drops that name and, with the last name, the file and all its blocks |
| `Removal.RmdirInParent` | crates/svr4-ufs/src/write.rs:991-1009 | succeeds exactly on an existing empty directory; drops it and one link of the parent |
| `Removal.RenameInParent` | crates/svr4-ufs/src/write.rs:1053-1103 | the tree after it is the moved one, the replaced target gone; across parents a directory takes ".." along and one link moves from the old parent to the new; no-op and refusal cases exact |
| `Removal.Truncate` | crates/svr4-ufs/src/write.rs:1106-1115 | the file is cut or zero-extended to the size, a device that changes size loses its numbers, everything else unchanged |
| `Removal.WriteFile` | crates/svr4-ufs/src/write.rs:198-246 | replacing the bytes of a file keeps the whole invariant and changes only those bytes |
| `Tree.RefsAfterMove` | crates/svr4-ufs/src/write.rs:1076-1098 | a move changes link counts only where a directory changes parent |
| `Tree.LastName` | crates/svr4-ufs/src/write.rs:980-986 | a link count of one means the name removed is the last |
| `Paths.ResolvePath` | crates/svr4-ufs/src/reader.rs:183-192 | leads where the tree leads |
| `Paths.CreateFile` | crates/svr4-ufs/src/write.rs:620-640 | creates exactly when the parent is a directory without that name, with the given bytes |
| `Paths.MakeDirectory` | crates/svr4-ufs/src/write.rs:644-661 | creates a directory under the same condition |
| `Paths.LinkPath` | crates/svr4-ufs/src/write.rs:664-675 | links exactly that file under the new path; a missing source, a directory or a taken name is refused without a change |
| `Paths.UnlinkPath` | crates/svr4-ufs/src/write.rs:775-795 | succeeds exactly when the path leads to a non-directory, and drops that name |
| `Paths.RemoveDirectory` | crates/svr4-ufs/src/write.rs:805-825 | succeeds exactly when the path leads to an empty directory, and drops it |
| `Paths.WalkAgrees` | crates/svr4-ufs/src/write.rs:1053-1103 | a path that avoids the changed names leads where it led before |
| `Paths.MovedSubtree` | crates/svr4-ufs/tests/property.rs:99-116 | a renamed directory takes every path below it along |
| `Run.Attempt` | crates/svr4-ufs/src/write.rs:840-1115 | each operation takes the tree to exactly its abstract successor with the invariant intact, or fails because it is not permitted, space or inodes ran out, or a link count is at its limit |
| `Run.RunAll` | crates/svr4-ufs/tests/property.rs:117-256 | every finite run of successful operations keeps the invariant and follows the abstract operations step by step; it stops only at such an obstacle |
| `History.StepOk` | crates/svr4-ufs/tests/property.rs:117-256 | every abstract operation keeps the namespace well-formed |
| `History.StepKeeps` | crates/svr4-ufs/tests/property.rs:239-263 | a path not passing a name the operation names keeps its inode, and no file but the one written changes its bytes or device numbers |
| `History.RunKeeps` | crates/svr4-ufs/tests/property.rs:117-263 | over a whole run, a file that is neither named nor written stays where it was with the bytes it had, a device with its numbers |
| `History.StepRooted` | crates/svr4-ufs/tests/property.rs:232-248 | an operation keeps every directory below the root if and only if it is not a rename of a directory below itself |
| `History.SwallowedDirectory` | crates/svr4-ufs/src/write.rs:1053-1103 | moving a directory into its own subtree is accepted, stays well-formed, and cuts it off from the root |
| `History.RunRooted` | crates/svr4-ufs/tests/property.rs:232-248 | runs without such a rename keep every directory reachable |
| `History.Reached` | crates/svr4-ufs/src/reader.rs:183-192 | then every inode has a path of plain names from the root |
| `Check.ExtentsAre` | crates/svr4-ufs/src/check.rs:66-78 | an inode's extents are its data blocks with the fragments of their allocations, whole blocks past the list, then its pointer blocks |
| `Check.ClaimRun` | crates/svr4-ufs/src/check.rs:190-213 | reports exactly the fragments out of range and those claimed before, with the first owner; exactly the others are added |
| `Check.ClaimPass` | crates/svr4-ufs/src/check.rs:40-84 | reports exactly the used inodes that cannot be read, the wrong block and sector counts with both numbers, and the fragments out of range or claimed twice with both inodes; the owner table maps each fragment to the first inode with it |
| `Check.MapPass` | crates/svr4-ufs/src/check.rs:87-108 | reports exactly the owned fragments that are marked free, with their owner, and the allocated ones without one |
| `Check.CheckDirectory` | crates/svr4-ufs/src/check.rs:115-145 | reports exactly a "." that leads elsewhere, the entries that lead to unused inodes, and missing dots; reference counts grow by its records |
| `Check.LinkPass` | crates/svr4-ufs/src/check.rs:146-158 | reports exactly the orphans and the link counts that differ from the references found, with both numbers |
| `Check.TotalPass` | crates/svr4-ufs/src/check.rs:160-184 | reports exactly the superblock totals, read as signed numbers, that differ from the group sums, with both numbers |
| `Check.CheckFilesystem` | crates/svr4-ufs/src/check.rs:31-186 | a problem is reported if and only if it is a fault of the volume, kind by kind and with its numbers; none if and only if no inode in use is stored past the end of the image and the declarative consistency predicate holds |
| `Check.SilentIff` | crates/svr4-ufs/src/check.rs:31-186 | there is no fault if and only if that predicate holds |
| `Clean.FsConsistent` | crates/svr4-ufs/src/check.rs:31-186 | the invariant the operations keep makes the file system consistent in the sense of the checker if and only if every total is below 2^31 |
| `Clean.RefsAgree` | crates/svr4-ufs/src/check.rs:113-160 | the references the checker counts for an inode are exactly its names, its "." and the ".." of its children |
| `Clean.RunThenCheck` | crates/svr4-ufs/tests/property.rs:117-256 | after any run of successful operations on a slice below 2^31 fragments and inodes the checker reports nothing, unless an inode in use is stored past the end of the image |
| `Property.FormatRunCheck` | crates/svr4-ufs/tests/property.rs:117-263 | for every accepted layout that houses its metadata: format succeeds, and after any run of operations the check gives no problem and the tree is the one they describe; the run stops only at an obstacle |
| `Recount.CountsPartition` | crates/svr4-ufs/src/alloc.rs:548-586 | every free fragment is counted exactly once: in a free block or as a loose fragment |
| `Recount.AccountRuns` | crates/svr4-ufs/src/alloc.rs:473-485 | each entry grows by the number of maximal runs of that length; the table weighs exactly the free fragments if and only if no run outgrows its eight entries |
| `Recount.SummarizeBlocks` | crates/svr4-ufs/src/alloc.rs:548-586 | free blocks and loose fragments exact; the run table counts the runs of each length and weighs the loose fragments if and only if no run outside free blocks outgrows it; each place of the rotational table holds the number of free blocks there and each row adds up to its cylinder's total; these totals add up to the free blocks if and only if every free block lies on one of the first 32 cylinders |
| `Recount.Placement` | crates/svr4-ufs/src/alloc.rs:454-471 | a fragment's cylinder holds its first sector, and its rotational position is the eighth of the track that sector lies in |
| `Recount.SmallBlocksTame` | crates/svr4-ufs/src/alloc.rs:548-586 | with at most eight fragments per block no run outgrows the table |
| `Recount.DroppedRun` | crates/svr4-ufs/src/alloc.rs:473-485 | a block of sixteen fragments with its first eight free: eight loose fragments, none of them in the run table |
| `Recount.MissedBlock` | crates/svr4-ufs/src/alloc.rs:548-566 | 33 blocks on cylinders of one block, only the last free: one free block, none in the table |
| `Recount.SummarizeInodes` | crates/svr4-ufs/src/alloc.rs:527-546 | free inodes and directories exact, the two reserved inodes taken as used |
| `Summary.RecomputeSummaryCounts` | crates/svr4-ufs/src/alloc.rs:616-661 | every header gets the exact counts, the superblock their sums, and nothing else changes; the summary area gets the same counts, and each group the run and rotational tables of `Recount.SummarizeBlocks` |
| `Summary.RecountIdempotent` | crates/svr4-ufs/src/alloc.rs:616-661 | a second recount changes nothing |
| `Summary.RecountKeeps` | crates/svr4-ufs/src/alloc.rs:616-661 | under the invariant free-block, free-inode and directory counts are already exact; only the loose-fragment counts can change, and a rotor only if it points past the group |
| `Summary.LooseIsSlack` | crates/svr4-ufs/src/alloc.rs:548-586 | the loose fragments of a group are exactly what the owners of its blocks leave untaken, and the fragments behind its last whole block |
| `Summary.LooseLag` | crates/svr4-ufs/src/write.rs:198-246 | when an inode is rewritten the recorded loose-fragment count stays, so that it falls behind the exact one by precisely the change in what owners leave untaken |
| `Summary.LooseFallsBehind` | crates/svr4-ufs/src/alloc.rs:360-375 | an allocation leaves the recorded loose-fragment count behind by the fragments of the block it does not take; an exact count stays exact if and only if the whole block is taken |
| `Summary.RecountFsOk` | crates/svr4-ufs/src/alloc.rs:616-661 | files, names and the invariant survive the recount |
| `Layout.PlanOk` | crates/svr4-ufs/src/format.rs:116-217 | whatever the options, an accepted layout puts superblock, summary, header, inodes and data in order with room for a data block, the groups cover the slice, and with disk geometry the free map fits its block |
| `Layout.PlanIff` | crates/svr4-ufs/src/format.rs:116-217 | a layout is accepted exactly for proper sizes, whole cylinders that the free map can hold, and a group with room for its header, a block of inodes and a block of data |
| `Layout.GroupsAreFull` | crates/svr4-ufs/src/format.rs:147-178 | groups have as many cylinders as tables, slice and free map allow, and there are as few groups as hold the slice |
| `Layout.HeadersAreTight` | crates/svr4-ufs/src/format.rs:181-196 | the summary area starts at block 4 with just enough fragments, the headers at the next block boundary, block 5 at the earliest |
| `Layout.InodeDensity` | crates/svr4-ufs/src/format.rs:84-112 | there are enough inodes for the requested density, or no room for another inode block in the group or its map; and one block fewer would not do |
| `Layout.DensityMissed` | crates/svr4-ufs/src/format.rs:84-112 | an accepted bare image of 16 MiB that asks for an inode per 512 bytes and gets one per 8192 |
| `Layout.GeometryAgrees` | crates/svr4-ufs/src/format.rs:226-275 | the geometry in the superblock describes the areas of the layout |
| `Layout.LostIff` | crates/svr4-ufs/src/inode.rs:58-65 | every inode can be read if and only if the last group has room for its own metadata |
| `Layout.AreasApart` | crates/svr4-ufs/src/format.rs:180-217 | superblock, summary area, group headers, inode areas and data areas are pairwise disjoint |
| `Layout.InsideIff` | crates/svr4-ufs/src/format.rs:209-217 | all areas lie inside the slice if and only if the last group holds its own metadata |
| `Layout.ShortLastGroup` | crates/svr4-ufs/src/format.rs:209-217 | an accepted slice, 33 cylinders of 64 sectors, that can be formatted although its last inodes lie past its end |
| `Layout.UnwritableHeader` | crates/svr4-ufs/src/format.rs:209-217 | an accepted slice, 33 cylinders of 16 sectors, whose last group header lies past its end |
| `Layout.MapFitsIff` | crates/svr4-ufs/src/alloc.rs:35-43 | the header block has a byte for every bit of the free map if and only if the group has at most eight fragments per byte behind offset 984 |
| `Layout.DiskMapFits` | crates/svr4-ufs/src/format.rs:165-176 | with disk geometry the free map always fits |
| `Layout.OversizedMap` | crates/svr4-ufs/src/format.rs:147-154 | an accepted bare image, 16 MiB in blocks of 4096, whose free map does not |
| `Layout.SlotInside` | crates/svr4-ufs/src/superblock.rs:165-174 | the 128 bytes of an inode lie in the inode area of its group |
| `Layout.SlotsApart` | crates/svr4-ufs/src/superblock.rs:165-174 | distinct inodes have disjoint slots |
| `Layout.PlacedIff` | crates/svr4-ufs/src/format.rs:180-223 | every header, inode slot and byte of both bit maps has its place inside the slice, the inode map before the magic number, if and only if the last group holds its own metadata and the free map fits |
| `Layout.SlotWriteFrames` | crates/svr4-ufs/src/superblock.rs:165-174 | writing one inode changes no byte of another inode, a header or a data block |
| `Layout.HeaderWriteFrames` | crates/svr4-ufs/src/alloc.rs:79-92 | writing one group header changes no byte of an inode, another header or a data block |
| `Layout.DataWriteFrames` | crates/svr4-ufs/src/superblock.rs:177-179 | writing into a data block changes no byte of an inode or a header |
| `Format.PristineGroup` | crates/svr4-ufs/src/alloc.rs:117-160 | the whole data area free, all four counts exact, no inode used but the reserved two |
| `Format.DiskCylinders` | crates/svr4-ufs/src/format.rs:155-178 | with disk geometry every fragment of a group lies on one of its at most 32 cylinders |
| `Format.BareOnTable` | crates/svr4-ufs/src/format.rs:147-154 | on an accepted bare image every free block has its place in the rotational tables if and only if no block past the first 32 is free |
| `Format.PlacesAre` | crates/svr4-ufs/src/alloc.rs:454-471 | in every accepted layout cylinder and position of a block are those of the recorded geometry |
| `Format.SheetBalances` | crates/svr4-ufs/src/alloc.rs:548-586 | in every recount of a volume with an accepted layout, with disk geometry the cylinder totals add up to the free blocks, and with at most eight fragments per block the run table weighs the loose fragments |
| `Format.FormatSlice` | crates/svr4-ufs/src/format.rs:116-301 | succeeds exactly when the layout is accepted and every group header can be written, which is so whenever the layout houses its metadata; then the result is a consistent file system whose namespace is a lone root, all of its metadata inside the image; the inodes meet the requested density as `Layout.InodeDensity` says; the summary area agrees with the headers and the tables balance as `Format.SheetBalances` says |
| `Mount.State.Read` | bins/svr4-ufs-mount/src/main.rs:682-710 | returns what the plain file would |
| `Mount.State.EnsureBuffer` | bins/svr4-ufs-mount/src/main.rs:211-220 | loading a buffer changes nothing a reader sees |
| `Mount.State.Write` | bins/svr4-ufs-mount/src/main.rs:713-741 | splices into the buffered body, zero-filling a gap; nothing else changes |
| `Mount.State.Commit` | bins/svr4-ufs-mount/src/main.rs:222-238 | the disk gets the buffered body, the buffer is clean, no reader sees a difference |
| `Mount.State.SetSize` | bins/svr4-ufs-mount/src/main.rs:363-372 | resizes the buffered body, or the file on disk when there is none |
| `Mount.State.Release` | bins/svr4-ufs-mount/src/main.rs:779-800 | commits; with the last handle the buffer goes and the disk holds the file |
| `Mount.State.Create` | bins/svr4-ufs-mount/src/main.rs:624-665 | a new open file with an empty buffer |
| `Mount.State.Settled` | bins/svr4-ufs-mount/src/main.rs:789-799 | without open handles there are no buffers and the disk holds every file |
| `Veiled.StepVeiled` | bins/svr4-ufs-mount/src/main.rs:240-620 | a namespace operation means to users of the daemon, who see buffered bodies, what it means on disk |
| `Veiled.Spared` | bins/svr4-ufs-mount/src/main.rs:240-620 | an operation that does not take a file's last name leaves the file and its bytes alone |
| `Veiled.ObstacleVeiled` | bins/svr4-ufs-mount/src/main.rs:440-620 | what keeps an operation from being carried out on disk is visible to users of the daemon as well |
| `Session.ChangeNames` | bins/svr4-ufs-mount/src/main.rs:440-620 | a namespace request does what the plain namespace would, buffers intact, also when it drops one of several names of an open file; it fails only on a read-only mount, when it would take the last name of an open file, or at an obstacle |
| `Session.PlayAll` | bins/svr4-ufs-mount/src/main.rs:624-800 | any interleaving of requests, namespace operations included, is answered as plain files and names would up to the first that fails, and that one fails for a stated reason; once all handles are closed the disk holds exactly those files and names |
| `Bfs.CheckNames` | crates/svr4-bfs/src/lib.rs:127-142 | accepts exactly lists of distinct, nonempty, slash-free ASCII names of at most 14 bytes |
| `Bfs.ExtentFacts` | crates/svr4-bfs/src/lib.rs:162-178 | extents are sector-aligned, disjoint and in order |
| `Bfs.FormatBfs` | crates/svr4-bfs/src/lib.rs:116-251 | succeeds exactly on accepted input, then superblock, records, directory and every extent are in place, every other byte of the slice is zero and no byte outside it changes |
| `Bfs.Compact` | crates/svr4-bfs/src/lib.rs:144-178 | the areas follow each other, each as short as whole sectors allow |
| `Bfs.RecordsAre` | crates/svr4-bfs/src/lib.rs:162-178 | each file's record gives its first sector, the sector and the byte its contents end at, its type, mode, links and times; that of an empty file is all zero |
| `Bfs.RootRecordIs` | crates/svr4-bfs/src/lib.rs:198-221 | the same of the root directory, and the four words that say no compaction is under way |
| `Bfs.OnlyInodes` | crates/svr4-bfs/src/lib.rs:272-290 | the root and the files are the only inodes of a formatted slice; every other slot is free |
| `Bfs.Detected` | crates/svr4-bfs/src/lib.rs:254-268 | a formatted slice is detected with its data bounds |
| `Bfs.OnlyMagic` | crates/svr4-bfs/src/lib.rs:254-268 | what is detected starts with the magic number and has its data bounds in order |
| `Bfs.ListRoot` | crates/svr4-bfs/src/lib.rs:308-332 | the entries of the root directory in order |
| `Bfs.RootIs` | crates/svr4-bfs/src/lib.rs:308-332 | listing a formatted slice gives every file in order with its size |
| `Bfs.FileRead` | crates/svr4-bfs/src/lib.rs:272-344 | every file reads back exactly, empty ones included |
| `Bfs.ReadFile` | crates/svr4-bfs/src/lib.rs:335-344 | the bytes of the first entry of that name, none when there is none |
| `Bfs.NamesSurvive` | crates/svr4-bfs/src/lib.rs:127-142 | names survive the round trip if and only if none contains a zero byte, which the writer does not forbid |
| `Bfs.CutName` | crates/svr4-bfs/src/lib.rs:127-142 | an accepted list whose name, "a", zero, "b", reads back as "a" |
| `Bfs.RoundTrip` | crates/svr4-bfs/src/lib.rs:116-344 | format, detect, list and read give back the names, sizes and bytes |

## Left out

- Lazily initialised cylinder groups: the formatter initialises every group, so the first-touch path and the error for a damaged group header do not arise.
- Cylinder groups with a nonzero rotational offset, and fragments larger than what the superblock shift says: a fragment number times the fragment size is its byte address.
- Owner, permissions, timestamps and the other inode fields that nothing here depends on; exact field offsets and magic numbers of the UFS structures.
- Pointers that lead outside the image, on which the source stops with a panic: readers and checker are stated for walks that stay inside.
- Sparse files, which the writer never makes; directories whose size is not a multiple of 512 outside of lookup and listing.
- The final sort of a directory listing and the text of the checker's messages.
- The state after an error in the middle of an operation, beyond the reason for the error.
- The daemon's attributes, locking and error numbers, and taking the last name of a file that is open.
- Alloc.Volume.FreeAllocation: is stated for blocks somebody owns; the source also accepts a block nobody owns and then counts it free twice.
- Extend.WriteDataRange: is stated for ranges the allocations cover, as its only caller passes them; the source clips others.
- Namespace.CreateEmptyInParent: is stated for a name the parent does not have; the source does not look and would add a second record of that name.
- Namespace.MkdirInParent: the same.
- Namespace.MknodInParent: the same.
- Namespace.SymlinkInParent: the same, and is stated for a parent that is a directory, which the source does not check; on a file it would append a directory record to the file.
- Removal.LinkInParent: the same holds of the name and the parent.
- Removal.UnlinkInParent: is stated for a parent that is a directory, which the source does not check; it would read a file's bytes as records.
- Removal.RmdirInParent: the same holds of the parent.
- Removal.RenameInParent: the same holds of both parents.
- Dir.RemoveEntry: is stated for ASCII names; what comparing decoded text does to others is stated by Dir.RemovableIff and Dir.Collision.
- DirOps.DeleteDirectoryEntry: the same.
- ListingOps.LookupRecord: is stated for names that are not empty; no record the tools write has an empty name.
- ListingOps.DirectoryIsEmpty: is stated for directories whose records tile their blocks, as every operation here leaves them.
- Paths.ResolvePath: is stated for paths that do not continue past a non-directory, where the source reads the file's bytes as records; Paths.CreateFile, Paths.MakeDirectory, Paths.LinkPath, Paths.UnlinkPath and Paths.RemoveDirectory inherit this, and are stated for a last component that is a plain name.
- Paths.CreateFile: see Paths.ResolvePath; a last component "." or ".." is not covered.
- Paths.MakeDirectory: see Paths.ResolvePath; a last component "." or ".." is not covered.
- Paths.LinkPath: see Paths.ResolvePath; a last component "." or ".." is not covered.
- Paths.UnlinkPath: see Paths.ResolvePath; a last component "." or ".." is not covered.
- Paths.RemoveDirectory: see Paths.ResolvePath; a last component "." would remove the wrong entry.
- Check.ClaimPass: is stated for walks that stay inside the image and directories every 512-byte step of which starts within their bytes; the source panics on others. Which inodes are stored past the image is a parameter, tied to the layout in Property.FormatRunCheck.
- Check.MapPass: is stated for group headers whose stored fragment count is the one the geometry gives, as the formatter writes it.
- Check.CheckFilesystem: see Check.ClaimPass and Check.MapPass.
- Check.CheckDirectory: see Check.ClaimPass.
- Mount.State.Read: is stated for files; other inodes the kernel does not read this way.
- Mount.State.EnsureBuffer: is stated for open files, since every buffered file is promised to be open.
- Mount.State.Write: the same.
- Mount.State.Release: is stated for a handle that is open for that inode, as the kernel sends it.
- Format.FormatSlice: models the slice as the whole image, so that a header past the end stops the program; inside a larger image it would overwrite what follows. It sums the superblock totals before it writes the root directory, where the source leaves them zero until the recount; nothing in between reads them.
- Summary.RecomputeSummaryCounts: the volume's state keeps the four counts and the inode rotor; the summary area and the run and rotational tables, which nothing else reads or writes, are a result of the method.
- Removal.Truncate: does not cover directories, whose records it would cut.
- The disk image, partition, population and command-line tools around these calls.
