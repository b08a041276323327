# ferros kernel: verified models

A Dafny model of the parts of the ferros kernel whose correctness is decided by their own code: the FAT32
writer, physical frames and address spaces, the process life cycle and the scheduler, descriptor tables and
pipes, the heap break with the C library's `malloc` on top of it, the network card's rings, the initial user
stack, the ELF loader, path normalization, and the DNS client. Every file is a module (or two); `dafny verify dfyconfig.toml`
checks all of them.

ferros runs on one processor and its system calls run with interrupts off, so each call is one atomic step.
State the source updates in place is kept in classes whose methods update it in place; each method is proved
against a description on values, and the theorems are about those descriptions.

## How the parts are modelled

**FAT32 writer** (`Fat*.dfy`, `Utf8`). The disk is a list of 512-byte sectors behind a device that may refuse
any read or write (any set of access numbers); a refused write has no effect, and refusals are counted. A
logical view (table entries, cluster contents) is read off the bytes, and `trail` records that view after
every single sector write; `slips` counts the updates of a table entry that a refusal cut short. The invariant `WF` relates the view to a tree of files and directories (an empty
volume meets it: `FatRuns.FreshVolumeWF`). `Effect` is the crash statement: the final view and every view on
the trail are either untouched for every path, or switched for the one path operated on. Rewriting a slot
prunes the tree of what it named, with everything that lay below, and grafts what it names now
(`FatPrune.After`). A write is the flush of an open file at `close` or exit, which looks at nothing before it
writes. Premises: sane geometry (the clusters fit the table, numbers fit 28 bits); paths hold no zero byte, as
the reader of user strings guarantees, and files are shorter than 4 GiB; no name on the volume but the dot
entries begins with a period, as no short name does; in a directory nothing but zeros follows the first zero
slot. Names are bytes, shown as the source shows them: UTF-8 or nothing, without the blanks of Unicode at
their end. `find_in_dir` and `locate_entry` are one loop here, since they make the same scan.

**Frames and address spaces** (`Frames`, `PageTables`, `AddressSpaces`, `Mappings`, `UserPages`, `Forks`,
`Execs`). Memory is a list of frames of 512 words. The free list is threaded through the first words of free
frames. Usable regions of the memory map do not overlap, and frame 0 is not usable. A page-table tree is a
value; `Rep` says memory holds it. A space's root shares the slots the kernel's table fills; private slots are
absent from the kernel's table, whose entries are present or zero, and the kernel's own table is not a frame
the allocator hands out. Running out of frames aborts fork, and mapping a user page, as in the source; so does
mapping a user page where there is one. A failed `exec` depends on the loader and on the stack builder; in
`Execs` the pages and the verdict are parameters, and `Programs` puts the loader, the stack page and the stack
builder together.

**Threads** (`Threads`, `Lifecycle`, `ThreadLaws`, `Scheduler`). The scheduler is a vector of threads and an index. The history
of exits, collections and released resources is kept beside it, and what each blocked waiter asked for.
Process numbers are unbounded; thread 0 neither exits nor blocks. `reap` is one step.

**Descriptors and pipes** (`Pipes`, `Descriptors`). Reference counts go up and down with `Clone` and `Drop` as in the
source; ends that are in no table for a moment are in `limbo`. Whether a user buffer is usable is a parameter.

**Heap** (`Heaps`, `Malloc`). `brk` runs over the page tables above. `malloc` uses 64-bit arithmetic; the program
moves its break only through it.

**Rings** (`Virtq`, `NetRings`). Indices are 16 bits and wrap. The device is any list of actions: take the next
buffer, finish one it holds with any length and contents; on the sending ring, which has one buffer, it finishes
any number of frames. `recv` guards against numbers the device was
never given; against such a device that guard is dead, since `PendingApart` shows the number is below 8.

**Paths** (`NormalPaths`). A path is a string of bytes; the working directory is a parameter.

**Initial stack** (`InitialStack`), **ELF** (`ElfImage`, `Programs`), **DNS** (`Dns`). The stack page starts on a 16-byte boundary and
is above address 0; strings hold no zero byte, as the reader of user strings guarantees. The loader's frames
come from a list, and an empty list aborts.

## Where the code does not do what is said of it

- `write_file` never looks at what its path leads to, and `close` and exit call it by the name a file was opened
  with. If a directory has taken that name in the meantime, it becomes a file, its clusters are freed, and what
  was in it is lost (`FatRuns.FlushOverDirectory`, with `/A` and `/A/B` by `FatRuns.FlushPaths`). The volume stays
  well formed at every write. `FatRuns.NothingLost` says when a replacement loses nothing: exactly when the
  path leads to no directory, or to one in which nothing has clusters.
- A name whose first byte is 0xE5, as that of U+5B57, is the deleted mark: `write_file` and `mkdir` report success,
  the path reads as before, and the new clusters are lost (`FatRuns.WriteZi`). `FatOps.StorableNames` says which
  paths that is: exactly those whose last component begins with that byte.
- A write that fails is said to give its fresh clusters back. It does after any single refusal but one in the middle of
  updating a table entry (`FatOps.WriteFile`, `FatRemove.Mkdir`). `alloc_chain` returns at once when the entry that
  links two clusters cannot be written: with the first two clusters free and that access refused, both stay taken
  (`FatChains.AllocChain`) and belong to nothing (`FatOps.LinkLoses`).
- `rmdir` judges emptiness on readable names. Two ordinary components pass normalization
  (`NormalPaths.OddNamesStay`) and read like the parent entry: a blank and two periods
  (`FatNames.BlankDotsShown`), and U+65E5 U+672C U+8A9E with two periods, whose base is cut inside a character and
  so shown as nothing (`FatNames.CutDotsShown`). A directory holding just such an entry is taken for empty
  (`FatRemove.Misjudged`). The test is wrong exactly about directories that have entries, all of which are shown
  with nothing for a base and a lone period for an extension (`FatRemove.EmptyVerdict`). Removing such a
  directory takes everything below it out of reach and loses exactly the clusters of what was below
  (`FatRemove.Rmdir`); the volume stays well formed.
- `malloc` wraps around on requests whose end does not fit 64 bits: it then returns a block that is not there
  (`Malloc.WrapExample`). `Malloc.Allocate` is right exactly when `Fits` holds before the call.
- `execve` resets the break to the base of the heap, which describes the new heap exactly when no page of the
  image lies in the heap's range (`Heaps.ExecResetsHeap`); there is a program file at the base of the heap that
  passes all the loader's checks (`Programs.StackAndHeapPass`), and then the break is wrong (`Heaps.ImageInHeap`).
- `execve` maps the stack page without looking. There is a program file on that page that passes the loader's checks
  (`Programs.StackAndHeapPass`), and it aborts the kernel: `Programs.Start` never starts such a program, and
  `Execs.Exec` aborts on such an image whatever frames there are, and otherwise only for lack of frames.
- `unlink` and `rmdir` can report a device error after the deletion has happened: when the slot's sector is read and
  written and a later access to the table is refused, as the very next one may be (`FatRemove.RemoveEntry`). It
  cannot happen to an entry without clusters.
- The network card's `send` waits for a wrapped index. It waits for all frames posted as long as fewer than 65536 of
  them are unseen; when there are exactly that many it returns true at once, whatever the device has done
  (`NetRings.Sender.Send`, `NetRings.SilentDevice`).
- The comment at the head of `destroy` speaks of the kernel's table; the code compares with the table that is
  active at the time, which during `execve` is another process's. `AddressSpaces.Destroy` follows the code.

## Model

| member | source | states |
|---|---|---|
| `FatBytes.PatchedEntries` | src/fs/fat.rs:412-427 | patching one table entry of a sector changes that entry and no other |
| `FatBytes.SectorFromEntries` | src/fs/fat.rs:144-150 | a table sector is determined by its 128 entries |
| `FatBytes.PaddedRoundTrip` | src/fs/fat.rs:498-518 | data written as zero-padded sectors and read back to its length is the data |
| `FatBytes.PaddedStep` | src/fs/fat.rs:498-518 | the sectors of a prefix ending on a sector boundary are a prefix of the sectors |
| `FatBytes.SlotLayout` | src/fs/fat.rs:254-267 | first cluster in two little-endian halves at 26 and 20, size at 28; bit 4 of the attribute is a directory, bit 3 a label, the low four a long-name piece |
| `FatBytes.MadeSlot` | src/fs/fat.rs:823-838 | all other bytes of a slot that is made are zero |
| `FatVolume.FatWriteLog` | src/fs/fat.rs:412-427 | a patch of the first table copy changes exactly one entry of the logical view; a patch of another copy changes none |
| `FatVolume.DataWriteLog` | src/fs/fat.rs:498-518 | a data sector write changes exactly that sector of the logical view |
| `FatVolume.DiskFromLog` | src/fs/fat.rs:412-427 | with agreeing table copies, the same logical view and reserved bits mean the same disk byte for byte |
| `FatDevice.Volume.NextCluster` | src/fs/fat.rs:225-233 | the successor is the entry's low 28 bits, unless the device refuses |
| `FatDevice.Volume.WriteFatEntry` | src/fs/fat.rs:412-427 | sets the 28 bits in every copy, first copy first, keeps the reserved bits and agreement of copies; a refusal leaves old or new view, and a refused first access the old one |
| `FatDevice.Volume.WriteData` | src/fs/fat.rs:498-518 | one cluster sector overwritten, everything else kept, or refused with no effect |
| `FatChains.WalkIsChain` | src/fs/fat.rs:484-494 | the step budget of the whole volume is enough to walk any real chain to its end |
| `FatChains.FirstZero` | src/fs/fat.rs:432-447 | the scan, a sector at a time: the least free cluster, after as many reads as sectors up to it, or that none is free |
| `FatChains.AllocCluster` | src/fs/fat.rs:432-452 | returns the least free cluster, marked end-of-chain, and changes nothing else; NoSpace exactly when none is free |
| `FatChains.FreeChain` | src/fs/fat.rs:484-494 | zeroes exactly the entries of the chain; after a refusal only those entries can differ |
| `FatChains.AllocChain` | src/fs/fat.rs:457-479 | an acyclic chain of exactly n previously free clusters, the lowest ones, nothing else changed; on NoSpace fewer than n were free and the disk is as before byte for byte; after a single refusal the view is as before unless it cut a table update short; a refused link of the first two clusters leaves both taken |
| `FatChains.GiveBack` | src/fs/fat.rs:464-468 | best-effort return of a fresh chain touches only clusters that were free, and without refusals zeroes all its entries |
| `FatData.WriteCluster` | src/fs/fat.rs:498-518 | one cluster holds the next bytes of the data, zero-padded |
| `FatData.WriteChain` | src/fs/fat.rs:498-518 | the first bytes of the chain are the data; only the chain's contents change |
| `FatData.ReadEntry` | src/fs/fat.rs:316-335 | returns what the walk along the chain gathers, cut at the entry's size |
| `FatData.ReadFollowsChain` | src/fs/fat.rs:316-335 | along a real chain the reader gathers a prefix of the chain's sectors |
| `FatDirs.ChainPosMembers` | src/fs/fat.rs:236-272 | a directory walk visits exactly the slots of its chain's clusters |
| `FatDirs.ChainPosDistinct` | src/fs/fat.rs:236-272 | and visits none of them twice |
| `FatDirs.ScanSector` | src/fs/fat.rs:236-272 | sixteen slots scanned as the list scan says: match, end mark, first deleted slot |
| `FatDirs.LocateEntry` | src/fs/fat.rs:724-764 | finds the first live slot of that name before the end mark, or says there is none |
| `FatDirs.LocateOrFreeSlot` | src/fs/fat.rs:524-574 | the existing entry, or the first deleted or end slot, or DirFull exactly when there is neither |
| `FatDirs.ListDir` | src/fs/fat.rs:378-408 | the live slots before the end mark, in order |
| `FatNames.NamesOf` | src/fs/fat.rs:153-165 | on a path without zero bytes no short name begins with a zero or a period, and one begins with the deleted mark exactly when its component does |
| `FatNames.ZiIsDead` | src/fs/fat.rs:153-165 | U+5B57 is UTF-8, one component, and its short name begins with the deleted mark |
| `FatNames.ShortNameBytes` | src/fs/fat.rs:153-165 | byte by byte: the base up to the first period in the first eight places, what follows it in the last three, letters a to z raised, blanks where there is nothing |
| `FatNames.CaseBlind` | src/fs/fat.rs:153-165 | components that differ only in the case of letters a to z have one short name |
| `FatNames.CaseBlindPaths` | src/fs/fat.rs:153-165 | and paths that differ only in that are the same list of short names |
| `FatNames.HelloName` | src/fs/fat.rs:153-165 | `hello.txt` is `HELLO   TXT` |
| `Utf8.DecodeEncode` | src/fs/fat.rs:134-142 | what is encoded as UTF-8 is read back |
| `Utf8.EncodeDecode` | src/fs/fat.rs:134-142 | a byte string that is accepted is the encoding of the characters read from it |
| `FatNames.ShownAsNothing` | src/fs/fat.rs:134-142 | half a name is shown as nothing exactly when it is not UTF-8 or all blanks |
| `FatNames.DotsByDisplay` | src/fs/fat.rs:134-142 | a name that does not begin with a period reads like a dot entry exactly when its base is shown as nothing and its extension as a lone period |
| `FatNames.DotEntriesShown` | src/fs/fat.rs:777-780 | the two real dot entries read as dots |
| `FatNames.BlankDotsShown` | src/fs/fat.rs:777-780 | a blank and two periods is one component, its short name is fit for a live slot, and reads as dots |
| `FatNames.CutDotsShown` | src/fs/fat.rs:134-165 | so is and does U+65E5 U+672C U+8A9E with two periods, which is UTF-8 but is cut where it is not |
| `NormalPaths.Normalize` | src/syscall/files.rs:324-341 | the loop over the parts of a path computes the text of its collapsed components |
| `NormalPaths.ResolvePath` | src/syscall/files.rs:308-319 | an absolute path is collapsed alone, another after the components of the working directory |
| `NormalPaths.NormalForm` | src/syscall/files.rs:321-341 | the result splits back into its components, has no empty, `.` or `..` component, and normalizing again changes nothing |
| `NormalPaths.ComponentsConcat` | src/syscall/files.rs:308-319 | joining two texts with a separator joins their components |
| `NormalPaths.ComponentsJoined` | src/syscall/files.rs:338-340 | splitting a joined path gives the components back |
| `NormalPaths.ChangeTwice` | src/syscall/files.rs:308-341 | resolving one path and then another from there is resolving their concatenation |
| `NormalPaths.OddNamesStay` | src/syscall/files.rs:324-341 | components that are not `.` or `..`, however odd, are left alone |
| `FatTree.WFSame` | src/fs/fat.rs:604-609 | the volume invariant depends only on clusters the tree owns |
| `FatTree.FreeNotOwned` | src/fs/fat.rs:604-609 | free clusters are never owned, so writes confined to them keep the invariant |
| `FatCommit.GraftWF` | src/fs/fat.rs:578-598 | filling a slot that held no entry turns a well formed volume into a well formed volume of the tree with the new object added |
| `FatPrune.PruneWF` | src/fs/fat.rs:768-774 | marking any entry deleted turns a well formed volume into a well formed volume of the tree without the named object and without anything below it |
| `FatPrune.CommitWF` | src/fs/fat.rs:578-598 | rewriting one slot, whatever it named, turns a well formed volume into a well formed volume of the tree with the old object and all below it pruned and the new one grafted |
| `FatPaths.ScanUnique` | src/fs/fat.rs:236-272 | in a well formed directory a scan finds the one entry of that name and only it |
| `FatPaths.LocateSound` | src/fs/fat.rs:524-574 | what locating says about the directory: the matching entry, or a slot fit for a new one |
| `FatPaths.DirUnique` | src/fs/fat.rs:278-299 | different paths lead to different directories |
| `FatPaths.ReadSame` | src/fs/fat.rs:303-312 | every path reads the same after writes outside the tree |
| `FatCommitPaths.CommitDir` | src/fs/fat.rs:278-299 | directories on paths that do not pass through the committed one stay where they are |
| `FatCommitPaths.CommitOthers` | src/fs/fat.rs:610-655 | a path that does not pass through the committed one reads the same before and after |
| `FatCommitPaths.CommitTarget` | src/fs/fat.rs:578-598 | the committed path is found at its slot, or is gone |
| `FatCommitPaths.BelowReadsNothing` | src/fs/fat.rs:278-299 | there is no file and no directory below a path that is not a directory with entries |
| `FatCommitPaths.PathTo` | src/fs/fat.rs:278-299 | every object of the tree has a path from the root |
| `FatEffects.NoEffect` | src/fs/fat.rs:604-609 | an operation that stopped before its commit changed no path at any point of the trail |
| `FatEffects.CommitSwitches` | src/fs/fat.rs:604-609 | the commit switches the committed path, leaves nothing below it, and changes nothing else |
| `FatEffects.VainUntouched` | src/fs/fat.rs:578-598 | a slot filled under a name that begins with the deleted mark changes no path, not even that one |
| `FatSteps.LocateFits` | src/fs/fat.rs:524-574 | the located place satisfies what a commit there needs |
| `FatSteps.BuildContents` | src/fs/fat.rs:619-630 | a fresh chain holding the data; on failure nothing but free clusters was touched, without refusals nothing at all, and after a single one the table is as before unless it cut a table update short |
| `FatSteps.WriteDirEntry` | src/fs/fat.rs:578-598 | one slot of a directory sector rewritten, the other fifteen kept |
| `FatSteps.ClearDirEntry` | src/fs/fat.rs:768-774 | one slot marked deleted, its other bytes and the other slots kept |
| `FatSteps.OldChainLoose` | src/fs/fat.rs:647-653 | the chain the commit let go is whole and belongs to nobody in the new tree |
| `FatSteps.DoneEffect` | src/fs/fat.rs:785-788 | everything after the commit happens outside the new tree |
| `FatSteps.LostAfter` | src/fs/fat.rs:484-494 | taking the new chain, committing and freeing the old one loses exactly the clusters of what lay below the old object |
| `FatSteps.LostVain` | src/fs/fat.rs:619-655 | a slot that is no entry loses exactly the clusters taken for it |
| `FatOrphans.StrandsNothing` | src/fs/fat.rs:647-653 | letting an object go strands nothing exactly when it is a file, or a directory whose entries have no clusters |
| `FatOps.ResolveParent` | src/fs/fat.rs:278-299 | the directory the leading components lead to, with the walk's errors |
| `FatOps.ReadFile` | src/fs/fat.rs:303-312 | reads what the path means in the logical view |
| `FatOps.CommitSlot` | src/fs/fat.rs:632-655 | slot first, then the old chain; a refused slot gives the fresh chain back, and if nothing else is refused the table is as before; crash statement over every write, and what it costs |
| `FatOps.WriteFile` | src/fs/fat.rs:610-655 | for every path and whatever it leads to: after any prefix of the sector writes the target reads old or new data, nothing is left below it, all other paths read as before; on success it reads the data unless its name begins with the deleted mark, and then no path has changed; without refusals a failure leaves the view unchanged and says why, and the clusters lost are exactly those of what lay below, or all that were taken; a failure with a single refusal that cut no table update short leaves the table as it was |
| `FatOps.PutFile` | src/fs/fat.rs:617-655 | the same once the slot is known |
| `FatOps.LinkLoses` | src/fs/fat.rs:470-475 | after a refused link exactly the two clusters are lost that were to be linked |
| `FatOps.StorableNames` | src/fs/fat.rs:153-165 | a path can be stored exactly when its last component does not begin with 0xE5 |
| `FatRemove.InitDirCluster` | src/fs/fat.rs:659-688 | a fresh cluster with the two dot entries and zeros |
| `FatRemove.FreshDirVacuous` | src/fs/fat.rs:659-688 | such a directory has no entries and is ended right after the dot entries |
| `FatRemove.BuildDirectory` | src/fs/fat.rs:701-705 | a fresh cluster that is an empty directory, given back when it cannot be filled |
| `FatRemove.PutDirectory` | src/fs/fat.rs:701-718 | making the directory once its slot is known |
| `FatRemove.Mkdir` | src/fs/fat.rs:692-719 | the same crash statement for a new, empty directory, and the same for names that begin with the deleted mark; the new directory names itself under one period and its parent under two, the root as 0; a failure with a single refusal that cut no table update short leaves the table as it was; without refusals AlreadyExists exactly when the path leads somewhere, any other error as for creating a file |
| `FatRemove.RemoveEntry` | src/fs/fat.rs:785-802 | slot first, chain after: no slot ever names a freed cluster, at any point of the trail; the mark takes effect exactly when its two accesses are granted, and the call fails after it exactly when a table access is refused, which needs a chain and happens if the next access is; what is lost is what was below |
| `FatRemove.Unlink` | src/fs/fat.rs:789-802 | the same crash statement for a file that goes; without refusals it succeeds or fails exactly as reading the path does; a failure with the file gone needs a refusal and a file with clusters |
| `FatRemove.EmptyVerdict` | src/fs/fat.rs:777-780 | the emptiness test is wrong about a directory exactly when that has an entry and every entry is shown with nothing for a base and a lone period for an extension |
| `FatRemove.Misjudged` | src/fs/fat.rs:777-780 | a new directory into which one entry is put whose name reads as dots has an entry and passes the test |
| `FatRemove.EmptyIsVacuous` | src/fs/fat.rs:777-780 | in a directory none of whose entries reads as dots the test is right |
| `FatRemove.Rmdir` | src/fs/fat.rs:807-821 | the same crash statement, for every directory; without refusals the verdict and its error (nothing there, not a directory, not empty) are decided by the names, and the clusters lost are exactly those of what was below |
| `FatRemove.HonestRmdir` | src/fs/fat.rs:807-821 | a directory without names that read as dots is removed exactly when it is empty, and then nothing is lost |
| `FatRuns.Step` | src/fs/fat.rs:610-821 | one operation of any kind keeps the volume invariant at every write; without refusals it loses no cluster unless it makes what cannot be kept, writes over a directory, or removes one on a volume with names that read as dots |
| `FatRuns.NothingLost` | src/fs/fat.rs:647-653 | replacing what a path leads to loses nothing exactly when that is no directory, or one in which nothing has clusters |
| `FatRuns.FlushOverDirectory` | src/syscall/files.rs:921-940 | a flush over a directory that holds a directory reports success, reads back, and loses at least one cluster; without refusals it succeeds unless one of the three steps has no place or no cluster |
| `FatRuns.FlushPaths` | src/syscall/files.rs:921-940 | `/A` and `/A/B` are such paths |
| `FatRuns.WriteZi` | src/fs/fat.rs:610-655 | writing U+5B57 may report success, it never reads, and all its clusters are lost |
| `FatRuns.PlainRmdir` | src/fs/fat.rs:807-821 | on a volume without such names removing a directory strands nothing |
| `FatRuns.Run` | src/fs/fat.rs:610-821 | over every run: well formed after each operation and after each single write, whatever is refused; without refusals the table copies keep agreeing, no lost cluster comes back, and none is lost by a run in which everything made can be kept, no file is written where a directory is or is made, and, if directories are removed, no name reads as dots |
| `FatRuns.Accounting` | src/fs/fat.rs:412-494 | free, owned and lost clusters add up to the volume |
| `Frames.UsableDistinct` | src/mm/frame.rs:115-121 | the usable frames of a memory map with disjoint regions are pairwise distinct and not frame 0 |
| `Frames.UsableExactly` | src/mm/frame.rs:115-121 | the frames handed out from are exactly those of the regions marked usable |
| `Frames.UsableInOrder` | src/mm/frame.rs:115-121 | the frames of an earlier region come before those of a later one |
| `Frames.RangeInOrder` | src/mm/frame.rs:115-121 | within a region they come one after the other, none left out |
| `Frames.PopInv` | src/mm/frame.rs:169-182 | taking the head of the list through its link word keeps it acyclic and apart from live frames |
| `Frames.PushInv` | src/mm/frame.rs:194-209 | so does pushing a frame, its first word becoming the link |
| `Frames.Machine.AllocateFrame` | src/mm/frame.rs:169-182 | the last frame given back, else the next usable one, else none exactly when nothing is available; never a live frame |
| `Frames.Machine.DeallocateFrame` | src/mm/frame.rs:194-209 | the frame becomes the head of the list; only that frame is written |
| `Frames.Machine.AllocateContiguous` | src/mm/frame.rs:134-161 | the first run of `count` adjacent usable frames at or after the cursor, none of them live; none exactly when there is no such run or `count` is 0 |
| `Frames.Interleave` | src/mm/frame.rs:134-209 | over every interleaving of the three operations: after each step all frames handed out, singly or in runs, are pairwise distinct, each step changes just what its operation names, and at the end they are exactly the live ones |
| `Frames.Act` | src/mm/frame.rs:134-209 | one operation hands a frame or a run out exactly when there is one, and takes back just the frame given |
| `PageTables.LookupInjective` | src/mm/addr_space.rs:217-271 | in a proper tree different addresses never translate to the same page |
| `PageTables.PageNotTable` | src/mm/addr_space.rs:279-317 | a translated page is none of the tree's tables |
| `PageTables.RepFrame` | src/mm/addr_space.rs:279-317 | a tree stays in memory as long as its own tables are not written |
| `PageTables.WithKidRep` | src/mm/paging.rs:185-205 | writing one entry puts the changed tree in memory |
| `PageTables.EntryFlags` | src/mm/addr_space.rs:227-264 | the flags looked at are bit 0 for present, bit 2 for user, bit 7 for a large page |
| `PageTables.EntryWritable` | src/mm/addr_space.rs:250-252 | every entry made is writable, bit 1 |
| `AddressSpaces.FreeSubtree` | src/mm/addr_space.rs:279-317 | gives back exactly the frames of the subtree, each once, and link words written into freed frames disturb no table still to be walked |
| `AddressSpaces.Destroy` | src/mm/addr_space.rs:175-207 | gives back exactly the root and the private subtrees, each frame once; the kernel's table and all other frames keep their contents |
| `AddressSpaces.KernelForeign` | src/mm/addr_space.rs:189-197 | the kernel's table has no private entry leading into a space |
| `AddressSpaces.SpaceForeign` | src/mm/addr_space.rs:189-197 | nor has the root of a space that shares no frame with it |
| `AddressSpaces.NewSharingKernel` | src/mm/addr_space.rs:63-85 | a fresh root with the kernel's entries and no private tree; nothing else written |
| `Mappings.MapTo` | src/mm/paging.rs:199-204 | the path translates to the page, every other path as before, tables made on the way come from the allocator; fails exactly on a taken slot or for lack of a frame |
| `Mappings.MappedUp` | src/mm/paging.rs:199-204 | a change below one child is the same change of the whole tree |
| `Mappings.UnmapAt` | src/mm/paging.rs:255-265 | the path translates to nothing, every other path as before, and the page it had is returned |
| `UserPages.MapActiveUserPage` | src/mm/paging.rs:213-250 | a fresh zeroed page at the address, or failure with the page given back; other pages keep translation and contents; every frame accounted for |
| `UserPages.MapUserPage` | src/mm/paging.rs:185-205 | a fresh page at the address, or abort on a taken slot or lack of frames |
| `UserPages.UnmapActiveUserPage` | src/mm/paging.rs:255-265 | the page is gone and its frame available again; nothing else changes |
| `UserPages.SpaceKept` | src/mm/addr_space.rs:129-162 | a space survives writes outside its tables and the kernel's |
| `Forks.CopyPage` | src/mm/addr_space.rs:232-257 | a fresh frame with the parent's contents at the same address of the child |
| `Forks.CopySubtree` | src/mm/addr_space.rs:217-271 | every page below the table is copied into the child at the same address; nothing but the child and fresh frames is written; fails only without frames |
| `Forks.CopiedStep` | src/mm/addr_space.rs:217-271 | copying the first children and then the next one is copying one more |
| `Forks.ForkFrom` | src/mm/addr_space.rs:129-162 | fork isolation: both spaces stand, they translate the same private addresses to pages with equal contents, share no frame, the parent and all else is unchanged |
| `Execs.BuildImage` | src/arch/x86_64/syscall.rs:263-283 | a new space of exactly the image's pages and contents, made only of frames that were free; aborts on an image with a page twice, and otherwise only for lack of frames |
| `Execs.BuiltStep` | src/arch/x86_64/syscall.rs:263-283 | one more page of the image leaves the earlier ones as they are |
| `Execs.Exec` | src/arch/x86_64/syscall.rs:263-320 | a failed exec leaves the old space and the set of available frames as they were and writes only free frames; a successful one gives all frames of the old space back; a page that is to be mapped twice aborts |
| `Programs.Start` | src/arch/x86_64/syscall.rs:263-286 | load, stack page, arguments: on success every byte of the file's image is in place and the arguments read back from the stack page; each failure has its reason; a program on the stack's page never starts |
| `Programs.HeaderReads` | src/syscall/elf.rs:174-210 | of a file with given values at the header's places and anything between: the exact verdict on every one of them, in the source's order, and the header read |
| `Programs.HeaderRefused` | src/syscall/elf.rs:180-186 | a file of under 64 bytes is refused, and so is one without the four magic bytes |
| `Programs.EntryReads` | src/syscall/elf.rs:203-228 | a program header read back from its place, for any index and size of entries, is the one that was put there |
| `Programs.OnePageReads` | src/syscall/elf.rs:174-246 | the bytes of a file of one page, and what is read from them |
| `Programs.PageFile` | src/syscall/elf.rs:174-246 | for every page of the user half there is a file that passes all the loader's checks and uses just that page |
| `Programs.StackAndHeapPass` | src/syscall/elf.rs:174-246 | such a file on the stack's page, and one at the base of the heap |
| `Programs.StackTwice` | src/arch/x86_64/syscall.rs:274-277 | with the stack page added, an image has a page twice exactly when the loader used the stack's page |
| `Programs.ProgramImage` | src/arch/x86_64/syscall.rs:263-283 | the file's pages and then the stack's, as an image for the page tables: a page twice exactly when the file uses the stack's page |
| `Programs.WordBytes` | src/arch/x86_64/syscall.rs:263-283 | the words of a page have its bytes, the lowest first |
| `Programs.PagePasses` | src/syscall/elf.rs:228-246 | a segment of one zeroed page, at any page of the user half, passes the loader's checks and lies on just that page |
| `Heaps.HeapPath` | src/syscall/files.rs:770-790 | heap pages have distinct table indices, all in the heap's root slot |
| `Heaps.MapPages` | src/syscall/files.rs:783-802 | the pages of the range zeroed and mapped, or none of them mapped; refused only for lack of frames |
| `Heaps.UnmapPages` | src/syscall/files.rs:803-812 | exactly the pages of the range are gone |
| `Heaps.RolledBack` | src/syscall/files.rs:790-800 | mapping some pages and unmapping them again changes no translation and no contents |
| `Heaps.SysBrk` | src/syscall/files.rs:770-816 | after every call exactly the heap pages below the break are mapped, new ones zero, all others untouched; a failed grow changes neither break nor pages, and happens only for lack of frames |
| `Heaps.ForkKeepsHeap` | src/syscall/files.rs:271-276 | the heap invariant of the parent is that of the child with the inherited break |
| `Heaps.ExecResetsHeap` | src/syscall/files.rs:256-266 | with the break reset, the invariant holds exactly when no page of the image is in the heap's range |
| `Heaps.ImageInHeap` | src/syscall/files.rs:256-266 | an image with a page at the base of the heap starts with a break that is wrong |
| `Malloc.Reserve` | user/c/libc/libc.c:105-113 | raises the break to the end of the request as 64-bit addition gives it |
| `Malloc.WrapExample` | user/c/libc/libc.c:98-99 | a request that rounding wraps to zero bytes |
| `Malloc.Allocate` | user/c/libc/libc.c:98-117 | the block returned and all earlier ones are 16-aligned, pairwise apart and wholly mapped exactly when the request fits the word; null only when the heap is full or frames are short |
| `Lifecycle.TerminateKeeps` | src/sched/thread.rs:380-409 | ending a thread keeps families, waiters, histories and ownership right |
| `Lifecycle.TerminateWaiters` | src/sched/thread.rs:396-408 | after an exit every process still blocked in wait has a living child to wait for and no ended one |
| `Lifecycle.SwitchKeeps` | src/sched/thread.rs:722-772 | the assertion in the switch never fires, and the thread switched to is runnable |
| `Lifecycle.FoundRunnable` | src/sched/thread.rs:734-741 | the scan finds a runnable thread as long as thread 0 is one |
| `Lifecycle.WaitBlocks` | src/sched/thread.rs:519-529 | blocking in wait: a child to wait for, none already ended |
| `Lifecycle.CollectKeeps` | src/sched/thread.rs:505-516 | collecting a zombie reports its stored outcome and keeps the invariant |
| `Lifecycle.ReapKeeps` | src/sched/thread.rs:646-672 | reaping takes resources only of threads nobody can wait for, once each |
| `Lifecycle.SpawnKeeps` | src/sched/thread.rs:174-236 | a new thread's parent is alive |
| `Lifecycle.SignalKeeps` | src/sched/thread.rs:432-470 | a signal ends only living user processes, and keeps the invariant |
| `Lifecycle.RunSafe` | src/sched/thread.rs:362-797 | over every run: the invariant in every state; nobody comes back to life, outcomes never change, ended threads keep their resources until reaped, histories only grow |
| `Lifecycle.RunReleases` | src/sched/thread.rs:646-672 | over every run: whatever space and stack were released were, at that step, those of the ended thread named, and nobody holds them after it |
| `Lifecycle.NoLostWakeup` | src/sched/thread.rs:492-557 | in every state of every run a process blocked in wait has a living child matching what it asked for and no matching zombie |
| `Lifecycle.OnceEach` | src/sched/thread.rs:380-409 | no process exits, is collected or gives up its resources twice |
| `Lifecycle.CollectsWhatExited` | src/sched/thread.rs:505-516 | what wait reports is what the exit stored before |
| `Lifecycle.ZombieServed` | src/sched/thread.rs:646-672 | each zombie is freed by the next reap or has a living parent whose wait finds it or an earlier one |
| `Lifecycle.Progress` | src/sched/thread.rs:722-741 | with n threads, one that stays runnable runs within n-1 switches, whatever the others do |
| `ThreadLaws.WaitCollects` | src/sched/thread.rs:500-516 | wait hands over the first ended child in the vector, of the number asked for if one was, with its stored outcome; it is dead then and nothing else changed |
| `ThreadLaws.WaitBlocksWhen` | src/sched/thread.rs:500-530 | it hands one over exactly if one has ended, blocks exactly if none has and one is alive, and otherwise says there is none |
| `ThreadLaws.WaitsForTheOneAsked` | src/sched/thread.rs:500-516 | who asks for a number gets no other |
| `ThreadLaws.EndsItself` | src/sched/thread.rs:380-394 | an ended thread stores status and signal and keeps its number, parent, stack and space |
| `ThreadLaws.EndsForOthers` | src/sched/thread.rs:396-408 | its children lose their parent, its parent wakes exactly if blocked in wait, and nothing else of any thread changes |
| `ThreadLaws.SignalEnds` | src/sched/thread.rs:416-470 | a signal is noted; all but 17 to 23 and 28 end the process at once with 128 and the signal |
| `ThreadLaws.SignalMisses` | src/sched/thread.rs:432-445 | a signal to nobody, or signal 0, changes nothing |
| `ThreadLaws.WakesWhoBlocked` | src/sched/thread.rs:570-631 | who blocks for a reason is runnable after a wake for that reason, unchanged otherwise, and stays blocked after one for another |
| `ThreadLaws.WakesExactly` | src/sched/thread.rs:586-631 | a wake makes exactly the threads blocked for that reason runnable |
| `ThreadLaws.ReapsExactly` | src/sched/thread.rs:646-672 | the reaper empties exactly the other threads that were collected, or that ended without a parent |
| `ThreadLaws.NextNearest` | src/sched/thread.rs:734-741 | the next thread is the nearest runnable one going round the vector |
| `ThreadLaws.NextStays` | src/sched/thread.rs:734-741 | and the current one if no other is runnable |
| `Scheduler.RoundRobin.AddThread` | src/sched/thread.rs:210-236 | a runnable child of the current thread with the next number |
| `Scheduler.RoundRobin.EndThread` | src/sched/thread.rs:380-409 | the loops over the vector do what ending a thread means, and keep the invariant |
| `Scheduler.RoundRobin.SwitchToNext` | src/sched/thread.rs:722-772 | the next runnable thread becomes current; says whether it is another one |
| `Scheduler.RoundRobin.ExitCurrent` | src/sched/thread.rs:362-374 | control goes to another, runnable thread and not back |
| `Scheduler.RoundRobin.SendSignal` | src/sched/thread.rs:432-470 | delivered exactly when a living user process has that number; a fatal signal ends it at once |
| `Scheduler.RoundRobin.TryCollectOrBlock` | src/sched/thread.rs:492-531 | a child handed over had ended, was the caller's and of the number asked for, with its stored status and signal; if it blocks, such a child is alive; in either case but the first none had ended |
| `Scheduler.RoundRobin.WaitRound` | src/sched/thread.rs:540-557 | an attempt, and the processor given away if it blocked |
| `Scheduler.RoundRobin.BlockOn` | src/sched/thread.rs:570-611 | the current process blocks for the reason given and another one runs |
| `Scheduler.RoundRobin.WakeAll` | src/sched/thread.rs:590-631 | exactly the processes blocked for that reason are runnable again |
| `Scheduler.RoundRobin.ReapAll` | src/sched/thread.rs:646-672 | the corpses are the address spaces and stacks of the collectable threads, in order |
| `Scheduler.FindNext` | src/sched/thread.rs:734-741 | the first runnable thread after the current one, none exactly when no other is runnable |
| `Pipes.SlotCount` | src/syscall/files.rs:114-175 | changing one descriptor changes the number of ends by what goes and what comes |
| `Pipes.CloneKeeps` | src/syscall/files.rs:128-136 | cloning an end keeps counters equal to the number of ends |
| `Pipes.DropKeeps` | src/syscall/files.rs:138-148 | so does dropping one; the last one wakes everybody, so nobody is left blocked on a pipe without writers |
| `Pipes.DrainKeeps` | src/syscall/files.rs:1165-1170 | taking bytes out keeps written bytes equal to taken bytes followed by buffered bytes |
| `Pipes.FillKeeps` | src/syscall/files.rs:1206-1214 | so does putting bytes in, and no reader stays blocked |
| `Descriptors.Registry.AllocFd` | src/syscall/files.rs:343-355 | the lowest unused descriptor, or the end is dropped and the table is full |
| `Descriptors.Registry.SysPipe` | src/syscall/files.rs:1103-1139 | both ends in the two lowest unused descriptors of a new pipe; EMFILE exactly when fewer than two of the sixteen are unused, the descriptors as before |
| `Descriptors.FirstPipe` | src/syscall/files.rs:1113-1124 | the first pipe of a process with the three standard descriptors is 3 and 4 |
| `Descriptors.Registry.SysClose` | src/syscall/files.rs:924-940 | exactly that descriptor is gone, or EBADF |
| `Descriptors.Registry.SysDup2` | src/syscall/files.rs:949-971 | the new descriptor leads where the old one does, what it led to is dropped; errors change nothing |
| `Descriptors.Registry.SysDupFd` | src/syscall/files.rs:1048-1072 | the same into the lowest unused descriptor from the start given, or EMFILE exactly when there is none |
| `Descriptors.Registry.ForkFds` | src/syscall/files.rs:271-276 | the child's table is the parent's, every end counted once more |
| `Descriptors.Registry.Rekey` | src/syscall/files.rs:256-266 | the table moves to the new key, a table there before is dropped |
| `Descriptors.Registry.ReleaseAll` | src/syscall/files.rs:228-247 | every descriptor is dropped, the empty table stays |
| `Descriptors.Registry.Forget` | src/syscall/files.rs:213-215 | the table is gone with all its ends |
| `Descriptors.Registry.ReadPipe` | src/syscall/files.rs:1145-1190 | the oldest bytes in order, end of file exactly when empty without writers, else blocked; on an unusable buffer the bytes are lost |
| `Descriptors.Registry.WritePipe` | src/syscall/files.rs:1194-1225 | the bytes follow what is there and every reader is woken; EPIPE exactly without readers |
| `Descriptors.Do` | src/syscall/files.rs:114-1225 | any call by any process does to tables, pipes and blocked readers what it says, and keeps counters, bytes and blocked readers right |
| `Descriptors.Run` | src/syscall/files.rs:114-1225 | over every run, each call having done what it says: counters are the number of ends, bytes come out as they went in, and no reader is blocked on a pipe with data or without writers, in every state |
| `Virtq.LayoutFits` | src/drivers/virtio_net.rs:156-160 | the three parts of the queue memory do not overlap, the used ring starts a page, all fit the pages taken |
| `Virtq.SlotOf` | src/drivers/virtio_net.rs:94-123 | a slot computed from a wrapped index is the slot of the full count |
| `Virtq.GoodSizes` | src/drivers/virtio_net.rs:94-123 | the queue sizes for which slots follow wrapped indices: exactly the powers of two up to 32768 |
| `Virtq.Ring.PushAvail` | src/drivers/virtio_net.rs:94-105 | the buffer is posted, no entry the device has not taken is overwritten, and the index returned is the count posted |
| `Virtq.Ring.TakeUsed` | src/drivers/virtio_net.rs:110-123 | the oldest completion not yet seen, or none exactly when all were seen, despite wrapping |
| `Virtq.Ring.Fetch` | src/drivers/virtio_net.rs:94-105 | the device always reads the entry posted at its position |
| `Virtq.Ring.Complete` | src/drivers/virtio_net.rs:110-123 | a completion overwrites none the driver has not seen |
| `NetRings.Sender.Send` | src/drivers/virtio_net.rs:303-347 | the buffer is a zero header and the frame, and too long a frame posts nothing; true exactly when the wrapped indices agree: when everything posted was seen completed, if fewer than 65536 frames were unseen, and at once if exactly that many were; false only after 100000001 looks that found nothing, and so never while the device completes all within as many |
| `NetRings.SilentDevice` | src/drivers/virtio_net.rs:328-346 | with 65535 frames unseen, one more is reported sent though the device has done nothing |
| `NetRings.HeldApart` | src/drivers/virtio_net.rs:352-379 | a buffer the device holds is no completion the driver still has to read |
| `NetRings.PendingApart` | src/drivers/virtio_net.rs:359-365 | unread completions are of different buffers, all below 8 |
| `NetRings.BuffersApart` | src/drivers/virtio_net.rs:258-270 | the buffers described to the device are 2048 bytes each, for it to write, one behind the other from the base |
| `NetRings.Receiver.constructor` | src/drivers/virtio_net.rs:264-270 | all eight buffers described and posted once |
| `NetRings.Receiver.RunDevice` | src/drivers/virtio_net.rs:352-379 | whatever the device does, unread frames keep what it wrote into them |
| `NetRings.Receiver.Recv` | src/drivers/virtio_net.rs:352-379 | the oldest unread frame as the device wrote it, without header and cut to fit; afterwards all eight buffers are posted exactly once again |
| `InitialStack.PutStrings` | src/arch/x86_64/syscall.rs:659-695 | the strings lie below one another, zero-terminated; fails exactly when they do not fit |
| `InitialStack.PushWords` | src/arch/x86_64/syscall.rs:674-683 | the words end up in order; fails exactly when they do not fit |
| `InitialStack.ReadsStrings` | src/arch/x86_64/syscall.rs:650-717 | an array of pointers ended by null reads back as the strings |
| `InitialStack.TableReads` | src/arch/x86_64/syscall.rs:697-716 | count, arguments, environment and end of the auxiliary vector read back from the table |
| `InitialStack.BuildUserStack` | src/arch/x86_64/syscall.rs:650-717 | succeeds exactly when everything fits; then a program walking from the stack pointer finds the count, exactly those arguments and environment strings with their nulls, at a 16-byte boundary |
| `ElfImage.ParseHeader` | src/syscall/elf.rs:180-210 | a header accepted has entries of at least 56 bytes and a table within the file |
| `ElfImage.EntryInFile` | src/syscall/elf.rs:203-210 | every program header lies within the file |
| `ElfImage.CheckSegment` | src/syscall/elf.rs:228-246 | accepted exactly when the contents are in the file, no longer than in memory, and in the user half |
| `ElfImage.Space.MapSegment` | src/syscall/elf.rs:251-265 | exactly the segment's pages are mapped, those of this load once; a page somebody else mapped refuses |
| `ElfImage.Space.Fill` | src/syscall/elf.rs:267-281 | each byte of the segment is its file byte or zero past the file, and nothing else changes |
| `ElfImage.Space.Load` | src/syscall/elf.rs:174-285 | on success exactly the covering pages are new, each with one frame, every byte is that of the last segment covering it; pages mapped before are untouched; a refusal names the first offending segment and why |
| `ElfImage.DisjointImage` | src/syscall/elf.rs:174-285 | with disjoint segments every byte of every segment is in the image |
| `ElfImage.LastSegment` | src/syscall/elf.rs:174-285 | the image at an address is the file byte, or the zero past the file bytes, of the last load segment reaching it; none where none does |
| `ElfImage.BelowUserEnd` | src/syscall/elf.rs:239-246 | all pages of the image are in the user half |
| `Dns.SkipsName` | src/net/dns.rs:64-76 | skipping a name, with labels or a pointer, lands right behind it |
| `Dns.SkipNameAt` | src/net/dns.rs:64-76 | the loop, on any bytes, is the recursive description, and stays in bounds |
| `Dns.FindsFirstAddress` | src/net/dns.rs:108-138 | on every well-formed message without error code: the data of the first A/IN record of four bytes, or none |
| `Dns.FindFirstA` | src/net/dns.rs:108-138 | the loops, on any bytes, are the recursive description, and stay in bounds |
| `Dns.ParseAnswer` | src/net/dns.rs:93-102 | ignored exactly when short or of another id; otherwise what the search says |
| `Dns.AnswerUnderstood` | src/net/dns.rs:93-138 | an encoded answer carries its id, and yields its first address unless it has an error code |
| `Dns.SplitJoins` | src/net/dns.rs:48-49 | splitting a host name at its dots is undone by joining, and no part has a dot |
| `Dns.QueryGood` | src/net/dns.rs:35-59 | the query's bytes are the encoding of a message with one A/IN question |
| `Dns.LabelBytes` | src/net/dns.rs:49-55 | an encoded name is one byte longer than the name and keeps its bytes one place further on |
| `Dns.FinalDot` | src/net/dns.rs:48-49 | one final dot is dropped and nothing else |
| `Dns.SkipsQuery` | src/net/dns.rs:35-76 | skipping from offset 12 of a query lands exactly on its type field |
| `Dns.BuildQuery` | src/net/dns.rs:35-59 | the buffer holds exactly that encoding: the id, flags 0x0100, one question, the name's bytes from offset 13, type and class 1; succeeds exactly when all labels have 1 to 63 bytes and the 18 bytes and the name fit |

## Left out

- FatOps.WriteFile: of the table after several refusals, or after one that cut the update of an entry short, it is only said that no path reads differently; whether fresh clusters are lost then depends on which copy of the table was reached.
- FatOps.ReadFile: after a refused read only the error is promised, since which error comes first depends on the device.
- Forks.ForkFrom: says nothing of memory when frames run out, since the kernel aborts then.
- Execs.Exec: reading the program, copying its arguments, switching page-table roots and rewriting saved registers are not modelled; the image and the verdict are parameters.
- Lifecycle.SignalKeeps: pending signals that do not end a process are recorded and never delivered, as in the source, and nothing is claimed of them.
- Scheduler.RoundRobin.TryCollectOrBlock: process numbers are unbounded, so the truncation of the number asked for to 32 bits is not modelled.
- Scheduler.RoundRobin.ReapAll: tearing down the corpses, which runs with interrupts on, is `AddressSpaces.Destroy` and `Descriptors.Registry.Forget`; nothing is claimed of code interleaved there.
- NetRings.Sender.Send: the contents of the one sending buffer while an earlier, timed-out frame is still under way are not described.
- ElfImage.Space.Load: pages are a map from page numbers; the page tables under them are those of `UserPages`.
- Programs.Start: works on that map of pages; `Programs.ProgramImage` turns them into the image `Execs.Exec` takes, and the copying of bytes into frames is there the writing of whole pages.
- Long file names, directory growth, timestamps, file metadata: not implemented by the writer, or settled by reading one function.
- The block device's own protocol: sectors are read and written, or refused.
- Page flags beyond present, user and huge, and the translation cache: hardware effects.
- Context switches, FPU areas and thread-local bases: a switch is a change of the current thread.
- Open files, sockets, and the console: descriptors that are no pipe ends are only carried along.
- smoltcp and the socket layer, the async executors, the kernel heap: library code, or thin loops over it.
- The rest of libc, the shell and the utilities: easy next to the kernel.
