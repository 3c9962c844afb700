# MalapropOS, verified

MalapropOS is a small kernel for an emulated ARM board: a FAT16 file system over a disk reached through a serial
line, a preemptive scheduler with two priorities, message passing between processes, and the lists and number
routines these are built on. This project models that code in Dafny and proves what it is there for.
`dafny verify dfyconfig.toml` checks all of it.

## What is proved

**Files.** The disk is an array of sectors. `VolumeOf` (FatLayout.dfy) says what those sectors mean: a successor
map, clusters, a root directory table and everything else. The routines of `file.c` are methods over the sectors,
proved against that meaning, so the sector arithmetic is part of the proof. On top of it `WriteToFile`, which walks a
chain, overwrites it and then grows it while it changes the FAT, is proved to be one splice of the file
(`Written`), with the number of bytes and of clusters determined (`Outcome`). FatTree.dfy then speaks of trees of
directories, at any depth: every path of the tree owns a chain, chains end, are disjoint and hold no free cluster, and
free clusters are zero. Every run of creating, writing, resizing and deleting keeps this, takes exactly the clusters it
links in, and leaves every other path's entry, chain and bytes alone. A tree may be a part of what the disk holds, since
not every volume is one: on the volume that `test/Makefile` makes, two entries name the same cluster and three name
clusters that do not exist. What holds of all its chains is said without a tree (`RunKeepsChains`).

A volume may have FAT entries for more clusters than there are sectors for, and the disk may hold fewer sectors than the
boot sector counts. The clusters of a volume are those that the FAT, the boot sector and the disk all have room for
(`FileSystem`'s constructor): of the volume that `test/Makefile` makes, the FAT has 4096 entries, the boot sector counts
clusters for the numbers 2 to 4072 (`ShippedGeometry`), and the file made for it holds those up to 1000
(`ShippedFileGeometry`). Allocation is safe exactly while the first free entry is that of a cluster (`FirstFreeExists`).
Behind the clusters counted a write is stored nowhere; behind those held the emulator's answer is too short, and the
kernel waits for the rest of it forever (`LoadedIffHeld`, `ShippedClusters`, `ShippedAllocation`). So on that file the
first cluster that cannot be allocated is 1001, and what is said of a cluster number without sectors holds there for the
reads and writes that return.

**Processes.** Scheduler.dfy gives the routines of `scheduler.c` as functions on the scheduler's state, and
SchedulerRoutines.dfy the routines themselves, which update their globals in place and are proved to do what the
functions say. Over every guarded run: the queue invariant, what the high queue holds in terms of what has happened and
when a process without high priority resumes, bounded waiting under any mix of what other processes do, preservation of
register contexts, and agreement of the event log with the processes.

**Messages.** The one queue conserves every channel's messages in order. A producer, any number of pipeline stages
and a consumer, interleaved at system calls with each other and with anybody else, deliver what was produced with
every byte increased once by each stage; nothing is lost on the way, and whatever is under way can be moved until it
is delivered.

**Underneath.** The tail queue macros are proved on their pointers, including the pointers that previous-links address.
`stdstring_strtol` is proved against the digit run it reads and inverts `stdstring_int_to_str`. The disk driver and
the emulator it talks to are proved together, character by character, to be the array of sectors that the file system
works on.

| file | of the kernel |
|---|---|
| Bytes.dfy, BlockDevice.dfy | fixed-width integers, sequences laid end to end, the disk as blocks |
| FatLayout.dfy, FatTable.dfy, FatChains.dfy | `file.c` 13-104, 190-209: regions, FAT entries, free search, clusters |
| FatContent.dfy, FatFiles.dfy, FatOpenFiles.dfy | `file.c` 421-540, 978-1111: reading and writing files |
| FatDirectory.dfy, FatDirectoryIO.dfy, FatFileOps.dfy | `file.c` 110-401, 543-641, 922-973, 1124-1147: directories |
| FatTree.dfy | the tree of directories, over runs |
| Scheduler.dfy, SchedulerRoutines.dfy, SchedulerWaiting.dfy, SchedulerHistory.dfy | `scheduler.c` |
| Ipc.dfy, Pipeline.dfy | `ipc.c`, `pipeline.c`, `producer.c`, `consumer.c` |
| Tailq.dfy | `stdqueue.h` |
| Strings.dfy | `stdstring.c` |
| DiskWire.dfy, DiskFile.dfy | `disk.c`, `PL011.c`, `disk.py`, and what of a volume a file holds |

## Where the code does something else than one would expect

The model does what the code does. These are proved of it:

- Deleting a file, or updating its size, looks for the name as a listing shows it. A stored extension shorter than
  three characters, as that of `AB`, or a stored name whose first byte is escaped, is never matched, and deletion still
  returns 0
  (`FindsItself`, `DeleteByName`, `CannotDeleteWithoutExtension`).
- Creating a file in a directory without a space takes one free cluster twice: the directory goes on in it, and the new
  file starts in it. Creating keeps a tree exactly when there is a space (`CreateInFullDirectory`, `CreateKeepsIffSpace`).
  Without a free cluster a new file is given cluster 0 (`CreateNewFile`), and what is written to it overwrites the end of
  the root directory (`RootCluster`, `WriteToFile`).
- Searches of the root directory read one sector too many, the first one of the data region (`SearchRoot`). With a full
  root directory an entry is written into that sector, that is, into cluster 2 (`AddRootDirectoryEntry`,
  `OverrunHitsFile`); a name that the root directory does not have is rewritten or deleted there as well
  (`UpdateRootDirectoryEntry`, `UnlinkInRoot`).
- A write that needs a cluster number without sectors counts its bytes as written and links the number in; the file then
  holds only the bytes that fit before (`WriteToFile`, `StrandedIsNotStored`). On a disk with all sectors of the
  repository's volume this starts at cluster 4073 (`ShippedVolumeStrands`).
- A write from an offset that the file's chain ends at, as when appending to a file that fills its clusters, stores
  nothing of what goes to the first cluster, counts all bytes, and makes the size in the entry grow; a read there, within
  one cluster, reports as many bytes as were asked for (`SeekCluster`, `WriteToFile`, `SysWrite`, `SysRead`). A write of
  more than that looks for the entry of the end mark behind the FAT. On the repository's volume this is the end of cluster
  105 (`ShippedEndMark`); while it is zero, the number of the first free cluster is written there, over bytes of whatever
  file has that cluster, and the rest of the data goes to a chain that nothing leads to (`ShippedGoesAstray`,
  `LostOverwrites`).
- Adding to a directory inserts at the first space's rank only if nothing is listed behind a never-used slot
  (`AddThenList`); tables that start clear keep that (`EmptyTailKept`).
- A name starting with 0x05 does not survive being written and read (`SlotRoundTrip`).
- Updating the size of a file whose name starts with a space, such as `.txt`, ends the listing in front of it. Of one
  whose name starts with 0xe5, as of one with a short extension, the entry is not found and its size stays. In all other
  cases, if no second slot has the name, that entry's size is what changes (`ResizeByName`,
  `CannotResizeSpaceOrEscape`).
- A process with high priority is in both queues. It loses its high priority exactly by blocking, exiting or being killed
  (`LeavesHigh`), and not by being given priority 1 (`LowPriorityLeavesHigh`). "All high-priority tasks will complete
  before any low-priority task resumes" (line 71 of the original's README) fails when a high process blocks
  (`HighJobWaits`), at a scheduler run exactly when it is the only high one (`PromiseBreaks`), and holds of every process
  that does not block (`HighUntilDone`, `LowResumes`).
- `scheduler_exit` cannot reach its error message: there is a process to switch to exactly when another one is queued,
  and then it is another one (`SwitchTarget`). `scheduler_kill` switches to the front of a queue whichever process it
  kills (`SwitchQueues`).
- `stdstring_int_to_str` writes `-(` for -2147483648 (`IntToStr`, `WrittenReadsBack`). `stdstring_strtol` consumes
  nothing of a text such as `0x`, not even the 0, exactly when no digit follows the prefix (`PrefixNeedsDigits`).
- The test for -1 that would stop a pipeline stage is never true where `char` is unsigned, as it is on ARM
  (`NobodyStops`); the stream property holds either way.
- The emulator answers a read beyond the end of its file with fewer characters than the kernel waits for
  (`AnswerIsWholeIffFileIs`). Of the disk that `test/Makefile` makes and announces, three quarters of the blocks are beyond
  it (`ShippedFile`).

## Model

| member | source | states |
|---|---|---|
| `FatLayout.ClustersApart` | os/src/kernel/file.c:190-209 | The sector ranges of two clusters never meet, for every geometry, however many entries the FAT has. |
| `FatLayout.ClusterRegionFrame` | os/src/kernel/file.c:201-209 | Sectors of one cluster changed: in the volume that cluster changes and the FAT, the root table, every other cluster and every other sector do not. |
| `FatLayout.RestRegionFrame` | os/src/kernel/file.c:201-209 | Sectors behind the last cluster changed, as by writing a cluster number that only the FAT has: nothing the volume holds changes. |
| `FatLayout.ShippedGeometry` | test/Makefile:3 | The boot sector the repository comes with is a geometry: 4096 FAT entries, the data region at sector 49, and clusters for the numbers 2 to 4072 only. |
| `FatLayout.ShippedFileGeometry` | test/Makefile:2 | On the disk file made for it, which holds 2048 of its 8192 sectors, that volume has the clusters up to number 1000. |
| `FatLayout.StrayEntry` | os/src/kernel/file.c:49-84 | For a cluster number that the FAT has no entry for, when the place looked at is in a cluster: reading its entry reads two bytes of that cluster, writing it overwrites them, and nothing else in the volume changes. |
| `FatLayout.ShippedEndMark` | os/src/kernel/file.c:49-63 | On the repository's volume that place is, for the end mark 0xffff, the last two bytes of cluster 105. |
| `FatLayout.RootCluster` | os/src/kernel/file.c:190-209 | The sectors that the cluster numbers 0 and 1 lead to are part of the root directory, when that has as many. |
| `FatLayout.FatRegionFrame` | os/src/kernel/file.c:67-84 | Sectors of the first FAT changed: only the successor map does; root table, clusters and other sectors stay. |
| `FatLayout.FatEntryPosition` | os/src/kernel/file.c:49-84 | The two different in-sector index computations, by entry in the getter and by byte in the setter, give the same even position inside one sector. |
| `FatLayout.FatEntryRead` | os/src/kernel/file.c:49-63 | The word at that position is the value of the successor map. |
| `FatLayout.FatEntryWrite` | os/src/kernel/file.c:67-84 | Writing the two bytes there updates the map at that entry and nothing else in the volume. |
| `FatTable.FileSystem.GetSuccessorCluster` | os/src/kernel/file.c:49-63 | Returns the successor map at the cluster; for a number behind the map, the two bytes found where its entry would be, if that is in a cluster. |
| `FatTable.FileSystem.constructor` | os/src/kernel/file.c:14-36 | The volume is read by its boot sector, as far as the disk holds it: the number of sectors in the boot sector is used by no routine. |
| `FatTable.FileSystem.SetSuccessorCluster` | os/src/kernel/file.c:67-84 | The volume afterwards is the one before with that single map entry replaced; for a number behind the map, with those two bytes of a cluster overwritten. |
| `FatTable.FileSystem.FindFirstFreeCluster` | os/src/kernel/file.c:87-104 | Returns the least entry that is zero, or 0 when every entry is used. |
| `FatTable.FileSystem.LoadCluster` | os/src/kernel/file.c:190-199 | The buffer becomes the bytes of the cluster, if the cluster exists; for 0 and 1, bytes of the root directory. |
| `FatTable.FileSystem.WriteCluster` | os/src/kernel/file.c:201-209 | The volume afterwards is the one before with that one cluster replaced; for a number without a cluster, only sectors behind the clusters can change; for 0 and 1, bytes of the root directory are overwritten. |
| `FatChains.ChainIsAcyclic` | os/src/kernel/file.c:475-521 | A chain that reaches an end mark visits no cluster twice, which bounds every walk. |
| `FatChains.ChainIsUnique` | os/src/kernel/file.c:475-521 | A first cluster has at most one chain. |
| `FatChains.ChainLength` | os/src/kernel/file.c:526-540 | A chain has fewer than 65536 clusters, so the 16-bit counters of the walks do not wrap. |
| `FatChains.FirstFreeIsHead` | os/src/kernel/file.c:87-104 | The result of the free search is the head of the ordered list of free clusters, or 0 when that list is empty. |
| `FatChains.LinkFirstFree` | os/src/kernel/file.c:505-521 | Linking the first free cluster: the chain grows by it and still ends, the free list loses exactly its head, and only the two linked entries change. |
| `FatContent.ContentWrite` | os/src/kernel/file.c:484-497 | Overwriting inside one cluster of a chain is overwriting the file at that cluster's offset. |
| `FatContent.WrittenIsDeterministic` | os/src/kernel/file.c:462-524 | The relation proved of a write fixes the whole volume: two volumes related to the same one are equal. |
| `FatContent.WriteThenRead` | os/src/kernel/file.c:421-524 | After a write the file is its old bytes and the old bytes of the clusters appended, with the bytes spliced in at the offset; reading that range back gives the bytes written. |
| `FatContent.OutcomeIsDetermined` | os/src/kernel/file.c:500-523 | The promise about how much is written determines it: all bytes unless the free clusters run out, and not one cluster more than those bytes need. |
| `FatContent.FitsIffRoom` | os/src/kernel/file.c:500-523 | A write fits if and only if it links in no cluster number that the disk has no sectors for. |
| `FatContent.StrandedIsNotStored` | os/src/kernel/file.c:500-523 | The chain left by a write that does not fit is a chain of the FAT, but not one of clusters that exist. |
| `FatContent.WrittenFurther` | os/src/kernel/file.c:488-499 | A round of the overwriting loop extends the splice by the bytes of that round. |
| `FatContent.WrittenGrow` | os/src/kernel/file.c:505-521 | A round of the allocating loop leaves the splice as it is over the chain grown by the first free cluster. |
| `FatContent.WriteTwice` | os/src/kernel/file.c:462-524 | Two writes, the second where the first ended, are one write of both, whatever happened to other clusters in between. |
| `FatFiles.SeekCluster` | os/src/kernel/file.c:470-481 | The walk stops at the cluster of the chain with the index, and at the end mark if and only if the chain has no such index; from 0 or 1 it does not go anywhere. |
| `FatFiles.OverwriteChain` | os/src/kernel/file.c:488-499 | The second loop: everything up to the end of the old chain, or of the buffer, is spliced; no FAT entry changes. Behind the chain it does nothing when no cluster number is found there. |
| `FatFiles.GrowChain` | os/src/kernel/file.c:500-523 | The third loop: free clusters are linked in order and filled until the buffer or the free list is used up. From an end mark, the clusters become a chain of their own that nothing leads to. |
| `FatFiles.WriteToFile` | os/src/kernel/file.c:462-524 | The three loops together are one splice of the file: the chain grows by the first free clusters, the bytes are in place, all other clusters, the root table and all other sectors stay, and the number written is all of them unless no cluster is free. When a free entry without a cluster had to be used, exactly the bytes that fit the others are in place. From an offset behind the chain the bytes of the first cluster count as written and nothing changes; further ones go to a chain of their own, and two bytes of some cluster are overwritten. With first cluster 0 or 1 the bytes overwrite the root directory. |
| `FatFiles.LostOverwrites` | os/src/kernel/file.c:505-521 | A longer write from behind a chain puts the number of the first free cluster into two bytes of the cluster that the end mark leads to; if that is in use, these are its only bytes that change. |
| `FatFiles.ShippedGoesAstray` | os/src/kernel/file.c:500-521 | On the repository's volume that happens behind every chain ended by 0xffff while the last two bytes of cluster 105 are zero. |
| `FatFiles.FirstFreeExists` | os/src/kernel/file.c:87-104 | On a disk that holds all sectors of the volume, allocating is safe exactly while the first zero entry is below the number of clusters, counted from 2: a write that needs one more cluster fits if and only if it is. On one that holds fewer, the clusters are those it holds (`ShippedAllocation`). |
| `FatFiles.ShippedVolumeStrands` | test/Makefile:3 | On a disk that holds all 8192 sectors of the repository's volume, once the clusters up to 4072 are used the search returns 4073, which has no sectors, and no write that needs it fits. The file the repository makes holds fewer, and there loading a cluster already fails at 1001 (`ShippedClusters`). |
| `FatFiles.ReadFromFile` | os/src/kernel/file.c:421-459 | Returns the lesser of the size asked for and what the chain holds from the offset on, and the buffer holds exactly those bytes of the file. From an offset behind the chain, as many bytes as asked for are reported. |
| `FatFiles.NumClustersInChain` | os/src/kernel/file.c:526-540 | Returns the length of the chain, or 0 for a first cluster outside the data region. |
| `FatDirectory.SlotRoundTrip` | os/src/kernel/file.c:211-256 | Decoding a slot that was written gives the entry back: cluster, 32-bit size, attributes, padding and the 0xe5 escape; exactly when the name does not itself start with 0x05. |
| `FatDirectory.EncodedFields` | os/src/kernel/file.c:233-247 | Which bytes of the slot hold the attributes, the cluster and the size, and which bytes keep what they held. |
| `FatDirectory.AddThenList` | os/src/kernel/file.c:211-256 | Adding then listing gives the old listing with the entry inserted at the rank of the first space, if and only if nothing is listed behind the never-used slot it may have taken. |
| `FatDirectory.EmptyTailKept` | os/src/kernel/file.c:211-256 | A table with only never-used slots behind the first one keeps that, and then the condition of `AddThenList` holds. |
| `FatDirectory.DeleteThenList` | os/src/kernel/file.c:1124-1147 | Marking a listed entry deleted takes exactly that entry off the listing. |
| `FatDirectory.ResizeThenList` | os/src/kernel/file.c:1067-1076 | Rewriting a listed entry with a new size changes the listing at that entry alone, if and only if the name on disk starts neither with a space nor with the escape; what the listing is otherwise. |
| `FatDirectory.FindsItself` | os/src/kernel/file.c:137-187 | The name a listing shows for a slot finds that slot again exactly when the stored name is not escaped and the stored extension has no padding. |
| `FatDirectory.FirstInBlocks` | os/src/kernel/file.c:211-230 | Searching a table block by block finds the slot that searching the whole table finds. |
| `FatDirectory.ListOn` | os/src/kernel/file.c:543-602 | Listing block by block, stopping at the first never-used slot, is listing the whole table. |
| `FatDirectory.ZeroTableIsEmpty` | os/src/kernel/file.c:604-641 | A table of zero bytes lists as empty. |
| `FatDirectoryIO.FindSlot` | os/src/kernel/file.c:110-187 | The search loops return the first slot that is a space, or has the name, or -1. |
| `FatDirectoryIO.WriteEntry` | os/src/kernel/file.c:233-250 | The byte-by-byte writes of an entry are the encoded slot, and touch no other byte of the buffer. |
| `FatDirectoryIO.SearchRoot` | os/src/kernel/file.c:211-230 | Finds the first hit in the root table; without one it searches one sector more, the first of the data region. |
| `FatDirectoryIO.AddRootDirectoryEntry` | os/src/kernel/file.c:211-256 | With a space in the table: the volume with that table replaced by the one with the entry added, and nothing else. With a full table: the first sector of cluster 2 gets the entry if it has what looks like a space, and -1 is returned if not; the root table stays. |
| `FatDirectoryIO.UpdateRootDirectoryEntry` | os/src/kernel/file.c:311-356 | The slot with the old name is rewritten and nothing else changes; without such a slot, the one in the first sector of cluster 2 is, if there is one there, and -1 otherwise. |
| `FatDirectoryIO.OverrunHitsFile` | os/src/kernel/file.c:211-256 | An entry written into that sector is not listed, and replaces bytes of the file that cluster 2 belongs to. |
| `FatDirectoryIO.FullTable` | os/src/kernel/file.c:211-230 | A table of slots in use, of any length, has no space. |
| `FatDirectoryIO.SearchDirectory` | os/src/kernel/file.c:258-271 | Along a directory's chain, finds the first hit of the table as far as the walk gets, which is up to the first cluster number above 0x0fef. |
| `FatDirectoryIO.AddDirectoryEntry` | os/src/kernel/file.c:258-309 | With a space where the walk gets to: the entry is in the table's first space, and every other cluster, the FAT and the root table stay. Without: the directory goes on in the first free cluster, which gets a copy of the last one with the entry in its first slot and stays marked free; without a free one, -1 and no change. |
| `FatDirectoryIO.UpdateDirectoryEntry` | os/src/kernel/file.c:358-401 | The first slot with the old name, where the walk gets to, is rewritten, or -1 and no change. |
| `FatDirectoryIO.AddSectorEntries` | os/src/kernel/file.c:543-581 | Appends the listing of one sector and reports whether it ended there. |
| `FatDirectoryIO.GetRootDir` | os/src/kernel/file.c:583-602 | Returns the listing of the root table. |
| `FatDirectoryIO.GetDir` | os/src/kernel/file.c:604-641 | Returns the listing of the table in a directory's chain, and none for what is no directory or has no first cluster. |
| `FatFileOps.CreateNewFile` | os/src/kernel/file.c:922-973 | With a space in the directory and a free cluster: the entry with the padded name and the first free cluster is there, that cluster is a chain of its own, and nothing else changes. Otherwise: the entry is placed as the directory routines do it, -1 and no change if they cannot, and the cluster it names is marked, which is cluster 0 when none is free. |
| `FatFileOps.CreatedIsStored` | os/src/kernel/file.c:943-970 | The new file has a cluster to hold bytes if and only if the free entry found belongs to one. |
| `FatFileOps.UnlinkInRoot` | os/src/kernel/file.c:1124-1147 | -1 and no change for an open or unlisted file; otherwise 0, and the first slot that matches the listed name is marked deleted with the FAT untouched. With no matching slot 0 is returned, the root table stays, and the first slot that matches in the first sector of cluster 2, if any, is overwritten. |
| `FatFileOps.UnlinkInDirectory` | os/src/kernel/file.c:1124-1147 | The same for a file of a directory kept in a chain: the first slot matching the listed name, where the walk gets to, is marked deleted and nothing else in the volume changes. |
| `FatFileOps.DeleteByName` | os/src/kernel/file.c:1124-1147 | Deleting by listed name removes exactly that entry from the listing if and only if the stored name is not escaped and the stored extension is not padded. |
| `FatFileOps.ListedSlot` | os/src/kernel/file.c:543-581 | An entry that a listing shows stands in a slot that the listing reaches, so `DeleteByName` and `ResizeByName` are about every listed entry. |
| `FatFileOps.CannotDeleteWithoutExtension` | os/src/kernel/file.c:1136-1142 | The concrete file `AB`, created without an extension in an empty table, is not found by the deletion's search. |
| `FatFileOps.ResizeByName` | os/src/kernel/file.c:978-1005 | Updating the size by the listed name changes the listing at that entry alone if and only if the name on disk starts neither with the escape nor with a space and the extension is not padded; in the first and last case the table stays, in the other the listing ends there. |
| `FatFileOps.CannotResizeSpaceOrEscape` | os/src/kernel/file.c:978-1005 | The concrete files `.TXT`, whose size update makes the listing end before it, and one named by the byte 0xe5, whose size on disk stays. |
| `FatOpenFiles.UpdateFileDetails` | os/src/kernel/file.c:978-1005 | The first slot with the name, as far as the search gets, is rewritten; with none, nothing changes but, in the root directory, a matching slot of cluster 2. |
| `FatOpenFiles.SysWrite` | os/src/kernel/file.c:1047-1082 | A write is a write step on the tree followed, when the file became longer, by the update of its entry; position and size are what the bytes written make them. When the name finds the file, the update is a rewrite step and the file is as ready for the next write as before. From a position behind the chain nothing is stored, and the size grows all the same. |
| `FatOpenFiles.WritesConcatenate` | os/src/kernel/file.c:1047-1082 | Two writes in a row, with the entry rewritten in between or not, leave the bytes of both in the file one after the other. |
| `FatOpenFiles.SysRead` | os/src/kernel/file.c:1084-1111 | Reads the file's bytes from the position on and moves the position by as many; -1 for a file without a cluster; behind the chain it reports as many as asked for. |
| `FatTree.PathsCarry` | os/src/kernel/file.c:462-524 | When all directory tables but one slot carry over, every path outside that slot leads to the same slot and table as before, at every depth. |
| `FatTree.CreateKeeps` | os/src/kernel/file.c:922-973 | Creating keeps the tree invariant, takes one free cluster, adds the new path, apart from all, and keeps every other path's slot and chain, and every path's bytes but the edited directory's. |
| `FatTree.CreateInFullDirectory` | os/src/kernel/file.c:258-309 | In a directory without a space the first free cluster is taken twice: the directory's chain goes on in it, and it is the chain of the new file. |
| `FatTree.CreateKeepsIffSpace` | os/src/kernel/file.c:922-973 | So what `CreateNewFile` does in a directory of a tree keeps the tree, with the new file in it, if and only if the directory had a space. |
| `FatTree.WriteKeeps` | os/src/kernel/file.c:462-524 | Writing keeps the tree invariant, takes the clusters linked in, and keeps every other path's slot, chain and bytes. |
| `FatTree.RewriteKeeps` | os/src/kernel/file.c:311-401 | Rewriting a slot for the same file, or by one that owns nothing, keeps the tree invariant and the free list, and every other path. |
| `FatTree.StepKeepsTree` | os/src/kernel/file.c:462-524 | Each of these operations keeps the tree invariant and what was said of the others. |
| `FatTree.RunKeepsTree` | os/src/kernel/file.c:87-104 | Over every run of create, write, resize and delete on a tree, which may be a part of what the disk holds: the tree invariant holds, the free list has lost exactly the clusters linked in, from its front, and a tree that had all there is still does. |
| `FatTree.RunKeepsPath` | os/src/kernel/file.c:462-524 | Path by path: one that no step deletes goes on owning its chain, which only grows; one whose bytes no step is about keeps chain and bytes. |
| `FatTree.RunKeepsPair` | os/src/kernel/file.c:462-524 | Pair by pair: two paths of the tree that no step deletes still share no cluster. |
| `FatTree.ChainSurvives` | os/src/kernel/file.c:500-523 | On any volume, with shared clusters or without, a step leaves every chain a chain, longer by the clusters a write links in. |
| `FatTree.ChainsStayApart` | os/src/kernel/file.c:500-523 | On any volume, a step keeps two chains apart that were, and a created file's chain is apart from every chain there was. |
| `FatTree.RunKeepsChains` | os/src/kernel/file.c:462-524 | So over every run from any volume: two chains apart go on as chains, and apart. |
| `FatTree.NoTwoShare` | os/src/kernel/file.c:922-973 | Of two entries that name the same cluster at most one is in a tree. |
| `FatTree.LiveChain` | os/src/kernel/file.c:475-521 | What the invariant says of a file or directory of the tree: its chain is acyclic, ends at an entry of 0xfff0 or more, holds no free cluster and shares none with any other of the tree. |
| `FatTree.GrownTailIsZero` | os/src/kernel/file.c:505-521 | Bytes of a grown file that were not written are zero, when free clusters were. |
| `FatTree.NewDirectoryIsEmpty` | os/src/kernel/file.c:1239-1256 | A directory created in such a run lists as empty. |
| `FatTree.UnlinkIsStep` | os/src/kernel/file.c:1136-1142 | What deleting does to a directory, at any depth, is a rewrite step of a run, so it touches no FAT entry. |
| `FatTree.ResizingIsRewrite` | os/src/kernel/file.c:1067-1076 | Updating the size of a file is a rewrite step of a run. |
| `FatTree.ClearVolumeIsTree` | test/Makefile:2 | A volume of zeros, but for a FAT whose first two entries are in use, is the empty tree, and that is all there is on it. |
| `FatTree.ShippedVolumeHasTree` | test/Makefile:1-7 | The volume the repository comes with, on which two entries share cluster 2 and three name clusters that do not exist, holds a tree of the file and the directory in slots 0 and 2 of its root. |
| `BlockDevice.Disk.ReadBlocks` | os/src/kernel/file.c:190-199 | Sector by sector, the buffer becomes the consecutive sectors laid end to end. |
| `BlockDevice.Disk.WriteBlocks` | os/src/kernel/file.c:201-209 | Sector by sector, the consecutive sectors become the buffer, and no other sector changes. |
| `SchedulerRoutines.Scheduler.constructor` | os/src/kernel/scheduler.c:398-422 | One process, the shell, with pid 1 in the low queue, is running. |
| `SchedulerRoutines.Scheduler.FindProcess` | os/src/kernel/scheduler.c:44-52 | Returns the first process with the pid, or none. |
| `SchedulerRoutines.Scheduler.RemovePid` | os/src/kernel/scheduler.c:79-98 | The loops with removal leave both queues, for priority 0, or the low one without the pid, the others in order: the fall-through is in the contract. |
| `SchedulerRoutines.Scheduler.AddPid` | os/src/kernel/scheduler.c:103-118 | Priority 0 puts the pid at the end of both queues. |
| `SchedulerRoutines.Scheduler.SetProcessPriority` | os/src/kernel/scheduler.c:300-303 | The pid leaves and rejoins the queues of the priority: both for 0, only the low one for 1. |
| `SchedulerRoutines.Scheduler.GetNextProcess` | os/src/kernel/scheduler.c:132-164 | Returns the front of the queue and moves it to the back, or -1 when it is empty. |
| `SchedulerRoutines.Scheduler.Run` | os/src/kernel/scheduler.c:169-179 | The new state is that of the model's `Run`: queue rotated, old context saved, new one loaded. |
| `SchedulerRoutines.Scheduler.BlockProcess` | os/src/kernel/scheduler.c:184-201 | The new state is that of the model's `BlockProcess`, it satisfies the invariant, and the awaited pid is returned. |
| `SchedulerRoutines.Scheduler.HasEventOccurred` | os/src/kernel/scheduler.c:206-215 | Returns the pid if the event is in the log, otherwise 0. |
| `SchedulerRoutines.Scheduler.Exit` | os/src/kernel/scheduler.c:220-242 | The new state is that of the model's `Exit`, it satisfies the invariant, and the error branch is never taken while another process is queued. |
| `SchedulerRoutines.Scheduler.Kill` | os/src/kernel/scheduler.c:247-263 | The new state is that of the model's `Kill` and satisfies the invariant. |
| `SchedulerRoutines.Scheduler.EmitEvent` | os/src/kernel/scheduler.c:269-293 | The loop over the process list wakes what the model's `Emit` wakes, in list order. |
| `SchedulerRoutines.Scheduler.Fork` | os/src/kernel/scheduler.c:309-353 | The new state is that of the model's `Fork` and satisfies the invariant; the child's pid is returned. |
| `SchedulerRoutines.Scheduler.Exec` | os/src/kernel/scheduler.c:367-379 | The new state is that of the model's `Exec` and satisfies the invariant. |
| `SchedulerInvariant.EmitKeeps` | os/src/kernel/scheduler.c:269-293 | An event wakes exactly the processes blocked on it, each with the pid in register 0, puts them behind the low queue, and keeps the invariant. |
| `SchedulerInvariant.TerminateKeeps` | os/src/kernel/scheduler.c:220-263 | Removing, switching and marking terminated keeps the invariant, and another process is current. |
| `SchedulerInvariant.ApplyKeeps` | os/src/kernel/scheduler.c:79-379 | Every operation keeps the invariant: pids unique and below the next, both queues free of duplicates, the high queue part of the low one, a pid in the low queue exactly when its process is running or ready, and the current process among them. |
| `SchedulerInvariant.RunsKeep` | os/src/kernel/scheduler.c:79-379 | So every state of every guarded run satisfies it. |
| `SchedulerWaiting.SwitchTarget` | os/src/kernel/scheduler.c:220-263 | When a process leaves the queues, there is one to switch to if and only if another one is queued, and it is another one: the error message of an exit cannot be reached. |
| `SchedulerWaiting.SwitchQueues` | os/src/kernel/scheduler.c:220-263 | Exiting, or killing any process, takes the pid out of both queues and switches to the front of the high queue or, when that is empty, of the low one. |
| `SchedulerWaiting.HighAdvances` | os/src/kernel/scheduler.c:132-179 | Under any operation of others a process in the high queue stays there and does not fall back; if the scheduler ran, it was chosen or came forward. |
| `SchedulerWaiting.LowAdvances` | os/src/kernel/scheduler.c:132-179 | The same for the low queue while the high queue is empty. |
| `SchedulerWaiting.HighIsChosen` | os/src/kernel/scheduler.c:169-179 | Bounded waiting: over any run of operations of others, a process at position `i` of the high queue is chosen within `i + 1` scheduler runs. |
| `SchedulerWaiting.LowIsChosen` | os/src/kernel/scheduler.c:169-179 | The same for the low queue while the high queue stays empty. |
| `SchedulerWaiting.RoundRobin` | os/src/kernel/scheduler.c:132-179 | `n` undisturbed runs visit each of `n` queued processes once, in order, and restore the queue. |
| `SchedulerWaiting.HighFirst` | README.md:71 | A scheduler run turns to a process outside the high queue if and only if that queue is empty. |
| `SchedulerWaiting.HighOnlyWhenGiven` | os/src/kernel/scheduler.c:283-289 | Only being given priority 0 brings a process into the high queue; one that blocked is no longer in it when it is woken. |
| `SchedulerWaiting.LeavesHigh` | os/src/kernel/scheduler.c:184-263 | A process of the high queue is no longer in it after an operation if and only if it blocked, exited or was killed; setting its priority to 1 does not take it out. |
| `SchedulerWaiting.LowPriorityLeavesHigh` | os/src/kernel/scheduler.c:79-126 | Setting priority 1 moves the pid to the end of the low queue and leaves the high queue as it is. |
| `SchedulerWaiting.HighIsHighSince` | os/src/kernel/scheduler.c:79-263 | Over every run, the high queue holds exactly the processes that have had high priority since without blocking, exiting or being killed. |
| `SchedulerWaiting.LowResumes` | README.md:71 | Over every run, the scheduler turns to a process without high priority if and only if every process given it has since blocked, exited or been killed. |
| `SchedulerHistory.PromiseBreaks` | README.md:71 | At one scheduler run, a process without high priority resumes before one that was high is done if and only if the only process of the high queue blocks. |
| `SchedulerHistory.HighUntilDone` | README.md:71 | Over every run, a high process that does not block stays high until it has terminated, and no process without high priority resumes before. |
| `SchedulerHistory.HighJobWaits` | README.md:71 | A concrete run from the initial state: the shell forks a job and gives it high priority, the job runs and waits for the shell's end, and the shell, of low priority, resumes. |
| `SchedulerHistory.ApplyFollows` | os/src/kernel/scheduler.c:184-379 | What each operation makes of each process and of the event log, process by process. |
| `SchedulerHistory.WaitingKeepsContext` | os/src/kernel/scheduler.c:57-74 | A process that is not running keeps the registers it will resume with whatever others do, and gets exactly those when it is switched in. |
| `SchedulerHistory.SwitchedOutKeepsContext` | os/src/kernel/scheduler.c:184-201 | A process switched out will resume with its registers as they were, but for the awaited pid in register 0 when it blocked on anything other than its own blocking. |
| `SchedulerHistory.ForkedChild` | os/src/kernel/scheduler.c:309-353 | A forked child is queued with a fresh pid and will resume where its parent is, with its parent's registers, 0 in register 0, and its stack pointer as far from its frame pointer as the parent's. |
| `SchedulerHistory.ResumesWithItsContext` | os/src/kernel/scheduler.c:57-74 | The same over a whole run, however many operations lie between. |
| `SchedulerHistory.TerminatedIsFinal` | os/src/kernel/scheduler.c:220-263 | A terminated process stays so, and is never the current one. |
| `SchedulerHistory.LogStillAgrees` | os/src/kernel/scheduler.c:184-293 | An exit event is in the log exactly for the terminated processes, and nothing a blocked process waits for was logged since it blocked; every operation keeps this. |
| `SchedulerHistory.LogAgreesOver` | os/src/kernel/scheduler.c:184-293 | The same over every run from the initial state. |
| `SchedulerHistory.NoHangTellsTheTruth` | os/src/kernel/scheduler.c:206-215 | So asking without waiting whether a process has exited is answered truthfully. |
| `Ipc.MessageQueue.Send` | os/src/kernel/ipc.c:5-13 | The queue gets the message at its end. |
| `Ipc.MessageQueue.ReceiveFrom` | os/src/kernel/ipc.c:15-25 | Takes the oldest message of the channel and copies as many bytes as asked for, or returns -1 and changes nothing. |
| `Ipc.MessageQueue.ReceiveAny` | os/src/kernel/ipc.c:27-37 | The same for the oldest message to the caller from anyone. |
| `Ipc.CallConserves` | os/src/kernel/ipc.c:5-37 | One call: what a channel delivers and then holds is what it held and then was sent. |
| `Ipc.ChannelsConserve` | os/src/kernel/ipc.c:5-37 | Over any calls by anyone, for every sender and receiver: messages received, then pending, are those pending before, then sent, in order. |
| `Ipc.FailsOnlyWhenEmpty` | os/src/kernel/ipc.c:15-37 | A receive fails exactly when every channel it listens to is empty. |
| `Pipeline.StepStreams` | os/src/user/pipeline.c:24-39 | Every system call of every process, of the network or not, keeps the stream invariant. |
| `Pipeline.PipelineStreams` | os/src/user/pipeline.c:24-39 | Under every interleaving, with `k` stages: what the consumer received, then what is in flight, is what was produced with every byte increased by `k` modulo 256; what it received is a prefix of that. |
| `Pipeline.MessagesAreBytes` | os/src/user/producer.c:18-19 | No receive of the network ever asks for more than was sent. |
| `Pipeline.MovesFinish` | os/src/user/pipeline.c:24-39 | Every step that moves a byte brings the network exactly one step closer to having nothing in flight. |
| `Pipeline.PipelineDelivers` | os/src/user/consumer.c:15-27 | When no process can move a byte, the consumer has received all that was produced. |
| `Pipeline.NobodyStops` | os/src/user/pipeline.c:34-36 | With an unsigned `char`, no process ever leaves its loop. |
| `PipelinePrograms.Producer.Turn` | os/src/user/producer.c:18-19 | One turn of the loop is a produce step of the network. |
| `PipelinePrograms.Stage.Poll` | os/src/user/pipeline.c:25-29 | One poll is a poll step of the network. |
| `PipelinePrograms.Stage.Forward` | os/src/user/pipeline.c:31-37 | Increasing, sending and the test for -1 are a forward step of the network. |
| `PipelinePrograms.Consumer.Poll` | os/src/user/consumer.c:15-25 | One poll, and what is printed of it, is a consume step of the network. |
| `Tailq.TailQueue.InsertTail` | mlibc/include/datastructures/stdqueue.h:203-211 | The pointers represent the old nodes with the new one at the end. |
| `Tailq.TailQueue.InsertHead` | mlibc/include/datastructures/stdqueue.h:190-201 | The pointers represent the old nodes with the new one in front. |
| `Tailq.TailQueue.InsertAfter` | mlibc/include/datastructures/stdqueue.h:165-178 | The new node stands right behind the given one. |
| `Tailq.TailQueue.InsertBefore` | mlibc/include/datastructures/stdqueue.h:180-188 | The new node stands right before the given one, without access to the head. |
| `Tailq.TailQueue.Remove` | mlibc/include/datastructures/stdqueue.h:221-237 | The node is taken out, the others stay in order, and its own links are kept. |
| `Tailq.TailQueue.Concat` | mlibc/include/datastructures/stdqueue.h:104-113 | The second queue's nodes follow the first's, and the second is empty. |
| `Tailq.TailQueue.Init` | mlibc/include/datastructures/stdqueue.h:159-163 | An empty queue whose tail addresses its own first pointer. |
| `Tailq.TailQueue.RemoveMatching` | os/src/kernel/scheduler.c:79-98 | Removing matches inside the traversal, stepping on from the removed node, leaves exactly the other nodes, in order. |
| `Tailq.UnmatchedIsWithout` | os/src/kernel/scheduler.c:79-98 | On a queue of pids that is the removal the scheduler model uses. |
| `Strings.CutoffIsExact` | mlibc/src/stdstring.c:188-207 | The test against `cutoff` and `cutlim` is exactly the test whether the next digit takes the value past the limit. |
| `Strings.AccumulatedNext` | mlibc/src/stdstring.c:191-207 | A round of the loop keeps the accumulator equal to the value of the digits read, without wrapping, or records that it is out of range for good. |
| `Strings.Strtol` | mlibc/src/stdstring.c:137-216 | Returns the signed value of the longest digit run, clamped to 32 bits, and the end of that run, or 0 and the start when there is no digit; never reads past the terminator. |
| `Strings.PrefixNeedsDigits` | mlibc/src/stdstring.c:157-216 | After a prefix nothing is consumed, not even its 0, if and only if no digit of the base follows. |
| `Strings.Reverse` | mlibc/src/stdstring.c:52-61 | The text up to its terminator is reversed in place, the rest of the buffer stays. |
| `Strings.IntToStr` | mlibc/src/stdstring.c:32-50 | The buffer holds the decimal text, terminated, within 12 bytes; for the least number it holds `-(`. |
| `Strings.WrittenReadsBack` | mlibc/src/stdstring.c:32-216 | Reading back the written text gives the number and ends at the terminator, if and only if the number is not the least one. |
| `HexCodec.HexRoundTrip` | os/src/device/PL011.c:31-40 | What the kernel writes as hexadecimal the emulator decodes to the same bytes. |
| `DiskServer.WriteLineParses` | test/disk.py:23-37 | The line of a write request is taken apart into the address and the data that were sent. |
| `DiskServer.ReadLineParses` | test/disk.py:43-56 | The line of a read request is taken apart into the address that was sent. |
| `DiskServer.WriteIsServed` | test/disk.py:98-118 | A write request writes the data at the block's place in the file, or fails past the last block and changes nothing. |
| `DiskServer.ReadIsServed` | test/disk.py:98-118 | A read request is answered with the block's bytes, or fails past the last block. |
| `DiskServer.AnswerIsWholeIffFileIs` | test/disk.py:43-56 | The answer to a valid read is as long as the kernel expects if and only if the file holds the whole block. |
| `DiskServer.ShippedFile` | test/Makefile:2-13 | On the disk file as it is made and announced, a block can be read if and only if it is one of the first 2048 of 8192. |
| `DiskFile.LoadedIffHeld` | os/src/kernel/file.c:190-199 | The reads that loading a cluster makes are all answered whole if and only if the file holds all its sectors; of the clusters that the boot sector counts, exactly those of the volume as far as the file holds it. |
| `DiskFile.ShippedClusters` | test/Makefile:2-13 | On the disk file as it is made, a cluster can be loaded if and only if its number is at most 1000. |
| `DiskFile.ShippedAllocation` | os/src/kernel/file.c:505-512 | There the allocating loop can load the first free cluster if and only if it is a cluster of the volume as the file holds it. |
| `DiskDriver.Uart.DiskWr` | os/src/device/disk.c:72-92 | The file is written once, or not at all past the last block after three failures; both streams are fully consumed either way. |
| `DiskDriver.Uart.DiskRd` | os/src/device/disk.c:94-114 | The buffer gets the block, or stays as it is past the last block after three failures; both streams are fully consumed either way. |
| `DiskDriver.Uart.AddrPuth` | os/src/device/disk.c:3-8 | Emits the four bytes of the address, lowest first, in hexadecimal. |
| `DiskDriver.Uart.DataGeth` | os/src/device/disk.c:16-20 | Reads exactly the bytes that were encoded and leaves the rest of the stream. |
| `DiskDriver.FileHoldsBlocks` | os/src/device/disk.c:72-114 | A file that holds the blocks end to end is written and read like the blocks: the driver is the disk the file system is proved on. |
| `DiskDriver.ReadAfterWrite` | os/src/device/disk.c:72-114 | A block written reads back as written, and every other block reads as before. |

## Left out

Contracts that ask more of the caller, or say less, than the source could:

- FatFiles.WriteToFile: from an offset behind the chain, is about requests that stay within one cluster, and about longer ones when the place read for the end mark is in a cluster and holds no cluster number, and the first free entry has a cluster; with first cluster 0 or 1, about requests that stay within one cluster, when that is in the root directory.
- FatTable.FileSystem.LoadCluster: on a disk that holds fewer sectors than the emulator announces, is about the calls that return; for sectors that are announced and not held the kernel waits forever (`LoadedIffHeld`).
- FatTable.FileSystem.WriteCluster: is about the calls that return, in the same sense.
- FatTable.FileSystem.SetSuccessorCluster: of numbers that the FAT has no entry for, is about those whose place is in a cluster; others overwrite the second FAT, the root directory or what lies behind the clusters.
- FatFiles.ReadFromFile: from an offset behind the chain, is about requests that stay within one cluster, and does not say what the bytes are: the buffer's memory as it was allocated.
- FatOpenFiles.SysWrite: requires the write to fit the clusters that exist, to stay within one cluster from behind the chain, and a first cluster from 2 on; what stranded, lost and misplaced bytes do is stated at `WriteToFile`.
- FatOpenFiles.SysRead: has the limits of `ReadFromFile`.
- FatTree.CreateKeeps: is about free entries that have a cluster, and directories with a space; `CreateKeepsIffSpace` says what happens without a space, `CreatedIsStored` without a cluster.
- FatTree.CreateKeepsIffSpace: is about directories kept in chains that a walk gets to the end of; for the root directory see `AddRootDirectoryEntry`.
- FatDirectoryIO.GetRootDir: requires one reserved sector, as line 597 assumes.
- DiskDriver.Uart.DiskRd: requires the emulator's file to hold the block, as otherwise the kernel waits for characters that never come, and an address below 2^31, since the emulator reads it as signed.
- DiskDriver.Uart.DiskWr: requires an address below 2^31, and a buffer of the block's length, as all callers have it.
- DiskServer.WriteLineParses: requires an address below 2^31, as do `ReadLineParses`, `WriteIsServed` and `ReadIsServed`.
- Ipc.MessageQueue.ReceiveFrom: requires that no more is asked for than was sent; the copy would run past the message.
- Ipc.MessageQueue.ReceiveAny: requires the same.
- SchedulerRoutines.Scheduler.Exit: requires another queued process; without one the scheduler looks up pid -1 and copies from a null pointer.
- SchedulerRoutines.Scheduler.Kill: requires another queued process and that the pid exists, for the same reason.
- Pipeline.StepStreams: of processes outside the network, is about calls that do not send to or receive for one of it (`Enabled`).
- Pipeline.PipelineStreams: has the same condition.
- SchedulerRoutines.Scheduler.SetProcessPriority: carries no guard, and the invariant (`ApplyKeeps`) covers it for queued pids only; a blocked pid would be queued while it is blocked.
- SchedulerRoutines.Scheduler.Fork: stands for the scheduler's state only; the copy of the stack frame and the patching of the frame pointers at lines 324-340 change user memory, which is not modelled.
- PipelinePrograms.Producer.Turn: sends the first byte of the argument, as the program does; it is the network's step `Produce`, and so the theorems about the network, that allow any byte.

Parts of the repository without a model:

- Splitting and resolving paths, relative names, `sys_chdir`, `sys_getcwd`, `sys_stat`, `sys_lseek`, `sys_open`, `sys_close`: operations start from the directory and slot that the path has led to.
- String terminators in name buffers: names are byte sequences of at most eight and three bytes.
- The second copy of the FAT, timestamps, volume label and serial number, which the code reads or keeps but never updates.
- Geometries the code does not work for: sectors that are no multiple of 32 bytes, clusters above 65536 bytes, root entries that do not fill whole sectors, more than 0xfff0 FAT entries, 65536 or more sectors, 32768 or more root entries, no cluster at all; and requests of 2^31 bytes or more.
- `disk_get_block_num` and `disk_get_block_len`: the same exchange as a read, with a fixed answer.
- `load_file` and everything named `debug`.
- The dispatcher of system calls and interrupts: its writes to register 0 of the current context are covered by the step `User`, which may set that context to anything.
- `stdmem`: allocation always succeeds with fresh memory. Nothing is ever freed by the original.
- The serial line's flow control, the console, the shell and its commands, start-up code and interrupt controllers.
- Endless loops: the programs of the pipeline are modelled one turn at a time.
