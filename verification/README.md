# archive2sqfs, modelled and proved in Dafny

archive2sqfs reads an archive and writes a SquashFS 4.0 image. This project models the whole way
from the members of an archive to the finished bytes of the image, and a reader that is given
those bytes and nothing else. The main result says exactly when the reader finds, at every path,
what the archive put there last, and nothing at any other path: if and only if no path left by the
archive has an empty component and there are at most 65535 distinct owners
(`ArchiveRoundTrip.ArchiveReadsBackIff`, and for the imperative program
`ArchivePacker.PackArchive`). The image is the same byte for byte for every interleaving of the
two threads (`Reproducibility.ImageIsReproducible`, `Reproducibility.ArchiveUnderAnySchedule`).

The theorems hold for every compressor that unpacks what it packed, every checksum, every block
size up to 2^20, and deduplication on or off.

How the parts build on each other:

- **File data.** `FileCuts` cuts appended bytes into blocks and tails; `Fragments` packs tails
  and deduplicates them; `PendingWrites` says what each queued write does to an output file whose
  position can be moved back without truncating anything; `RollbackSafety` proves the layout of
  live extents under every write; `BlockDedup` and `LiveExtents` draw the consequences for whole
  histories; `DataRoundTrip` reads every file back. `FragmentPacking` bounds the fragments that
  tails need, and `Storage` says what everything takes once compressed. `SqshWriters` and
  `PackFiles` are the same as classes and methods that change fields in place, proved against
  those functions.
- **Two threads.** `BoundedQueue` is the queue, `TwoThreads` the client and the writer as a state
  machine over critical sections with explicit sleeping flags, and any schedule, spurious wakeups
  included. `ScheduleIndependence` has the invariant, `ThreadTermination` the measure,
  `Reproducibility` the consequences.
- **Metadata.** `Endian`, `Records`, `Metadata`, `IndexedTables`, `Directories`, `Inodes`, `Ids`
  and `Superblocks` each have the writer as it runs and a reader written as plain functions.
  `Trees` and `TreeRoundTrip` put inodes and listings together by induction on the tree;
  `TreeWriters` builds the records field by field; `HeaderCounts` bounds the entries under one
  directory header. `RecordLayout` and `HeaderLayout` give every record and the superblock byte by
  byte, in the numbers of the format's description, through the plain accessors of `FormatBytes`.
- **The path tree.** `PathModel` is a map from component lists to nodes; `PathTrees` is the tree of
  heap objects, changed in place, with every method proved to do to the map what the model says.
- **The image.** `Images` lays out data, tables, superblock and padding, and has the reader;
  `ImageRoundTrip`, `PackImages`, `Archives`, `ArchiveContents`, `ArchiveRoundTrip` and
  `ArchivePacker` bring everything together. `EmptyNames` and `ArchiveOwners` have the two halves
  of the condition under which an archive reads back; `ImageSizes` shows from the lengths of names,
  targets and data that every table fits its fields, and `EmptyArchive` is the smallest instance.

Two points where the code does not keep what is expected of it, each with the exact condition:

- A file whose path ends in a slash gets an empty name. It is packed without complaint, and no
  reader of any image finds it (`EmptyNames.EmptyNameIsNeverShown`, with the archive of one file
  `d/` in `EmptyNames.TrailingSlashIsLost`). It does no harm when a later member replaces it
  (`ArchiveRoundTrip.ArchiveReadsBackIff`, `PathModel.TargetIff`,
  `Directories.ListingReadsBackIff`).
- The count of owners in the superblock is 16 bits wide and not checked. With 65536 distinct uids
  and gids it is stored as 0 and nothing reads back (`ImageRoundTrip.OwnersAllLost`); with more,
  the owner indices wrap too and the first owner is lost (`ImageRoundTrip.WholeImageReadsBackIff`,
  `Images.LoadedIdsIff`). The two maps in memory alone hold one owner more
  (`Ids.OwnersResolveIff`).

## Model

| member | source | states |
|---|---|---|
| ArchiveRoundTrip.ArchiveReadsBackIff | archive2sqfs.cc:111-171 | for any archive whose sizes the format can express, reading the image from its bytes succeeds and shows at every path of the map model, and at no other, type, mode, owners, time, inode number, parent number, link count (1, or for a directory 2 and the number of directories right below it), no attributes, link target, device number, and for a file the data of the last member put there, if and only if no live path has an empty component and the live nodes have at most 65535 distinct owners |
| ArchiveRoundTrip.SmallArchivesReadBack | archive2sqfs.cc:111-171 | the same from conditions on the archive alone: summed names, targets, data lengths and member count below fixed bounds, few enough owners and no empty name |
| ArchiveRoundTrip.ArchiveOwnersCounted | sqsh_writer.cc:260-272 | the image's owners can be counted in 16 bits exactly when the set of uids and gids of the nodes the archive leaves has at most 65535 elements; replaced nodes do not count |
| EmptyNames.EmptyNameIsNeverShown | dirtree_dir.cc:43-46 | whatever bytes a reader is given, it never shows an archive that leaves a path with an empty component |
| EmptyNames.TrailingSlashIsLost | dirtree_dir.cc:43-46 | the archive of one regular file with path `d/` leaves a node at `d` followed by an empty name, raises no error over a long name, and no bytes whatever show it |
| ArchiveContents.EveryNameGiven | dirtree_dir.cc:29-47 | no live path has an empty component if no member but a directory has a path that is empty or ends in a slash |
| ArchivePacker.PackArchive | archive2sqfs.cc:108-171 | the program on one thread, with heap tree and output file changed in place: it fails exactly when some live path has a component of more than 255 bytes, else its output is the image of the archive, and, sizes fitting, a reader of it sees the archive at every path exactly when no live path has an empty component and there are at most 65535 owners |
| ArchivePacker.AddMember | archive2sqfs.cc:113-166 | one archive member takes tree, pipeline and history from those of the members so far to those of one member more |
| ArchivePacker.WriteArchive | archive2sqfs.cc:169-171 | after the data is finished: walk, tables and superblock give the image of what tree and pipeline hold |
| ArchivePacker.WriteInode | dirtree_write.cc:180-246 | walking the heap tree, children before their directory, writes the inode and directory streams of the tree model for the node's whole subtree and returns its address, or fails over a long name |
| ArchivePacker.WriteEntries | dirtree_write.cc:191-192 | the entries returned are those below the directory, each once, in dictionary order of unsigned bytes, each with the address its inode was given |
| ArchivePacker.NamesFitIff | dirtree_write.cc:76-77 | the walk succeeds if and only if no path below the node has a last component of more than 255 bytes |
| ArchiveContents.LookupFinds | dirtree_dir.cc:29-58 | following names in what the reader sees finds the model's node at that path, and nothing where the model has none |
| ArchiveContents.DirLinks | dirtree_write.cc:91-102 | the subdirectories counted in a directory's listing are exactly the live directories whose parent path it is |
| ArchiveContents.FilesAreDistinct | sqsh_writer.h:118 | while 32-bit numbers last, no two files of an archive get the same inode number |
| Archives.LastPutWins | dirtree_dir.cc:40-47 | after any members, a node that is not a directory is the one of the last member with its path, and no later member has that path |
| Archives.DirMetaFrom | dirtree.h:55-61 | after any members, a directory has mode, owners and time of the last directory entry for its path since it was made, else those a directory is made with |
| Archives.EntriesInOrder | dirtree_write.cc:104-106 | a directory lists exactly its entries, and of two names the earlier ends or has the smaller byte where they first differ |
| Archives.LessIffPrecedes | dirtree.h:138 | the order used for sorting is dictionary order: equal up to some byte, then the end or a smaller byte |
| EmptyArchive.EmptyArchiveShowsRoot | archive2sqfs.cc:108-171 | an archive without members meets every condition of the main theorem, and a reader of its image finds the root, inode 1, and no other path |
| Reproducibility.ImageIsReproducible | README.md:22 | two complete runs of client and writer, under any schedules and queue bounds, give the same image byte for byte, the one of a single thread |
| Reproducibility.EveryScheduleReadsBack | sqsh_writer.cc:322-350 | after any complete run of the two threads the image reads back with the whole tree and all file data, exactly when there are at most 65535 owners |
| Reproducibility.ArchiveUnderAnySchedule | sqsh_writer.cc:322-350 | after any complete run of the two threads over an archive's files, what is packed is what one thread packs, and its image shows the archive under the same exact condition |
| Reproducibility.NobodyOversleeps | bounded_work_queue.h:42-67 | in every reachable state no thread sleeps on a predicate that holds (pop, push, fragment entry), and until the client is done some thread can run |
| ImageRoundTrip.WholeImageReadsBackIff | sqsh_writer.cc:128-258 | for any files and any tree over them, the reader recovers the tree, all metadata, owners, link counts, parents, listings and every file's data from the finished image, if and only if the distinct owners are at most 65535 |
| ImageRoundTrip.ImageReadsBack | sqsh_writer.cc:128-258 | with any number of owners, what the reader gets is the whole tree with its data, each owner as the ids it loaded have it, or nothing when an index points past those |
| ImageRoundTrip.OwnersAllLost | sqsh_writer.cc:141 | with exactly 65536 distinct owners the 16-bit count is stored as 0 and the reader gets nothing |
| ImageRoundTrip.OwnersAreListed | sqsh_writer.cc:260-272 | the id table holds exactly the uids and gids of the tree's nodes, each once |
| Images.LoadedIdsIff | sqsh_writer.cc:141 | through as many ids as the superblock's 16-bit count says, every owner is found again under its 16-bit index if and only if there are at most 65535 |
| ImageSizes.SmallImagesFit | sqsh_writer.cc:185-258 | when names, targets, data lengths and file count add up to less than fixed bounds, every table and position of the image fits its field |
| ImageSizes.DataBound | pending_write.cc:25-47 | the data area is at most the superblock and all bytes of all files, and there are at most as many fragments as files |
| ImageRoundTrip.FinishedHolds | sqsh_writer.cc:154-162 | whatever stale bytes lie past the position, the finished image has the superblock in front, the data area unchanged, the tables behind it |
| ImageRoundTrip.PaddingIs | sqsh_writer.cc:154-162 | behind the tables the image goes on to the next multiple of 4096, with stale bytes where the file was longer and zeros past that |
| ImageRoundTrip.HeaderTells | sqsh_writer.cc:128-163 | the header of the finished image holds the next inode number less one, the position after the tables as bytes used, and the file is the next multiple of 4096 past that |
| ImageRoundTrip.IdsRead | sqsh_writer.cc:222-227 | reading the id table through its index gives every uid and gid in the order of their indices |
| ImageRoundTrip.FragmentsRead | sqsh_writer.cc:212-234 | reading the fragment table through its index gives every fragment's position and size word |
| ImageRoundTrip.RecordsFit | dirtree_write.cc:154-178 | every start, size word, fragment number and offset the pipeline leaves fits its inode field |
| Superblocks.SuperReadsBack | sqsh_writer.cc:128-152 | the superblock takes 96 bytes and every field of it reads back, the root address split from one 64-bit word |
| HeaderLayout.ImageStartsWith | sqsh_writer.cc:128-152 | every image starts with the bytes of "hsqs", no time, no flags, version 4.0, all ones for the attribute and export tables, and each other field at its place |
| HeaderLayout.HeaderNumbers | sqsh_writer.cc:128-258 | the fields of the superblock: inodes given out, block size, fragment and owner counts, root reference, and the four tables one after the other behind the data up to the bytes used |
| Superblocks.WriteSuper | sqsh_writer.cc:130-152 | the header built field by field is the encoded superblock, whose bytes are those of HeaderLayout.SuperInPlace |
| HeaderLayout.SuperInPlace | sqsh_writer.cc:130-152 | the encoded superblock has its fixed bytes and its fields, low-order byte first, at the places of the format |
| PackImages.WriteTables | sqsh_writer.cc:246-258 | the four tables follow each other from the position on, each index after its table, with the start positions recorded |
| PackImages.PutIndexed | sqsh_writer.cc:206-209 | table, then index, at the position, the recorded start being that of the index |
| PackImages.WriteHeader | sqsh_writer.cc:154-162 | the superblock overwrites the front, and the file is resized to the next multiple of 4096 past the position |
| PackImages.FinishImage | dirtree_write.cc:248-255 | ending both streams, writing tables and superblock turns data file and finished walk into the image |
| PackImages.BuildFragmentRecord | sqsh_writer.cc:212-220 | a fragment's entry: position, size word, an unused word |
| PackImages.BuildIdEntries | sqsh_writer.cc:222-227 | one entry per used index, holding the id last given that index |
| DataRoundTrip.EveryFileReadsBack | dirtree_reg.cc:28-65 | for any files with distinct inodes, each reads back from any image with the same data area as exactly the bytes appended, and its record has as many size words as a reader will take: floor(size / block) with a fragment, ceil without |
| DataRoundTrip.FilesKeepInv | sqsh_writer.cc:93-107 | any row of files leaves a well-ordered history of writes and a place for every tail that holds it |
| DataRoundTrip.IndicesNeverMove | sqsh_writer.cc:101-103 | a place once given to a tail is the same after any later files |
| DataRoundTrip.WhereFileWent | dirtree_reg.cc:33-39 | a file shorter than a block is one tail and no blocks, a longer one blocks and no tail, an empty one neither |
| DataRoundTrip.WhatARecordSays | dirtree_write.cc:157-158 | an empty file records nothing, one shorter than a block a place inside a fragment and no blocks, a longer one its blocks and the mark 0xffffffff for no fragment |
| DataRoundTrip.BlocksInPlace | dirtree_reg.cc:28-65 | block k sent for a file of at least one block is the file's bytes from k block sizes on, a whole block for all but the last |
| PackFiles.PutFile | archive2sqfs.cc:120-140 | creating, appending in any pieces and finalizing a file asks of the pipeline what the whole file's bytes ask for |
| PackFiles.FinishData | sqsh_writer.cc:343-350 | after all files the open fragment is flushed and nothing else is left |
| FileCuts.ChunkingInvariance | dirtree_reg.cc:49-65 | however the bytes are split into appends, the calls are those of the whole file: nothing, one tail, or blocks and one deduplication |
| FileCuts.AppendsAccumulate | dirtree_reg.cc:49-65 | after any appends, state and block calls depend only on the concatenated bytes |
| SqshWriters.DirtreeReg.Append | dirtree_reg.cc:49-65 | the buffering loop leaves the state and makes the calls of appending the bytes at once |
| SqshWriters.DirtreeReg.Flush | dirtree_reg.cc:28-40 | nothing, a tail or a block, by what is buffered and whether a block was already sent |
| SqshWriters.DirtreeReg.Finalize | dirtree_reg.cc:42-47 | the closing calls: the rest, then one deduplication if any block was sent |
| SqshWriters.SqshWriter.PutFragment | sqsh_writer.cc:93-107 | packing a tail, reading fragments back from the live file, does what a client does that remembers them, keeps every earlier place valid, and sends nothing when the tail fits the open fragment |
| SqshWriters.SqshWriter.DedupFragmentIndex | sqsh_writer.cc:57-80 | the backward search over flushed and open fragments returns the latest place that holds the tail, else files the inode |
| SqshWriters.SqshWriter.DedupFragment | sqsh_writer.cc:82-91 | on a hit the inode gets that place and the buffer is dropped; on a miss nothing but the filing changes |
| SqshWriters.SqshWriter.FoundAt | sqsh_writer.cc:39-55 | a place holds the tail exactly when the fragment, unpacked from the file or still open, has it at that offset |
| SqshWriters.SqshWriter.HandleFragment | pending_write.cc:25-37 | a fragment is appended, and its position and size word entered in the table |
| SqshWriters.SqshWriter.HandleBlock | pending_write.cc:39-47 | a block is appended and its size word added to the report, whose start is set by the first block |
| SqshWriters.SqshWriter.HandleDedup | pending_write.cc:49-62 | the search over the bucket rewinds over the inode's blocks and shares the first equal report, or files the inode |
| SqshWriters.SqshWriter.ReadBytes | sqsh_writer.cc:274-287 | reading moves the shared position and restores it |
| SqshWriters.SqshWriter.FlushFragment | sqsh_writer.cc:33-37 | the open fragment is sent and counted, or nothing happens when it is empty |
| SqshWriters.SqshWriter.EnqueueFragment | sqsh_writer.cc:295-303 | one more fragment in the history, one more in the count, none open |
| SqshWriters.FlushedReadsBack | sqsh_writer.cc:46-55 | the k-th flushed fragment is the k-th entry, lies inside the file, and unpacks to what it was when flushed |
| RollbackSafety.WriterInvHolds | pending_write.cc:25-62 | after any well-ordered history the live extents tile the file from the superblock to the position, and every fragment and report holds exactly what was sent |
| RollbackSafety.ShareLayout | sqsh_writer.cc:289-293 | rewinding by the length of the open run ends exactly where that run began, with all other extents in place |
| RollbackSafety.SameContentMeansSameBlocks | block_report.h:44-49 | two reports compare equal if and only if their inodes were sent the same blocks |
| RollbackSafety.FindSameFinds | pending_write.cc:54-60 | the search returns an equal candidate if there is one |
| LiveExtents.LiveExtentsAreApart | pending_write.cc:31-62 | after any well-ordered history, deduplication on or off: two inodes' reports are the same or cover no common byte, no report meets a fragment, no two fragments meet, and all lie below the position |
| LiveExtents.EveryReportIsOwned | pending_write.cc:49-62 | after any well-ordered history every report has an extent of its own in the layout or equals that of a closed inode that has one; with deduplication off every report has its own |
| BlockDedup.NothingLiveIsOverwritten | sqsh_writer.cc:289-293 | one more write, rewinding included, leaves every fragment and every closed report with its position and bytes |
| BlockDedup.BlockDedupIsComplete | pending_write.cc:49-62 | with the one bucket the code has, no two kept inodes have equal blocks, and every closed inode shares the report of a kept one with the same blocks |
| BlockDedup.SpaceIsConserved | pending_write.cc:49-62 | with deduplication on, between files the position minus 96 is the stored length of all fragments plus that of exactly the kept inodes |
| Storage.SpaceInFull | pending_write.cc:25-62 | with deduplication, between files: the data area is the sum, over fragments and over the blocks of the kept inodes, of the smaller of packed and plain length |
| Storage.SpaceWithoutDedup | pending_write.cc:25-47 | without deduplication the position is 96 and that smaller length for everything sent |
| Storage.PositionMoves | pending_write.cc:25-47 | one fragment or block moves the position by the smaller of its packed and plain length |
| Fragments.PutFragmentKeepsInv | sqsh_writer.cc:93-107 | a tail gets a place that holds it, all earlier places stay valid and unchanged, and at most the open fragment is flushed |
| Fragments.WhereATailGoes | sqsh_writer.cc:93-107 | a tail already held goes nowhere; one that fits goes behind what the open fragment has; otherwise that fragment is sent and the tail starts the next one at offset 0 |
| Fragments.RoomMeansNoFlush | sqsh_writer.cc:98-99 | when open fragment and tail together fit a block, nothing is sent |
| FragmentPacking.FragmentsArePacked | sqsh_writer.cc:93-107 | over any files, two fragments in a row together hold more than a block; all hold at most the bytes of the files shorter than a block, exactly those without deduplication; so half their number times a block is less than those bytes |
| Fragments.SearchTakesLatest | sqsh_writer.cc:63-76 | of several places that hold the tail the one filed last is taken |
| Fragments.SecondCopyHits | sqsh_writer.cc:57-91 | a tail put a second time always hits, emits nothing, adds nothing to the fragment, and gets a place that holds it |
| Fragments.SearchFinds | sqsh_writer.cc:63-76 | the search hits exactly when some candidate's place holds the tail |
| Fragments.FlushKeepsHeld | sqsh_writer.cc:295-303 | a place in the open fragment stays valid when that fragment is flushed under the number it had |
| BlockReports.RangeEqual | fstream_util.h:41-56 | comparing ranges chunk by chunk answers whole-range equality for every length |
| BlockReports.ComputeRangeLen | block_report.h:34-40 | the loop sums the stored lengths with bit 24 cleared |
| BlockReports.RunInjective | block_report.h:42-49 | equal size words over equal stored bytes come from equal block lists |
| BlockReports.ReadBlocksInverts | pending_write.cc:39-47 | reading consecutive stored blocks under their words gives the blocks back in order |
| Compressors.BlockRoundTrip | compressor.h:105-118 | a block unpacks from what is stored under its size word, whose length part is the stored length and which is never 0 |
| Storage.StorageRule | compressor.h:105-118 | a nonempty block is stored packed if and only if that is shorter, bit 24 of its size word is clear exactly then, and the stored length is the smaller of both |
| Storage.HeaderRule | metadata_writer.cc:27-48 | a metadata block is packed exactly when that is shorter; its two header bytes hold the stored length and have bit 15 clear exactly then |
| Storage.TableCost | metadata_writer.cc:50-73 | a table takes, per 8192 bytes of its stream, two bytes and the smaller of packed and plain length |
| BoundedQueue.SectionsKeepWakeups | bounded_work_queue.h:42-67 | push, pop and finish never leave a sleeper whose predicate holds, and the queue never exceeds its bound |
| BoundedQueue.BoundedWorkQueue.PushSection | bounded_work_queue.h:42-48 | a push fails and puts its caller to sleep exactly when as many elements as the bound are sent and not yet received; else the element is received after all those sent before, and a sleeping receiver wakes; order, bound and the absence of vain sleepers are kept |
| BoundedQueue.BoundedWorkQueue.PopSection | bounded_work_queue.h:50-60 | the element received is the oldest one sent and not received; the end comes exactly when the queue is finished and everything sent has been received; else the caller sleeps; a sleeping sender wakes when there is room |
| BoundedQueue.BoundedWorkQueue.FinishSection | bounded_work_queue.h:62-67 | finishing wakes a sleeping receiver and loses nothing that was sent and not received |
| ScheduleIndependence.ScheduleDoesNotMatter | sqsh_writer.cc:322-350 | under any schedule, when the client is done its indices, the history, file, fragment table and reports are those of the single thread and the queue is empty |
| ScheduleIndependence.ReachableInv | sqsh_writer.cc:109-126 | in every reachable state the rest of the client's program, run alone, leads to the same end, although it reads fragments the writer is still to enter |
| ScheduleIndependence.FragmentsReadBack | sqsh_writer.cc:57-80 | whenever the client reads a fragment's bytes under any schedule, it gets what it sent |
| ScheduleIndependence.FragmentsAreConserved | sqsh_writer.cc:295-303 | at every moment entries in the table plus fragment writes in hand and queued add up to the fragment count |
| ScheduleIndependence.SomeoneCanRun | sqsh_writer.cc:330-350 | no deadlock: until the client is done the client or the writer can run |
| ThreadTermination.StepsAreBounded | bounded_work_queue.h:42-67 | in any schedule the number of steps is bounded by a measure of the start plus twice the spurious wakeups |
| ThreadTermination.EveryRunCanFinish | sqsh_writer.cc:343-350 | from every reachable state the run can be brought to its end, both threads done |
| Endian.DecEnc | endian_buffer.h:36-58 | the fields of any record read back in little-endian order, whatever follows |
| Endian.EndianBuffer.L16 | endian_buffer.h:36-40 | appends the two bytes of the value |
| Endian.EndianBuffer.L16At | endian_buffer.h:42-46 | overwrites two bytes in place and no others |
| Endian.EndianBuffer.L32 | endian_buffer.h:48-52 | two 16-bit halves are the four bytes of the value |
| Endian.EndianBuffer.L64 | endian_buffer.h:54-58 | two 32-bit halves are the eight bytes of the value |
| Metadata.PutReadsBack | metadata_writer.cc:57-76 | bytes put at any point of a stream are read back from the address handed out then, across block boundaries, from any finished table of a longer stream |
| Metadata.EveryBlockIsWhole | metadata_writer.cc:27-55 | every block of a table unpacks to 8192 bytes of the stream, and the next block follows it |
| Metadata.ChunksReadBack | metadata_writer.cc:27-48 | any range inside a run of stored blocks is read across as many blocks as it takes |
| Metadata.PaddedIsWhole | metadata_writer.cc:50-55 | ending a stream adds zeros up to the next multiple of 8192, one byte at least, so that an empty buffer still gives a whole block |
| Metadata.MetadataWriter.Put | metadata_writer.cc:57-76 | the loop returns the address of the first byte, extends the stream by the bytes, and leaves the buffer below 8192 |
| Metadata.MetadataWriter.WriteBlock | metadata_writer.cc:50-55 | emits the buffer padded to a full block and empties it |
| Metadata.MetadataWriter.WriteBlockNoPad | metadata_writer.cc:37-48 | emits the buffer as it is, or nothing when it is empty |
| IndexedTables.EveryEntryIsFound | sqsh_writer.cc:185-210 | every entry of a table is found through the index word of its block and its offset in that block |
| IndexedTables.IndexShape | sqsh_writer.cc:193-201 | the index has exactly ceil(count / entries per block) words, each the position of its block |
| IndexedTables.WholeBlocks | sqsh_writer.cc:203-204 | entries are left in the buffer exactly when their number is not a multiple of a block's |
| IndexedTables.WriteIndexedTable | sqsh_writer.cc:185-210 | the loop and the last flush give the table of all entries and its index |
| Directories.ListingReadsBack | dirtree_write.cc:39-107 | parsing a listing gives back every entry in order: name, inode address, type and the full inode number from the sign-extended difference |
| Directories.ListingReadsBackIff | dirtree_write.cc:76-84 | among listings the writer accepts, exactly those without an empty name read back |
| Directories.EmptyNameIsLost | dirtree_dir.cc:43-46 | the root's listing for an archive of one file with path `/`, one empty name with inode 2, does not read back |
| Directories.SegmentIsMaximal | dirtree_write.cc:33-57 | every entry of a segment is in its header's block with a number less than 0x7fff above and less than 0x8000 below the header's, and a segment ends only at an entry that is not |
| RecordLayout.ListingInPlace | dirtree_write.cc:60-107 | a listing is a header with the first entry's block and number and the count less one, that many entries, and the listing of the rest |
| RecordLayout.EntryInPlace | dirtree_write.cc:82-87 | an entry's bytes: offset, signed 16-bit difference, number of the basic type, length less one, name |
| HeaderCounts.HeaderCount | dirtree_write.cc:51-72 | the entries under one directory header are so few that all their records but the last fit one block of 8192 bytes; with records of 32 bytes or more they are at most 256 |
| HeaderCounts.SmallestRecord | dirtree_write.cc:109-246 | every inode record takes at least 20 bytes, those of files, directories and of links with targets of 8 bytes or more at least 32 |
| Directories.WriteSegment | dirtree_write.cc:60-94 | writes header and entries of the maximal segment, counts its subdirectories, fails at a name over 255 bytes |
| Directories.WriteDirtable | dirtree_write.cc:96-107 | writes the listing, records its address, its length plus 3, and 2 plus the number of subdirectories |
| Inodes.InodeReadsBack | dirtree_write.cc:109-246 | whoever can read a record's bytes from its address reads the head and every field back, basic or extended form, with the tail the fields call for |
| Inodes.TailReadsBack | dirtree_write.cc:121-127 | the length of the tail follows from the fields, and fields and tail determine the record |
| RecordLayout.HeadInPlace | dirtree_write.cc:109-119 | the sixteen bytes every inode starts with |
| RecordLayout.RegInPlace | dirtree_write.cc:154-187 | a file's inode byte by byte with its size words, basic exactly when start and size are at most 0xffff, with one link and no attributes |
| RecordLayout.DirInPlace | dirtree_write.cc:129-152 | a directory's inode byte by byte, basic exactly when the size fits 16 bits without attributes |
| RecordLayout.SymInPlace | dirtree_write.cc:201-217 | a link's inode byte by byte, its target behind the target's length |
| RecordLayout.DevInPlace | dirtree_write.cc:219-232 | a device's inode byte by byte |
| RecordLayout.IpcInPlace | dirtree_write.cc:234-246 | a pipe's or socket's inode byte by byte |
| RecordLayout.FragmentInPlace | sqsh_writer.cc:212-220 | a fragment's entry byte by byte |
| TreeWriters.TreeWriter.InodeCommon | dirtree_write.cc:109-119 | the common head, uid looked up before gid |
| TreeWriters.BuildReg | dirtree_write.cc:154-178 | the fields of a regular file, extended exactly when one does not fit the basic form |
| TreeWriters.BuildDir | dirtree_write.cc:129-152 | the fields of a directory, extended exactly when the listing size or an attribute demands it |
| TreeWriters.BuildSym | dirtree_write.cc:201-217 | link count, length, target, then an attribute word or the patched type |
| TreeWriters.BuildDev | dirtree_write.cc:219-232 | link count and device number, then an attribute word or the patched type |
| TreeWriters.BuildIpc | dirtree_write.cc:234-246 | link count, then an attribute word or the patched type |
| TreeWriters.BuildSizes | dirtree_write.cc:121-127 | the size words of a file, one after the other |
| TreeWriters.TreeWriter.WriteLeaf | dirtree_write.cc:180-187 | a leaf's record is put whole and its address is where it starts |
| TreeWriters.TreeWriter.WriteDir | dirtree_write.cc:194-198 | listing first, then the inode that points to it |
| TreeRoundTrip.NodeReadsBack | dirtree_write.cc:180-246 | from the address of its inode, any node's subtree reads back from the finished tables: names, types, modes, times, targets, records, parents, link counts, and each owner as whatever ids the reader holds have it under the stored index; every listing agrees with the inodes it points to in type and number |
| TreeRoundTrip.OwnersResolve | dirtree_write.cc:114-115 | the 16-bit indices in an inode resolve through whatever ids the reader holds: to the owners as those have them, or not at all when an index points past them |
| TreeRoundTrip.OwnersAdded | dirtree_write.cc:115-116 | writing a head adds the uid if it is new, then the gid if that is new |
| Ids.OwnersResolveIff | sqsh_writer.cc:260-272 | in the two maps in memory, every id's stored index leads back to it if and only if there are at most 65536 ids |
| Ids.LookupsAgree | sqsh_writer.cc:260-272 | an id's index resolves to it and never changes with later lookups |
| Ids.IdsShape | sqsh_writer.cc:265-266 | ids holds exactly the ids looked up, each under the narrowed count at its first lookup |
| Ids.RidsShape | sqsh_writer.cc:267 | rids holds exactly the used indices and, until they wrap, the id of each |
| Ids.IdTable.IdLookup | sqsh_writer.cc:260-272 | a known id keeps its index, a new one gets the next, narrowed to 16 bits |
| PathModel.PutFileExactly | dirtree_dir.cc:40-47 | a put file is there under the number taken first, its parents are directories, all at and under its path is gone, what was in the way of its parents is a directory, the rest is as before |
| PathModel.PutDirExactly | archive2sqfs.cc:116-118 | a directory entry makes what is missing on its way, keeps existing numbers and entries, and sets the metadata |
| PathModel.EnsureDirsExactly | dirtree_dir.cc:29-38 | asking for a directory adds exactly the missing ones on the way and replaces exactly the nodes in the way |
| PathModel.MadeInOrder | dirtree_dir.cc:29-38 | missing directories get the next numbers, the outermost first, and no number is skipped |
| PathModel.SurvivesIff | dirtree.h:149-153 | a node survives another put if and only if it is not at or under the put path and not a file in the way of it |
| PathModel.NumbersAreDistinct | dirtree.h:45-53 | after any archive, live inode numbers are distinct and between 1 and the last one given, until 32 bits run out |
| PathModel.LiveNodesAreCounted | sqsh_writer.cc:133 | the inode count of the header is never below the number of live nodes; replaced nodes keep theirs |
| PathModel.EveryRunIsRooted | dirtree_dir.cc:29-58 | after any archive the root is a directory and every other node is in one |
| PathModel.TargetIff | dirtree_dir.cc:43-46 | a file goes to its path's components if and only if the path does not end in a slash and is not empty; else under an empty name |
| PathModel.PathSplits | dirtree_dir.cc:29-38 | splitting is at every byte 0x2f, and what lies between two is a component unless it is empty |
| PathTrees.PathTree.SubdirForPath | dirtree_dir.cc:29-38 | splitting at slashes and skipping empty components, the loop over heap nodes does to the map what the model says and returns the node there |
| PathTrees.PathTree.GetSubdir | dirtree_dir.cc:49-58 | returns the directory of that name, or replaces whatever is there by a new one |
| PathTrees.PathTree.PutFile | dirtree_dir.cc:40-47 | the new node, numbered before its parents, ends up at the target path as the model says |
| PathTrees.PathTree.PutDir | dirtree.h:55-61 | the directory found or made is given the metadata in place |
| PathTrees.PathTree.Attach | dirtree.h:149-153 | the child becomes the only thing at its path; what was there and below is no longer reachable, all else is |
| PathTrees.PathTree.NextInodeNumber | sqsh_writer.h:118 | hands out the next number, wrapping at 32 bits |

## Left out

- Compressors.Lawful: zlib and zstd are not modelled; a compressor is any pair with `unpack(pack(x)) == x` within the bound and no empty output for non-empty input, next to the one called "none".
- Checksums: the Adler sum of tails and the one under which block lists are filed are arbitrary functions; completeness of block deduplication is for the single bucket the code has, since `blocked_checksums` is never updated.
- Failures: `writer_failed`, exceptions of the file and of threads, and what remains after them; all runs are free of failures except for a name that is too long.
- ArchivePacker.PackArchive: takes the numbers given out to be at most 2^32, the width of the inode counter; the code does not check it.
- ImageRoundTrip.WholeImageReadsBackIff: needs tables below 4 GiB, positions below 2^64 and a fragment count up to the "none" marker; the code checks none of these. `ImageSizes.SmallImagesFit` gives a sufficient condition on names, targets, data and file count.
- ArchiveRoundTrip.ArchiveReadsBackIff: takes each directory's listing to fit 32 bits with a header for every entry, which is a little stricter than the format, file lengths to be below 2^64, and the numbers given out to be at most 2^32.
- HeaderCounts.HeaderCount: for records of less than 32 bytes (pipes, sockets, devices, links with short targets) the bound is above the 256 entries of the format description; the code sets none, and the reader here takes any count.
- Extended attributes, sparse files and directory indexes, which the program does not support: the attribute word is carried through, the sparse count is 0.
- The archive library, command line, path stripping and messages: an archive is a sequence of members, each with its data in pieces, processed one at a time.
- Threads are sequences of critical sections over the queue, the output file and the fragment table; a wait is a section that goes to sleep and is tried again after waking, and the several reads inside one block deduplication are one step, since only the writer writes.
- Compression jobs run at the point where their result is used; their scheduling cannot be observed.
- File streams: the two stream positions are one, restored after reading; the place of the superblock reads as zeros until it is written; resizing cuts or fills with zeros.
- The size of a regular file is kept beside the tree under its inode number, not in the tree node; inode records are first described as values and then built in buffers.
- ThreadTermination.StepsAreBounded: spurious wakeups are not bounded, so a run's length is bounded only up to twice their number.
