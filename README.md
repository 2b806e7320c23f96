# FAT12 reader engine, modelled in Dafny

This project models the interpretation engine of a small read-only FAT12 image reader
(`FATfs.c`). The engine works on a disk image through a sector reader. It mounts the image
as follows:

- it reads and parses the boot sector;
- it switches the reader to the volume's sector size;
- it loads the File Allocation Table (FAT);
- it derives the volume geometry.

It then answers two kinds of request:

- list a directory (the root region, or a subdirectory following its cluster chain);
- read a file as one buffer per cluster of its chain.

The format follows Microsoft's "FAT: General Overview of On-Disk Format", version 1.03. The
model uses its sections "Boot Sector and BPB", "FAT Data Structure", "FAT Directory Structure"
and "FAT Long Directory Entries".

Modules, one per file:

- `Bytes` (`bytes.dfy`): bytes and unsigned 16/32-bit values as bounded integers, and
  little-endian fields. The C bit operations work on disjoint bit ranges, so they are written
  with `%`, `/`, `*` and `+`.
- `BlockReader` (`block_reader.dfy`): the sector reader. A read is the slice of the image at
  an offset, clipped at the end of the image. It also holds the 32-bit offset conversion and
  the sector-size check.
- `Boot` (`boot_sector.dfy`): parsing of the BIOS Parameter Block fields the engine uses, and
  the derived geometry.
- `FatTable` (`fat_table.dfy`): decoding of 12-bit FAT entries and cluster chains.
- `Directory` (`directory.dfy`): decoding of 32-byte directory slots, and the scan of a
  directory buffer, as a function and as the loop the engine runs.
- `Walk` (`walk.dfy`): what a read of a mounted volume returns, as functions. A run either
  returns a value with the error codes reported on the way, or has no result. No result means
  the engine loops forever or reads out of bounds.
- `FatFs` (`volume.dfy`): the engine's global state as the class `Volume`. Its methods are
  `Init`, `GetFatTable`, `ReadDir` and `ReadFile`. Each is proved to produce exactly what the
  `Walk` and `Boot` functions and the FAT loading function `FatFs.LoadFat` define.

Error codes passed to the engine's callback are returned as a list, in order. Whether an
allocation succeeds is a boolean parameter.

## Model

| member | source | states |
|---|---|---|
| Bytes.Le32Bytes_Le32 | FATfs.c:323 | a four-byte little-endian field read back as bytes gives the bytes it was read from |
| Bytes.Le16Splits | FATfs.c:179-184 | a two-byte field copied on a little-endian host has the first stored byte as its low byte and the second as its high byte |
| Bytes.Le32Splits | FATfs.c:323 | the four-byte size field has the 16-bit field at its offset as its low half and the one two bytes on as its high half; its lowest byte is the first stored byte and its highest the last |
| BlockReader.ReadAt | HAL.c:121-132 | a read of `count` bytes at an offset returns at most `count` bytes; it returns all of them exactly when the range lies inside the image, what is left of the image otherwise, and nothing from an offset past the end |
| BlockReader.ReadAtBytes | HAL.c:127-129 | every byte a read returns is the image byte at the offset plus its position |
| BlockReader.ZeroFilled | FATfs.c:68 | a zero-initialised buffer into which a read was made holds the bytes read, then zeros up to its size |
| BlockReader.ToOffset | HAL.c:121 | an offset passed to the reader's unsigned 32-bit parameter is the computed value modulo 2^32, and is unchanged when already in range |
| BlockReader.SectorSizeChecksDifferOnlyAtZero | HAL.c:74-93 | the written sector-size check accepts a size the intended check refuses exactly when the size is 0 |
| BlockReader.AcceptedSectorSizeHoldsWholeSlots | HAL.c:81 | an accepted sector size is at least 512, and any whole number of such sectors splits into whole 32-byte slots |
| Boot.ParseBootSector | FATfs.c:175-185 | bytes per sector, root entry count, total sectors and sectors per FAT are the little-endian u16 at offsets 11, 17, 19 and 22; sectors per cluster is byte 13 alone, so it is below 256; the FAT count is byte 16 |
| Boot.ParseWriteRoundTrip | FATfs.c:179-184 | parsing a sector into which a set of fields was written gives back exactly those fields |
| Boot.ParseReadsOnlyParsedOffsets | FATfs.c:179-184 | two sectors that agree on bytes 11-13, 16-20 and 22-23 parse to the same fields, so no other byte matters |
| Boot.DeriveGeometry | FATfs.c:237-245 | cluster size = sectors per cluster × bytes per sector; root sectors = (root entries × 32) div bytes per sector; root start = FATs × sectors per FAT + 1; data start = root start + root sectors (when the 16-bit variables do not wrap) |
| Boot.Truncate16 | FATfs.c:242-245 | a value stored in a 16-bit variable is unchanged below 2^16 and congruent to the original modulo 2^16 |
| Boot.RootDirSectors | FATfs.c:239 | with sectors of at least 32 bytes the root sector count is the truncating quotient, with no 16-bit wrap |
| Boot.RootSectorsHoldRootEntries | FATfs.c:239 | the root sectors hold at most the boot sector's root entry count of 32-byte slots |
| Boot.FloppyGeometry | FATfs.c:237-245 | the 1.44 MB floppy (512, 1, 2 FATs, 224 entries, 9 sectors per FAT) has 14 root sectors, root start 19 and data start 33 |
| FatTable.NextCluster | FATfs.c:99-118 | decodes 12-bit entry n from bytes 3n/2 and 3n/2+1 (low nibble above the low byte for even n; high byte above the high nibble for odd n); the result is at most 0xFFF |
| FatTable.NextClusterReadsTwoBytes | FATfs.c:106-117 | two tables that agree on bytes 3n/2 and 3n/2+1 give the same entry n, so nothing else is read |
| FatTable.PackThenDecode | FATfs.c:106-117 | decoding the two slots of a packed pair gives back the two packed 12-bit values |
| FatTable.DecodeThenPack | FATfs.c:106-117 | packing the two decoded entries of a pair gives back the three bytes they were decoded from |
| FatTable.ChainFrom | FATfs.c:447-458 | the clusters visited from c, when not empty, start at c, fit the fuel and form a complete chain |
| FatTable.ChainFromFindsChain | FATfs.c:447-458 | every complete chain that fits the fuel is exactly what the walk from its first cluster visits |
| Directory.DecodeSlot | FATfs.c:313-323 | the decoded name is 8 bytes and the extension 3 |
| Directory.EncodeSlot | FATfs.c:313-323 | an encoded slot is 32 bytes |
| Directory.DecodeEncode | FATfs.c:313-323 | decoding an encoded entry gives it back: name 0-7, extension 8-10, attribute 11, creation time and date at 14 and 16, last-write time and date at 22 and 24, first cluster at 26, size at 28 |
| Directory.EncodeDecode | FATfs.c:313-323 | re-encoding a decoded slot restores every byte the decoder copies |
| Directory.SlotEntries | FATfs.c:393-410 | a slot contributes one entry exactly when it is kept, and none otherwise |
| Directory.KeptDecoded | FATfs.c:393-410 | in terms of the entry a slot decodes to, the slot is kept exactly when the name does not start with 0, the attribute is not 0x0F and, in a subdirectory, the first cluster is not the cluster being scanned |
| Directory.ScanFrom | FATfs.c:305-351 | the scan from slot k on lists at most one entry per remaining slot |
| Directory.Scan | FATfs.c:305-351 | a buffer's scan lists at most one entry per 32-byte slot |
| Directory.FirstFreeSlot | FATfs.c:345-348 | the first free slot is the first slot whose first byte is 0: no slot before it is free |
| Directory.KeptSlots | FATfs.c:305-351 | the entries of the first n slots number at most n |
| Directory.ScanIsKeptSlots | FATfs.c:305-351 | the scan lists exactly the kept slots before the first free one, in slot order |
| Directory.ScanMembers | FATfs.c:388-444 | an entry is listed exactly when a kept slot before the first free slot decodes to it, so a slot starting with 0xE5 is listed like any other |
| Directory.KeptSlotsMembers | FATfs.c:305-351 | an entry is among the first n slots' entries exactly when one of those slots is kept and decodes to it |
| Directory.ScanListsOnlyValidEntries | FATfs.c:393-410 | every listed entry is well formed, does not start with 0, is not a long-name fragment, and in a subdirectory scan does not name the scanned cluster |
| Directory.ScanBuffer | FATfs.c:305-351 | the loop over the buffer in 32-byte steps, stopping at the first free slot, returns the scan of the buffer |
| Walk.ReadCluster | FATfs.c:382-385 | a read of data cluster c (sectors-per-cluster sectors at byte (data start - 2 + c) × bytes per sector) returns at most a cluster |
| Walk.ClusterOffsetInDataArea | FATfs.c:382 | data clusters 2 and up are read at or after the first byte of the data area, as long as the offset fits the reader's 32-bit parameter |
| Walk.ClusterOffsetStep | FATfs.c:382 | consecutive clusters are read one sector apart whatever the number of sectors per cluster, because the data start plus c - 2 is multiplied by the sector size alone; with more than one sector per cluster, neighbouring clusters overlap |
| Walk.RootListing | FATfs.c:290-369 | listing the root always returns |
| Walk.RootListingBounded | FATfs.c:290-361 | the root listing never holds more entries than the boot sector's root entry count |
| Walk.RootListingReports | FATfs.c:290-369 | a failed allocation reports an allocation error and lists nothing; otherwise an error is reported exactly when the root region does not lie inside the image; whenever an error is reported the listing is empty |
| Walk.ClusterReads | FATfs.c:505-530 | the bytes of a list of clusters are one cluster read per cluster, in order |
| Walk.FileWalk | FATfs.c:495-544 | a returning file walk reports nothing and returns at most one buffer per cluster it may visit, each buffer a whole cluster; a walk never faults on a null buffer |
| Walk.FileContents | FATfs.c:479-547 | a file read returns whole clusters only, at most 0xFF8 of them, and reports nothing; it returns no buffer exactly when the start cluster ends a chain and reads short |
| Walk.FileWalkAdvances | FATfs.c:495-544 | a file walk at cluster c adds c's bytes and moves on after a full read, returns what it has when c ends a chain and reads short, never returns when c reads short below 0xFF7, and faults when c's entry is outside the table |
| Walk.FileWalkFollowsChain | FATfs.c:495-544 | a file whose chain reads in full is read as one cluster buffer per chain cluster, in chain order, with nothing reported |
| Walk.FileWalkReturnsChain | FATfs.c:495-544 | conversely, a returning file walk reports nothing; it returns buffers exactly when it followed a complete chain read in full, and returns none only when the start cluster ends a chain and reads short |
| Walk.DirWalk | FATfs.c:379-458 | a subdirectory walk reports an error only when its start cluster ends a chain and reads short, and then lists nothing; it never faults on a null buffer |
| Walk.ChainListingBound | FATfs.c:388-444 | the listing of a chain of n fully read clusters holds at most n × (cluster size / 32) entries |
| Walk.DirListing | FATfs.c:289-468 | a root listing always returns; a directory read reports at most one error, and a reported error comes with an empty listing; no read goes through a null buffer |
| Walk.DirWalkAdvances | FATfs.c:379-458 | a subdirectory walk at c adds c's entries and moves on after a full read, reports an error and returns when c ends a chain and reads short, never returns when c reads short below 0xFF7, and faults when c's entry is outside the table |
| Walk.DirWalkFollowsChain | FATfs.c:379-458 | a subdirectory whose chain reads in full lists every cluster's entries in chain order, each cluster filtering entries that name itself, with nothing reported |
| Walk.DirWalkReturnsChain | FATfs.c:379-458 | conversely, a returning subdirectory walk reports the sub-directory error exactly when the start cluster ends a chain and reads short; it reports nothing exactly when that cluster reads in full, and then it followed a complete chain read in full and lists its entries |
| Walk.DirWalkAsWritten | FATfs.c:447-449 | the walk as written returns or faults exactly as the corrected walk does, except that it faults on a null buffer; that fault names the cluster in the first cluster's FAT entry, which lies inside the table and is below 0xFF7 |
| Walk.NullBufferBreaksMultiClusterDirectories | FATfs.c:447-449 | the walk as written faults on the second cluster whenever the first cluster's entry names another cluster, where the corrected walk goes on to it; on one-cluster directories the two agree |
| Walk.NullBufferExample | FATfs.c:447-449 | a concrete two-cluster directory on which the walk as written faults and the corrected walk returns |
| FatTable.Trail | FATfs.c:447 | the clusters a walk passes through start at its first cluster, and each one after it is the FAT entry of the one before |
| Walk.FileWalkExhaustedReadsOn | FATfs.c:495-544 | a file walk that runs out of fuel has, for as many clusters as its fuel, read each cluster in full and found in its FAT entry a cluster below 0xFF7 |
| Walk.DirWalkExhaustedReadsOn | FATfs.c:379-458 | the same for a subdirectory walk that runs out of fuel |
| Walk.DirWalkExhaustedStep | FATfs.c:379-458 | a subdirectory walk that runs out of fuel read its first cluster in full, found a cluster below 0xFF7 in its entry, and runs out of fuel from there too |
| Walk.ReadsOnTrail | FATfs.c:447-458 | a walk that reads on in this way for n clusters passes n clusters after its start, none of them 0xFF7 or more, and reads every cluster of its trail but the last in full |
| Walk.TrailRepeats | FATfs.c:458 | a trail that passes 0xFF8 clusters below 0xFF7 after its start visits some cluster twice |
| Walk.FileReadNeverEndsRepeats | FATfs.c:495-544 | a file read that stops after 0xFF8 clusters has read in full a chain that visits some cluster twice, so the source's loop, whose next cluster depends only on the current one, never exits |
| Walk.DirListingNeverEndsRepeats | FATfs.c:379-458 | a directory read that stops after 0xFF8 clusters is a subdirectory read whose chain, read in full, visits some cluster twice, so the source's loop never exits |
| FatFs.LoadFat | FATfs.c:61-92 | the FAT is a zero-filled table of bytes-per-sector × sectors-per-FAT bytes holding the image bytes from offset bytes-per-sector × sectors-per-cluster; a short read is reported and the table kept; a failed allocation leaves no table |
| FatFs.Volume.constructor | FATfs.c:28-49 | the state before a mount: nothing open, no table, all numbers zero |
| FatFs.Volume.OpenImage | HAL.c:44-67 | opening sets the reader back to 512-byte sectors whether or not the image opens |
| FatFs.Volume.UpdateSectorSize | HAL.c:74-93 | the reader switches to a new sector size exactly when the intended check accepts it, and keeps the old one otherwise |
| FatFs.Volume.Init | FATfs.c:193-267 | the mount reports a failed open, a failed boot-buffer allocation, a short boot read or a refused sector size, in that order of checks, and then returns 0 with the earlier state kept. Otherwise it parses the first 512 bytes, loads the FAT, derives the geometry and returns the cluster size. The result is non-zero exactly when the open, the boot-buffer allocation, the boot read and the sector-size check succeed and sectors per cluster is positive, and then the volume is mounted; a failed FAT load is only reported |
| FatFs.Volume.GetFatTable | FATfs.c:61-92 | the method loads exactly the table and reports exactly the codes `LoadFat` defines, changing nothing else |
| FatFs.Volume.ReadDir | FATfs.c:274-472 | a directory read returns exactly the root listing for cluster 0, and otherwise the allocation error or the subdirectory walk |
| FatFs.Volume.ReadRoot | FATfs.c:290-369 | the root branch returns exactly the root listing |
| FatFs.Volume.ReadSubdirectory | FATfs.c:372-467 | the subdirectory loop returns exactly the subdirectory walk of at most 0xFF8 clusters |
| FatFs.Volume.ReadFile | FATfs.c:479-547 | the file loop returns exactly the file walk of at most 0xFF8 clusters |

## Left out

- The image file, `fopen`/`fseek`/`fread`/`fclose` (HAL.c): the image is a byte sequence and a
  read is a clipped slice of it. Closing the image (`kmc_de_init`) and `fatfs_de_init` are not
  modelled.
- `main.c`, the console interface, is not part of this model. The reads require a mounted
  volume because the interface lists directories only after the mount returned a non-zero
  cluster size (main.c:411-414).
- Memory management (`calloc`/`free`, the list node constructors and the `deallocate_*`
  functions, FATfs.c:125-168, 554-606) is not modelled. The linked lists the engine builds are
  returned as sequences, and a freed or leaked buffer makes no difference here. Whether a
  buffer allocation succeeds is a parameter. The list-node allocations (FATfs.c:125-168) are
  taken to succeed: on failure the source reports an error and then writes through the null
  node it got.
- The error callback (FATfs.c:37, 203) is replaced by the returned list of reported codes.
- `CLUSTER_SIZE_ERROR` is never reported by the engine (only the interface uses it), so no path
  of the model produces it.
- FatFs.Volume.ReadFile: assumes every per-cluster buffer allocation succeeds. In the source a
  failed allocation reports an error and retries the same cluster (FATfs.c:537-541). Whether a
  retry succeeds is outside the program, so that nondeterminism is not modelled.
- Walk.DirWalk, Walk.FileWalk, FatFs.Volume.ReadSubdirectory, FatFs.Volume.ReadFile: the source
  loops until it meets an entry of 0xFF7 or more. The model stops after 0xFF8 clusters with
  `NoResult(ChainNeverEnds)`. Every cluster after the first is below 0xFF7, so a walk that has
  not ended by then has visited some cluster twice, and the source would loop forever
  (`Walk.FileReadNeverEndsRepeats`, `Walk.DirListingNeverEndsRepeats`).
- A short read of a cluster below 0xFF7 is `NoResult(ShortReadRepeats(c))`: the cluster variable
  does not advance and the same read is repeated forever (FATfs.c:451-455, 532-535). A FAT
  entry lying outside the loaded table is `NoResult(FatIndexOutOfRange(c))`: the source indexes
  without a bounds check (FATfs.c:109, 114), and this includes a FAT whose allocation failed.
- Walk.ClusterOffset: signed 32-bit overflow of `(data start - 2 + c) × bytes per sector` is
  undefined behaviour in C and is not modelled; the product is taken exactly, then reduced
  modulo 2^32 as the reader's offset parameter. The same holds for the FAT buffer size
  bytes-per-sector × sectors-per-FAT.
- The sectors-per-cluster field is a 16-bit variable into which one byte is copied. The model
  assumes a little-endian host with the variable's upper byte still zero from static
  initialisation, so the value is byte 13.
- In four places the engine does not do what a reader of a FAT driver might expect, and the
  model follows the engine.
  - A short read of a file cluster neither appends a buffer nor advances (FATfs.c:532-535).
  - A short read of a subdirectory cluster is not skipped: the same cluster is read again
    (FATfs.c:451-455).
  - A short FAT read is reported, but the mount still returns the cluster size (FATfs.c:77-81,
    234-237).
  - Slots whose name starts with the deleted marker 0xE5 are listed (FATfs.c:310, 393).
- The date and time bit fields are kept packed, as the engine stores them; their printing
  belongs to the interface.

## Findings

| source | as written | input that shows it | evidently intended | confidence | as-written member | corrected member |
|---|---|---|---|---|---|---|
| HAL.c:81 | the sector-size update accepts any multiple of 512, including 0, and the mount then divides by that size (FATfs.c:239) | a boot sector with bytes per sector 0 (bytes 11 and 12 zero) | refuse 0 (`FatFs.Volume.UpdateSectorSize` switches exactly on a positive multiple of 512), so the mount reports `ERROR_UPDATING_SECTOR_SIZE` and returns 0 | not executed | BlockReader.SectorSizeChecksDifferOnlyAtZero | FatFs.Volume.Init |
| FATfs.c:449 | after the first full cluster of a subdirectory the buffer pointer is set to NULL, so the next cluster is read through a null pointer | a subdirectory of two chained clusters, both readable (the disk of `Walk.NullBufferExample`) | keep the buffer and reuse it for every cluster of the chain | not executed | Walk.NullBufferBreaksMultiClusterDirectories | Walk.DirWalkFollowsChain |
