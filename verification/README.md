# Verified models of UnaFS and its neighbours

UnaFS (`libs/unafs`) is a block file system: a superblock, a journal of ten blocks, a first-fit
bitmap, inodes that map their bytes through extents, directories, attributes kept in the inode or in
blocks of their own, and an attribute catalog that serves as a query index. Device, bitmap, superblock
counter, inodes and journal must agree after every call. The project proves that they do, and that
what users see is a simple thing: files with bytes and attributes, and names for them.

Around it are the smaller cores of the same repository: the in-place Fourier transform, the audio graph
and the output callback of Resonance, the cycle-bit rings of the xHCI driver, the ARW2 decoder of Lux,
the IPv4 header checksum, and the text of queries.

| file | subject |
|---|---|
| `Storage.dfy`, `Types.dfy`, `Floats.dfy`, `Bits.dfy` | device, entities, encoders and their laws, IEEE 754 comparisons, bit lists |
| `Bitmap.dfy`, `Extents.dfy`, `Overlay.dfy` | allocator, block mapping, what a write does to bytes |
| `Image.dfy`, `Updates.dfy` | who owns which block, the files an image holds, what each call changes |
| `Counter.dfy` | the free-block counter: what taking and giving back blocks does to it |
| `Journal.dfy`, `Query.dfy`, `Directory.dfy`, `Layout.dfy` | log and recovery scan, catalog and queries, tree of names, format and mount |
| `FileSystem.dfy` | the class `UnaFS` with its calls |
| `Runs.dfy` | whole runs: invariants, refinement of the simple file system, remounting |
| `Encoding.dfy` | encoders that meet all the laws assumed of bincode |
| `QueryText.dfy` | the query parser, and the query that Vein prints for it |
| `Fft.dfy`, `AudioGraph.dfy`, `AudioPump.dfy`, `Xhci.dfy`, `Arw2.dfy`, `Ipv4.dfy` | the smaller cores |

How the model stands to the code:

- The device is a sequence of fewer than 2^64 blocks. Reads past its end fail. Writes past its end fail too, unless the device
  `grows`, as both devices of the source do; it is zero up to the block then. It may fail at any access unless it is
  `reliable`; every call promises what holds when it succeeds, and, on a reliable device, when it may fail.
- bincode is abstract: six encoders whose decoders ignore what follows an encoding. `LawfulCodecsExist` shows that
  the laws can be met together, and `ConsistentImageExists` that the invariant can.
- A state of the file system is `Good` when bitmap, ownership, inodes and journal agree, and `Synced` when the
  device has the present superblock and bitmap; `Valid` is both. `owner` is a ghost map from each used block to its one
  use. Every call that succeeds keeps `Valid`, on a device of any length and whether or not it grows.
- `Counted` says that the free-block counter is the number of clear bits below the block count. Formatting makes it so, and
  every taking of blocks keeps it (`TakingKeepsCount`). That no used block lies past the block count is a fact of its own (`Below`),
  which holds until blocks past it have been taken (`TakingStaysBelowIff`).
- Loops and in-place updates are methods over classes and arrays; expressions are functions. Parts of long calls are
  methods of their own. `hide` only limits what the prover looks at, and lemmas with an empty body hand it single facts where
  definitions are hidden.

- Functions that calls and specifications share are pinned down by results that do not mention them: strings compare by the first
  byte that differs (`StringsCompareBytes`), floats as the numbers that they stand for (`FloatsAreNumbers`), each query operator finds
  exactly the files it should (`IntScan` and those after it), bits are those of the bytes taken as numbers (`ByteIsNumber`, `PixelAt`),
  and a pass of the audio graph advances every node by its own step (`PassSteps`).

What was found on the way, each stated by a member of the table:

- A write past the end of a file can attach its block at the wrong logical place: the test for merging asks only that the last
  extent ends before the write (`PlaceMapsIff`, `GapWriteMisplaced`). `WriteData` therefore asks for an offset within the file.
- After a mount the allocator's limit is rounded up to whole bitmap blocks; allocation agrees while a block is free
  (`WiderLimitAgrees`, `NextBlockAgrees`). Devices grow, so when none is free `create_inode` succeeds at a block past the block
  count (`FullDeviceOverruns`, for a full file of Vein). The counter is right all the same: it stays at zero, and no bit below the count is
  clear. What breaks it is a later `set_attribute` that gives back the blocks of a large attribute past the count: each raises the
  counter, which then promises space that there is not (`FreedPastCount`). `FreeingKeepsCountIff` and `ExchangeKeepsCountIff` say
  exactly when the counter survives. Without a mount, or with a block count of whole bitmap blocks, it always does (`RunCounts`).
- Formatting an empty device that grows leaves it shorter than the block count in its superblock, with every block in use. Data is
  read before it is written, so a write fails exactly if the device, as far as the allocator's limit, does not have all blocks needed
  already (`WriteData`). Creating inodes does not help: each makes the device one block longer and takes that block. On such a
  device no file ever gets a byte, no attribute is set and no name is entered (`NothingIsStored`).
- `log` does not come to an end for an entry larger than a block (`LogTerminatesIff`); `set_attribute` with a very long key is
  such a case (`LongKeyNeverLogged`). The lengths of keys in that result, and in `TornCallUnseen` and `WholeCallReported` below, are those
  of the encoders that stand in for bincode, which spend two bytes on a character; with bincode it takes longer keys.
- The recovery scan stops at the unused end of a block if a length prefix would have fitted there. On a journal that was zero at
  the start it decodes exactly the entries before the first such gap, until the log wraps (`ScanStopsAtGap`). So a torn call after a gap
  is not reported (`TornCallUnseen`), and a call that ended is reported as torn if the gap falls into it (`WholeCallReported`). A
  mount does not clear the old log; after one, only a first part of what the scan decodes is known to be new.
- Entering a name in a directory is two transactions in the log. Between them the log is clean, with an inode that no directory
  names (`CutIsDirty`).
- The catalog knows only attributes set through `set_attribute`. Vein gives the type of a memory to `create_inode` and sets only
  the embedding, so its queries on `type` alone find nothing unless two hashes collide (`QueriesFindWhatWasSet`,
  `SavedMemoryIsMissed`). `==` on a float zero may miss the zero of the other sign (`EqNeverMissesIff`). Secondary filters see only strings kept in the inode.
- The query that Vein prints is read as it was meant exactly when the vector is not empty and the type does not hold the word
  that separates conditions (`PrintedIsReadIff`). The parser panics exactly on a value that is one quotation mark, after conditions that it reads
  (`PanicsIff`, `ReadIff`).
- The IPv4 checksum covers what the length field says. Changing the length field can go unnoticed (`LengthChangeIff`,
  `LengthChangeUnnoticed`), and an accepted header with a length field below 5 has bytes that no checksum covers
  (`ByteChangeIff`, `AddressesUnread`).

## Model

| member | source | states |
|---|---|---|
| Storage.Device.ReadBlock | libs/unafs/src/storage.rs:148-182 | a read succeeds only inside the device and yields the block as last written; outside it fails as out of bounds |
| Storage.Device.WriteBlock | libs/unafs/src/storage.rs:184-199 | a write needs a whole block and changes that block alone; past the end it makes a growing device long enough, zero up to the block, and fails on any other; a write that fails changes nothing |
| Encoding.LawfulCodecsExist | libs/unafs/src/superblock.rs:110-117 | the laws asked of the encoders, with superblock and fixed journal entries within a block, can be met together |
| Encoding.ConsistentImageExists | libs/unafs/src/fs.rs:75-145 | with these encoders sixteen blocks hold an image that meets the invariant of the file system |
| Encoding.LongKeyNeverLogged | libs/unafs/src/fs.rs:491-500 | with the stand-in encoders a key of 2100 characters makes a journal entry for which `log` never ends, wherever the log stands; with bincode a longer key does |
| Encoding.TornCallUnseen | libs/unafs/src/wal.rs:103-180 | an input for the stand-in encoders: the second of two `set_attribute` calls is torn, the log is dirty, and recovery decodes a clean log |
| Encoding.WholeCallReported | libs/unafs/src/wal.rs:103-180 | an input for the stand-in encoders: two `set_attribute` calls have ended, the log is clean, and recovery decodes a dirty one |
| Encoding.FullDeviceOverruns | handlers/vein/src/storage.rs:75-98 | a full file of 64 MiB: with the limit that a mount computes the next block is 16384, past the block count; the counter stays right, but one used block is not counted |
| Bits.ByteIsNumber | libs/lux/src/parser.rs:270-274 | the bits of a byte, lowest first, are those of the number that it is |
| Bitmap.UsedAreBits | libs/unafs/src/bitmap.rs:113-130 | block `n` is used if and only if byte `n / 8`, divided by 2 to the power of `n % 8`, is odd |
| Bitmap.SpaceMap.constructor | libs/unafs/src/bitmap.rs:30-37 | a new map has no block in use and one bit for every block |
| Bitmap.SpaceMap.Load | libs/unafs/src/bitmap.rs:42-62 | loading yields the bytes of the given blocks and a limit of all their bits |
| Bitmap.SpaceMap.Save | libs/unafs/src/bitmap.rs:67-84 | the chunks of the map are on the device, zero-filled at the end, and no other block changed |
| Bitmap.SpaceMap.Allocate | libs/unafs/src/bitmap.rs:88-110 | the least free block below the limit, or none if there is none, and exactly that block becomes used |
| Bitmap.SpaceMap.MarkUsed | libs/unafs/src/bitmap.rs:113-120 | set insertion, for blocks that have a bit |
| Bitmap.SpaceMap.Free | libs/unafs/src/bitmap.rs:123-130 | set removal |
| Bitmap.SaveThenLoad | libs/unafs/src/bitmap.rs:42-84 | saving a map and loading it back keeps the set of used blocks |
| Bitmap.WiderLimitAgrees | libs/unafs/src/bitmap.rs:55-61 | allocators with a limit and a rounded-up limit agree if and only if a block is free below the limit or the limits are equal |
| Extents.FindBlock | libs/unafs/src/fs.rs:274-282 | the search finds the block of the first extent that covers the byte |
| Extents.TilesLookup | libs/unafs/src/fs.rs:274-282 | extents that tile a file map byte `off` to entry `off / 4096` of the block list, and nothing past the end |
| Extents.PlaceAppends | libs/unafs/src/fs.rs:290-315 | at the end of a file, merging or a new extent appends exactly one block to the block list and keeps the tiling |
| Extents.PlaceMapsIff | libs/unafs/src/fs.rs:295-315 | for any block-aligned list, the byte written is mapped to its new block if and only if there is no merge across a gap of a block |
| Extents.GapWriteMisplaced | libs/unafs/src/fs.rs:295-303 | an input for which a write past the end leaves its own byte unmapped and maps another one |
| Extents.ReadFromExtents | libs/unafs/src/fs.rs:352-404 | the bytes that the extents map, zero where none does, cut off at the size |
| Extents.ByteMeans | libs/unafs/src/fs.rs:367-396 | a byte is read from the first extent that covers it, in the block as far into it, and is zero if none does |
| Extents.SameWindow | libs/unafs/src/fs.rs:386-396 | bytes of one block-sized window are found in one block, so copying from it is right |
| Extents.TilesSum | libs/unafs/src/fs.rs:553 | the sum of the extent lengths is the size of a large attribute |
| Overlay.BlockWrite | libs/unafs/src/fs.rs:318-326 | patching one block of a file overlays its content, grown if need be |
| Overlay.ReadsContent | libs/unafs/src/fs.rs:352-404 | reading through tiling extents yields the bytes of the file |
| Image.NoBlockTwice | libs/unafs/src/fs.rs:75-145 | under the invariant no block is used twice among system blocks, inodes, data and large attributes |
| Counter.TakingKeepsCount | libs/unafs/src/fs.rs:226-232 | taking any number of least free blocks keeps a right counter right, whatever the limit: a block past the count is taken only when no bit below it is clear and the counter is zero |
| Counter.TakingStaysBelowIff | libs/unafs/src/bitmap.rs:88-110 | if all used blocks lie below a limit, they still do after taking some if and only if there is room for that many |
| Counter.FreeingKeepsCountIff | libs/unafs/src/fs.rs:648-660 | giving back one block keeps a right counter right if and only if the block lies below the block count |
| Counter.ExchangeKeepsCountIff | libs/unafs/src/fs.rs:502-527 | giving back some blocks and taking `n` keeps a right counter right if and only if as many are taken after the last clear one as it counted too many |
| Counter.AccountsFor | libs/unafs/src/fs.rs:191-715 | what any call leaves of a right counter, exactly, and of used blocks that all lie below the block count |
| Counter.FreedPastCount | libs/unafs/src/fs.rs:502-527 | an input: a large attribute put past the count of a full device and then replaced by a small value leaves the counter at one with nothing clear |
| Counter.GrowsWhenFull | libs/unafs/src/storage.rs:184-199 | a device whose blocks are given out least first gets longer only when all of them are in use |
| Image.GrowOwned | libs/unafs/src/fs.rs:284-315 | giving a free block to a stream keeps ownership exact |
| Image.DropOwned | libs/unafs/src/fs.rs:648-660 | taking all blocks from a stream keeps ownership exact |
| Image.Rebuild | libs/unafs/src/fs.rs:334-335 | rewriting one inode and one of its streams leaves every other file and attribute as it was |
| Image.SystemWrite | libs/unafs/src/fs.rs:234-243 | writing superblock, bitmap or journal changes no file |
| Journal.PrefixRoundTrip | libs/unafs/src/wal.rs:212-213 | a little-endian length is read back as it was |
| Journal.LittleEndianDigits | libs/unafs/src/wal.rs:212-213 | byte `k` of a length is its digit `k` to the base of 256, the lowest first |
| Journal.ReadIff | libs/unafs/src/wal.rs:126-175 | the scan takes an entry exactly where a length that is not zero is followed by as many bytes of the same block, which decode |
| Journal.DirtyIff | libs/unafs/src/wal.rs:154-178 | for any log at all, recovery reports it dirty if and only if an operation begins without its end after it, or some end of the log begins more creations and writes than it ends |
| Journal.SettleIs | libs/unafs/src/wal.rs:189-206 | an entry goes where the log stands, or to the next block if it does not fit this one, or to the start of the journal if it does not fit before its end |
| Journal.LogTerminatesIff | libs/unafs/src/wal.rs:182-206 | `log` comes to an end if and only if the entry fits one block, wherever the log stands |
| Journal.ScanIsPrefix | libs/unafs/src/wal.rs:103-180 | if the rest of the journal was zero, recovery decodes a prefix of the operations logged since the log last stood at the start; all of them while the scan reaches the end of the log |
| Journal.NoGapIff | libs/unafs/src/wal.rs:202-206 | the entries before the first gap are all entries if and only if none was placed after leaving room for a length prefix unused |
| Journal.GapHidesRest | libs/unafs/src/wal.rs:202-206 | whatever is logged after a gap does not change what is before it |
| Journal.AppendEntry | libs/unafs/src/wal.rs:208-221 | an entry written at the end of the log is decoded after all those before it |
| Journal.SkipBlock | libs/unafs/src/wal.rs:202-206 | leaving the rest of a block unused ends what a scan can see, unless no length prefix would fit there |
| Journal.FoldAppend | libs/unafs/src/wal.rs:155-176 | the open transactions of a log are those of its end, given those of its start |
| Journal.Journal.Reset | libs/unafs/src/wal.rs:84-90 | back to the start; one block is cleared, or made on a device that grows, nothing else is touched, and how far the journal is zero is known |
| Journal.Journal.Log | libs/unafs/src/wal.rs:182-222 | the operation is appended to the log, inside one block, at the place that `Settle` says; nothing outside the journal changes, and the log stays where the sizes of its entries say and as readable as they say |
| Journal.Journal.CheckRecovery | libs/unafs/src/wal.rs:103-180 | the scan returns exactly whether the operations it decodes leave one open |
| Journal.Journal.ScanIsLog | libs/unafs/src/wal.rs:103-180 | while a log that started on a zero block fits that block, recovery decodes all of it and nothing else |
| Journal.Journal.ScanStopsAtGap | libs/unafs/src/wal.rs:103-206 | on a journal that was zero at the start, before a wrap, recovery decodes exactly the entries before the first gap; these are all if and only if no entry was placed after a skip of 8 or more bytes |
| Floats.FloatsAreNumbers | libs/unafs/src/fs.rs:783-790 | floats of 64 and of 32 bits compare as the numbers do that their exponents and mantissas stand for, and NaN compares with nothing |
| Floats.NaNIff | libs/unafs/src/fs.rs:783-790 | NaN is an exponent of all ones with a mantissa that is not zero |
| Query.StringsCompareBytes | libs/unafs/src/fs.rs:787 | a string is less than another if and only if they agree up to where it ends or has the smaller byte |
| Query.IntScan | libs/unafs/src/fs.rs:737-790 | `>`, `<` and `==` with a whole number find exactly the files, of those that pass the filters, whose value is a greater, smaller or equal whole number |
| Query.FloatScan | libs/unafs/src/fs.rs:737-790 | the same with a float, by the numbers that floats stand for; NaN is found by none |
| Query.TextScan | libs/unafs/src/fs.rs:737-790 | the same with a string, by the order of bytes |
| Query.BulkScan | libs/unafs/src/fs.rs:737-790 | bytes and vectors are found by `==` alone, the numbers of vectors compared as floats |
| Query.NeqIsRest | libs/unafs/src/fs.rs:746-752 | `!=` finds those of the files with the key that `==` does not |
| Query.SimilarityScan | libs/unafs/src/fs.rs:767-776 | similarity finds exactly the vectors whose score is a number above the threshold, and reports that score |
| Query.ScoreIsOne | libs/unafs/src/fs.rs:739-766 | every other condition reports the float that stands for one |
| Query.CatalogIsComplete | libs/unafs/src/fs.rs:566-644 | the catalog loses no indexed attribute and adds nothing, whatever the hashes and however many stale entries there are; with all indexed it returns what a full scan does |
| Query.EqNeverMissesIff | libs/unafs/src/fs.rs:578-596 | `==` through the catalog is complete if and only if it does not ask for a float zero that equals itself |
| Query.CoverMore | libs/unafs/src/fs.rs:693-714 | appending an entry for the new value keeps the catalog covering all that was indexed |
| Query.SortDedup | libs/unafs/src/fs.rs:600-601 | sorting and dropping neighbours that are equal yields each candidate once, in ascending order |
| Query.MoreResults | libs/unafs/src/fs.rs:603-641 | checking one more candidate keeps the results exactly those candidates that answer |
| Updates.ChunkStored | libs/unafs/src/fs.rs:318-326 | storing one piece overlays the bytes of the file |
| Updates.WriteStored | libs/unafs/src/fs.rs:246-339 | a whole write keeps the invariant and changes the one file by an overlay |
| Updates.CreateStored | libs/unafs/src/fs.rs:191-217 | a new inode adds one empty file and changes no other |
| Updates.AttributeStored | libs/unafs/src/fs.rs:504-527 | setting an attribute keeps the invariant, gives it the value, and changes no other attribute or file |
| Updates.IndexedBySize | libs/unafs/src/fs.rs:508-523 | an attribute set stays in the inode, where filters see it, if and only if it is a number, at most 256 bytes or at most 64 floats; otherwise it takes exactly the blocks that its encoding needs |
| Updates.DropAll | libs/unafs/src/fs.rs:648-660 | the blocks freed are exactly those of the replaced attribute |
| Updates.SpillMore | libs/unafs/src/fs.rs:662-691 | the pieces of large data stand in blocks of their own and read back in order |
| Directory.PushAndSort | libs/unafs/src/fs.rs:475-480 | pushing an entry with a new name and sorting gives the entries and it, each name before the next in the order of bytes |
| Directory.EntryListed | libs/unafs/src/fs.rs:453-487 | entering a name adds one empty file, lists it with the old entries in the order of bytes, and changes nothing else |
| Directory.EntryKeepsTree | libs/unafs/src/fs.rs:453-487 | adding an entry keeps the tree: strictly sorted listings, each file named at most once, the root never |
| Directory.EntryAddsOnePath | libs/unafs/src/fs.rs:428-487 | adding an entry makes exactly the paths to it lead to it and leaves every other path as it was |
| Directory.OneNewPath | libs/unafs/src/fs.rs:453-487 | there is only one such path |
| Directory.OnePath | libs/unafs/src/fs.rs:428-451 | in a tree no file has two paths |
| Directory.TreeFrame | libs/unafs/src/fs.rs:246-339 | calls that leave directories alone keep the tree and every listing |
| Directory.PathsFrame | libs/unafs/src/fs.rs:428-451 | equal listings resolve every path alike |
| Directory.JoinRoundTrip | libs/unafs/src/fs.rs:428-447 | names that are not empty and have no slash are read back from the path that spells them |
| Directory.PartsAre | libs/unafs/src/fs.rs:428-447 | for any path at all: a slash parts the names before it from those after it, empty pieces are no names, and what has no slash is one |
| Directory.WrittenDecodes | libs/unafs/src/fs.rs:482-484 | a directory rewritten from its start is read back as written, whatever bytes follow |
| Layout.FreshConsistent | libs/unafs/src/fs.rs:75-145 | a formatted device meets the invariant with a right counter and no used block past the count, and holds an empty root and an empty catalog |
| Layout.FullConsistent | libs/unafs/src/fs.rs:191-232 | a device whose every block is an empty inode meets the invariant, with a counter that is right and zero |
| Layout.FreshNumbers | libs/unafs/src/superblock.rs:81-108 | a formatted device in numbers: every field of its superblock, and eleven blocks and one for every 32768 before the first inode |
| Layout.FormatSize | libs/unafs/src/fs.rs:77-83 | a device without blocks is formatted for 256 blocks a megabyte, any other for the blocks it has |
| Layout.CurrentIff | libs/unafs/src/superblock.rs:120-140 | only "UNAFS", version 2 and blocks of 4096 bytes are accepted |
| Layout.LoadedBitmap | libs/unafs/src/fs.rs:148-157 | mounting finds the set of used blocks that was saved |
| FileSystem.UnaFS.MarkSystem | libs/unafs/src/fs.rs:88-100 | exactly the system blocks are marked |
| FileSystem.UnaFS.FormatInode | libs/unafs/src/fs.rs:105-118 | the next block is taken and holds an empty inode, on a device that grows to it if need be; nothing else changes |
| FileSystem.UnaFS.Format | libs/unafs/src/fs.rs:75-145 | a valid empty file system with a right counter, for the blocks of the device or, if it is empty and grows, for the size asked for; it succeeds exactly when system blocks and two inodes fit |
| FileSystem.UnaFS.ReadSuperblock | libs/unafs/src/superblock.rs:120-140 | only a superblock of this magic, version and block size is accepted |
| FileSystem.UnaFS.Mount | libs/unafs/src/fs.rs:148-171 | on the device of a synced file system it finds the same inodes, files, counter and used blocks, with a limit of whole bitmap blocks, and reports the open transactions of the journal; it writes nothing |
| FileSystem.UnaFS.SyncedImage | libs/unafs/src/fs.rs:234-243 | a valid file system can always be mounted again |
| FileSystem.UnaFS.NextBlockAgrees | libs/unafs/src/bitmap.rs:55-61 | two file systems over the same used blocks, as before and after a mount, allocate the same block next if and only if one is free below both limits or the limits are equal; a right counter that is not zero means that one is |
| FileSystem.UnaFS.AllocateBlock | libs/unafs/src/fs.rs:285-288 | the least free block, and the counter one lower but never below zero |
| FileSystem.UnaFS.AllocateInodeBlock | libs/unafs/src/fs.rs:226-232 | the least free block, past the system blocks, which lies on the device unless all of the device is in use; none only if the used blocks fill the limit |
| FileSystem.UnaFS.MapBlock | libs/unafs/src/fs.rs:274-316 | the block for a byte: the mapped one, or a new one appended to the file; none on the device only if the used blocks fill it as far as the limit |
| FileSystem.UnaFS.WriteChunk | libs/unafs/src/fs.rs:264-330 | one turn of the write loop overlays its piece and changes blocks of this file only |
| FileSystem.UnaFS.WriteData | libs/unafs/src/fs.rs:246-339 | the file holds its old bytes overlaid with the data, all else is unchanged, exactly the lacking blocks are taken and the device is no longer than before, two journal entries are added; on a reliable device it fails, other than for an inode too large, if and only if the blocks of the device below the limit are fewer than those used and lacking |
| FileSystem.UnaFS.ReadData | libs/unafs/src/fs.rs:341-350 | the bytes from the offset on, as many as asked for or as the file has |
| FileSystem.UnaFS.SyncMetadata | libs/unafs/src/fs.rs:234-243 | device and memory agree on bitmap and superblock, outside the system blocks nothing changes |
| FileSystem.UnaFS.StillGood | libs/unafs/src/fs.rs:234-243 | a device whose inode and stream blocks are untouched holds the same files |
| FileSystem.UnaFS.CreateInodeInternal | libs/unafs/src/fs.rs:191-217 | one new file with its attributes in the least free block, nothing else changes, a device that was full grows by that block, two journal entries are added; on a reliable device it fails, other than for an inode too large, only if no block is free below the limit or it cannot grow |
| FileSystem.UnaFS.GetAttribute | libs/unafs/src/fs.rs:542-562 | the value of the attribute, whether inline or in blocks, or none |
| FileSystem.UnaFS.FreeBlocks | libs/unafs/src/fs.rs:648-660 | the blocks of the attribute are freed once each, no others, and the counter rises by as many, up to the block count |
| FileSystem.UnaFS.AllocateAndWriteExtents | libs/unafs/src/fs.rs:662-691 | fresh blocks hold the data in order and belong to the attribute; a growing device may get longer |
| FileSystem.UnaFS.UpdateAttribute | libs/unafs/src/fs.rs:502-527 | the attribute has the value, in the inode or in as many blocks of its own as its size says; the old blocks are given back and then those of the new value taken; all else is unchanged; it fails for lack of room if and only if there is not enough |
| FileSystem.UnaFS.UpdateCatalog | libs/unafs/src/fs.rs:693-714 | the catalog file holds one more entry, at the end |
| FileSystem.UnaFS.SetAttribute | libs/unafs/src/fs.rs:491-540 | the attribute is set, in the inode or in blocks of its own as its size says, and indexed; everything else is unchanged, four journal entries enclose the change; counter and used blocks are those after giving back the old blocks and taking the new ones and those of the catalog |
| FileSystem.UnaFS.Ls | libs/unafs/src/fs.rs:406-417 | the listing of a directory, or the error for what is none |
| FileSystem.UnaFS.AddEntry | libs/unafs/src/fs.rs:453-487 | one new file under a new name in the least free block, which a device that was full grows by; a name that exists or a parent that is no directory is refused before anything changes |
| FileSystem.UnaFS.ResolvePath | libs/unafs/src/fs.rs:428-451 | the file that the names of the path lead to, if they do |
| FileSystem.UnaFS.RunQuery | libs/unafs/src/fs.rs:566-644 | exactly the candidates of the catalog that answer, with scores, once each and ascending |
| FileSystem.UnaFS.FindCandidates | libs/unafs/src/fs.rs:578-597 | the inodes of the entries whose hashes match |
| FileSystem.UnaFS.PassesSecondary | libs/unafs/src/fs.rs:618-633 | all filters name inline strings with their values |
| Runs.StepKeeps | libs/unafs/src/fs.rs:191-540 | every call keeps the tree, a readable catalog that covers the indexed attributes, and a clean log |
| Runs.StepRefines | libs/unafs/src/fs.rs:191-540 | every call does to the files what it does to the simple file system |
| Runs.RunRefines | libs/unafs/src/fs.rs:73-715 | in every run the invariant holds and the files are those of the simple file system after the same events |
| Runs.FreshInv | libs/unafs/src/fs.rs:75-145 | runs start from a formatted file system in which all this holds |
| Runs.ResolvesByName | libs/unafs/src/fs.rs:428-451 | resolving a path on the device is walking the names of the simple file system |
| Runs.AttributeIsLastSet | libs/unafs/src/fs.rs:491-562 | in every run an attribute has the value it was last given |
| Runs.QueriesAreComplete | libs/unafs/src/fs.rs:566-644 | in every state of a run a query on indexed attributes returns what a full scan does |
| Runs.CatalogIsHistory | libs/unafs/src/fs.rs:693-714 | in every run the catalog reads as the entries of the attributes set, in order |
| Runs.QueriesFindWhatWasSet | libs/unafs/src/fs.rs:566-644 | in every run a query finds exactly those files of the full scan on which some `set_attribute` call set an attribute with the hashes looked for |
| Runs.SavedMemoryIsMissed | handlers/vein/src/storage.rs:100-221 | a run that saves one memory as Vein does: a scan for its type finds it, the query for its type finds nothing |
| Runs.CutIsDirty | libs/unafs/src/wal.rs:155-178 | for every call and every cut of its journal entries, the log is dirty exactly inside a transaction; after the last entry it is clean |
| Runs.MountsClean | libs/unafs/src/fs.rs:159-164 | after any run of successful calls without a mount, while the log fits its first block, recovery decodes it exactly and reports a clean journal |
| Runs.MountReports | libs/unafs/src/fs.rs:159-164 | after any run without a mount on a journal that was zero, before a wrap, mounting decodes the entries before the first gap; with no gap these are all, and clean |
| Runs.PerformRemount | libs/unafs/src/fs.rs:148-171 | mounting in the middle of a run changes no file, no counter and no used block, and gives new objects over the same device |
| Runs.Perform | libs/unafs/src/fs.rs:73-715 | each call that succeeds is a step of a run and leaves a valid file system with the same block count, the same object unless it was a mount; exactly when a right counter is right again, when the used blocks still lie below the block count, and that a device without room for data stays so |
| Runs.BlocksAccounted | libs/unafs/src/fs.rs:75-145 | no block has two uses, and the used ones are exactly those with a use |
| Runs.Begin | libs/unafs/src/fs.rs:75-145 | formatting starts a run; how it began is remembered: the block count, the zero part of the journal, and whether the device was empty |
| Runs.Extend | libs/unafs/src/fs.rs:73-715 | one more call of a run that started with formatting: the longer run, on the same object unless it was a mount, its invariant, the refinement of the simple file system, no block used twice or lost, and, while no mount has changed the limit, the counter equal to the clear bits |
| Runs.RunCounts | libs/unafs/src/fs.rs:73-715 | in every run without a mount, and in every run with a block count of whole bitmap blocks, the counter is the number of clear bits and no used block lies past the count |
| Runs.NothingIsStored | libs/unafs/src/fs.rs:75-145 | in every run on a device that was empty when it was formatted, every successful call creates an inode, mounts, or writes nothing, and all files are empty |
| Runs.ReachedRefines | libs/unafs/src/fs.rs:73-715 | every file system that a run reaches meets the invariant and refines the simple file system after the same calls |
| Runs.ListsInOrder | libs/unafs/src/fs.rs:453-487 | in every run every directory can be listed, and its names are in the order of bytes |
| QueryText.Parse | libs/unafs/src/query.rs:38-99 | the parser, with its loop over the filters, is the function that the results below are about |
| QueryText.ReadMeans | libs/unafs/src/query.rs:38-99 | the query read is that of the first condition, with the filters in their order |
| QueryText.ComparisonMeans | libs/unafs/src/query.rs:50-80 | which comparison is read: `==` if it is found anywhere, else `!=`, else `>`, else `<`, where it is found first, with what stands before and after it |
| QueryText.SimilarityMeans | libs/unafs/src/query.rs:132-173 | a call of `similarity` is read as the key before the first comma, the vector after it, and the threshold after the only `>` |
| QueryText.FilterMeans | libs/unafs/src/query.rs:81-95 | a filter is read as what stands before the first `==` and what stands after it, without the quotation marks around it |
| QueryText.QuotedReads | libs/unafs/src/query.rs:102-107 | whatever stands in quotation marks is read as that string |
| QueryText.PlainReads | libs/unafs/src/query.rs:120-130 | any other value that is no list is read as a whole number, a float or a string, the first of these that it can be |
| QueryText.ListReads | libs/unafs/src/query.rs:107-119 | a list is read as the numbers between its commas, in order |
| QueryText.TrimMeans | libs/unafs/src/query.rs:38-49 | trimming cuts off the white space at both ends and nothing else |
| QueryText.VectorReads | libs/unafs/src/query.rs:107-119 | a printed vector is read back, and an empty one is refused |
| QueryText.SimilarityReads | libs/unafs/src/query.rs:132-173 | the printed primary condition is read as key, threshold and vector |
| QueryText.FilterReads | libs/unafs/src/query.rs:81-95 | the printed filter is read as its key and value, whatever the value holds |
| QueryText.PrintedIsReadIff | handlers/vein/src/storage.rs:142-152 | the printed query is read as meant if and only if the vector is not empty and the type does not hold the separating word |
| QueryText.SimilarityPanicsIff | libs/unafs/src/query.rs:132-173 | a condition that starts with `similarity(` panics exactly when its vector is one quotation mark: the slice between the parentheses is always one |
| QueryText.PanicsIff | libs/unafs/src/query.rs:38-130 | for every input, the parser panics if and only if the value of the first condition is one quotation mark, or that condition is a well-formed one and some filter has that value, after filters that hold `==` and another value |
| QueryText.ReadIff | libs/unafs/src/query.rs:38-130 | the parser reads exactly a well-formed condition followed by filters that hold `==` and a value that is not one quotation mark |
| QueryText.LoneQuotePanics | libs/unafs/src/query.rs:102-106 | an input of this kind |
| Fft.SquareOfI | libs/resonance/src/dsp.rs:121-126 | the square of `i` is minus one |
| Fft.RealArithmetic | libs/resonance/src/dsp.rs:107-126 | real numbers are added and multiplied as such |
| Fft.RealAndImaginary | libs/resonance/src/dsp.rs:107-126 | every number is a real one plus a real multiple of `i`; with this, the square of `i` and the ring laws there is one way to multiply |
| Fft.DftInReals | libs/resonance/src/dsp.rs:70-104 | real and imaginary part of the Fourier sum are sums of the samples times cosines and sines, for any that turn by the root |
| Fft.DftIsEval | libs/resonance/src/dsp.rs:70-104 | the Fourier sum at k is the value of a polynomial at the k-th power of the root |
| Fft.FastIsEval | libs/resonance/src/dsp.rs:81-103 | the transform by halves is the Fourier transform |
| Fft.RevInvolution | libs/resonance/src/dsp.rs:42-52 | reversing the bits of an index twice gives it back |
| Fft.ReversedIsStaged | libs/resonance/src/dsp.rs:73-79 | the bit-reversed order is the order in which the stages find their halves |
| Fft.StageStep | libs/resonance/src/dsp.rs:82-103 | a pass of butterflies takes a buffer of transforms of blocks to transforms of blocks twice as long |
| Fft.TwiddleIndex | libs/resonance/src/dsp.rs:89-93 | entry `j * step` of the table is in range and is the power that stage needs |
| Fft.MergeEnergy | libs/resonance/src/dsp.rs:95-99 | a level of butterflies doubles the energy |
| Fft.PassEnergy | libs/resonance/src/dsp.rs:86-101 | with factors of modulus one each pass doubles the energy of the buffer |
| Fft.FastEnergy | libs/resonance/src/dsp.rs:70-104 | the transform multiplies the energy by its size |
| Fft.FftContext.Reverse | libs/resonance/src/dsp.rs:45-51 | the loop over the bits computes the reversal |
| Fft.FftContext.constructor | libs/resonance/src/dsp.rs:38-68 | the table holds the reversals and the factors are the powers of the root |
| Fft.FftContext.Permute | libs/resonance/src/dsp.rs:73-79 | the swap loop puts the buffer in bit-reversed order |
| Fft.FftContext.Block | libs/resonance/src/dsp.rs:87-100 | the butterflies of one block, everything outside it unchanged |
| Fft.FftContext.Process | libs/resonance/src/dsp.rs:70-104 | in place, the buffer becomes its Fourier transform for every power of two, with the energy times the size |
| Xhci.CommandRing.Push | unaos/crates/kernel/src/xhci/ring.rs:75-105 | one slot holds the block pushed, with bit 0 of its control word the cycle and every other bit and field as given; the cursor advances and flips at the end; a producer step of the protocol |
| Xhci.EventRing.Pop | unaos/crates/kernel/src/xhci/event.rs:58-75 | a fresh slot is returned and passed, a stale one is not; a consumer step of the protocol |
| Xhci.SeesOldest | unaos/crates/kernel/src/xhci/event.rs:52-56 | the consumer sees a block if and only if one is outstanding, and it is the oldest |
| Xhci.RingIsQueue | unaos/crates/kernel/src/xhci/ring.rs:75-105 | over any laps and any interleaving with at most a ring full outstanding, pops return what a queue would, apart from the cycle bit |
| Xhci.PoppedIsPrefix | unaos/crates/kernel/src/xhci/event.rs:52-75 | the popped blocks are the first of the pushed ones in order, equal in parameter, status and all of control but bit 0, and a block is seen exactly while fewer were popped than pushed |
| Xhci.OverrunHidesAll | unaos/crates/kernel/src/xhci/ring.rs:98-102 | after a push the consumer sees a block if and only if the ring was not full before |
| AudioGraph.Graph.AddNode | libs/resonance/src/graph.rs:62-68 | the node is last, without wires |
| AudioGraph.Graph.Connect | libs/resonance/src/graph.rs:77-93 | one port is wired, others of the node and other nodes are not touched |
| AudioGraph.Graph.CollectInputs | libs/resonance/src/graph.rs:121-147 | the inputs are those of the dataflow meaning, up to the highest wired port |
| AudioGraph.Graph.Process | libs/resonance/src/graph.rs:113-166 | one pass takes every node to the state and output that its step makes of its old state and of what earlier nodes put out in this pass, silence elsewhere; this is the recursive dataflow meaning, whatever the buffers held |
| AudioGraph.PassSteps | libs/resonance/src/graph.rs:113-166 | the recursive meaning is such a pass |
| AudioGraph.SourceIterates | libs/resonance/src/graph.rs:150-160 | over any number of passes a node without wires takes one step of its own in each |
| AudioGraph.WiringIsLocal | libs/resonance/src/graph.rs:77-166 | wiring into a node leaves the nodes below it unchanged, in this pass and all that follow |
| AudioPump.ReadOn | libs/resonance/src/audio.rs:143-159 | what is read after some frames does not depend on how they were grouped |
| AudioPump.SplitDoesNotMatter | libs/resonance/src/audio.rs:135-167 | for any split of the frames into callbacks the output is that of one callback |
| AudioPump.WholeFrames | libs/resonance/src/audio.rs:138-167 | a buffer of whole frames takes exactly that many |
| AudioPump.SamplesAreBlocks | libs/resonance/src/audio.rs:63-64 | from the start, frame i is sample i mod 64 of block i div 64 |
| AudioPump.FrameAt | libs/resonance/src/audio.rs:157-166 | value `i` of the output is the sample of frame `i / channels`, narrowed |
| AudioPump.Pump.NextSample | libs/resonance/src/audio.rs:145-161 | the next sample, from a new block when the present one is used up |
| AudioPump.Pump.WriteOutput | libs/resonance/src/audio.rs:135-167 | the callback puts each sample on all channels, and leaves the state after that many frames |
| AudioPump.Pump.Play | libs/resonance/src/audio.rs:135-167 | callbacks one after the other, for whole frames, into any arrays: what is put out and the state after are those of one callback for all the frames |
| Arw2.ReadBits | libs/lux/src/parser.rs:265-279 | the next bits of the data, taken as one number with the first byte lowest, by division and remainder, or nothing at the end |
| Arw2.PixelAt | libs/lux/src/parser.rs:281-318 | every pixel in numbers: each sixteenth is twice eleven bits of the stream, every other one the pixel before it plus seven signed bits, kept between 0 and 16383, and zero where the stream has ended |
| Arw2.ReadRow | libs/lux/src/parser.rs:296-314 | the deltas of one block, as far as pixels and bits go |
| Arw2.DecodeAll | libs/lux/src/parser.rs:259-317 | the decoder ends with exactly the pixels asked for, none above 16383, equal to the decoding of the bit stream padded with zeros |
| Arw2.DecompressRaw | libs/lux/src/parser.rs:235-322 | which compressions are decoded, passed through or refused |
| Arw2.PicturePrefix | libs/lux/src/parser.rs:284-317 | a truncated stream gives the first pixels of the whole picture and then zeros |
| Arw2.PackRoundTrips | libs/lux/src/parser.rs:281-314 | decoding inverts packing, whatever the table index and whatever follows |
| Arw2.DecodableIff | libs/lux/src/parser.rs:281-314 | the pictures that some stream decodes to are exactly those that pack |
| Ipv4.Fold | unaos/crates/net/src/ipv4.rs:90-93 | the loop ends, and keeps the residue and being zero |
| Ipv4.VerifyChecksum | unaos/crates/net/src/ipv4.rs:80-97 | true if and only if the sum of the header words is a positive multiple of 65535 |
| Ipv4.ComplementOfFold | unaos/crates/net/src/ipv4.rs:90-97 | the complement of the folded sum is the checksum that a sender stores |
| Ipv4.OneChangeIff | unaos/crates/net/src/ipv4.rs:25-97 | changing one word of an accepted header, and not its length field, goes unnoticed if and only if it is no change or one between 0x0000 and 0xFFFF |
| Ipv4.LengthChangeIff | unaos/crates/net/src/ipv4.rs:25-97 | changing the length field of an accepted header goes unnoticed if and only if the buffer is long enough and the words gained or lost cancel the change |
| Ipv4.LengthChangeUnnoticed | unaos/crates/net/src/ipv4.rs:80-97 | a buffer of 24 bytes for which it does |
| Ipv4.ByteChangeIff | unaos/crates/net/src/ipv4.rs:25-97 | changing any byte of an accepted header but the first goes unnoticed if and only if it lies past the length that the header claims |
| Ipv4.AddressesUnread | unaos/crates/net/src/ipv4.rs:25-46 | an accepted header with a length field of 3, which stays accepted with any addresses |
| Ipv4.ChecksumChecksOut | unaos/crates/net/src/ipv4.rs:80-97 | the sender's checksum makes a header valid, and is the only word that does, up to the two zeros |

## Left out

- FileSystem.UnaFS.WriteData: writes that start past the end of the file, where the block map can go wrong; see PlaceMapsIff.
- FileSystem.UnaFS.SetAttribute: keys whose journal entry does not fit a block, for which the code does not come back; the message published after a change.
- FileSystem.UnaFS.RunQuery: takes the parsed query; the arithmetic of the similarity score is any function.
- FileSystem.UnaFS.ResolvePath: asks for a tree of names, which every run keeps.
- FileSystem.UnaFS.Mount: takes, as ghosts, the inodes and owners that were last synced to the device.
- Failed calls: what a call that fails leaves behind (leaked blocks, an attribute whose blocks were freed before its inode was written) is not described, only when it may fail on a device that does not.
- Inode numbers that are no inode but whose block decodes as one: calls ask that reading the number fails or finds an inode.
- Runs in which callers write over directories or the catalog file by number.
- Storage.Device.WriteBlock: a device has fewer than 2^64 blocks. A read past the end of a file fails with another error than one past the end of memory; here it is the same one.
- Widths: inode numbers, sizes and counters are not wrapped at 64 bits, nor ids in journal text; offsets in the photo decoder and the product of width and height are not wrapped at 32 bits.
- bincode: its format, its behaviour on malformed bytes, and how the hash of a value is mixed.
- Journal: torn blocks, what the scan decodes after the log has wrapped or was started over old entries after a mount; no recovery is attempted by the code either.
- QueryText.Parse: the loops over operators and over the numbers of a vector are recursive functions; white space beyond ASCII; how numbers are printed and read, which is abstract.
- QueryText.PanicsIff: cuts off ASCII white space only, where the code cuts off any.
- Encoding.TornCallUnseen: has the key lengths of the stand-in encoders, not those of bincode.
- Encoding.WholeCallReported: has the key lengths of the stand-in encoders, not those of bincode.
- Sorting and cutting of results in `search_memories`, and the other queries of Vein.
- Fft.FftContext.constructor: sine and cosine; the root is given and its powers are the factors. Rounding of 32-bit floats; numbers are real.
- AudioGraph.Graph.Process: parameters and the context of nodes; a node is its state and a step that writes a whole block.
- AudioPump.Pump.WriteOutput: the command queue, whose commands have no effect in the code; the narrowing of a sample is any function.
- Xhci.CommandRing.Push: memory order and cache flushes; the peer in hardware is taken to follow the same rules. `push_noop`, which ignores the cycle, and link blocks.
- Arw2.DecompressRaw: the surrounding picture file and the demosaicing.
- Ipv4.VerifyChecksum: the other fields of the header.
- User interface, network clients, boot loader and drivers other than the rings.
