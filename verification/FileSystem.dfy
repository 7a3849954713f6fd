/** UnaFS: the calls that keep device, bitmap, superblock, inodes and journal in step. */
module FileSystem {
  import opened Storage
  import opened Types
  import opened Bitmap
  import opened Extents
  import opened Overlay
  import opened Image
  import opened Counter
  import opened Updates
  import opened Query
  import opened Directory
  import opened Layout
  import Journal

  class UnaFS {
    const codecs: Codecs
    const hashes: Hashes
    const cosine: Cosine
    const device: Device
    const bitmap: SpaceMap
    const journal: Journal.Journal
    var superblock: Superblock
    /** The inodes as last written, and what each used block is for. */
    ghost var inodes: Inodes
    ghost var owner: Owners

    ghost predicate Environment() {
      codecs.Lawful() && codecs.FitsBlocks() && journal.codec == codecs.op
    }

    ghost predicate Sized()
      reads this`superblock, bitmap
    {
      && DivCeil(|bitmap.bits|) == superblock.bitmapBlocks
      && superblock.blockCount <= bitmap.blockCount <= 8 * |bitmap.bits|
      && Below(bitmap.Used(), bitmap.blockCount)
    }

    lemma SizedIs()
      ensures Sized() <==>
                && DivCeil(|bitmap.bits|) == superblock.bitmapBlocks
                && superblock.blockCount <= bitmap.blockCount <= 8 * |bitmap.bits|
                && Below(bitmap.Used(), bitmap.blockCount)
    {
    }

    /** Bitmap and ownership agree, for inodes that need not be written yet. */
    ghost predicate Tracks(cur: Inodes)
      reads this`superblock, this`owner, device, bitmap
    {
      && device.Valid()
      && LaidOut(superblock) && Sized()
      && Owned(superblock.blockCount, cur, owner) && Within(owner, |device.blocks|)
      && bitmap.Used() == owner.Keys
    }

    ghost predicate Good()
      reads this, device, bitmap, journal
    {
      && Environment() && device.Valid()
      && Sized()
      && bitmap.Used() == owner.Keys
      && Consistent(codecs, device.blocks, superblock, inodes, owner)
      && journal.ValidOn(device.blocks)
    }

    /** The free-block counter is right. */
    ghost predicate Counted()
      reads this`superblock, bitmap
    {
      CountsClear(superblock, bitmap.Used())
    }

    /** How many blocks can be in use when each is read before it is written. */
    ghost function Space(): nat
      reads device
    {
      Min(|device.blocks|, bitmap.blockCount)
    }

    /** How many blocks can be in use at all: a device that grows ends before 2^64 blocks. */
    ghost function Room(): nat
      reads device
    {
      Min(if device.grows then WORDS - 1 else |device.blocks|, bitmap.blockCount)
    }

    lemma SpaceIs()
      ensures Space() <= |device.blocks| && Space() <= bitmap.blockCount
      ensures Space() == |device.blocks| || Space() == bitmap.blockCount
      ensures Room() <= bitmap.blockCount && (!device.grows ==> Room() == Space())
      ensures device.grows ==> Room() + 1 <= WORDS && (Room() == bitmap.blockCount || Room() + 1 == WORDS)
      ensures Counted() <==> CountsClear(superblock, bitmap.Used())
    {
    }

    /** The device has the current superblock and bitmap. */
    ghost predicate Synced()
      reads this`superblock, device, bitmap
    {
      && |device.blocks| > 0
      && codecs.superblock.dec(device.blocks[0]) == Some(superblock)
      && Saved(device.blocks, BITMAP_START, bitmap.bits)
    }

    ghost predicate Valid()
      reads this, device, bitmap, journal
    {
      Good() && Synced()
    }

    ghost function Files(): Files
      reads this`inodes, device
    {
      View(codecs, device.blocks, inodes)
    }

    constructor (codecs: Codecs, hashes: Hashes, cosine: Cosine, device: Device, bitmap: SpaceMap,
                 journal: Journal.Journal, superblock: Superblock, ghost inodes: Inodes, ghost owner: Owners)
      ensures this.codecs == codecs && this.hashes == hashes && this.cosine == cosine
      ensures this.device == device && this.bitmap == bitmap && this.journal == journal
      ensures this.superblock == superblock && this.inodes == inodes && this.owner == owner
    {
      this.codecs, this.hashes, this.cosine := codecs, hashes, cosine;
      this.device, this.bitmap, this.journal := device, bitmap, journal;
      this.superblock, this.inodes, this.owner := superblock, inodes, owner;
    }

    // ----- formatting and mounting

    /** Marks the superblock, the journal and the bitmap itself as used. */
    static method MarkSystem(bitmap: SpaceMap, superblock: Superblock)
      requires bitmap.Used() == {} && superblock == NewSuperblock(superblock.blockCount)
      modifies bitmap`bits
      ensures |bitmap.bits| == |old(bitmap.bits)|
      ensures bitmap.Used() == Range(Min(SystemEnd(superblock.blockCount), 8 * |bitmap.bits|))
    {
      hide UsedIn, DivCeil, Range;
      ghost var capacity := 8 * |bitmap.bits|;
      RangeStarts(capacity);
      MarkAppends(0, capacity);
      bitmap.MarkUsed(0);
      for i := 0 to superblock.journalBlocks
        invariant |bitmap.bits| == |old(bitmap.bits)| && bitmap.Used() == Range(Min(JOURNAL_START + i, capacity))
      {
        MarkAppends(JOURNAL_START + i, capacity);
        bitmap.MarkUsed(superblock.journalStart + i);
      }
      for i := 0 to superblock.bitmapBlocks
        invariant |bitmap.bits| == |old(bitmap.bits)| && bitmap.Used() == Range(Min(BITMAP_START + i, capacity))
      {
        MarkAppends(BITMAP_START + i, capacity);
        bitmap.MarkUsed(superblock.bitmapStart + i);
      }
    }

    /** Takes the next block and stores an empty inode there. */
    static method FormatInode(codecs: Codecs, device: Device, bitmap: SpaceMap, kind: FileKind, ghost next: nat)
      returns (r: Result<nat>)
      requires device.Valid() && bitmap.blockCount <= 8 * |bitmap.bits|
      requires bitmap.Used() == Range(Min(next, 8 * |bitmap.bits|))
      modifies device, bitmap`bits
      ensures device.Valid() && |bitmap.bits| == |old(bitmap.bits)|
      ensures r.Ok? ==>
                && r.value == next < bitmap.blockCount
                && bitmap.Used() == Range(Min(next + 1, 8 * |bitmap.bits|))
                && |codecs.inode.enc(NewInode(next, kind))| <= BLOCK_SIZE
                && device.blocks == Put(old(device.blocks), next, Padded(codecs.inode.enc(NewInode(next, kind))))
      ensures device.reliable && next < bitmap.blockCount && old(device.HasPlace(next)) ==>
                (|codecs.inode.enc(NewInode(next, kind))| <= BLOCK_SIZE ==> r.Ok?)
    {
      hide UsedIn, Range;
      var id := bitmap.Allocate();
      FirstFitAppends(next, 8 * |bitmap.bits|, bitmap.blockCount, id);
      if id.None? {
        return Err(NoSpace);
      }
      var bytes := codecs.inode.enc(NewInode(id.value, kind));
      if |bytes| > BLOCK_SIZE {
        return Err(InodeTooLarge);
      }
      var w := device.WriteBlock(id.value, Padded(bytes));
      r := if w.Err? then Err(w.error) else Ok(id.value);
    }

    /** The two inodes, the bitmap and the superblock of a new file system. */
    static method FormatBlocks(codecs: Codecs, device: Device, bitmap: SpaceMap, superblock0: Superblock)
      returns (r: Result<Superblock>)
      requires codecs.Lawful() && codecs.FitsBlocks() && device.Valid() && JOURNAL_START < |device.blocks|
      requires superblock0 == NewSuperblock(superblock0.blockCount) && superblock0.blockCount < WORDS
      requires bitmap.blockCount == superblock0.blockCount && |bitmap.bits| == (superblock0.blockCount + 7) / 8
      requires bitmap.Used() == Range(Min(SystemEnd(superblock0.blockCount), 8 * |bitmap.bits|))
      modifies device, bitmap`bits
      ensures device.Valid() && |bitmap.bits| == |old(bitmap.bits)|
      ensures r.Ok? ==>
                && FreshOn(codecs, device.blocks, superblock0.blockCount)
                && |device.blocks| == LengthFor(|old(device.blocks)|, SystemEnd(superblock0.blockCount) + 2)
                && r.value == FreshSuperblock(superblock0.blockCount)
                && bitmap.Used() == Range(Min(SystemEnd(superblock0.blockCount) + 2, 8 * |bitmap.bits|))
                && codecs.superblock.dec(device.blocks[0]) == Some(r.value)
                && Saved(device.blocks, BITMAP_START, bitmap.bits)
                && JournalFrom(old(device.blocks), device.blocks)
      ensures device.reliable && FormatFits(codecs, superblock0.blockCount) ==>
                (superblock0.blockCount <= |old(device.blocks)| || device.grows ==> r.Ok?)
    {
      hide *;
      var superblock := superblock0;
      ghost var blocks0, n := device.blocks, superblock0.blockCount;
      FormatStarts(codecs, n, |bitmap.bits|);
      FormatEnds(n, |bitmap.bits|);
      PlaceIs(device, SystemEnd(n));
      var root := FormatInode(codecs, device, bitmap, Directory, SystemEnd(n));
      if root.Err? {
        return Err(root.error);
      }
      superblock := superblock.(rootInode := root.value, freeBlocks := OneLess(superblock.freeBlocks));
      PlaceIs(device, SystemEnd(n) + 1);
      var catalog := FormatInode(codecs, device, bitmap, System, SystemEnd(n) + 1);
      if catalog.Err? {
        return Err(catalog.error);
      }
      superblock := superblock.(catalogInode := catalog.value, freeBlocks := OneLess(superblock.freeBlocks));
      MakeFormatFits(codecs, n);
      FreshSuperblockIs(n, superblock);
      ghost var blocks2 := device.blocks;
      WithInodesIs(codecs, blocks0, SystemEnd(n));
      var w := bitmap.Save(device, superblock.bitmapStart);
      if w.Err? {
        return Err(w.error);
      }
      ghost var blocks3 := device.blocks;
      PlaceIs(device, 0);
      w := device.WriteBlock(0, Padded(codecs.superblock.enc(superblock)));
      if w.Err? {
        return Err(w.error);
      }
      FormatStored(codecs, n, blocks0, blocks2, blocks3, device.blocks, bitmap.bits);
      r := Ok(superblock);
    }

    static lemma PlaceIs(device: Device, id: nat)
      ensures device.HasPlace(id) <==> id < |device.blocks| || (device.grows && id + 1 < WORDS)
      ensures device.Valid() ==> WholeBlocks(device.blocks) && |device.blocks| < WORDS
    {
    }

    /**
     * Makes an empty file system on the device. It succeeds exactly when there is room for one. An
     * empty device that grows ends after the two inodes: it has not all the blocks that it counts.
     */
    static method Format(codecs: Codecs, hashes: Hashes, cosine: Cosine, device: Device, sizeMb: nat)
      returns (r: Result<UnaFS>)
      requires codecs.Lawful() && codecs.FitsBlocks() && device.Valid()
      modifies device
      ensures device.Valid()
      ensures var n := CountFor(old(device.blocks), sizeMb);
              && (r.Ok? ==>
                    && fresh(r.value) && fresh(r.value.bitmap) && fresh(r.value.journal)
                    && r.value.device == device
                    && r.value.codecs == codecs
                    && r.value.hashes == hashes
                    && r.value.cosine == cosine
                    && r.value.Valid() && r.value.Counted() && r.value.owner == FreshOwner(n)
                    && r.value.superblock == FreshSuperblock(n) && r.value.bitmap.blockCount == n
                    && |device.blocks| == (if old(|device.blocks|) > 0 then n else SystemEnd(n) + 2)
                    && r.value.Files() == FreshFiles(r.value.superblock.rootInode, r.value.superblock.catalogInode)
                    && r.value.journal.logged == []
                    && r.value.journal.clean == if Journal.Blank(old(device.blocks)) then Journal.JOURNAL_BYTES
                         else BLOCK_SIZE)
              && (r.Ok? ==> FormatFits(codecs, n) && (old(|device.blocks|) > 0 || device.grows))
              && (device.reliable && FormatFits(codecs, n) && (old(|device.blocks|) > 0 || device.grows) ==> r.Ok?)
    {
      hide *;
      var blockCount := |device.blocks|;
      if blockCount == 0 {
        blockCount := BlocksFromSize(sizeMb);
      }
      ghost var before := device.blocks;
      CountIs(before, sizeMb);
      PlaceIs(device, JOURNAL_START);
      var superblock := NewSuperblock(blockCount);
      var bitmap := new SpaceMap(blockCount);
      FormatStarts(codecs, blockCount, |bitmap.bits|);
      var journal :=
          new Journal.Journal(codecs.op, [], if Journal.Blank(before) then Journal.JOURNAL_BYTES else BLOCK_SIZE);
      MarkSystem(bitmap, superblock);
      var w := journal.Reset(device);
      if w.Err? {
        return Err(w.error);
      }
      ghost var blocks0 := device.blocks;
      ResetPlaces(before, blocks0, blockCount);
      var stored := FormatBlocks(codecs, device, bitmap, superblock);
      if stored.Err? {
        return Err(stored.error);
      }
      FreshFits(codecs, device.blocks, blockCount);
      FormatLength(|before|, |blocks0|, blockCount, codecs, device.blocks);
      PlaceIs(device, 0);
      JournalStarts(codecs, journal, before, blocks0, device.blocks);
      var fs := Assemble(codecs, hashes, cosine, device, bitmap, journal, stored.value);
      r := Ok(fs);
    }

    static lemma CountIs(blocks: seq<seq<Byte>>, sizeMb: nat)
      ensures CountFor(blocks, sizeMb) == if |blocks| == 0 then BlocksFromSize(sizeMb) else |blocks|
      ensures |blocks| < WORDS ==> CountFor(blocks, sizeMb) < WORDS
    {
    }

    static lemma FormatLength(had: nat, has: nat, n: nat, codecs: Codecs, blocks: seq<seq<Byte>>)
      requires has == LengthFor(had, JOURNAL_START + 1) && (had > 0 ==> n == had) && FreshOn(codecs, blocks, n)
      ensures LengthFor(has, SystemEnd(n) + 2) == if had > 0 then n else SystemEnd(n) + 2
      ensures JOURNAL_END <= |blocks| && FormatFits(codecs, n)
    {
    }

    static lemma ResetPlaces(before: seq<seq<Byte>>, after: seq<seq<Byte>>, n: nat)
      requires after == Put(before, JOURNAL_START, Zeros(BLOCK_SIZE))
      ensures |after| == LengthFor(|before|, JOURNAL_START + 1) && JOURNAL_START < |after|
    {
    }

    /** The journal of a new file system: zero as far as the device was, or was made. */
    static lemma JournalStarts(codecs: Codecs, journal: Journal.Journal, before: seq<seq<Byte>>, reset: seq<seq<Byte>>,
                               after: seq<seq<Byte>>)
      requires reset == Put(before, JOURNAL_START, Zeros(BLOCK_SIZE)) && JournalFrom(reset, after) && WholeBlocks(after)
      requires journal.codec.Lawful() && journal.writeOffset == 0 && journal.logged == [] && journal.base == 0
      requires journal.tail == Journal.Live
      requires journal.zeroEnd == journal.clean == if Journal.Blank(before) then Journal.JOURNAL_BYTES else BLOCK_SIZE
      ensures journal.ValidOn(after)
    {
      hide Journal.Journal.ValidOn, Journal.Journal.HoldsOn, Journal.ZeroBytes, Journal.Region;
      Journal.ZeroRegion(after, Journal.Blank(before));
      journal.StartsOn(after);
    }

    static method Assemble(codecs: Codecs, hashes: Hashes, cosine: Cosine, device: Device, bitmap: SpaceMap,
                           journal: Journal.Journal, superblock: Superblock)
      returns (fs: UnaFS)
      requires codecs.Lawful() && codecs.FitsBlocks() && device.Valid()
      requires FreshOn(codecs, device.blocks, bitmap.blockCount)
      requires superblock == FreshSuperblock(bitmap.blockCount)
      requires |bitmap.bits| == (bitmap.blockCount + 7) / 8
      requires bitmap.Used() == Range(Min(SystemEnd(bitmap.blockCount) + 2, 8 * |bitmap.bits|))
      requires journal.codec == codecs.op && journal.ValidOn(device.blocks)
      requires |device.blocks| > 0 && codecs.superblock.dec(device.blocks[0]) == Some(superblock)
      requires Saved(device.blocks, BITMAP_START, bitmap.bits)
      ensures fresh(fs) && fs.device == device && fs.bitmap == bitmap && fs.journal == journal
      ensures fs.codecs == codecs && fs.hashes == hashes && fs.cosine == cosine && fs.superblock == superblock
      ensures fs.Valid() && fs.Counted() && fs.owner == FreshOwner(bitmap.blockCount)
      ensures fs.Files() == FreshFiles(superblock.rootInode, superblock.catalogInode)
    {
      hide *;
      ghost var n := bitmap.blockCount;
      fs := new UnaFS(codecs, hashes, cosine, device, bitmap, journal, superblock,
                      FreshInodes(SystemEnd(n), SystemEnd(n) + 1), FreshOwner(n));
      fs.Formatted();
      fs.MakeSynced();
    }

    /** The invariant holds of a new file system. */
    lemma Formatted()
      requires codecs.Lawful() && codecs.FitsBlocks() && device.Valid()
      requires FreshOn(codecs, device.blocks, bitmap.blockCount)
      requires var n := bitmap.blockCount;
               && superblock == FreshSuperblock(n)
               && owner == FreshOwner(n)
               && inodes == FreshInodes(SystemEnd(n), SystemEnd(n) + 1)
               && |bitmap.bits| == (n + 7) / 8
               && bitmap.Used() == Range(Min(SystemEnd(n) + 2, 8 * |bitmap.bits|))
      requires journal.codec == codecs.op && journal.ValidOn(device.blocks)
      ensures Good() && Counted() && Files() == FreshFiles(superblock.rootInode, superblock.catalogInode)
    {
      hide *;
      ghost var n := bitmap.blockCount;
      FreshFits(codecs, device.blocks, n);
      FormatSizes(n);
      FreshSize(n);
      FreshSuper(n);
      FreshConsistent(codecs, device.blocks, n);
      FilesAre();
      FormatSized();
      MakeGood();
      SpaceIs();
    }

    lemma MakeSynced()
      requires |device.blocks| > 0 && codecs.superblock.dec(device.blocks[0]) == Some(superblock)
      requires Saved(device.blocks, BITMAP_START, bitmap.bits)
      ensures Synced()
      ensures Good() ==> Valid()
    {
    }

    lemma FormatSized()
      requires var n := bitmap.blockCount;
               && |bitmap.bits| == (n + 7) / 8 && SystemEnd(n) + 2 <= n
               && superblock == FreshSuperblock(n) && bitmap.Used() == Range(SystemEnd(n) + 2)
      requires codecs.Lawful() && codecs.FitsBlocks() && journal.codec == codecs.op
      ensures Sized() && Environment()
    {
      hide UsedIn;
    }

    /** The superblock in block 0, if it is one of this version. */
    static method ReadSuperblock(codecs: Codecs, device: Device) returns (r: Result<Superblock>)
      requires device.Valid()
      ensures r.Ok? ==>
                |device.blocks| > 0 && codecs.superblock.dec(device.blocks[0]) == Some(r.value) && IsCurrent(r.value)
      ensures device.reliable && HasSuperblock(codecs, device.blocks) ==> r.Ok?
    {
      var block := device.ReadBlock(0);
      if block.Err? {
        return Err(block.error);
      }
      match codecs.superblock.dec(block.value)
      case None => return Err(BadSuperblock);
      case Some(sb) =>
        if sb.magic != MAGIC || sb.version != VERSION || sb.blockSize != BLOCK_SIZE {
          return Err(BadSuperblock);
        }
        r := Ok(sb);
    }

    /**
     * Opens the file system on a device, and reports whether its journal has open operations. If
     * `inodes` and `owner` describe what was last synced there, all of it is found again.
     */
    static method Mount(codecs: Codecs, hashes: Hashes, cosine: Cosine, device: Device,
                        ghost inodes: Inodes, ghost owner: Owners, ghost bits: seq<Byte>)
      returns (r: Result<(UnaFS, bool)>)
      requires codecs.Lawful() && codecs.FitsBlocks() && device.Valid()
      ensures r.Ok? ==>
                var (fs, dirty) := r.value;
                && fresh(fs) && fresh(fs.bitmap) && fresh(fs.journal)
                && fs.device == device && fs.codecs == codecs && fs.hashes == hashes && fs.cosine == cosine
                && |device.blocks| > 0
                && codecs.superblock.dec(device.blocks[0]) == Some(fs.superblock)
                && IsCurrent(fs.superblock) && fs.bitmap.blockCount == fs.superblock.bitmapBlocks * BLOCK_SIZE * 8
                && (OnDevice(codecs, device.blocks, fs.superblock, inodes, owner, bits) ==>
                      && fs.Valid() && fs.inodes == inodes && fs.owner == owner
                      && fs.Files() == View(codecs, device.blocks, inodes)
                      && WholeBlocks(device.blocks) && JOURNAL_END <= |device.blocks|
                      && dirty == Journal.Dirty(Journal.Scan(codecs.op, Journal.Region(device.blocks), 0)))
                && fs.journal.logged == []
      ensures device.reliable && HasSuperblock(codecs, device.blocks)
              && OnDevice(codecs, device.blocks, codecs.superblock.dec(device.blocks[0]).value, inodes, owner, bits)
              ==> r.Ok?
    {
      hide *;
      var sb := ReadSuperblock(codecs, device);
      if sb.Err? {
        return Err(sb.error);
      }
      var superblock := sb.value;
      MountParts(codecs, device.blocks, superblock, inodes, owner, bits);
      var bitmap := SpaceMap.Load(device, superblock.bitmapStart, superblock.bitmapBlocks);
      if bitmap.Err? {
        return Err(bitmap.error);
      }
      OperationsLawful(codecs);
      var journal := new Journal.Journal(codecs.op, device.blocks, 0);
      var dirty := journal.CheckRecovery(device);
      if dirty.Err? {
        return Err(dirty.error);
      }
      var fs := new UnaFS(codecs, hashes, cosine, device, bitmap.value, journal, superblock, inodes, owner);
      if OnDevice(codecs, device.blocks, superblock, inodes, owner, bits) {
        fs.Mounted(bits);
      }
      r := Ok((fs, dirty.value));
    }

    lemma Mounted(bits: seq<Byte>)
      requires codecs.Lawful() && codecs.FitsBlocks() && journal.codec == codecs.op
      requires OnDevice(codecs, device.blocks, superblock, inodes, owner, bits)
      requires device.Valid() && Loaded(device.blocks, superblock.bitmapStart, superblock.bitmapBlocks, bitmap.bits)
      requires bitmap.blockCount == superblock.bitmapBlocks * BLOCK_SIZE * 8
      requires journal.ValidOn(device.blocks)
      ensures Valid() && Files() == View(codecs, device.blocks, inodes)
    {
      hide *;
      FilesAre();
      OnDeviceParts(codecs, device.blocks, superblock, inodes, owner, bits);
      LoadedBitmap(codecs, device.blocks, superblock, inodes, owner, bits, bitmap.bits);
      MountedSized();
      MakeGood();
      MakeSynced();
    }

    lemma ValidParts()
      requires Valid()
      ensures Good() && Synced() && Environment() && codecs.Lawful() && codecs.FitsBlocks() && device.Valid()
    {
    }

    lemma JournalWhole()
      requires journal.ValidOn(device.blocks) && Environment()
      ensures WholeBlocks(device.blocks) && JOURNAL_END <= |device.blocks| && journal.codec == codecs.op
    {
    }

    lemma SyncedSuperblock()
      requires Valid()
      ensures |device.blocks| > 0 && codecs.superblock.dec(device.blocks[0]) == Some(superblock)
    {
    }

    lemma MakeValid()
      requires Good() && Synced()
      ensures Valid()
    {
    }

    lemma MountedSized()
      requires DivCeil(|bitmap.bits|) == superblock.bitmapBlocks && superblock.blockCount <= |bitmap.bits| * 8
      requires |bitmap.bits| == superblock.bitmapBlocks * BLOCK_SIZE
      requires bitmap.blockCount == superblock.bitmapBlocks * BLOCK_SIZE * 8
      requires codecs.Lawful() && codecs.FitsBlocks() && journal.codec == codecs.op
      ensures Sized() && Environment()
      ensures bitmap.Used() == UsedIn(bitmap.bits)
    {
    }

    /** Whatever was done, a file system that is in step with its device can be mounted again. */
    lemma SyncedImage()
      requires Valid()
      ensures OnDevice(codecs, device.blocks, superblock, inodes, owner, bitmap.bits)
      ensures HasSuperblock(codecs, device.blocks)
    {
    }

    /**
     * Two file systems over the same used blocks, as before and after a mount, allocate the same
     * block next exactly if one is free below both limits, or the limits are the same. A block that
     * the counter counts as free is.
     */
    lemma NextBlockAgrees(other: UnaFS, r: Option<nat>, s: Option<nat>)
      requires Good() && other.Good() && other.superblock == superblock && other.bitmap.Used() == bitmap.Used()
      requires IsLeastFree(bitmap.Used(), bitmap.blockCount, r)
      requires IsLeastFree(other.bitmap.Used(), other.bitmap.blockCount, s)
      ensures r == s <==>
                || |bitmap.Used()| < Min(bitmap.blockCount, other.bitmap.blockCount)
                || bitmap.blockCount == other.bitmap.blockCount
      ensures Counted() && superblock.freeBlocks > 0 ==> r == s
    {
      hide *;
      GoodImage();
      GoodParts();
      SizedIs();
      other.GoodImage();
      other.GoodParts();
      other.SizedIs();
      SpaceIs();
      LimitsAgree(bitmap.Used(), bitmap.blockCount, other.bitmap.blockCount, r, s);
      MinIs(bitmap.blockCount, other.bitmap.blockCount);
      if Counted() && superblock.freeBlocks > 0 {
        CountedRoom(bitmap.Used(), Min(bitmap.blockCount, other.bitmap.blockCount));
      }
    }

    lemma CountedRoom(used: set<nat>, limit: nat)
      requires CountsClear(superblock, used) && superblock.freeBlocks > 0 && superblock.blockCount <= limit
      requires Below(used, limit)
      ensures |used| < limit
    {
      var b :| b in Range(superblock.blockCount) - used;
      RoomLeft(used, limit, b);
    }

    // ----- blocks

    method AllocateBlock() returns (r: Result<nat>)
      requires Sized()
      modifies this`superblock, bitmap`bits
      ensures Sized()
      ensures r.Ok? ==> IsLeastFree(old(bitmap.Used()), bitmap.blockCount, Some(r.value))
      ensures r.Ok? ==> bitmap.Used() == old(bitmap.Used()) + {r.value} && superblock == OneTaken(old(superblock))
      ensures r.Ok? ==>
                superblock.freeBlocks == if old(superblock.freeBlocks) > 0 then old(superblock.freeBlocks) - 1 else 0
      ensures r.Err? ==> r.error == NoSpace && IsLeastFree(old(bitmap.Used()), bitmap.blockCount, None)
      ensures r.Err? ==> superblock == old(superblock) && bitmap.Used() == old(bitmap.Used())
    {
      hide UsedIn;
      var b := bitmap.Allocate();
      if b.None? {
        return Err(NoSpace);
      }
      if superblock.freeBlocks > 0 {
        superblock := superblock.(freeBlocks := superblock.freeBlocks - 1);
      }
      r := Ok(b.value);
    }

    /** Takes a block for the first byte after the end of a file's extents. The device may end before that block. */
    method GrowFile(ghost cur: Inodes, inode: Inode, off: nat) returns (r: Result<(Inode, nat)>)
      requires Tracks(cur) && inode.id in cur && cur[inode.id] == inode
      requires Tiles(inode.chunks) && Total(inode.chunks) == off && off % BLOCK_SIZE == 0
      modifies this`superblock, this`owner, bitmap`bits
      ensures r.Ok? && r.value.1 < |device.blocks| ==>
                var (out, b) := r.value;
                && Tracks(cur[inode.id := out]) && Extends(old(owner), owner)
                && out == inode.(chunks := Place(inode.chunks, off, b))
                && Took(old(superblock), old(owner).Keys, superblock, owner.Keys, 1)
      ensures r.Err? || r.value.1 >= |device.blocks| ==> Space() <= |old(owner)|
      ensures r.Err? ==> r.error == NoSpace
    {
      hide *;
      TracksParts(cur);
      var taken := AllocateBlock();
      FreshBlock(owner.Keys, bitmap.blockCount, |device.blocks|, taken);
      SpaceIs();
      WithinBelow(owner, 0);
      if taken.Err? {
        return Err(taken.error);
      }
      var newBlock := taken.value;
      var out := inode.(chunks := Place(inode.chunks, off, newBlock));
      if newBlock < |device.blocks| {
        OneTakenKeeps(old(superblock));
        PlaceOwned(superblock.blockCount, cur, owner, inode, off, newBlock);
        TookOne(old(superblock), owner.Keys, bitmap.blockCount, newBlock);
        GrowKeys(owner, newBlock, Slot(DataOf(inode.id), |BlockList(inode.chunks)|));
        WithinMore(owner, |device.blocks|, newBlock, Slot(DataOf(inode.id), |BlockList(inode.chunks)|));
        owner := owner[newBlock := Slot(DataOf(inode.id), |BlockList(inode.chunks)|)];
        TookKeeps(old(superblock), old(owner).Keys, superblock, owner.Keys, 1);
        MakeTracks(cur[inode.id := out]);
      }
      r := Ok((out, newBlock));
    }

    /** The block for byte `off` of a file: the one that holds it, or a new one at the end. */
    method MapBlock(ghost cur: Inodes, inode: Inode, off: nat) returns (r: Result<(Inode, nat)>)
      requires Tracks(cur) && inode.id in cur && cur[inode.id] == inode
      requires Tiles(inode.chunks) && Total(inode.chunks) % BLOCK_SIZE == 0 && off <= Total(inode.chunks)
      modifies this`superblock, this`owner, bitmap`bits
      ensures r.Ok? && r.value.1 < |device.blocks| ==>
                var (out, b) := r.value;
                && Tracks(cur[inode.id := out]) && Extends(old(owner), owner)
                && out == inode.(chunks := out.chunks) && Maps(inode.chunks, out.chunks, off, b)
                && Took(old(superblock), old(owner).Keys, superblock, owner.Keys,
                        if off < Total(inode.chunks) then 0 else 1)
      ensures r.Err? || r.value.1 >= |device.blocks| ==>
                off == Total(inode.chunks) && Space() <= |old(owner)|
      ensures r.Err? ==> r.error == NoSpace
    {
      FoundMaps(inode.chunks, off);
      hide Tiles, Lookup, Place, Total, Owned, Maps, SystemEnd, Took, LaidOut, Sized, Space;
      var found := FindBlock(inode.chunks, off);
      if found.Some? {
        assert cur[inode.id := inode] == cur;
        FoundInside(superblock.blockCount, cur, owner, inode, off);
        TookNone(superblock, owner.Keys);
        return Ok((inode, found.value));
      }
      r := GrowFile(cur, inode, off);
      if r.Ok? && r.value.1 < |device.blocks| {
        PlacedMaps(inode.chunks, off, r.value.1);
      }
    }

    /** Reads, patches and rewrites one block of a file. */
    method WriteChunk(ghost cur: Inodes, inode: Inode, ghost size: nat, off: nat, chunk: seq<Byte>)
      returns (r: Result<Inode>)
      requires Tracks(cur) && inode.id in cur && cur[inode.id] == inode
      requires Tiles(inode.chunks) && Total(inode.chunks) % BLOCK_SIZE == 0
      requires off <= size <= Total(inode.chunks) && off % BLOCK_SIZE + |chunk| <= BLOCK_SIZE
      modifies this`superblock, this`owner, bitmap`bits, device
      ensures |device.blocks| == |old(device.blocks)| && Space() == old(Space())
      ensures r.Ok? ==>
                var out := r.value;
                && Tracks(cur[inode.id := out]) && Extends(old(owner), owner)
                && out == inode.(chunks := out.chunks)
                && Tiles(out.chunks)
                && Total(out.chunks) == Max(Total(inode.chunks), off / BLOCK_SIZE * BLOCK_SIZE + BLOCK_SIZE)
                && OnlyStream(old(device.blocks), device.blocks, owner, DataOf(inode.id))
                && Content(device.blocks, BlockList(out.chunks), Max(size, off + |chunk|))
                   == Overlaid(Content(old(device.blocks), BlockList(inode.chunks), size), off, chunk)
                && Took(old(superblock), old(owner).Keys, superblock, owner.Keys,
                        if off < Total(inode.chunks) then 0 else 1)
      ensures r.Err? && device.reliable ==>
                && off == Total(inode.chunks) && Space() <= |old(owner)|
                && (r.error == NoSpace || r.error.OutOfBounds?)
    {
      hide Tiles, Total, BlockList, Maps, SystemEnd, Content, Owned, Took, Sized, LaidOut;
      var mapped := MapBlock(cur, inode, off);
      if mapped.Err? {
        return Err(mapped.error);
      }
      var (out, b) := mapped.value;
      var block := device.ReadBlock(b);
      if block.Err? {
        return Err(block.error);
      }
      var o := off % BLOCK_SIZE;
      var w := device.WriteBlock(b, block.value[..o] + chunk + block.value[o + |chunk|..]);
      if w.Err? {
        return Err(w.error);
      }
      OwnedDistinct(superblock.blockCount, cur[inode.id := out], owner, out);
      ChunkStored(old(device.blocks), device.blocks, inode.chunks, out.chunks, size, off, b, chunk);
      MapsOwned(superblock.blockCount, cur[inode.id := out], owner, inode.chunks, out, off, b);
      r := Ok(out);
    }

    /** `PartlyStored` on the device, with bitmap and ownership in step. */
    ghost predicate PartlyWritten(inode0: Inode, inode: Inode, blocks0: seq<seq<Byte>>, owner0: Owners, sb0: Superblock,
                                  offset: nat, written: seq<Byte>)
      requires offset <= inode0.size
      reads this, device, bitmap
    {
      && Took(sb0, owner0.Keys, superblock, owner.Keys, BlocksLacking(inode0.size, offset, |written|))
      && |device.blocks| == |blocks0|
      && Tracks(inodes[inode.id := inode]) && Extends(owner0, owner)
      && PartlyStored(inode0, inode, blocks0, device.blocks, owner, offset, written)
    }

    lemma TracksInode(known: Inodes, inode: Inode)
      requires Tracks(known[inode.id := inode])
      ensures known[inode.id := inode][inode.id] == inode
    {
    }

    method WriteMore(ghost inode0: Inode, inode: Inode, ghost blocks0: seq<seq<Byte>>, ghost owner0: Owners,
                     ghost sb0: Superblock, offset: nat, data: seq<Byte>, done: nat) returns (r: Result<Inode>)
      requires offset <= inode0.size && done < |data|
      requires PartlyWritten(inode0, inode, blocks0, owner0, sb0, offset, data[..done])
      modifies this`superblock, this`owner, bitmap`bits, device
      ensures |device.blocks| == |old(device.blocks)| && Space() == old(Space())
      ensures r.Ok? ==>
                var n := PieceSize(offset + done, |data| - done);
                && 0 < n <= |data| - done
                && PartlyWritten(inode0, r.value, blocks0, owner0, sb0, offset, data[..done + n])
      ensures r.Err? && device.reliable ==>
                && Space() < |owner0| + BlocksLacking(inode0.size, offset, |data|)
                && (r.error == NoSpace || r.error.OutOfBounds?)
    {
      hide *;
      var off := offset + done;
      var n := PieceSize(off, |data| - done);
      ghost var cur, blocks1, owner1, sb1 := inodes[inode.id := inode], device.blocks, owner, superblock;
      PartlyParts(inode0, inode, blocks0, owner0, sb0, offset, data[..done]);
      MoreToWrite(inode0, inode, blocks0, blocks1, owner1, offset, data, done);
      TracksInode(inodes, inode);
      TookKeeps(sb0, owner0.Keys, sb1, owner1.Keys, BlocksLacking(inode0.size, offset, done));
      WithinBelow(owner0, 0);
      WithinBelow(owner1, 0);
      r := WriteChunk(cur, inode, Max(inode0.size, off), off, data[done..done + n]);
      if r.Ok? {
        assert cur[inode.id := r.value] == inodes[inode.id := r.value];
        TookMore(sb0, owner0.Keys, sb1, owner1.Keys, superblock, owner.Keys, BlocksLacking(inode0.size, offset, done),
                 if off < Total(inode.chunks) then 0 else 1);
        WroteMore(inode0, inode, r.value, blocks0, blocks1, owner0, owner1, sb0, offset, data, done);
      }
    }

    lemma PartlyParts(inode0: Inode, inode: Inode, blocks0: seq<seq<Byte>>, owner0: Owners, sb0: Superblock,
                      offset: nat, written: seq<Byte>)
      requires offset <= inode0.size && PartlyWritten(inode0, inode, blocks0, owner0, sb0, offset, written)
      ensures Took(sb0, owner0.Keys, superblock, owner.Keys, BlocksLacking(inode0.size, offset, |written|))
      ensures |device.blocks| == |blocks0| && Tracks(inodes[inode.id := inode]) && Extends(owner0, owner)
      ensures PartlyStored(inode0, inode, blocks0, device.blocks, owner, offset, written)
    {
    }

    lemma WroteMore(inode0: Inode, inode: Inode, out: Inode, blocks0: seq<seq<Byte>>, blocks1: seq<seq<Byte>>,
                    owner0: Owners, owner1: Owners, sb0: Superblock, offset: nat, data: seq<Byte>, done: nat)
      requires offset <= inode0.size && done < |data| && PieceSize(offset + done, |data| - done) <= |data| - done
      requires PartlyStored(inode0, inode, blocks0, blocks1, owner1, offset, data[..done])
      requires Extends(owner0, owner1) && Extends(owner1, owner)
      requires var off := offset + done;
               var n := PieceSize(off, |data| - done);
               && Took(sb0, owner0.Keys, superblock, owner.Keys, BlocksLacking(inode0.size, offset, done + n))
               && |device.blocks| == |blocks0| && Tracks(inodes[out.id := out]) && out == inode.(chunks := out.chunks)
               && Tiles(out.chunks)
               && Total(out.chunks) == Max(Total(inode.chunks), off / BLOCK_SIZE * BLOCK_SIZE + BLOCK_SIZE)
               && OnlyStream(blocks1, device.blocks, owner, DataOf(inode.id))
               && Content(device.blocks, BlockList(out.chunks), Max(Max(inode0.size, off), off + n))
                  == Overlaid(Content(blocks1, BlockList(inode.chunks), Max(inode0.size, off)), off,
                              data[done..done + n])
      ensures PartlyWritten(inode0, out, blocks0, owner0, sb0, offset,
                            data[..done + PieceSize(offset + done, |data| - done)])
    {
      hide *;
      StoreMore(inode0, inode, out, blocks0, blocks1, device.blocks, owner1, owner, offset, data, done);
      ExtendsMore(owner0, owner1, owner);
      MakePartly(inode0, out, blocks0, owner0, sb0, offset, data[..done + PieceSize(offset + done, |data| - done)]);
    }

    lemma MakePartly(inode0: Inode, inode: Inode, blocks0: seq<seq<Byte>>, owner0: Owners, sb0: Superblock, offset: nat,
                     written: seq<Byte>)
      requires offset <= inode0.size
      requires Took(sb0, owner0.Keys, superblock, owner.Keys, BlocksLacking(inode0.size, offset, |written|))
      requires |device.blocks| == |blocks0| && Tracks(inodes[inode.id := inode]) && Extends(owner0, owner)
      requires PartlyStored(inode0, inode, blocks0, device.blocks, owner, offset, written)
      ensures PartlyWritten(inode0, inode, blocks0, owner0, sb0, offset, written)
    {
    }

    lemma StartWriting(inode: Inode, offset: nat)
      requires Tracks(inodes) && inode.id in inodes && inodes[inode.id] == inode
      requires Tiles(inode.chunks) && Total(inode.chunks) == DivCeil(inode.size) * BLOCK_SIZE
      requires offset <= inode.size
      ensures PartlyWritten(inode, inode, device.blocks, owner, superblock, offset, [])
    {
      assert inodes[inode.id := inode] == inodes;
      NothingStored(inode, device.blocks, owner, offset);
      TookNone(superblock, owner.Keys);
      assert BlocksLacking(inode.size, offset, 0) == 0;
      hide Owned, Tiles, PartlyStored, Took;
    }

    /** The block-by-block loop of a write. */
    method WriteBlocks(inode0: Inode, offset: nat, data: seq<Byte>) returns (r: Result<Inode>)
      requires Tracks(inodes) && inode0.id in inodes && inodes[inode0.id] == inode0
      requires Tiles(inode0.chunks) && Total(inode0.chunks) == DivCeil(inode0.size) * BLOCK_SIZE
      requires offset <= inode0.size
      modifies this`superblock, this`owner, bitmap`bits, device
      ensures |device.blocks| == |old(device.blocks)| && Space() == old(Space())
      ensures r.Ok? ==> PartlyWritten(inode0, r.value, old(device.blocks), old(owner), old(superblock), offset, data)
      ensures r.Err? && device.reliable ==>
                && Space() < |old(owner)| + BlocksLacking(inode0.size, offset, |data|)
                && (r.error == NoSpace || r.error.OutOfBounds?)
    {
      hide *;
      StartWriting(inode0, offset);
      ghost var blocks0, owner0, sb0 := device.blocks, owner, superblock;
      var inode := inode0;
      var dataWritten := 0;
      assert data[..0] == [];
      while dataWritten < |data|
        invariant dataWritten <= |data| && |device.blocks| == |blocks0| && Space() == old(Space())
        invariant PartlyWritten(inode0, inode, blocks0, owner0, sb0, offset, data[..dataWritten])
      {
        var out := WriteMore(inode0, inode, blocks0, owner0, sb0, offset, data, dataWritten);
        if out.Err? {
          return out;
        }
        dataWritten := dataWritten + PieceSize(offset + dataWritten, |data| - dataWritten);
        inode := out.value;
      }
      assert data[..dataWritten] == data;
      r := Ok(inode);
    }

    // ----- inodes, metadata, journal

    /** Whether reading inode `id` is meaningful: it is one, or reading it fails. */
    ghost predicate Readable(id: nat)
      reads this`inodes, this`superblock, device
    {
      || id in inodes
      || id >= |device.blocks|
      || (id >= SystemEnd(superblock.blockCount) && codecs.inode.dec(device.blocks[id]) == None)
    }

    method ReadInode(id: nat) returns (r: Result<Inode>)
      requires device.Valid()
      ensures r.Ok? ==> id < |device.blocks| && codecs.inode.dec(device.blocks[id]) == Some(r.value)
      ensures device.reliable && id < |device.blocks| && codecs.inode.dec(device.blocks[id]).Some? ==> r.Ok?
    {
      var block := device.ReadBlock(id);
      if block.Err? {
        return Err(block.error);
      }
      match codecs.inode.dec(block.value)
      case None => return Err(BadInode);
      case Some(inode) => return Ok(inode);
    }

    method WriteInode(inode: Inode) returns (r: Result<()>)
      requires device.Valid()
      modifies device
      ensures device.Valid()
      ensures r.Ok? ==>
                && |codecs.inode.enc(inode)| <= BLOCK_SIZE && old(device.HasPlace(inode.id))
                && device.blocks == Put(old(device.blocks), inode.id, Padded(codecs.inode.enc(inode)))
      ensures r.Err? ==> device.blocks == old(device.blocks)
      ensures r.Err? && device.reliable ==>
                || (r.error == InodeTooLarge && |codecs.inode.enc(inode)| > BLOCK_SIZE)
                || (r.error.OutOfBounds? && !old(device.HasPlace(inode.id)))
    {
      var bytes := codecs.inode.enc(inode);
      if |bytes| > BLOCK_SIZE {
        return Err(InodeTooLarge);
      }
      r := device.WriteBlock(inode.id, Padded(bytes));
    }

    /** The bitmap, then the superblock. */
    method SyncMetadata() returns (r: Result<()>)
      requires Environment() && device.Valid() && SystemEnd(superblock.blockCount) <= |device.blocks|
      requires LaidOut(superblock) && Sized()
      modifies device
      ensures device.Valid() && SystemOnly(old(device.blocks), device.blocks, superblock.blockCount)
      ensures r.Ok? ==> Synced()
      ensures device.reliable ==> r.Ok?
    {
      r := bitmap.Save(device, superblock.bitmapStart);
      if r.Err? {
        return;
      }
      var bytes := codecs.superblock.enc(superblock);
      assert |bytes| <= BLOCK_SIZE;
      r := device.WriteBlock(0, Padded(bytes));
      if r.Ok? {
        codecs.superblock.DecodesPadded(superblock);
      }
    }

    /** Saving the metadata of a consistent file system changes no file. */
    method Sync() returns (r: Result<()>)
      requires Good()
      modifies device
      ensures r.Ok? ==> Good() && Synced() && Files() == old(Files())
      ensures |device.blocks| == |old(device.blocks)|
      ensures device.reliable ==> r.Ok?
    {
      hide *;
      GoodParts();
      r := SyncMetadata();
      SystemOnlyParts(old(device.blocks), device.blocks, superblock.blockCount);
      JournalKept(old(device.blocks));
      StillGood();
    }

    /** What `Good` offers to calls that do not care about files. */
    lemma GoodParts()
      requires Good()
      ensures Environment() && device.Valid() && LaidOut(superblock) && Sized()
      ensures Tracks(inodes) && journal.ValidOn(device.blocks)
      ensures superblock.bitmapStart == BITMAP_START && superblock.catalogInode in inodes
      ensures JOURNAL_END <= BITMAP_START <= SystemEnd(superblock.blockCount) < |device.blocks|
    {
      hide UsedIn, StreamsOwned, Stored, AttrsReadable, WellFormed, Saved;
      InodesAboveSystem(superblock.blockCount, inodes, owner, superblock.catalogInode);
    }

    lemma GoodImage()
      requires Good()
      ensures Consistent(codecs, device.blocks, superblock, inodes, owner) && bitmap.Used() == owner.Keys
      ensures bitmap.blockCount >= superblock.blockCount
    {
    }

    lemma BlocksWhole(before: seq<seq<Byte>>)
      requires device.Valid() && AgreeOutside(before, device.blocks, JOURNAL_START, JOURNAL_END)
      ensures WholeBlocks(device.blocks) && |device.blocks| == |before|
    {
    }

    lemma FilesAre()
      ensures Files() == View(codecs, device.blocks, inodes)
    {
    }

    lemma JournalKept(before: seq<seq<Byte>>)
      requires journal.ValidOn(before) && WholeBlocks(device.blocks) && |device.blocks| >= |before|
      requires forall b :: JOURNAL_START <= b < JOURNAL_END ==> device.blocks[b] == before[b]
      ensures journal.ValidOn(device.blocks)
    {
      Journal.RegionSame(before, device.blocks);
    }

    /** A device whose inode and stream blocks are untouched holds the same files. */
    twostate lemma StillGood()
      requires old(Good())
      requires superblock == old(superblock) && inodes == old(inodes) && owner == old(owner) && unchanged(bitmap)
      requires device.Valid() && |device.blocks| == |old(device.blocks)| && journal.ValidOn(device.blocks)
      requires forall b :: SystemEnd(superblock.blockCount) <= b < |device.blocks| ==>
                 device.blocks[b] == old(device.blocks)[b]
      ensures Good() && Files() == old(Files())
    {
      hide View, Owned, Stored, AttrsReadable, WellFormed;
      AboveSystem(superblock.blockCount, inodes, owner);
      SystemWrite(codecs, old(device.blocks), device.blocks, superblock, inodes, owner);
    }

    /** Appends one operation to the journal. */
    method LogOp(op: JournalOp) returns (r: Result<()>)
      requires Good() && Journal.EntrySize(codecs.op, op) <= BLOCK_SIZE
      modifies journal, device
      ensures device.Valid() && AgreeOutside(old(device.blocks), device.blocks, JOURNAL_START, JOURNAL_END)
      ensures |device.blocks| == |old(device.blocks)|
      ensures r.Ok? ==> Good() && Files() == old(Files()) && journal.logged == old(journal.logged) + [op]
      ensures r.Ok? && old(Synced()) ==> Synced()
      ensures device.reliable ==> r.Ok?
    {
      hide Good, Files, Synced, Sized, LaidOut, SystemEnd, Tracks;
      GoodParts();
      r := journal.Log(device, op);
      StillSynced();
      if r.Ok? {
        StillGood();
      }
    }

    twostate lemma StillSynced()
      requires old(|device.blocks|) > BITMAP_START && superblock == old(superblock) && unchanged(bitmap)
      requires AgreeOutside(old(device.blocks), device.blocks, JOURNAL_START, JOURNAL_END)
      ensures old(Synced()) ==> Synced()
    {
    }

    lemma FixedEntry(op: JournalOp)
      requires Environment() && !op.BeginOp? && (op.BeginCreate? ==> op.name == UNKNOWN && op.parentInode == 0)
      requires (op.EndOp? ==> op.opId < WORDS) && (!op.BeginCreate? && !op.EndOp? ==> op.inodeId < WORDS)
      ensures Journal.EntrySize(codecs.op, op) <= BLOCK_SIZE
    {
    }

    twostate lemma StillReadable(id: nat)
      requires AgreeOutside(old(device.blocks), device.blocks, JOURNAL_START, JOURNAL_END)
      requires inodes == old(inodes) && superblock == old(superblock)
      ensures old(Readable(id)) ==> Readable(id)
    {
    }

    lemma IdsFit()
      requires Good()
      ensures forall id :: id in inodes ==> id < WORDS
    {
      hide SystemEnd;
    }

    lemma GoodInode(id: nat)
      requires Good() && id in inodes
      ensures inodes[id].id == id && WellFormed(inodes[id])
      ensures SystemEnd(superblock.blockCount) <= id < |device.blocks|
      ensures codecs.inode.dec(device.blocks[id]) == Some(inodes[id])
      ensures Tiles(inodes[id].chunks) && Total(inodes[id].chunks) == DivCeil(inodes[id].size) * BLOCK_SIZE
    {
      InodesAboveSystem(superblock.blockCount, inodes, owner, id);
    }

    lemma ReadKnown(id: nat, r: Result<Inode>)
      requires Good() && Readable(id)
      requires r.Ok? ==> id < |device.blocks| && codecs.inode.dec(device.blocks[id]) == Some(r.value)
      ensures r.Ok? ==> id in inodes && r.value == inodes[id]
      ensures id in inodes ==> inodes[id].id == id && id < |device.blocks| && codecs.inode.dec(device.blocks[id]).Some?
    {
      hide WellFormed;
      if id in inodes {
        GoodInode(id);
      }
    }

    /** A block that nothing owns lies past the system blocks. */
    lemma NotSystem(blockCount: nat, known: Inodes, used: Owners, b: nat)
      requires Owned(blockCount, known, used) && b !in used
      ensures SystemEnd(blockCount) <= b
    {
    }

    // ----- file data

    /** What `PartlyWritten` says, without its heap. */
    lemma PartlyWrittenParts(inode0: Inode, inode: Inode, blocks0: seq<seq<Byte>>, owner0: Owners, sb0: Superblock,
                             offset: nat, written: seq<Byte>)
      requires offset <= inode0.size && PartlyWritten(inode0, inode, blocks0, owner0, sb0, offset, written)
      ensures device.Valid() && |device.blocks| == |blocks0| && Sized() && bitmap.Used() == owner.Keys
      ensures Took(sb0, owner0.Keys, superblock, owner.Keys, BlocksLacking(inode0.size, offset, |written|))
      ensures superblock == sb0.(freeBlocks := superblock.freeBlocks) && superblock.freeBlocks <= superblock.blockCount
      ensures Owned(superblock.blockCount, inodes[inode.id := inode], owner) && Within(owner, |device.blocks|)
      ensures Extends(owner0, owner)
      ensures PartlyStored(inode0, inode, blocks0, device.blocks, owner, offset, written)
      ensures inode == inode0.(chunks := inode.chunks)
    {
    }

    /** Storing the inode of a written file makes the file system consistent again. */
    lemma FileUpdated(blocks0: seq<seq<Byte>>, blocks1: seq<seq<Byte>>, sb0: Superblock, inodes0: Inodes,
                      owner0: Owners, inode0: Inode, out: Inode, final: Inode, offset: nat, data: seq<Byte>)
      requires device.Valid() && Environment() && journal.ValidOn(blocks0)
      requires Consistent(codecs, blocks0, sb0, inodes0, owner0)
      requires inode0.id in inodes0 && inodes0[inode0.id] == inode0 && offset <= inode0.size
      requires PartlyStored(inode0, out, blocks0, blocks1, owner, offset, data)
      requires Sized() && bitmap.Used() == owner.Keys && Extends(owner0, owner)
      requires superblock == sb0.(freeBlocks := superblock.freeBlocks) && superblock.freeBlocks <= superblock.blockCount
      requires Owned(superblock.blockCount, inodes0[out.id := out], owner) && Within(owner, |blocks1|)
      requires out == inode0.(chunks := out.chunks)
      requires final == out.(size := Max(inode0.size, offset + |data|)) && inodes == inodes0[final.id := final]
      requires |codecs.inode.enc(final)| <= BLOCK_SIZE && final.id < |blocks1|
      requires device.blocks == blocks1[final.id := Padded(codecs.inode.enc(final))]
      ensures Good()
      ensures OneFileWritten(View(codecs, blocks0, inodes0), Files(), final.id, offset, data)
    {
      hide *;
      StillLawful();
      FilesAre();
      ConsistentParts(codecs, blocks0, sb0, inodes0, owner0);
      WriteStored(codecs, blocks0, blocks1, device.blocks, sb0, superblock, inodes0, owner0, owner, inode0, out, final,
                  offset, data);
      JournalApart(blocks0, blocks1, inodes0, owner0, inode0, out, offset, data, Padded(codecs.inode.enc(final)));
      MakeGood();
    }

    lemma SizedInode(out: Inode, final: Inode, size: nat, end: nat)
      requires out.size == size && final == if end > size then out.(size := end) else out
      ensures final == out.(size := Max(size, end)) && final.id == out.id
    {
    }

    lemma StillLawful()
      requires Environment()
      ensures codecs.Lawful()
    {
    }

    lemma JournalApart(blocks0: seq<seq<Byte>>, blocks1: seq<seq<Byte>>, inodes0: Inodes, owner0: Owners, inode0: Inode,
                       out: Inode, offset: nat, data: seq<Byte>, block: seq<Byte>)
      requires journal.ValidOn(blocks0) && Extends(owner0, owner)
      requires Owned(superblock.blockCount, inodes0, owner0) && inode0.id in inodes0
      requires offset <= inode0.size && PartlyStored(inode0, out, blocks0, blocks1, owner, offset, data)
      requires inode0.id < |blocks1| && |block| == BLOCK_SIZE && device.blocks == blocks1[inode0.id := block]
      ensures journal.ValidOn(device.blocks)
    {
      InodesAboveSystem(superblock.blockCount, inodes0, owner0, inode0.id);
      forall b: nat | JOURNAL_START <= b < JOURNAL_END
        ensures device.blocks[b] == blocks0[b]
      {
        assert b in owner0 && owner[b] == Reserved;
      }
      JournalKept(blocks0);
    }

    /** The data blocks and the inode of a write. */
    method UpdateFile(inode0: Inode, offset: nat, data: seq<Byte>) returns (r: Result<()>)
      requires Good() && inode0.id in inodes && inodes[inode0.id] == inode0 && offset <= inode0.size
      modifies this, device, bitmap
      ensures r.Ok? ==>
                && Good()
                && Took(old(superblock), old(owner).Keys, superblock, owner.Keys,
                        BlocksLacking(inode0.size, offset, |data|))
                && |device.blocks| == |old(device.blocks)|
                && OneFileWritten(old(Files()), Files(), inode0.id, offset, data)
      ensures r.Err? && device.reliable ==> IsCapacity(r.error)
      ensures r.Err? && device.reliable ==>
                (r.error != InodeTooLarge <==> old(Space()) < |old(owner)| + BlocksLacking(inode0.size, offset, |data|))
    {
      hide *;
      FilesAre();
      GoodImage();
      CapacityKinds();
      ghost var blocks0, sb0, owner0, inodes0 := device.blocks, superblock, owner, inodes;
      GoodParts();
      GoodInode(inode0.id);
      assert inode0.id < |device.blocks|;
      assert inodes[inode0.id := inode0] == inodes;
      var written := WriteBlocks(inode0, offset, data);
      if written.Err? {
        return Err(written.error);
      }
      var out := written.value;
      PartlyWrittenParts(inode0, out, blocks0, owner0, sb0, offset, data);
      UsedFits();
      TookKeeps(sb0, owner0.Keys, superblock, owner.Keys, BlocksLacking(inode0.size, offset, |data|));
      WithinBelow(owner0, 0);
      WithinBelow(owner, 0);
      var currentOffset := offset + |data|;
      var inode := if currentOffset > out.size then out.(size := currentOffset) else out;
      ghost var blocks1 := device.blocks;
      PlaceIs(device, inode.id);
      SizedInode(out, inode, inode0.size, offset + |data|);
      r := WriteInode(inode);
      if r.Ok? {
        assert device.blocks == blocks1[inode.id := Padded(codecs.inode.enc(inode))];
        inodes := inodes[inode.id := inode];
        FileUpdated(blocks0, blocks1, sb0, inodes0, owner0, inode0, out, inode, offset, data);
      }
    }

    /**
     * Writes `data` at `offset`, which must not lie past the end of the file: see `PlaceMapsIff`
     * for what a gap does to the block map. A block is read before it is written, so the device must have it
     * already: it does not grow here.
     */
    method WriteData(inodeId: nat, offset: nat, data: seq<Byte>) returns (r: Result<()>)
      requires Good() && Readable(inodeId) && inodeId < WORDS
      requires inodeId in inodes ==> offset <= inodes[inodeId].size
      modifies this, device, bitmap, journal
      ensures data == [] ==> r == Ok(()) && unchanged(this, device, bitmap, journal)
      ensures r.Ok? ==> Good()
      ensures data != [] && r.Ok? ==>
                && Synced() && inodeId in old(inodes)
                && OneFileWritten(old(Files()), Files(), inodeId, offset, data)
                && Took(old(superblock), old(owner).Keys, superblock, owner.Keys,
                        BlocksLacking(old(inodes)[inodeId].size, offset, |data|))
                && |old(owner)| + BlocksLacking(old(inodes)[inodeId].size, offset, |data|) <= |device.blocks|
                && |device.blocks| == |old(device.blocks)|
                && journal.logged == old(journal.logged) + [BeginWrite(inodeId), EndWrite(inodeId)]
      ensures data != [] && inodeId !in old(inodes) ==> r.Err?
      ensures r.Err? && device.reliable && inodeId in old(inodes) ==> IsCapacity(r.error)
      ensures data != [] && device.reliable && inodeId in old(inodes) ==>
                (r.Err? && r.error != InodeTooLarge <==>
                   old(Space()) < |old(owner)| + BlocksLacking(old(inodes)[inodeId].size, offset, |data|))
    {
      hide *;
      if data == [] {
        return Ok(());
      }
      SpaceIs();
      GoodParts();
      FixedEntry(BeginWrite(inodeId));
      FixedEntry(EndWrite(inodeId));
      r := LogOp(BeginWrite(inodeId));
      if r.Err? {
        return;
      }
      StillReadable(inodeId);
      GoodParts();
      var read := ReadInode(inodeId);
      ReadKnown(inodeId, read);
      if read.Err? {
        return Err(read.error);
      }
      SpaceIs();
      r := UpdateFile(read.value, offset, data);
      if r.Err? {
        return;
      }
      GoodParts();
      r := Sync();
      if r.Err? {
        return;
      }
      GoodFits();
      SpaceIs();
      WithinBelow(old(owner), 0);
      WithinBelow(owner, 0);
      TookKeeps(old(superblock), old(owner).Keys, superblock, owner.Keys,
                BlocksLacking(old(inodes)[inodeId].size, offset, |data|));
      r := LogOp(EndWrite(inodeId));
    }

    /** The used blocks are on the device, and the allocator could have handed them out. */
    lemma UsedFits()
      requires Sized() && bitmap.Used() == owner.Keys && Within(owner, |device.blocks|)
      ensures |owner| <= Space() && |owner| <= |device.blocks| && |owner| <= bitmap.blockCount
      ensures |owner| == |bitmap.Used()|
    {
      hide SpaceMap.Used;
      WithinBelow(owner, |device.blocks|);
      SubsetSize(owner.Keys, |device.blocks|);
      SubsetSize(owner.Keys, bitmap.blockCount);
    }

    lemma GoodFits()
      requires Good()
      ensures |owner| <= Space() && |owner| <= |device.blocks| && |owner| == |bitmap.Used()|
      ensures owner.Keys == bitmap.Used()
    {
      hide *;
      GoodParts();
      TracksParts(inodes);
      UsedFits();
    }

    method ReadData(inodeId: nat, offset: nat, length: nat) returns (r: Result<seq<Byte>>)
      requires Good() && Readable(inodeId)
      ensures r.Ok? ==> inodeId in Files() && r.value == Window(Files()[inodeId].content, offset, length)
      ensures r.Ok? ==>
                var size := |Files()[inodeId].content|;
                && |r.value| == (if offset + length <= size then length else if offset < size then size - offset else 0)
                && forall i :: 0 <= i < |r.value| ==> r.value[i] == Files()[inodeId].content[offset + i]
      ensures device.reliable && inodeId in inodes ==> r.Ok?
    {
      hide Readable, Tiles, Total, Lookup, DivCeil, Aligned, Consistent, Window, StreamBytes;
      GoodParts();
      var read := ReadInode(inodeId);
      ReadKnown(inodeId, read);
      if read.Err? {
        return Err(read.error);
      }
      var inode := read.value;
      StreamReads(codecs, device.blocks, superblock, inodes, owner, DataOf(inodeId), offset, length);
      r := ReadFromExtents(device, inode.chunks, offset, length, inode.size);
    }

    method GetAttribute(inodeId: nat, key: Str) returns (r: Result<Option<AttributeValue>>)
      requires Good() && Readable(inodeId)
      ensures r.Ok? ==>
                && inodeId in Files()
                && r.value == if key in Files()[inodeId].attrs then Some(Files()[inodeId].attrs[key]) else None
      ensures device.reliable && inodeId in inodes ==> r.Ok?
    {
      hide *;
      GoodParts();
      var read := ReadInode(inodeId);
      ReadKnown(inodeId, read);
      if read.Err? {
        return Err(read.error);
      }
      r := AttributeOf(read.value, key);
    }

    /** The value of an attribute, inline or read from its own blocks. */
    method AttributeOf(inode: Inode, key: Str) returns (r: Result<Option<AttributeValue>>)
      requires Good() && inode.id in inodes && inodes[inode.id] == inode
      ensures r.Ok? ==>
                && inode.id in Files()
                && r.value == if key in Files()[inode.id].attrs then Some(Files()[inode.id].attrs[key]) else None
      ensures device.reliable ==> r.Ok?
    {
      hide Tiles, Total, Lookup, DivCeil, Aligned, Consistent, StreamBytes;
      GoodParts();
      if key in inode.attributes {
        return Ok(Some(inode.attributes[key]));
      }
      if key in inode.largeAttributes {
        var extents := inode.largeAttributes[key];
        var totalSize := SumLengths(extents);
        var s := AttrOf(inode.id, key);
        StreamReads(codecs, device.blocks, superblock, inodes, owner, s, 0, totalSize);
        TilesSum(extents);
        LargeReadable(codecs, device.blocks, superblock, inodes, owner, inode.id, key);
        var data := ReadFromExtents(device, extents, 0, totalSize, totalSize);
        if data.Err? {
          return Err(data.error);
        }
        assert data.value == StreamBytes(device.blocks, inodes, s);
        match codecs.attribute.dec(data.value)
        case None => return Err(InvalidAttributeData);
        case Some(v) => return Ok(Some(v));
      }
      r := Ok(None);
    }

    // ----- new inodes

    lemma InodeCreated(blocks0: seq<seq<Byte>>, blocks1: seq<seq<Byte>>, sb0: Superblock, inodes0: Inodes,
                       owner0: Owners, inode: Inode)
      requires device.Valid() && Environment() && Consistent(codecs, blocks0, sb0, inodes0, owner0)
      requires journal.ValidOn(blocks1) && WholeBlocks(blocks1)
      requires AgreeOutside(blocks0, blocks1, JOURNAL_START, JOURNAL_END)
      requires inode == NewInode(inode.id, inode.kind).(attributes := inode.attributes)
      requires inode.id !in owner0 && SystemEnd(sb0.blockCount) <= inode.id
      requires |codecs.inode.enc(inode)| <= BLOCK_SIZE
      requires device.blocks == Put(blocks1, inode.id, Padded(codecs.inode.enc(inode)))
      requires inodes == inodes0[inode.id := inode] && owner == owner0[inode.id := InodeAt(inode.id)]
      requires Sized() && bitmap.Used() == owner0.Keys + {inode.id}
      requires superblock == OneTaken(sb0)
      ensures Good()
      ensures OneFileAdded(View(codecs, blocks0, inodes0), Files(), inode.id, NewFile(inode.kind, inode.attributes))
    {
      hide *;
      StillLawful();
      OneTakenKeeps(sb0);
      ConsistentParts(codecs, blocks0, sb0, inodes0, owner0);
      CreateStored(codecs, blocks0, blocks1, device.blocks, sb0, superblock, inodes0, owner0, inode);
      JournalAside(blocks1, inode.id, Padded(codecs.inode.enc(inode)));
      FilesAre();
      assert bitmap.Used() == owner.Keys;
      MakeGood();
    }

    lemma JournalAside(before: seq<seq<Byte>>, id: nat, block: seq<Byte>)
      requires journal.ValidOn(before) && JOURNAL_END <= id && |block| == BLOCK_SIZE
      requires device.blocks == Put(before, id, block)
      ensures journal.ValidOn(device.blocks)
    {
      PutWhole(before, id, block);
      JournalKept(before);
    }

    lemma MakeGood()
      requires Environment() && device.Valid() && Sized() && bitmap.Used() == owner.Keys
      requires Consistent(codecs, device.blocks, superblock, inodes, owner) && journal.ValidOn(device.blocks)
      ensures Good()
    {
    }

    /**
     * Takes the least free block. If there is none, or it lies past the device, the used blocks fill the
     * limit or the device.
     */
    method AllocateInodeBlock() returns (r: Result<nat>)
      requires Good()
      modifies this`superblock, bitmap`bits
      ensures Sized()
      ensures r.Ok? ==>
                && IsLeastFree(owner.Keys, bitmap.blockCount, Some(r.value)) && r.value !in owner
                && SystemEnd(superblock.blockCount) <= r.value < bitmap.blockCount
                && bitmap.Used() == owner.Keys + {r.value} && superblock == OneTaken(old(superblock))
                && LengthFor(|device.blocks|, r.value + 1) == LengthFor(|device.blocks|, |owner| + 1)
                && (if r.value < |device.blocks| then |owner| < |device.blocks| else r.value == |owner|)
                && |owner| < bitmap.blockCount && superblock.blockCount == old(superblock).blockCount
      ensures r.Err? ==> r.error == NoSpace && bitmap.blockCount <= |owner|
    {
      hide *;
      GoodParts();
      GoodImage();
      SizedIs();
      ConsistentParts(codecs, device.blocks, superblock, inodes, owner);
      r := AllocateBlock();
      FreshBlock(owner.Keys, bitmap.blockCount, |device.blocks|, r);
      WithinBelow(owner, |device.blocks|);
      if r.Ok? {
        OneTakenKeeps(old(superblock));
        NotSystem(superblock.blockCount, inodes, owner, r.value);
        GrowsWhenFull(owner.Keys, bitmap.blockCount, r.value, |device.blocks|);
        RoomLeft(owner.Keys, bitmap.blockCount, r.value);
      }
    }

    /** Takes a block, logs the intent and writes the new inode there. */
    method AddInode(kind: FileKind, attributes: map<Str, AttributeValue>) returns (r: Result<nat>)
      requires Good()
      modifies this, device, bitmap, journal
      ensures r.Ok? ==>
                && Good()
                && TookLeast(old(superblock), old(owner).Keys, superblock, owner.Keys, bitmap.blockCount, r.value)
                && owner == old(owner)[r.value := InodeAt(r.value)]
                && |device.blocks| == LengthFor(|old(device.blocks)|, |old(owner)| + 1)
                && OneFileAdded(old(Files()), Files(), r.value, NewFile(kind, attributes)) && r.value < WORDS
                && journal.logged == old(journal.logged) + [BeginCreate(0, UNKNOWN)]
                && |old(owner)| < old(Room())
      ensures r.Err? && device.reliable && r.error != InodeTooLarge ==> old(Room()) <= |old(owner)|
    {
      hide *;
      ghost var blocks0, sb0, owner0, inodes0 := device.blocks, superblock, owner, inodes;
      FilesAre();
      SpaceIs();
      GoodParts();
      GoodImage();
      var taken := AllocateInodeBlock();
      if taken.Err? {
        return Err(taken.error);
      }
      var inodeId := taken.value;
      var inode := NewInode(inodeId, kind).(attributes := attributes);
      NewInodeFields(inode, inodeId, kind, attributes);
      PlaceIs(device, inodeId);
      var w, blocks1 := StoreNew(inode);
      if w.Err? {
        return Err(w.error);
      }
      inodes, owner := inodes[inodeId := inode], owner[inodeId := InodeAt(inodeId)];
      TakesLeast(sb0, owner0.Keys, bitmap.blockCount, inodeId);
      GrowKeys(owner0, inodeId, InodeAt(inodeId));
      InodeCreated(blocks0, blocks1, sb0, inodes0, owner0, inode);
      device.FitsWords();
      r := Ok(inodeId);
    }

    /** Logs the intent and writes a new inode; `logged` is the device in between. */
    method StoreNew(inode: Inode) returns (r: Result<()>, ghost logged: seq<seq<Byte>>)
      requires Environment() && device.Valid() && journal.ValidOn(device.blocks)
      modifies device, journal
      ensures device.Valid()
      ensures r.Ok? ==>
                && journal.ValidOn(logged)
                && WholeBlocks(logged)
                && AgreeOutside(old(device.blocks), logged, JOURNAL_START, JOURNAL_END)
                && |codecs.inode.enc(inode)| <= BLOCK_SIZE
                && device.blocks == Put(logged, inode.id, Padded(codecs.inode.enc(inode)))
                && |device.blocks| == LengthFor(|old(device.blocks)|, inode.id + 1) && inode.id < |device.blocks|
                && old(device.HasPlace(inode.id))
                && journal.logged == old(journal.logged) + [BeginCreate(0, UNKNOWN)]
      ensures r.Err? && device.reliable ==>
                r.error == InodeTooLarge || (r.error.OutOfBounds? && !old(device.HasPlace(inode.id)))
    {
      hide *;
      FixedEntry(BeginCreate(0, UNKNOWN));
      JournalWhole();
      PlaceIs(device, inode.id);
      logged := device.blocks;
      r := journal.Log(device, BeginCreate(0, UNKNOWN));
      if r.Err? {
        return;
      }
      BlocksWhole(logged);
      PlaceIs(device, inode.id);
      logged := device.blocks;
      r := WriteInode(inode);
      if r.Ok? {
        PutLength(logged, inode.id, Padded(codecs.inode.enc(inode)));
      }
    }

    lemma PutLength(before: seq<seq<Byte>>, id: nat, block: seq<Byte>)
      ensures |Put(before, id, block)| == LengthFor(|before|, id + 1) && id < |Put(before, id, block)|
    {
    }

    /**
     * A new inode in the least free block, with inline attributes that the catalog does not index.
     * A device that grows is made to end after it.
     */
    method CreateInodeInternal(kind: FileKind, attributes: map<Str, AttributeValue>) returns (r: Result<nat>)
      requires Good()
      modifies this, device, bitmap, journal
      ensures r.Ok? ==>
                && Good()
                && Synced()
                && superblock == OneTaken(old(superblock))
                && Took(old(superblock), old(owner).Keys, superblock, owner.Keys, 1)
                && owner == old(owner)[r.value := InodeAt(r.value)] && |old(owner)| < old(Room())
                && IsLeastFree(old(bitmap.Used()), bitmap.blockCount, Some(r.value))
                && bitmap.Used() == old(bitmap.Used()) + {r.value}
                && |device.blocks| == LengthFor(|old(device.blocks)|, |old(owner)| + 1)
                && OneFileAdded(old(Files()), Files(), r.value, NewFile(kind, attributes))
                && journal.logged == old(journal.logged) + [BeginCreate(0, UNKNOWN), EndCreate(r.value)]
      ensures r.Ok? ==>
                && r.value !in old(Files())
                && Files() == old(Files())[r.value := FileView(kind, [], attributes, attributes.Keys)]
      ensures r.Err? && device.reliable && r.error != InodeTooLarge ==> old(Room()) <= |old(owner)|
    {
      hide *;
      GoodImage();
      r := AddInode(kind, attributes);
      if r.Err? {
        return;
      }
      GoodParts();
      TookLeastParts(old(superblock), old(owner).Keys, superblock, owner.Keys, bitmap.blockCount, r.value);
      FixedEntry(EndCreate(r.value));
      NewFileIs(old(Files()), Files(), r.value, kind, attributes);
      var w := Sync();
      if w.Err? {
        return Err(w.error);
      }
      w := LogOp(EndCreate(r.value));
      if w.Err? {
        return Err(w.error);
      }
      GoodImage();
    }

    // ----- attributes

    method FreeBlock(b: nat)
      requires superblock.freeBlocks <= superblock.blockCount
      modifies this`superblock, this`owner, bitmap`bits
      ensures |bitmap.bits| == |old(bitmap.bits)| && bitmap.Used() == old(bitmap.Used()) - {b}
      ensures owner == old(owner) - {b} && superblock == GivenBack(old(superblock), 1)
    {
      hide UsedIn;
      bitmap.Free(b);
      if superblock.freeBlocks < superblock.blockCount {
        superblock := superblock.(freeBlocks := superblock.freeBlocks + 1);
      }
      owner := owner - {b};
    }

    /** Frees the blocks of one extent. */
    method FreeRun(e: Extent)
      requires bitmap.Used() == owner.Keys && superblock.freeBlocks <= superblock.blockCount
      requires forall j :: 0 <= j < |Run(e)| ==> Run(e)[j] in owner
      modifies this`superblock, this`owner, bitmap`bits
      ensures |bitmap.bits| == |old(bitmap.bits)|
      ensures owner == old(owner) - Elems(Run(e)) && bitmap.Used() == owner.Keys
      ensures Freed(old(superblock), old(owner).Keys, superblock, owner.Keys)
    {
      hide *;
      var blocks := DivCeil(e.length);
      RunStart(owner, e);
      FreedNone(superblock, owner.Keys);
      ghost var sb0, owner0 := superblock, owner;
      for i := 0 to blocks
        invariant |bitmap.bits| == |old(bitmap.bits)|
        invariant owner == owner0 - Elems(Run(e)[..i]) && bitmap.Used() == owner.Keys
        invariant Freed(sb0, owner0.Keys, superblock, owner.Keys)
      {
        var b := e.physicalBlock + i;
        RunStep(owner0, owner, e, i, b);
        FreedKeeps(sb0, owner0.Keys, superblock, owner.Keys);
        ghost var sb1, owner1 := superblock, owner;
        FreeBlock(b);
        FreedOne(sb0, owner0.Keys, sb1, owner1.Keys, b);
      }
    }

    /** Frees every block of a large attribute, once each. */
    method FreeBlocks(ghost s: Stream, extents: seq<Extent>)
      requires Good() && ExtentsOf(inodes, s) == extents
      modifies this`superblock, this`owner, bitmap`bits
      ensures |bitmap.bits| == |old(bitmap.bits)|
      ensures owner == WithoutStream(old(owner), s) && bitmap.Used() == owner.Keys
      ensures Freed(old(superblock), old(owner).Keys, superblock, owner.Keys)
      ensures var raised := old(superblock.freeBlocks) + |old(owner).Keys - owner.Keys|;
              superblock.freeBlocks == if raised <= superblock.blockCount then raised else superblock.blockCount
    {
      hide *;
      GoodImage();
      ConsistentParts(codecs, device.blocks, superblock, inodes, owner);
      StreamsPart(superblock.blockCount, inodes, owner, s);
      FreeingStarts(owner, extents);
      FreedNone(superblock, owner.Keys);
      for i := 0 to |extents|
        invariant |bitmap.bits| == |old(bitmap.bits)|
        invariant owner == old(owner) - Elems(BlockList(extents[..i])) && bitmap.Used() == owner.Keys
        invariant Freed(old(superblock), old(owner).Keys, superblock, owner.Keys)
      {
        RunStillOwned(inodes, old(owner), s, i);
        ghost var sb1, owner1 := superblock, owner;
        FreedKeeps(old(superblock), old(owner).Keys, superblock, owner.Keys);
        FreeRun(extents[i]);
        FreedMore(old(superblock), old(owner).Keys, sb1, owner1.Keys, superblock, owner.Keys);
      }
      assert extents[..|extents|] == extents;
      DropAll(inodes, old(owner), s);
      FreedRaises(old(superblock), old(owner).Keys, superblock, owner.Keys);
    }

    /** Frees the blocks of a large attribute and saves the metadata. */
    method FreeExtents(ghost s: Stream, extents: seq<Extent>) returns (r: Result<()>)
      requires Good() && ExtentsOf(inodes, s) == extents
      modifies this`superblock, this`owner, bitmap`bits, device
      ensures Sized() && device.Valid() && SystemOnly(old(device.blocks), device.blocks, superblock.blockCount)
      ensures owner == WithoutStream(old(owner), s) && bitmap.Used() == owner.Keys
      ensures Freed(old(superblock), old(owner).Keys, superblock, owner.Keys)
      ensures device.reliable ==> r.Ok?
    {
      hide *;
      GoodParts();
      GoodImage();
      SizedIs();
      FreeBlocks(s, extents);
      FreedKeeps(old(superblock), old(owner).Keys, superblock, owner.Keys);
      WithoutKeys(old(owner), s);
      BelowLess(old(bitmap.Used()), bitmap.Used(), bitmap.blockCount);
      SizedIs();
      r := SyncMetadata();
    }

    lemma BelowLess(used: set<nat>, fewer: set<nat>, limit: nat)
      ensures Below(used, limit) && fewer <= used ==> Below(fewer, limit)
    {
    }

    /** Puts the next piece of the data in a block of its own. */
    method SpillBlock(ghost base: Inodes, ghost s: Stream, extents: seq<Extent>, ghost before: seq<seq<Byte>>,
                      ghost owner0: Owners, data: seq<Byte>, done: nat) returns (r: Result<seq<Extent>>)
      requires s.AttrOf? && s.id in base && done < |data| && OnBoundary(done)
      requires Tracks(WithLarge(base, s, extents)) && Extends(owner0, owner)
      requires Spilled(extents, before, device.blocks, owner, s, data[..done])
      modifies this`superblock, this`owner, bitmap`bits, device
      ensures r.Ok? ==> |device.blocks| == LengthFor(|old(device.blocks)|, |old(owner)| + 1) && Room() == old(Room())
      ensures r.Ok? ==>
                var n := PieceSize(done, |data| - done);
                && 0 < n <= |data| - done
                && Tracks(WithLarge(base, s, r.value)) && Extends(owner0, owner)
                && Spilled(r.value, before, device.blocks, owner, s, data[..done + n])
                && Took(old(superblock), old(owner).Keys, superblock, owner.Keys, 1)
      ensures r.Err? && device.reliable ==>
                && old(Room()) <= |old(owner)|
                && (r.error == NoSpace || r.error.OutOfBounds?)
    {
      hide *;
      ghost var cur, blocks1, owner1, sb1 := WithLarge(base, s, extents), device.blocks, owner, superblock;
      ghost var room := Room();
      TracksParts(cur);
      PieceFits(done, |data| - done);
      SpaceIs();
      WithinBelow(owner1, |blocks1|);
      var taken := AllocateBlock();
      FreshBlock(owner1.Keys, bitmap.blockCount, |blocks1|, taken);
      if taken.Err? {
        return Err(taken.error);
      }
      var b := taken.value;
      GrowsWhenFull(owner1.Keys, bitmap.blockCount, b, |blocks1|);
      LengthIs(|blocks1|, b + 1);
      PlaceIs(device, b);
      var n := PieceSize(done, |data| - done);
      var w := device.WriteBlock(b, Padded(data[done..done + n]));
      if w.Err? {
        return Err(w.error);
      }
      OneTakenKeeps(sb1);
      PutLength(blocks1, b, Padded(data[done..done + n]));
      SpillOwned(superblock.blockCount, base, owner, s, extents, before, blocks1, data[..done], Extent(done, b, n));
      WithinParts(owner1, |blocks1|);
      SpillPiece(extents, b, before, blocks1, device.blocks, owner, s, data, done, n);
      TookOne(sb1, owner1.Keys, bitmap.blockCount, b);
      ghost var slot := Slot(s, |BlockList(extents)|);
      WithinMost(owner1, |blocks1|, |device.blocks|, b, slot);
      owner := owner[b := slot];
      ExtendsMore(owner0, owner1, owner);
      TookKeeps(sb1, owner1.Keys, superblock, owner.Keys, 1);
      MakeTracks(WithLarge(base, s, extents + [Extent(done, b, n)]));
      SpaceIs();
      assert Room() == room;
      r := Ok(extents + [Extent(done, b, n)]);
    }

    lemma TracksParts(cur: Inodes)
      requires Tracks(cur)
      ensures device.Valid() && LaidOut(superblock) && Sized() && SystemEnd(superblock.blockCount) <= |device.blocks|
      ensures Owned(superblock.blockCount, cur, owner) && Within(owner, |device.blocks|) && bitmap.Used() == owner.Keys
      ensures superblock.blockCount <= bitmap.blockCount && superblock.freeBlocks <= superblock.blockCount
    {
      hide UsedIn, StreamsOwned;
      var last := SystemEnd(superblock.blockCount) - 1;
      assert last in owner;
    }

    lemma MakeTracks(cur: Inodes)
      requires device.Valid() && LaidOut(superblock) && Sized()
      requires Owned(superblock.blockCount, cur, owner) && Within(owner, |device.blocks|) && bitmap.Used() == owner.Keys
      ensures Tracks(cur)
    {
    }

    /** The loop that gives large data blocks of its own. The device may grow. */
    method SpillAll(ghost base: Inodes, ghost s: Stream, data: seq<Byte>) returns (r: Result<seq<Extent>>)
      requires Tracks(base) && s.AttrOf? && s.id in base && ExtentsOf(base, s) == []
      modifies this`superblock, this`owner, bitmap`bits, device
      ensures r.Ok? ==>
                && |device.blocks| == LengthFor(|old(device.blocks)|, |old(owner)| + DivCeil(|data|))
                && Room() == old(Room())
      ensures r.Ok? ==>
                && Tracks(WithLarge(base, s, r.value)) && Extends(old(owner), owner)
                && Spilled(r.value, old(device.blocks), device.blocks, owner, s, data)
                && Took(old(superblock), old(owner).Keys, superblock, owner.Keys, DivCeil(|data|))
      ensures r.Err? && device.reliable ==>
                && old(Room()) < |old(owner)| + DivCeil(|data|)
                && (r.error == NoSpace || r.error.OutOfBounds?)
    {
      hide *;
      ghost var before, owner0, sb0 := device.blocks, owner, superblock;
      var extents := [];
      var dataWritten := 0;
      SpillStarts(base, s);
      TracksFits(base);
      LengthIs(|before|, |owner0|);
      TookNone(superblock, owner.Keys);
      assert data[..0] == [];
      while dataWritten < |data|
        invariant dataWritten <= |data| && (OnBoundary(dataWritten) || dataWritten == |data|)
        invariant |device.blocks| == LengthFor(|before|, |owner0| + DivCeil(dataWritten)) && Room() == old(Room())
        invariant Took(sb0, owner0.Keys, superblock, owner.Keys, DivCeil(dataWritten))
        invariant Tracks(WithLarge(base, s, extents)) && Extends(owner0, owner)
        invariant Spilled(extents, before, device.blocks, owner, s, data[..dataWritten])
      {
        PieceFits(dataWritten, |data| - dataWritten);
        ghost var sb1, owner1 := superblock, owner;
        TookKeeps(sb0, owner0.Keys, sb1, owner1.Keys, DivCeil(dataWritten));
        WithinBelow(owner0, 0);
        WithinBelow(owner1, 0);
        LengthIs(|before|, |owner1|);
        LengthIs(|device.blocks|, |owner1| + 1);
        LengthIs(|before|, |owner1| + 1);
        var grown := SpillBlock(base, s, extents, before, owner0, data, dataWritten);
        if grown.Err? {
          return Err(grown.error);
        }
        TookMore(sb0, owner0.Keys, sb1, owner1.Keys, superblock, owner.Keys, DivCeil(dataWritten), 1);
        extents := grown.value;
        dataWritten := dataWritten + PieceSize(dataWritten, |data| - dataWritten);
      }
      assert data[..dataWritten] == data;
      LengthIs(|before|, |owner0| + DivCeil(|data|));
      r := Ok(extents);
    }

    lemma TracksFits(cur: Inodes)
      requires Tracks(cur)
      ensures |owner| <= Space() && |owner| <= Room() && |owner| <= |device.blocks|
    {
      hide *;
      TracksParts(cur);
      UsedFits();
      SpaceIs();
      device.FitsWords();
    }

    lemma SpillStarts(base: Inodes, s: Stream)
      requires Tracks(base) && s.AttrOf? && s.id in base && ExtentsOf(base, s) == []
      ensures Tracks(WithLarge(base, s, [])) && Extends(owner, owner)
      ensures Spilled([], device.blocks, device.blocks, owner, s, [])
      ensures DivCeil(0) == 0 && OnBoundary(0)
    {
      hide Owned, SystemEnd;
      NoExtents(superblock.blockCount, base, owner, s);
      NothingSpilled(device.blocks, owner, s);
    }

    method AllocateAndWriteExtents(ghost base: Inodes, ghost s: Stream, data: seq<Byte>)
      returns (r: Result<seq<Extent>>)
      requires Environment() && Tracks(base) && s.AttrOf? && s.id in base && ExtentsOf(base, s) == []
      modifies this`superblock, this`owner, bitmap`bits, device
      ensures r.Ok? ==>
                && |device.blocks| == LengthFor(|old(device.blocks)|, |old(owner)| + DivCeil(|data|))
                && Room() == old(Room())
      ensures r.Ok? ==>
                && Tracks(WithLarge(base, s, r.value)) && Extends(old(owner), owner)
                && HoldsData(r.value, device.blocks, data)
                && StreamOrSystem(old(device.blocks), device.blocks, owner, s, superblock.blockCount)
                && Took(old(superblock), old(owner).Keys, superblock, owner.Keys, DivCeil(|data|))
      ensures r.Err? && device.reliable ==>
                && old(Room()) < |old(owner)| + DivCeil(|data|)
                && (r.error == NoSpace || r.error.OutOfBounds?)
    {
      hide *;
      r := SpillAll(base, s, data);
      if r.Err? {
        return;
      }
      ghost var mid := device.blocks;
      ghost var cur := WithLarge(base, s, r.value);
      TracksParts(cur);
      SpaceIs();
      var w := SyncMetadata();
      if w.Err? {
        return Err(w.error);
      }
      BlocksAreWhole();
      SpilledHolds(superblock.blockCount, base, owner, s, r.value, old(device.blocks), mid, device.blocks, data);
      SystemOnlyParts(mid, device.blocks, superblock.blockCount);
      MakeTracks(cur);
      SpaceIs();
    }

    /** Takes a key out of the large attributes, and frees its blocks if it was there. */
    method DropLarge(inode0: Inode, key: Str) returns (r: Result<Inode>)
      requires Good() && inode0.id in inodes && inodes[inode0.id] == inode0
      modifies this`superblock, this`owner, bitmap`bits, device
      ensures Freed(old(superblock), old(owner).Keys, superblock, owner.Keys)
      ensures r.Ok? ==>
                && r.value == inode0.(largeAttributes := inode0.largeAttributes - {key})
                && Tracks(inodes[inode0.id := r.value]) && owner == WithoutStream(old(owner), AttrOf(inode0.id, key))
                && SystemOnly(old(device.blocks), device.blocks, superblock.blockCount)
      ensures device.reliable ==> r.Ok?
    {
      hide *;
      ghost var s := AttrOf(inode0.id, key);
      GoodParts();
      GoodImage();
      ConsistentParts(codecs, device.blocks, superblock, inodes, owner);
      BlocksAreWhole();
      Dropped(superblock.blockCount, inodes, owner, inode0, key);
      FreedNone(superblock, owner.Keys);
      NothingTouched(device.blocks, owner, s, superblock.blockCount);
      var inode := inode0.(largeAttributes := inode0.largeAttributes - {key});
      if key in inode0.largeAttributes {
        var extents := inode0.largeAttributes[key];
        LargeIs(inodes, inode0, key);
        var w := FreeExtents(s, extents);
        if w.Err? {
          return Err(w.error);
        }
        SystemOnlyParts(old(device.blocks), device.blocks, superblock.blockCount);
        WithoutKeys(old(owner), s);
        WithinLess(old(owner), owner, |device.blocks|);
      }
      FreedKeeps(old(superblock), old(owner).Keys, superblock, owner.Keys);
      MakeTracks(inodes[inode0.id := inode]);
      r := Ok(inode);
    }

    lemma BlocksAreWhole()
      requires device.Valid()
      ensures WholeBlocks(device.blocks)
    {
    }

    /** Puts the value in place: in the inode, or in blocks of its own. */
    method PlaceValue(ghost inode0: Inode, inode: Inode, key: Str, value: AttributeValue)
      returns (r: Result<Inode>, ghost extents: seq<Extent>)
      requires Environment() && inode0.id in inodes && inodes[inode0.id] == inode0
      requires inode == inode0.(largeAttributes := inode0.largeAttributes - {key}) && Tracks(inodes[inode0.id := inode])
      modifies this`superblock, this`owner, bitmap`bits, device
      ensures r.Ok? ==>
                && Took(old(superblock), old(owner).Keys, superblock, owner.Keys, SpillCount(codecs, value))
                && |device.blocks| == LengthFor(|old(device.blocks)|, |old(owner)| + SpillCount(codecs, value))
                && Room() == old(Room())
                && r.value == WithAttribute(inode0, key, value, extents)
                && Tracks(inodes[inode0.id := r.value]) && Extends(old(owner), owner)
                && StreamOrSystem(old(device.blocks), device.blocks, owner, AttrOf(inode0.id, key),
                                  superblock.blockCount)
                && (IsLarge(value) ==> HoldsData(extents, device.blocks, codecs.attribute.enc(value)))
      ensures r.Err? && device.reliable ==>
                && (r.error == NoSpace || r.error.OutOfBounds?)
                && old(Room()) < |old(owner)| + SpillCount(codecs, value)
    {
      hide *;
      ghost var s := AttrOf(inode0.id, key);
      ghost var base := inodes[inode0.id := inode];
      extents := [];
      DroppedStreams(inodes, inode0, key);
      SpillCountIs(codecs, value);
      if IsLarge(value) {
        var data := codecs.attribute.enc(value);
        var e := AllocateAndWriteExtents(base, s, data);
        if e.Err? {
          return Err(e.error), [];
        }
        extents := e.value;
        var out := inode.(attributes := inode.attributes - {key},
                          largeAttributes := inode.largeAttributes[key := e.value]);
        LargeValueIs(inode0, key, value, e.value);
        LargeLists(inodes, inode0, key, value, e.value);
        TracksLists(WithLarge(base, s, e.value), inodes[inode0.id := out]);
        r := Ok(out);
      } else {
        var out := inode.(attributes := inode.attributes[key := value]);
        SmallValueIs(inode0, key, value);
        SmallLists(inodes, inode0, key, value, []);
        TracksLists(base, inodes[inode0.id := out]);
        TracksParts(base);
        BlocksAreWhole();
        NothingTouched(device.blocks, owner, s, superblock.blockCount);
        TookNone(superblock, owner.Keys);
        TracksFits(base);
        LengthIs(|device.blocks|, |owner|);
        r := Ok(out);
      }
    }

    lemma TracksLists(a: Inodes, b: Inodes)
      requires Tracks(a) && ListsAgree(a, b) && a.Keys == b.Keys
      ensures Tracks(b)
    {
      hide ListsAgree, Owned, LaidOut;
      SameListsOwned(superblock.blockCount, a, b, owner);
    }

    /** Everything that setting an attribute does to the inode and its blocks. */
    method UpdateAttribute(inode0: Inode, key: Str, value: AttributeValue) returns (r: Result<()>)
      requires Good() && inode0.id in inodes && inodes[inode0.id] == inode0
      modifies this, device, bitmap
      ensures r.Ok? ==>
                && Good() && OneAttributeSet(old(Files()), Files(), inode0.id, key, value)
                && ExchangedOn(old(superblock), old(owner).Keys, old(|device.blocks|),
                               BlocksOf(old(inodes), AttrOf(inode0.id, key)),
                               superblock, owner.Keys, |device.blocks|, SpillCount(codecs, value))
      ensures r.Ok? ==> KeptBySize(codecs, Files(), inode0.id, key, value, SpillCount(codecs, value))
      ensures r.Err? && device.reliable ==>
                ExchangeExcused(r.error, old(Room()), old(owner).Keys, BlocksOf(old(inodes), AttrOf(inode0.id, key)),
                                SpillCount(codecs, value))
    {
      hide *;
      ghost var before, sb0, owner0, inodes0 := device.blocks, superblock, owner, inodes;
      FilesAre();
      GoodParts();
      GoodImage();
      GoodInode(inode0.id);
      ghost var gone, spill := BlocksOf(inodes, AttrOf(inode0.id, key)), SpillCount(codecs, value);
      var placed, extents, freed := ExchangeBlocks(inode0, key, value);
      if placed.Err? {
        return Err(placed.error);
      }
      var final := placed.value;
      PlacedParts(inode0, key, value, final, extents, before, freed, sb0, owner0, old(Room()));
      ghost var mid := device.blocks;
      TracksParts(inodes[inode0.id := final]);
      WithAttributeId(inode0, key, value, extents);
      PlaceIs(device, final.id);
      ExchangedParts(sb0, owner0.Keys, |before|, gone, superblock, owner.Keys, |mid|, spill);
      ExchangedKeeps(sb0, owner0.Keys, gone, superblock, owner.Keys, spill);
      r := WriteInode(final);
      if r.Err? && device.reliable {
        ExcusedIs(r.error, old(Room()), owner0.Keys, gone, spill);
      }
      if r.Ok? {
        assert device.blocks == mid[final.id := Padded(codecs.inode.enc(final))];
        inodes := inodes[inode0.id := final];
        AttributeUpdated(before, freed, mid, sb0, inodes0, owner0, inode0, key, value, extents, final);
        SetBySize(codecs, old(Files()), Files(), inode0.id, key, value);
      }
    }

    /** A new value is in place, and the blocks of the old one are gone, but the inode is not written yet. */
    ghost predicate ValuePlaced(inode0: Inode, key: Str, value: AttributeValue, final: Inode, extents: seq<Extent>,
                                blocks0: seq<seq<Byte>>, freed: seq<seq<Byte>>, sb0: Superblock, owner0: Owners,
                                room: nat)
      reads this, device, bitmap
    {
      var s, spill := AttrOf(inode0.id, key), SpillCount(codecs, value);
      var gone := BlocksOf(inodes, s);
      && ExchangedOn(sb0, owner0.Keys, |blocks0|, gone, superblock, owner.Keys, |device.blocks|, spill)
      && |owner0.Keys - gone| + spill <= room
      && final == WithAttribute(inode0, key, value, extents) && Tracks(inodes[inode0.id := final])
      && Extends(WithoutStream(owner0, s), owner)
      && SystemOnly(blocks0, freed, superblock.blockCount)
      && StreamOrSystem(freed, device.blocks, owner, s, superblock.blockCount)
      && (IsLarge(value) ==> HoldsData(extents, device.blocks, codecs.attribute.enc(value)))
    }

    lemma PlacedParts(inode0: Inode, key: Str, value: AttributeValue, final: Inode, extents: seq<Extent>,
                      blocks0: seq<seq<Byte>>, freed: seq<seq<Byte>>, sb0: Superblock, owner0: Owners, room: nat)
      requires ValuePlaced(inode0, key, value, final, extents, blocks0, freed, sb0, owner0, room)
      ensures var s, spill := AttrOf(inode0.id, key), SpillCount(codecs, value);
              var gone := BlocksOf(inodes, s);
              && ExchangedOn(sb0, owner0.Keys, |blocks0|, gone, superblock, owner.Keys, |device.blocks|, spill)
              && |owner0.Keys - gone| + spill <= room
              && final == WithAttribute(inode0, key, value, extents) && Tracks(inodes[inode0.id := final])
              && Extends(WithoutStream(owner0, s), owner)
              && SystemOnly(blocks0, freed, superblock.blockCount)
              && StreamOrSystem(freed, device.blocks, owner, s, superblock.blockCount)
              && (IsLarge(value) ==> HoldsData(extents, device.blocks, codecs.attribute.enc(value)))
    {
      hide Tracks, WithAttribute, Extends, WithoutStream, SystemOnly, StreamOrSystem, HoldsData, ExchangedOn, BlocksOf;
    }

    lemma MakePlaced(inode0: Inode, key: Str, value: AttributeValue, final: Inode, extents: seq<Extent>,
                     blocks0: seq<seq<Byte>>, freed: seq<seq<Byte>>, sb0: Superblock, owner0: Owners, room: nat)
      requires var s, spill := AttrOf(inode0.id, key), SpillCount(codecs, value);
               var gone := BlocksOf(inodes, s);
               && ExchangedOn(sb0, owner0.Keys, |blocks0|, gone, superblock, owner.Keys, |device.blocks|, spill)
               && |owner0.Keys - gone| + spill <= room
               && final == WithAttribute(inode0, key, value, extents) && Tracks(inodes[inode0.id := final])
               && Extends(WithoutStream(owner0, s), owner)
               && SystemOnly(blocks0, freed, superblock.blockCount)
               && StreamOrSystem(freed, device.blocks, owner, s, superblock.blockCount)
               && (IsLarge(value) ==> HoldsData(extents, device.blocks, codecs.attribute.enc(value)))
      ensures ValuePlaced(inode0, key, value, final, extents, blocks0, freed, sb0, owner0, room)
    {
      hide Tracks, WithAttribute, Extends, WithoutStream, SystemOnly, StreamOrSystem, HoldsData, ExchangedOn, BlocksOf;
    }

    /** Gives the blocks of the old value back, and puts the new one in place; `freed` is the device in between. */
    method ExchangeBlocks(inode0: Inode, key: Str, value: AttributeValue)
      returns (r: Result<Inode>, ghost extents: seq<Extent>, ghost freed: seq<seq<Byte>>)
      requires Good() && inode0.id in inodes && inodes[inode0.id] == inode0
      modifies this`superblock, this`owner, bitmap`bits, device
      ensures r.Ok? ==>
                ValuePlaced(inode0, key, value, r.value, extents, old(device.blocks), freed, old(superblock),
                            old(owner), old(Room()))
      ensures r.Err? && device.reliable ==>
                ExchangeExcused(r.error, old(Room()), old(owner).Keys, BlocksOf(inodes, AttrOf(inode0.id, key)),
                                SpillCount(codecs, value))
    {
      hide *;
      ghost var before, sb0, owner0 := device.blocks, superblock, owner;
      ghost var s, spill := AttrOf(inode0.id, key), SpillCount(codecs, value);
      ghost var gone := BlocksOf(inodes, s);
      extents := [];
      SpaceIs();
      GoodParts();
      GoodImage();
      ConsistentParts(codecs, before, sb0, inodes, owner0);
      StreamsPart(sb0.blockCount, inodes, owner0, s);
      WithoutBlocks(inodes, owner0, s);
      var dropped := DropLarge(inode0, key);
      freed := device.blocks;
      if dropped.Err? {
        return Err(dropped.error), extents, freed;
      }
      ghost var sb1, owner1 := superblock, owner;
      FreedKeeps(sb0, owner0.Keys, sb1, owner1.Keys);
      SystemOnlyParts(before, freed, sb1.blockCount);
      SpaceIs();
      WithinBelow(owner1, 0);
      r, extents := PlaceValue(inode0, dropped.value, key, value);
      if r.Ok? {
        TookKeeps(sb1, owner1.Keys, superblock, owner.Keys, spill);
        FreedThenTook(sb0, owner0.Keys, sb1, owner1.Keys, superblock, owner.Keys, gone, spill);
        MakeExchanged(sb0, owner0.Keys, |before|, gone, superblock, owner.Keys, |device.blocks|, spill);
        TracksFits(inodes[inode0.id := r.value]);
        WithinBelow(owner, 0);
        MakePlaced(inode0, key, value, r.value, extents, before, freed, sb0, owner0, old(Room()));
      } else if device.reliable {
        ExcusedIs(r.error, old(Room()), owner0.Keys, gone, spill);
      }
    }

    lemma AttributeUpdated(before: seq<seq<Byte>>, freed: seq<seq<Byte>>, mid: seq<seq<Byte>>, sb0: Superblock,
                           inodes0: Inodes,
                           owner0: Owners, inode: Inode, key: Str, value: AttributeValue, extents: seq<Extent>,
                               final: Inode)
      requires device.Valid() && Environment() && journal.ValidOn(before)
      requires Consistent(codecs, before, sb0, inodes0, owner0)
      requires inode.id in inodes0 && inodes0[inode.id] == inode && final == WithAttribute(inode, key, value, extents)
      requires SystemOnly(before, freed, sb0.blockCount)
      requires StreamOrSystem(freed, mid, owner, AttrOf(inode.id, key), sb0.blockCount)
      requires IsLarge(value) ==> HoldsData(extents, mid, codecs.attribute.enc(value))
      requires superblock == sb0.(freeBlocks := superblock.freeBlocks) && superblock.freeBlocks <= superblock.blockCount
      requires Owned(superblock.blockCount, inodes0[inode.id := final], owner) && Within(owner, |mid|)
      requires Extends(WithoutStream(owner0, AttrOf(inode.id, key)), owner)
      requires Sized() && bitmap.Used() == owner.Keys && inodes == inodes0[inode.id := final]
      requires |codecs.inode.enc(final)| <= BLOCK_SIZE && inode.id < |mid|
      requires device.blocks == mid[inode.id := Padded(codecs.inode.enc(final))]
      ensures Good()
      ensures OneAttributeSet(View(codecs, before, inodes0), Files(), inode.id, key, value)
    {
      hide *;
      StillLawful();
      AttributeStored(codecs, before, freed, mid, device.blocks, sb0, superblock, inodes0, owner0, owner, inode, key,
                      value, extents, final);
      FilesAre();
      ConsistentParts(codecs, before, sb0, inodes0, owner0);
      AttributeJournal(before, freed, mid, sb0.blockCount, inodes0, owner0, AttrOf(inode.id, key),
                       Padded(codecs.inode.enc(final)));
      MakeGood();
    }

    lemma AttributeJournal(before: seq<seq<Byte>>, freed: seq<seq<Byte>>, mid: seq<seq<Byte>>, blockCount: nat,
                           inodes0: Inodes, owner0: Owners, s: Stream, block: seq<Byte>)
      requires journal.ValidOn(before) && SystemOnly(before, freed, blockCount)
      requires StreamOrSystem(freed, mid, owner, s, blockCount)
      requires Owned(blockCount, inodes0, owner0) && s.id in inodes0 && Extends(WithoutStream(owner0, s), owner)
      requires s.id < |mid| && |block| == BLOCK_SIZE && device.blocks == mid[s.id := block]
      ensures journal.ValidOn(device.blocks)
    {
      InodesAboveSystem(blockCount, inodes0, owner0, s.id);
      forall b: nat | JOURNAL_START <= b < JOURNAL_END
        ensures device.blocks[b] == before[b]
      {
        assert b in owner0 && owner0[b] == Reserved;
        assert b in WithoutStream(owner0, s);
      }
      JournalKept(before);
    }

    // ----- the catalog

    /** Appends an entry to the catalog, by rewriting the catalog file from its start. */
    method UpdateCatalog(key: Str, value: AttributeValue, inodeId: nat) returns (r: Result<()>)
      requires Good()
      modifies this, device, bitmap, journal
      ensures r.Ok? ==>
                && Good() && Synced() && superblock == old(superblock).(freeBlocks := superblock.freeBlocks)
                && Took(old(superblock), old(owner).Keys, superblock, owner.Keys,
                        Growth(ContentSize(old(Files()), superblock.catalogInode),
                               ContentSize(Files(), superblock.catalogInode)))
                && ContentSize(Files(), superblock.catalogInode) > 0 && |device.blocks| == |old(device.blocks)|
                && EntryIndexed(codecs, old(Files()), Files(), superblock.catalogInode,
                                NewCatalogEntry(hashes, key, value, inodeId))
                && journal.logged
                     == old(journal.logged) + [BeginWrite(superblock.catalogInode), EndWrite(superblock.catalogInode)]
      ensures r.Err? && device.reliable ==>
                IsCapacity(r.error) || CatalogUnreadable(codecs, old(Files()), old(superblock.catalogInode))
    {
      hide *;
      var catalogId := superblock.catalogInode;
      CatalogThere();
      if catalogId == 0 {
        return Ok(());
      }
      var read := ReadInode(catalogId);
      ReadKnown(catalogId, read);
      if read.Err? {
        return Err(read.error);
      }
      var data := ReadData(catalogId, 0, read.value.size);
      if data.Err? {
        return Err(data.error);
      }
      WholeContent(catalogId);
      CatalogReadsIs(codecs, Files(), catalogId);
      var entries := DeserializeCatalog(data.value);
      if entries.Err? {
        UnreadableIs(codecs, Files(), catalogId);
        return Err(entries.error);
      }
      var more := entries.value + [NewCatalogEntry(hashes, key, value, inodeId)];
      var newData := codecs.catalog.enc(more);
      CatalogEncodes(more);
      r := WriteData(catalogId, 0, newData);
      if r.Ok? {
        TookKeeps(old(superblock), old(owner).Keys, superblock, owner.Keys,
                  BlocksLacking(old(inodes)[catalogId].size, 0, |newData|));
        WriteGrows(old(Files()), Files(), catalogId, newData, old(inodes)[catalogId].size);
        Indexed(codecs, old(Files()), Files(), catalogId, entries.value, NewCatalogEntry(hashes, key, value, inodeId));
      }
    }

    method DeserializeCatalog(data: seq<Byte>) returns (r: Result<seq<CatalogEntry>>)
      ensures if data == [] then r == Ok([])
              else r == match codecs.catalog.dec(data) case Some(e) => Ok(e) case None => Err(Deserialization)
    {
      if data == [] {
        return Ok([]);
      }
      match codecs.catalog.dec(data)
      case None => return Err(Deserialization);
      case Some(e) => return Ok(e);
    }

    lemma CatalogThere()
      requires Good()
      ensures superblock.catalogInode in inodes && superblock.catalogInode > 0 && device.Valid()
      ensures Readable(superblock.catalogInode)
      ensures superblock.catalogInode < WORDS
    {
      InodesAboveSystem(superblock.blockCount, inodes, owner, superblock.catalogInode);
    }

    /** A read of `size` bytes from the start yields the whole file. */
    lemma WholeContent(id: nat)
      requires Good() && id in inodes
      ensures id in Files() && Window(Files()[id].content, 0, inodes[id].size) == Files()[id].content
      ensures |Files()[id].content| == inodes[id].size
    {
      hide Good, View;
      OwnContent(codecs, device.blocks, inodes, id);
    }

    lemma CatalogEncodes(entries: seq<CatalogEntry>)
      requires Good()
      ensures codecs.catalog.enc(entries) != []
    {
      var longer := entries + [CatalogEntry(0, 0, 0)];
      assert |longer| != |entries|;
      codecs.catalog.EncodesToSomething(entries, longer);
    }

    lemma CapacityKinds()
      ensures forall e: FsError :: e == InodeTooLarge || e == NoSpace || e.OutOfBounds? ==> IsCapacity(e)
    {
    }

    // ----- setting attributes

    /**
     * Sets one attribute and indexes it. The journal entry carries the key, and must fit a block:
     * see `LogTerminatesIff`.
     */
    method SetAttribute(inodeId: nat, key: Str, value: AttributeValue) returns (r: Result<()>)
      requires Good() && Readable(inodeId) && inodeId < WORDS
      requires Journal.EntrySize(codecs.op, BeginOp(inodeId, SET_ATTR + key)) <= BLOCK_SIZE
      modifies this, device, bitmap, journal
      ensures r.Ok? ==>
                var gone := BlocksOf(old(inodes), AttrOf(inodeId, key));
                && Exchanged(old(superblock), old(owner).Keys, gone, superblock, owner.Keys,
                            SpillCount(codecs, value) + Growth(ContentSize(old(Files()), superblock.catalogInode),
                                                               ContentSize(Files(), superblock.catalogInode)))
                && |device.blocks|
                     == LengthFor(|old(device.blocks)|, |old(owner).Keys - gone| + SpillCount(codecs, value))
      ensures r.Ok? ==>
                && Good() && Synced() && superblock == old(superblock).(freeBlocks := superblock.freeBlocks)
                && inodeId in old(inodes) && ContentSize(Files(), superblock.catalogInode) > 0
                && AttributeIndexed(codecs, hashes, old(Files()), Files(), superblock.catalogInode, inodeId, key, value)
                && journal.logged == old(journal.logged) + SetAttributeOps(inodeId, key, superblock.catalogInode)
      ensures r.Ok? ==> KeptBySize(codecs, Files(), inodeId, key, value, SpillCount(codecs, value))
      ensures inodeId !in old(inodes) ==> r.Err?
      ensures r.Err? && device.reliable && inodeId in old(inodes) ==>
                IsCapacity(r.error)
                || CatalogUnreadable(codecs, AfterSetting(old(Files()), inodeId, key, value),
                                     old(superblock.catalogInode))
    {
      hide *;
      CapacityKinds();
      r := LogOp(BeginOp(inodeId, SET_ATTR + key));
      if r.Err? {
        return;
      }
      StillReadable(inodeId);
      GoodParts();
      var read := ReadInode(inodeId);
      ReadKnown(inodeId, read);
      if read.Err? {
        return Err(read.error);
      }
      ghost var files0, sb0, used0, gone := Files(), superblock, owner.Keys, BlocksOf(inodes, AttrOf(inodeId, key));
      ghost var spill, length0, room := SpillCount(codecs, value), |device.blocks|, Room();
      r := UpdateAttribute(read.value, key, value);
      if r.Err? {
        if device.reliable {
          ExcusedKinds(r.error, room, used0, gone, spill);
        }
        return;
      }
      ghost var files1, sb1, used1 := Files(), superblock, owner.Keys;
      ExchangedParts(sb0, used0, length0, gone, sb1, used1, |device.blocks|, spill);
      ExchangedKeeps(sb0, used0, gone, sb1, used1, spill);
      SettingIs(files0, files1, inodeId, key, value);
      AttributedSize(files0, inodeId, key, value, superblock.catalogInode);
      r := UpdateCatalog(key, value, inodeId);
      if r.Err? {
        return;
      }
      ghost var files2 := Files();
      ghost var grown :=
        Growth(ContentSize(files1, superblock.catalogInode), ContentSize(files2, superblock.catalogInode));
      ExchangedMore(sb0, used0, gone, sb1, used1, superblock, owner.Keys, spill, grown);
      ExchangedKeeps(sb0, used0, gone, superblock, owner.Keys, spill + grown);
      SetAndIndexed(codecs, hashes, files0, files1, files2, superblock.catalogInode, inodeId, key, value);
      IndexedBySize(codecs, hashes, files0, files2, superblock.catalogInode, inodeId, key, value);
      GoodParts();
      FixedEntry(EndOp(inodeId));
      r := Sync();
      if r.Err? {
        return;
      }
      r := LogOp(EndOp(inodeId));
      SetAttributeOpsAre(old(journal.logged), inodeId, key, superblock.catalogInode);
    }

    // ----- directories

    method Ls(inodeId: nat) returns (r: Result<seq<DirEntry>>)
      requires Good() && Readable(inodeId)
      ensures r.Ok? ==> Listing(codecs, Files(), inodeId) == Some(r.value)
      ensures inodeId in inodes && device.reliable ==>
                if inodes[inodeId].kind != Directory then r == Err(NotADirectory)
                else r == match Listing(codecs, Files(), inodeId)
                          case Some(e) => Ok(e)
                          case None => Err(Deserialization)
    {
      hide *;
      GoodParts();
      var read := ReadInode(inodeId);
      ReadKnown(inodeId, read);
      if read.Err? {
        return Err(read.error);
      }
      var inode := read.value;
      WholeContent(inodeId);
      ListingIs(inodeId);
      if inode.kind != Directory {
        return Err(NotADirectory);
      }
      if inode.size == 0 {
        return Ok([]);
      }
      var data := ReadData(inodeId, 0, inode.size);
      if data.Err? {
        return Err(data.error);
      }
      match codecs.entries.dec(data.value)
      case None => return Err(Deserialization);
      case Some(entries) => return Ok(entries);
    }

    lemma ListingIs(id: nat)
      requires Good() && id in inodes
      ensures id in Files() && Files()[id].kind == inodes[id].kind && |Files()[id].content| == inodes[id].size
      ensures Listing(codecs, Files(), id) ==
                if inodes[id].kind != Directory then None
                else if inodes[id].size == 0 then Some([]) else codecs.entries.dec(Files()[id].content)
    {
      hide Good, View;
      OwnContent(codecs, device.blocks, inodes, id);
    }

    method AddEntry(parentId: nat, name: Str, kind: FileKind) returns (r: Result<nat>)
      requires Good() && Readable(parentId)
      modifies this, device, bitmap, journal
      ensures r.Ok? ==>
                && Good() && Synced() && superblock == old(superblock).(freeBlocks := superblock.freeBlocks)
                && Took(old(superblock), old(owner).Keys, superblock, owner.Keys,
                        1 + Growth(ContentSize(old(Files()), parentId), ContentSize(Files(), parentId)))
                && ContentSize(Files(), parentId) > 0
                && |device.blocks| == LengthFor(|old(device.blocks)|, |old(owner)| + 1)
                && EntryAdded(codecs, old(Files()), Files(), parentId, name, kind, r.value)
                && IsLeastFree(old(bitmap.Used()), bitmap.blockCount, Some(r.value))
                && journal.logged == old(journal.logged) + AddEntryOps(parentId, r.value)
      ensures parentId !in old(inodes) || Refuses(codecs, old(Files()), parentId, name) ==>
                r.Err? && unchanged(this, device, bitmap, journal)
      ensures device.reliable && parentId in old(inodes) ==>
                && (old(inodes)[parentId].kind != Directory ==> r == Err(NotADirectory))
                && (HasName(codecs, old(Files()), parentId, name) ==> r == Err(FileExists))
    {
      hide *;
      GoodParts();
      var read := ReadInode(parentId);
      ReadKnown(parentId, read);
      if read.Err? {
        return Err(read.error);
      }
      WholeContent(parentId);
      ListingIs(parentId);
      NoListing(codecs, Files(), parentId, name);
      var parentInode := read.value;
      if parentInode.kind != Directory {
        return Err(NotADirectory);
      }
      var entries := [];
      if parentInode.size > 0 {
        var listed := Ls(parentId);
        if listed.Err? {
          return Err(listed.error);
        }
        entries := listed.value;
      }
      RefusesIf(codecs, Files(), parentId, entries, name);
      if exists i :: 0 <= i < |entries| && entries[i].name == name {
        return Err(FileExists);
      }
      ghost var files0 := Files();
      r := CreateInodeInternal(kind, map[]);
      if r.Err? {
        return;
      }
      var newId := r.value;
      TookKeeps(old(superblock), old(owner).Keys, superblock, owner.Keys, 1);
      ghost var files1, sb1, owner1 := Files(), superblock, owner;
      StillThere(files0, files1, parentId, newId);
      AddedSize(files0, files1, newId, NewFile(kind, map[]), parentId);
      WholeContent(parentId);
      ghost var size1 := inodes[parentId].size;
      var data := codecs.entries.enc(SortByName(entries + [DirEntry(name, newId, kind)]));
      EntriesEncode(SortByName(entries + [DirEntry(name, newId, kind)]));
      var w := WriteData(parentId, 0, data);
      if w.Err? {
        return Err(w.error);
      }
      WriteGrows(files1, Files(), parentId, data, size1);
      TookKeeps(sb1, owner1.Keys, superblock, owner.Keys, BlocksLacking(size1, 0, |data|));
      TookMore(old(superblock), old(owner).Keys, sb1, owner1.Keys, superblock, owner.Keys, 1,
               BlocksLacking(size1, 0, |data|));
      Entered(codecs, files0, files1, Files(), parentId, name, kind, newId, entries);
      AddEntryOpsAre(old(journal.logged), parentId, newId);
    }

    lemma StillThere(before: Files, after: Files, id: nat, newId: nat)
      requires Good() && after == Files() && id in before
      requires exists file :: OneFileAdded(before, after, newId, file)
      ensures id in inodes && Readable(id) && id < WORDS
    {
      hide Good;
      IdsFit();
      ViewKeys(codecs, device.blocks, inodes);
    }

    lemma EntriesEncode(entries: seq<DirEntry>)
      requires Good()
      ensures codecs.entries.enc(entries) != []
    {
      var longer := entries + [DirEntry([], 0, File)];
      assert |longer| != |entries|;
      codecs.entries.EncodesToSomething(entries, longer);
    }

    /** The inode that a path leads to from the root. */
    method ResolvePath(path: Str) returns (r: Result<nat>)
      requires Good() && IsTree(codecs, Files(), superblock.rootInode)
      ensures r.Ok? ==> Resolve(codecs, Files(), superblock.rootInode, PathParts(path)) == Some(r.value)
      ensures device.reliable ==> (r.Ok? <==> Resolve(codecs, Files(), superblock.rootInode, PathParts(path)).Some?)
    {
      hide *;
      var root := superblock.rootInode;
      var trimmed := TrimStart(path);
      PathStarts(codecs, Files(), root, path);
      if trimmed == [] {
        return Ok(root);
      }
      var parts := Split(trimmed);
      var currentId := root;
      ghost var files := Files();
      TreeRoot(codecs, files, root);
      for i := 0 to |parts|
        invariant currentId in files
        invariant Resolve(codecs, files, root, PathParts(path))
                  == Resolve(codecs, files, currentId, NonEmpty(parts[i..]))
      {
        var part := parts[i];
        PathStep(codecs, files, root, currentId, parts, i);
        if part == [] {
          continue;
        }
        FileThere(currentId);
        var entries := Ls(currentId);
        if entries.Err? {
          return Err(entries.error);
        }
        var entry := Find(entries.value, part);
        if entry == None {
          return Err(RootMissing);
        }
        currentId := entry.value.inodeId;
      }
      PathEnds(codecs, files, currentId, parts);
      r := Ok(currentId);
    }

    lemma FileThere(id: nat)
      requires Good() && id in Files()
      ensures id in inodes && Readable(id) && id < WORDS
      ensures inodes[id].kind != Directory ==> Listing(codecs, Files(), id) == None
    {
      hide Good, View;
      IdsFit();
      ViewKeys(codecs, device.blocks, inodes);
      OwnContent(codecs, device.blocks, inodes, id);
    }

    // ----- queries

    /**
     * Answers a query through the catalog: candidates by hash, sorted and without repetitions,
     * then each one checked against its present attributes.
     */
    method RunQuery(q: Query) returns (r: Result<seq<(Inode, nat)>>)
      requires Good() && CatalogLive(codecs, Files(), superblock.catalogInode)
      ensures r.Ok? ==>
                && CatalogReads(codecs, Files(), superblock.catalogInode).Some?
                && AreResults(r.value,
                     ThroughCatalog(hashes, cosine, CatalogReads(codecs, Files(), superblock.catalogInode).value,
                                    Files(), q),
                     cosine, Files(), q)
                && (forall i :: 0 <= i < |r.value| ==>
                    r.value[i].0.id in inodes && inodes[r.value[i].0.id] == r.value[i].0)
      ensures device.reliable && CatalogReads(codecs, Files(), superblock.catalogInode).Some? ==> r.Ok?
    {
      hide *;
      var catalogId := superblock.catalogInode;
      ghost var files := Files();
      CatalogThere();
      var read := ReadInode(catalogId);
      ReadKnown(catalogId, read);
      if read.Err? {
        return Err(read.error);
      }
      var data := ReadData(catalogId, 0, read.value.size);
      if data.Err? {
        return Err(data.error);
      }
      WholeContent(catalogId);
      var entries := DeserializeCatalog(data.value);
      CatalogReadsIs(codecs, files, catalogId);
      if entries.Err? {
        return Err(entries.error);
      }
      var candidates := FindCandidates(entries.value, q);
      SortDedup(candidates);
      var ids := Dedup(SortIds(candidates));
      var results: seq<(Inode, nat)> := [];
      NoResults(ids, cosine, files, q);
      for k := 0 to |ids|
        invariant AreResults(results, IdsOf(ids[..k]) * FullScan(cosine, files, q), cosine, files, q)
        invariant forall i :: 0 <= i < |results| ==>
                  results[i].0.id in inodes && inodes[results[i].0.id] == results[i].0
      {
        CandidateLive(codecs, files, catalogId, hashes, entries.value, q, ids[k]);
        FileThere(ids[k]);
        var inode := ReadInode(ids[k]);
        ReadKnown(ids[k], inode);
        if inode.Err? {
          return Err(inode.error);
        }
        InodeIds(ids[k]);
        var answer := Answer(inode.value, q);
        if answer.Err? {
          return Err(answer.error);
        }
        MoreResults(results, ids, k, cosine, files, q, inode.value);
        if answer.value.Some? {
          results := results + [(inode.value, answer.value.value)];
        }
      }
      AllCandidates(ids, hashes, cosine, entries.value, files, q);
      r := Ok(results);
    }

    lemma InodeIds(id: nat)
      requires Good() && id in inodes
      ensures inodes[id].id == id
    {
    }

    /** The inodes of the entries whose hashes match. */
    method FindCandidates(entries: seq<CatalogEntry>, q: Query) returns (ids: seq<nat>)
      ensures forall x :: x in ids <==> x in Candidates(hashes, entries, q)
    {
      ids := [];
      var targetKeyHash := hashes.key(q.key);
      var targetValHash := if q.op.Eq? then Some(hashes.value(q.value)) else None;
      for i := 0 to |entries|
        invariant forall x :: x in ids <==>
                  exists j :: 0 <= j < i && Matches(hashes, entries[j], q) && entries[j].inodeId == x
      {
        var entry := entries[i];
        if entry.keyHash == targetKeyHash {
          if targetValHash.Some? {
            if entry.valHash == targetValHash.value {
              ids := ids + [entry.inodeId];
            }
          } else {
            ids := ids + [entry.inodeId];
          }
        }
      }
    }

    /** Whether one inode answers the query, from its present attributes. */
    method Answer(inode: Inode, q: Query) returns (r: Result<Option<nat>>)
      requires Good() && inode.id in inodes && inodes[inode.id] == inode
      ensures r.Ok? ==> inode.id in Files() && r.value == Answers(cosine, Files()[inode.id], q)
      ensures device.reliable ==> r.Ok?
    {
      hide *;
      var valOpt := AttributeOf(inode, q.key);
      if valOpt.Err? {
        return Err(valOpt.error);
      }
      var passes := PassesSecondary(inode, q.secondary);
      AnswersIs(cosine, Files()[inode.id], q);
      match valOpt.value
      case None => r := Ok(None);
      case Some(val) =>
        var score := CheckCondition(cosine, val, q.op, q.value);
        r := Ok(if score.Some? && passes then score else None);
    }

    method PassesSecondary(inode: Inode, filters: seq<(Str, Str)>) returns (passes: bool)
      requires Good() && inode.id in inodes && inodes[inode.id] == inode
      ensures inode.id in Files()
      ensures (passes <==> forall i :: 0 <= i < |filters| ==> PassesFilter(Files()[inode.id], filters[i]))
    {
      hide Good;
      FilterIs(inode);
      passes := true;
      for i := 0 to |filters|
        invariant forall j :: 0 <= j < i ==> PassesFilter(Files()[inode.id], filters[j])
      {
        var (secKey, secVal) := filters[i];
        var matchFound := false;
        if secKey in inode.attributes {
          match inode.attributes[secKey]
          case Text(s) => matchFound := s == secVal;
          case _ =>
        }
        assert matchFound <==> PassesFilter(Files()[inode.id], filters[i]);
        if !matchFound {
          return false;
        }
      }
    }

    lemma FilterIs(inode: Inode)
      requires Good() && inode.id in inodes && inodes[inode.id] == inode
      ensures inode.id in Files()
      ensures forall f: (Str, Str) :: PassesFilter(Files()[inode.id], f)
                <==> f.0 in inode.attributes && inode.attributes[f.0] == Text(f.1)
    {
      hide Good;
      assert Files()[inode.id] == ViewOf(codecs, device.blocks, inodes, inode.id);
    }
  }
}
