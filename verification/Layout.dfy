/** The image that formatting leaves, and the images that mounting finds. */
module Layout {
  import opened Storage
  import opened Types
  import opened Bitmap
  import opened Extents
  import opened Image
  import opened Counter
  import opened Updates

  function Min(a: nat, b: nat): nat { if a < b then a else b }

  lemma MinIs(a: nat, b: nat)
    ensures Min(a, b) == if a < b then a else b
  {
  }

  /** First fit over blocks that are used from 0 up to `k`: the next block, if there is one. */
  lemma FirstFitAppends(k: nat, capacity: nat, limit: nat, r: Option<nat>)
    requires limit <= capacity && IsLeastFree(Range(Min(k, capacity)), limit, r)
    ensures r.Some? ==> r.value == k < limit && Min(k, capacity) == k
    ensures r.Some? ==> Range(k) + {k} == Range(k + 1) && Min(k + 1, capacity) == k + 1
    ensures r.None? ==> limit <= k
  {
    assert Min(k, capacity) !in Range(Min(k, capacity));
  }

  lemma MarkAppends(k: nat, capacity: nat)
    ensures (if k < capacity then Range(Min(k, capacity)) + {k} else Range(Min(k, capacity)))
              == Range(Min(k + 1, capacity))
  {
  }

  lemma RangeStarts(capacity: nat)
    ensures Range(Min(0, capacity)) == {}
  {
  }

  /** A device with room for the system blocks and the two first inodes. */
  predicate FormatFits(c: Codecs, blockCount: nat) {
    var root := SystemEnd(blockCount);
    && root + 2 <= blockCount
    && |c.inode.enc(NewInode(root, Directory))| <= BLOCK_SIZE
    && |c.inode.enc(NewInode(root + 1, System))| <= BLOCK_SIZE
  }

  function FreshInodes(root: nat, catalog: nat): Inodes {
    map[root := NewInode(root, Directory), catalog := NewInode(catalog, System)]
  }

  function FreshFiles(root: nat, catalog: nat): Files {
    map[root := NewFile(Directory, map[]), catalog := NewFile(System, map[])]
  }

  function FreshOwner(blockCount: nat): Owners {
    map b | b in Range(SystemEnd(blockCount) + 2) :: if b < SystemEnd(blockCount) then Reserved else InodeAt(b)
  }

  function FreshSuperblock(blockCount: nat): Superblock {
    var root := SystemEnd(blockCount);
    NewSuperblock(blockCount).(rootInode := root, catalogInode := root + 1,
                               freeBlocks := if blockCount > root + 2 then blockCount - root - 2 else 0)
  }

  lemma FreshStreams(root: nat, catalog: nat)
    ensures forall s :: ListOf(FreshInodes(root, catalog), s) == []
  {
    assert forall s :: ExtentsOf(FreshInodes(root, catalog), s) == [];
  }

  lemma FreshOwned(blockCount: nat)
    requires SystemEnd(blockCount) + 2 <= blockCount
    ensures Owned(blockCount, FreshInodes(SystemEnd(blockCount), SystemEnd(blockCount) + 1), FreshOwner(blockCount))
  {
    hide *;
    var inodes, owner := FreshInodes(SystemEnd(blockCount), SystemEnd(blockCount) + 1), FreshOwner(blockCount);
    FreshStreamsOwned(blockCount);
    FreshFixed(blockCount);
    MakeOwned(blockCount, inodes, owner);
  }

  lemma MakeOwned(blockCount: nat, inodes: Inodes, owner: Owners)
    requires FixedBlocksOwned(blockCount, inodes, owner) && StreamsOwned(inodes, owner)
    ensures Owned(blockCount, inodes, owner)
  {
  }

  lemma FreshStreamsOwned(blockCount: nat)
    ensures StreamsOwned(FreshInodes(SystemEnd(blockCount), SystemEnd(blockCount) + 1), FreshOwner(blockCount))
  {
    hide SystemEnd, ListOf;
    FreshStreams(SystemEnd(blockCount), SystemEnd(blockCount) + 1);
  }

  lemma FreshFixed(blockCount: nat)
    requires SystemEnd(blockCount) + 2 <= blockCount
    ensures FixedBlocksOwned(blockCount, FreshInodes(SystemEnd(blockCount), SystemEnd(blockCount) + 1),
                             FreshOwner(blockCount))
  {
    hide SystemEnd, FreshOwner, Range;
    FreshOwnerAt(blockCount);
    assert FreshInodes(SystemEnd(blockCount), SystemEnd(blockCount) + 1).Keys
        == {SystemEnd(blockCount), SystemEnd(blockCount) + 1};
  }

  lemma FreshOwnerAt(blockCount: nat)
    ensures forall b: nat :: b in FreshOwner(blockCount) <==> b < SystemEnd(blockCount) + 2
    ensures forall b :: b in FreshOwner(blockCount) ==>
              FreshOwner(blockCount)[b] == if b < SystemEnd(blockCount) then Reserved else InodeAt(b)
  {
    FreshSize(blockCount);
    assert forall b: nat :: b in FreshOwner(blockCount) <==> b in Range(SystemEnd(blockCount) + 2);
  }

  lemma FreshSize(blockCount: nat)
    ensures FreshOwner(blockCount).Keys == Range(SystemEnd(blockCount) + 2)
    ensures |FreshOwner(blockCount)| == SystemEnd(blockCount) + 2
  {
    hide SystemEnd;
    assert FreshOwner(blockCount).Keys == Range(SystemEnd(blockCount) + 2);
    assert |FreshOwner(blockCount).Keys| == |FreshOwner(blockCount)|;
  }

  /** The two inodes that formatting stores, for a file system of `n` blocks. */
  ghost predicate FreshOn(c: Codecs, blocks: seq<seq<Byte>>, n: nat) {
    var root := SystemEnd(n);
    && c.Lawful() && WholeBlocks(blocks) && n < WORDS
    && FormatFits(c, n) && root + 2 <= |blocks|
    && blocks[root] == Padded(c.inode.enc(NewInode(root, Directory)))
    && blocks[root + 1] == Padded(c.inode.enc(NewInode(root + 1, System)))
  }

  /** A freshly formatted device satisfies the invariant and holds an empty root and an empty catalog. */
  lemma FreshConsistent(c: Codecs, blocks: seq<seq<Byte>>, n: nat)
    requires FreshOn(c, blocks, n)
    ensures var root := SystemEnd(n);
            && Consistent(c, blocks, FreshSuperblock(n), FreshInodes(root, root + 1), FreshOwner(n))
            && CountsClear(FreshSuperblock(n), FreshOwner(n).Keys) && Below(FreshOwner(n).Keys, n)
            && View(c, blocks, FreshInodes(root, root + 1)) == FreshFiles(root, root + 1)
  {
    hide *;
    var root := SystemEnd(n);
    FreshFits(c, blocks, n);
    FreshOwned(n);
    FreshSize(n);
    FreshWithin(n);
    FreshParts(c, blocks, n);
    FreshView(c, blocks, root);
    FreshSuper(n);
    FreshMakes(c, blocks, n);
  }

  lemma FreshSuper(blockCount: nat)
    requires SystemEnd(blockCount) + 2 <= blockCount < WORDS
    ensures var sb := FreshSuperblock(blockCount);
            && sb.blockCount == blockCount && LaidOut(sb)
            && sb.rootInode == SystemEnd(blockCount) && sb.catalogInode == SystemEnd(blockCount) + 1
            && sb.freeBlocks + SystemEnd(blockCount) + 2 == blockCount
  {
  }

  lemma FreshFits(c: Codecs, blocks: seq<seq<Byte>>, n: nat)
    requires FreshOn(c, blocks, n)
    ensures SystemEnd(n) + 2 <= n < WORDS && SystemEnd(n) + 2 <= |blocks|
  {
  }

  lemma FreshWithin(n: nat)
    ensures forall limit :: SystemEnd(n) + 2 <= limit ==> Within(FreshOwner(n), limit)
  {
    hide SystemEnd, FreshOwner;
    FreshOwnerAt(n);
  }

  lemma FreshParts(c: Codecs, blocks: seq<seq<Byte>>, n: nat)
    requires FreshOn(c, blocks, n)
    ensures var root := SystemEnd(n);
            var inodes := FreshInodes(root, root + 1);
            && WholeBlocks(blocks) && Stored(c, blocks, inodes) && AttrsReadable(c, blocks, inodes)
            && forall id :: id in inodes ==> WellFormed(inodes[id])
  {
    hide SystemEnd;
    var root := SystemEnd(n);
    c.inode.DecodesPadded(NewInode(root, Directory));
    c.inode.DecodesPadded(NewInode(root + 1, System));
  }

  lemma FreshMakes(c: Codecs, blocks: seq<seq<Byte>>, n: nat)
    requires WholeBlocks(blocks) && LaidOut(FreshSuperblock(n)) && SystemEnd(n) + 2 <= n && SystemEnd(n) + 2 <= |blocks|
    requires var root := SystemEnd(n);
             var inodes, sb := FreshInodes(root, root + 1), FreshSuperblock(n);
             && Owned(n, inodes, FreshOwner(n)) && |FreshOwner(n)| == root + 2
             && (forall limit :: root + 2 <= limit ==> Within(FreshOwner(n), limit))
             && Stored(c, blocks, inodes) && AttrsReadable(c, blocks, inodes)
             && (forall id :: id in inodes ==> WellFormed(inodes[id]))
             && sb.blockCount == n
             && sb.rootInode == root
             && sb.catalogInode == root + 1
             && sb.freeBlocks + root + 2 == n
    ensures var root := SystemEnd(n);
            Consistent(c, blocks, FreshSuperblock(n), FreshInodes(root, root + 1), FreshOwner(n))
    ensures CountsClear(FreshSuperblock(n), FreshOwner(n).Keys) && Below(FreshOwner(n).Keys, n)
  {
    hide Owned, SystemEnd, FreshSuperblock, FreshOwner, Stored, AttrsReadable, WellFormed, LaidOut, Within;
    assert Within(FreshOwner(n), |blocks|) && Within(FreshOwner(n), n);
    WithinBelow(FreshOwner(n), n);
    SetSize(FreshOwner(n).Keys, Range(n));
  }

  lemma FreshView(c: Codecs, blocks: seq<seq<Byte>>, root: nat)
    ensures View(c, blocks, FreshInodes(root, root + 1)) == FreshFiles(root, root + 1)
  {
    var inodes := FreshInodes(root, root + 1);
    assert AttrsOf(c, blocks, inodes, root) == map[] && AttrsOf(c, blocks, inodes, root + 1) == map[];
    assert ViewOf(c, blocks, inodes, root) == NewFile(Directory, map[]);
    assert ViewOf(c, blocks, inodes, root + 1) == NewFile(System, map[]);
  }

  // ----- formatting

  lemma FormatStarts(c: Codecs, blockCount: nat, bits: nat)
    requires bits == (blockCount + 7) / 8
    ensures NewSuperblock(blockCount).blockCount == blockCount && blockCount <= 8 * bits
    ensures c.Lawful() ==> c.op.Lawful()
    ensures JOURNAL_START == 1 && 1 + 1 < WORDS
    ensures FormatFits(c, blockCount) ==>
              && SystemEnd(blockCount) + 2 <= blockCount && JOURNAL_END < blockCount
              && |c.inode.enc(NewInode(SystemEnd(blockCount), Directory))| <= BLOCK_SIZE
              && |c.inode.enc(NewInode(SystemEnd(blockCount) + 1, System))| <= BLOCK_SIZE
  {
  }

  /** The counter after one block was taken: it stays at zero. */
  function OneLess(n: nat): nat { if n > 0 then n - 1 else 0 }

  /** The blocks of a device of `sizeMb` megabytes; the product is a 64-bit word. */
  function BlocksFromSize(sizeMb: nat): (n: nat)
    ensures n < WORDS
  {
    sizeMb * 1024 * 1024 % WORDS / BLOCK_SIZE
  }

  /** The blocks that formatting counts: those of the device, or the size asked for if it has none yet. */
  function CountFor(blocks: seq<seq<Byte>>, sizeMb: nat): (n: nat)
    ensures |blocks| < WORDS ==> n < WORDS
  {
    if |blocks| == 0 then BlocksFromSize(sizeMb) else |blocks|
  }

  /** One megabyte is 256 blocks; the size asked for counts only while the device has no blocks. */
  lemma FormatSize(blocks: seq<seq<Byte>>, sizeMb: nat)
    requires sizeMb * 1048576 < WORDS
    ensures CountFor(blocks, sizeMb) == if |blocks| > 0 then |blocks| else sizeMb * 256
  {
  }

  /** Where everything is on a formatted device, and what its superblock says, in numbers. */
  lemma FreshNumbers(n: nat)
    ensures SystemEnd(n) == 11 + (n + 32767) / 32768
    ensures var e := 11 + (n + 32767) / 32768;
            e + 2 <= n ==>
              FreshSuperblock(n)
                == Superblock([0x55, 0x4E, 0x41, 0x46, 0x53], 2, 4096, n, e, n - e - 2, 11, (n + 32767) / 32768, 1, 10,
                              e + 1)
  {
    BitmapFills(n);
  }

  lemma BitmapFills(n: nat)
    ensures BitmapBlocks(n) == (n + 32767) / 32768
  {
  }

  lemma FormatEnds(blockCount: nat, bits: nat)
    requires bits == (blockCount + 7) / 8
    ensures BITMAP_START + DivCeil(bits) == SystemEnd(blockCount) && JOURNAL_END == BITMAP_START
  {
  }

  lemma FreshSuperblockIs(blockCount: nat, sb: Superblock)
    requires SystemEnd(blockCount) + 2 <= blockCount < WORDS
    requires var fresh0 := NewSuperblock(blockCount);
             sb == fresh0.(rootInode := SystemEnd(blockCount), catalogInode := SystemEnd(blockCount) + 1,
                           freeBlocks := OneLess(OneLess(fresh0.freeBlocks)))
    ensures sb == FreshSuperblock(blockCount)
    ensures sb.bitmapStart == BITMAP_START
    ensures forall c: Codecs :: c.FitsBlocks() ==> |c.superblock.enc(sb)| <= BLOCK_SIZE
  {
  }

  lemma MakeFormatFits(c: Codecs, blockCount: nat)
    requires SystemEnd(blockCount) + 2 <= blockCount
    requires |c.inode.enc(NewInode(SystemEnd(blockCount), Directory))| <= BLOCK_SIZE
    requires |c.inode.enc(NewInode(SystemEnd(blockCount) + 1, System))| <= BLOCK_SIZE
    ensures FormatFits(c, blockCount) && BITMAP_START < SystemEnd(blockCount)
  {
  }

  /** The two inodes of a new file system, on a device that grows to hold them if need be. */
  function WithInodes(c: Codecs, blocks: seq<seq<Byte>>, root: nat): seq<seq<Byte>>
    requires |c.inode.enc(NewInode(root, Directory))| <= BLOCK_SIZE
    requires |c.inode.enc(NewInode(root + 1, System))| <= BLOCK_SIZE
  {
    Put(Put(blocks, root, Padded(c.inode.enc(NewInode(root, Directory)))), root + 1,
        Padded(c.inode.enc(NewInode(root + 1, System))))
  }

  lemma WithInodesIs(c: Codecs, blocks: seq<seq<Byte>>, root: nat)
    requires |c.inode.enc(NewInode(root, Directory))| <= BLOCK_SIZE
    requires |c.inode.enc(NewInode(root + 1, System))| <= BLOCK_SIZE
    ensures WithInodes(c, blocks, root) ==
              Put(Put(blocks, root, Padded(c.inode.enc(NewInode(root, Directory)))), root + 1,
                  Padded(c.inode.enc(NewInode(root + 1, System))))
    ensures |WithInodes(c, blocks, root)| == LengthFor(|blocks|, root + 2) && root < |WithInodes(c, blocks, root)|
  {
  }

  /** The journal blocks of `after` are those of `before`, and zero past its end. */
  ghost predicate JournalFrom(before: seq<seq<Byte>>, after: seq<seq<Byte>>) {
    && JOURNAL_END <= |after|
    && forall b :: JOURNAL_START <= b < JOURNAL_END ==>
         after[b] == if b < |before| then before[b] else Zeros(BLOCK_SIZE)
  }

  /** The device after formatting: the journal as it was reset, then the two inodes, the bitmap and the superblock. */
  lemma FormatStored(c: Codecs, n: nat, blocks0: seq<seq<Byte>>, blocks2: seq<seq<Byte>>, blocks3: seq<seq<Byte>>,
                     blocks4: seq<seq<Byte>>, bits: seq<Byte>)
    requires c.Lawful() && WholeBlocks(blocks4) && n < WORDS && FormatFits(c, n)
    requires |bits| == (n + 7) / 8 && blocks2 == WithInodes(c, blocks0, SystemEnd(n))
    requires KeptOutside(blocks2, blocks3, BITMAP_START, BITMAP_START + DivCeil(|bits|))
    requires Saved(blocks3, BITMAP_START, bits)
    requires var sb := FreshSuperblock(n);
             |c.superblock.enc(sb)| <= BLOCK_SIZE && blocks4 == Put(blocks3, 0, Padded(c.superblock.enc(sb)))
    ensures |blocks4| == |blocks3| && FreshOn(c, blocks4, n) && JournalFrom(blocks0, blocks4)
    ensures c.superblock.dec(blocks4[0]) == Some(FreshSuperblock(n))
    ensures Saved(blocks4, BITMAP_START, bits)
  {
    hide FreshSuperblock, Chunk, SystemEnd, DivCeil;
    FormatEnds(n, |bits|);
    c.superblock.DecodesPadded(FreshSuperblock(n));
    var root := SystemEnd(n);
    assert blocks4[root] == blocks2[root] && blocks4[root + 1] == blocks2[root + 1];
  }

  lemma FormatSizes(n: nat)
    requires SystemEnd(n) + 2 <= n
    ensures JOURNAL_END < SystemEnd(n)
    ensures Min(SystemEnd(n) + 2, 8 * ((n + 7) / 8)) == SystemEnd(n) + 2
  {
  }

  // ----- a device full of inodes

  function KindIn(n: nat, b: nat): FileKind {
    if b == SystemEnd(n) then Directory else if b == SystemEnd(n) + 1 then System else File
  }

  function FullInodes(n: nat): Inodes {
    map b | b in Range(n) && SystemEnd(n) <= b :: NewInode(b, KindIn(n, b))
  }

  function FullOwner(n: nat): Owners {
    map b | b in Range(n) :: if b < SystemEnd(n) then Reserved else InodeAt(b)
  }

  /** Every block holds the empty inode that would go there. */
  function FullBlocks(c: Codecs, n: nat): (blocks: seq<seq<Byte>>)
    ensures |blocks| == n
  {
    seq(n, b requires 0 <= b => InodeBlock(c, n, b))
  }

  function InodeBlock(c: Codecs, n: nat, b: nat): (block: seq<Byte>)
    ensures |block| == BLOCK_SIZE
  {
    var bytes := c.inode.enc(NewInode(b, KindIn(n, b)));
    if |bytes| <= BLOCK_SIZE then Padded(bytes) else Zeros(BLOCK_SIZE)
  }

  /** Creating inodes until none is free: the invariant holds, and the counter is zero. */
  lemma FullConsistent(c: Codecs, n: nat)
    requires c.Lawful() && SystemEnd(n) + 2 <= n < WORDS
    requires forall id: nat, kind :: id < WORDS ==> |c.inode.enc(NewInode(id, kind))| <= BLOCK_SIZE
    ensures var sb := FreshSuperblock(n).(freeBlocks := 0);
            Consistent(c, FullBlocks(c, n), sb, FullInodes(n), FullOwner(n)) && CountsClear(sb, FullOwner(n).Keys)
    ensures forall b: nat :: b in FullOwner(n) <==> b < n
  {
    hide *;
    FreshSuper(n);
    FullKeys(n);
    FullOwned(n);
    MakeOwned(n, FullInodes(n), FullOwner(n));
    FullStored(c, n);
    FullMakes(c, n);
  }

  lemma FullKeys(n: nat)
    ensures forall b: nat :: b in FullOwner(n) <==> b < n
    ensures forall b: nat :: b in FullInodes(n) <==> SystemEnd(n) <= b < n
    ensures |FullOwner(n)| == n && Within(FullOwner(n), n)
  {
    hide SystemEnd, KindIn;
    assert FullOwner(n).Keys == Range(n);
    assert |FullOwner(n).Keys| == |FullOwner(n)|;
  }

  lemma FullOwned(n: nat)
    requires SystemEnd(n) <= n
    ensures FixedBlocksOwned(n, FullInodes(n), FullOwner(n)) && StreamsOwned(FullInodes(n), FullOwner(n))
  {
    FullKeys(n);
    hide SystemEnd, KindIn, Range;
    assert forall s :: ExtentsOf(FullInodes(n), s) == [];
  }

  lemma FullStored(c: Codecs, n: nat)
    requires c.Lawful() && n < WORDS
    requires forall id: nat, kind :: id < WORDS ==> |c.inode.enc(NewInode(id, kind))| <= BLOCK_SIZE
    ensures Stored(c, FullBlocks(c, n), FullInodes(n)) && AttrsReadable(c, FullBlocks(c, n), FullInodes(n))
    ensures WholeBlocks(FullBlocks(c, n)) && |FullBlocks(c, n)| == n
    ensures forall id :: id in FullInodes(n) ==> WellFormed(FullInodes(n)[id])
  {
    hide *;
    FullFormed(n);
    FullReadable(c, n);
    FullWhole(c, n);
    forall id | id in FullInodes(n)
      ensures id < |FullBlocks(c, n)| && c.inode.dec(FullBlocks(c, n)[id]) == Some(FullInodes(n)[id])
      ensures FullInodes(n)[id].id == id
    {
      FullInodeAt(n, id);
      InodeLawful(c);
      c.inode.DecodesPadded(NewInode(id, KindIn(n, id)));
      FullBlockAt(c, n, id);
    }
    MakeStored(c, FullBlocks(c, n), FullInodes(n));
  }

  lemma FullFormed(n: nat)
    ensures forall id :: id in FullInodes(n) ==> WellFormed(FullInodes(n)[id])
  {
    hide SystemEnd, KindIn, Range;
  }

  lemma FullReadable(c: Codecs, n: nat)
    ensures AttrsReadable(c, FullBlocks(c, n), FullInodes(n))
  {
    hide SystemEnd, KindIn, Range, FullBlocks;
  }

  lemma FullWhole(c: Codecs, n: nat)
    ensures WholeBlocks(FullBlocks(c, n)) && |FullBlocks(c, n)| == n
  {
    hide InodeBlock;
  }

  lemma FullInodeAt(n: nat, id: nat)
    requires id in FullInodes(n)
    ensures id < n && FullInodes(n)[id] == NewInode(id, KindIn(n, id)) && FullInodes(n)[id].id == id
  {
    hide SystemEnd, KindIn;
  }

  lemma FullBlockAt(c: Codecs, n: nat, id: nat)
    requires id < n && |c.inode.enc(NewInode(id, KindIn(n, id)))| <= BLOCK_SIZE
    ensures FullBlocks(c, n)[id] == Padded(c.inode.enc(NewInode(id, KindIn(n, id))))
  {
    hide KindIn, NewInode;
  }

  lemma InodeLawful(c: Codecs)
    requires c.Lawful()
    ensures c.inode.Lawful()
  {
  }

  lemma MakeStored(c: Codecs, blocks: seq<seq<Byte>>, inodes: Inodes)
    requires forall id :: id in inodes ==> id < |blocks| && c.inode.dec(blocks[id]) == Some(inodes[id])
    requires forall id :: id in inodes ==> inodes[id].id == id
    ensures Stored(c, blocks, inodes)
  {
  }

  lemma FullMakes(c: Codecs, n: nat)
    requires LaidOut(FreshSuperblock(n)) && SystemEnd(n) + 2 <= n
    requires var sb := FreshSuperblock(n);
             sb.blockCount == n && sb.rootInode == SystemEnd(n) && sb.catalogInode == SystemEnd(n) + 1
    requires Owned(n, FullInodes(n), FullOwner(n)) && |FullOwner(n)| == n && Within(FullOwner(n), n)
    requires forall b: nat :: b in FullInodes(n) <==> SystemEnd(n) <= b < n
    requires Stored(c, FullBlocks(c, n), FullInodes(n)) && AttrsReadable(c, FullBlocks(c, n), FullInodes(n))
    requires WholeBlocks(FullBlocks(c, n)) && |FullBlocks(c, n)| == n
    requires forall id :: id in FullInodes(n) ==> WellFormed(FullInodes(n)[id])
    ensures var sb := FreshSuperblock(n).(freeBlocks := 0);
            Consistent(c, FullBlocks(c, n), sb, FullInodes(n), FullOwner(n)) && CountsClear(sb, FullOwner(n).Keys)
  {
    hide Owned, SystemEnd, FreshSuperblock, FullOwner, FullBlocks, Stored, AttrsReadable, WellFormed, Within;
    WithinBelow(FullOwner(n), n);
    FullRange(FullOwner(n).Keys, n);
    assert Range(n) - Range(n) == {};
    assert FullInodes(n)[SystemEnd(n)].kind == Directory && FullInodes(n)[SystemEnd(n) + 1].kind == System;
  }

  // ----- mounting

  /** A device that a file system has been synced to. */
  ghost predicate OnDevice(c: Codecs, blocks: seq<seq<Byte>>, sb: Superblock, inodes: Inodes, owner: Owners,
                           bits: seq<Byte>) {
    && c.Lawful()
    && Consistent(c, blocks, sb, inodes, owner)
    && |blocks| > 0 && c.superblock.dec(blocks[0]) == Some(sb)
    && Saved(blocks, BITMAP_START, bits) && UsedIn(bits) == owner.Keys
    && DivCeil(|bits|) == sb.bitmapBlocks && sb.blockCount <= 8 * |bits|
  }

  predicate IsCurrent(sb: Superblock) { sb.magic == MAGIC && sb.version == VERSION && sb.blockSize == BLOCK_SIZE }

  /** Only version 2 with blocks of 4096 bytes is mounted, and only if the superblock says "UNAFS". */
  lemma CurrentIff(sb: Superblock)
    ensures IsCurrent(sb) <==>
              sb.magic == [0x55, 0x4E, 0x41, 0x46, 0x53] && sb.version == 2 && sb.blockSize == 4096
  {
  }

  ghost predicate HasSuperblock(c: Codecs, blocks: seq<seq<Byte>>) {
    |blocks| > 0 && c.superblock.dec(blocks[0]).Some? && IsCurrent(c.superblock.dec(blocks[0]).value)
  }

  lemma OnDeviceParts(c: Codecs, blocks: seq<seq<Byte>>, sb: Superblock, inodes: Inodes, owner: Owners, bits: seq<Byte>)
    requires OnDevice(c, blocks, sb, inodes, owner, bits)
    ensures Consistent(c, blocks, sb, inodes, owner) && |blocks| > 0 && c.superblock.dec(blocks[0]) == Some(sb)
  {
  }

  /** Two allocators whose limits both lie past all used blocks take the same block next. */
  lemma LimitsAgree(used: set<nat>, limit: nat, other: nat, r: Option<nat>, s: Option<nat>)
    requires Below(used, limit) && Below(used, other)
    requires IsLeastFree(used, limit, r) && IsLeastFree(used, other, s)
    ensures r == s <==> |used| < Min(limit, other) || limit == other
  {
    var least := Min(limit, other);
    if |used| >= least {
      FullRange(used, least);
      assert least !in used;
    } else if forall b: nat :: b < least ==> b in used {
      NoRoomLeft(used, least);
    } else {
      var b: nat :| b < least && b !in used;
    }
  }

  lemma OperationsLawful(c: Codecs)
    requires c.Lawful()
    ensures c.op.Lawful()
  {
  }

  lemma MountParts(c: Codecs, blocks: seq<seq<Byte>>, sb: Superblock, inodes: Inodes, owner: Owners, bits: seq<Byte>)
    ensures OnDevice(c, blocks, sb, inodes, owner, bits) ==>
              WholeBlocks(blocks) && JOURNAL_END <= |blocks| && sb.bitmapStart + sb.bitmapBlocks <= |blocks|
  {
    hide Consistent, Saved;
    if OnDevice(c, blocks, sb, inodes, owner, bits) {
      LaidOutParts(c, blocks, sb, inodes, owner);
    }
  }

  /** The bitmap loaded from such a device is the one saved, in whole blocks. */
  lemma LoadedBitmap(c: Codecs, blocks: seq<seq<Byte>>, sb: Superblock, inodes: Inodes, owner: Owners, bits: seq<Byte>,
                     loaded: seq<Byte>)
    requires OnDevice(c, blocks, sb, inodes, owner, bits) && Loaded(blocks, sb.bitmapStart, sb.bitmapBlocks, loaded)
    ensures UsedIn(loaded) == owner.Keys
    ensures DivCeil(|loaded|) == sb.bitmapBlocks && sb.blockCount <= |loaded| * 8
    ensures Saved(blocks, BITMAP_START, loaded) && |loaded| == sb.bitmapBlocks * BLOCK_SIZE
  {
    hide Consistent, UsedIn, Saved, Loaded;
    LaidOutParts(c, blocks, sb, inodes, owner);
    SaveThenLoad(blocks, BITMAP_START, bits, loaded);
    LoadedIsSaved(blocks, BITMAP_START, sb.bitmapBlocks, loaded);
    BitsFit(|bits|, sb.bitmapBlocks);
  }

  lemma BitsFit(n: nat, count: nat)
    requires DivCeil(n) == count
    ensures n <= count * BLOCK_SIZE
  {
  }

  lemma LoadedIsSaved(blocks: seq<seq<Byte>>, start: nat, count: nat, loaded: seq<Byte>)
    requires WholeBlocks(blocks) && start + count <= |blocks| && Loaded(blocks, start, count, loaded)
    ensures Saved(blocks, start, loaded) && |loaded| == count * BLOCK_SIZE && DivCeil(|loaded|) == count
  {
    forall i: nat | i < count
      ensures blocks[start + i] == Chunk(loaded, i)
    {
      var chunk := Chunk(loaded, i);
      assert i * BLOCK_SIZE + BLOCK_SIZE <= |loaded|;
      forall k | 0 <= k < BLOCK_SIZE
        ensures chunk[k] == blocks[start + i][k]
      {
        assert chunk[k] == loaded[i * BLOCK_SIZE + k];
      }
    }
  }

  lemma LaidOutParts(c: Codecs, blocks: seq<seq<Byte>>, sb: Superblock, inodes: Inodes, owner: Owners)
    requires Consistent(c, blocks, sb, inodes, owner)
    ensures sb.bitmapStart == BITMAP_START && sb.magic == MAGIC && sb.version == VERSION && sb.blockSize == BLOCK_SIZE
    ensures WholeBlocks(blocks) && BITMAP_START + sb.bitmapBlocks <= |blocks|
  {
  }
}
