/** How a list of extents maps the bytes of one file, or of one large attribute, to blocks. */
module Extents {
  import opened Storage
  import opened Types

  function EndOf(e: Extent): nat { e.logicalOffset + e.length }

  predicate Covers(e: Extent, off: nat) { e.logicalOffset <= off < EndOf(e) }

  function BlockIn(e: Extent, off: nat): nat
    requires Covers(e, off)
  {
    e.physicalBlock + (off - e.logicalOffset) / BLOCK_SIZE
  }

  /** The block that holds byte `off`: that of the first extent in the list that covers it. */
  function Lookup(chunks: seq<Extent>, off: nat): Option<nat> {
    if chunks == [] then None
    else
      var n := |chunks| - 1;
      var r := Lookup(chunks[..n], off);
      if r.Some? then r else if Covers(chunks[n], off) then Some(BlockIn(chunks[n], off)) else None
  }

  lemma {:induction false} LookupFirst(chunks: seq<Extent>, off: nat, i: nat)
    requires i < |chunks|
    requires forall j :: 0 <= j < i ==> !Covers(chunks[j], off)
    requires Covers(chunks[i], off)
    ensures Lookup(chunks, off) == Some(BlockIn(chunks[i], off))
  {
    var n := |chunks| - 1;
    if i < n {
      LookupFirst(chunks[..n], off, i);
    } else {
      LookupNone(chunks[..n], off);
    }
  }

  lemma {:induction false} LookupNone(chunks: seq<Extent>, off: nat)
    ensures Lookup(chunks, off) == None <==> forall j :: 0 <= j < |chunks| ==> !Covers(chunks[j], off)
  {
    if chunks != [] {
      var n := |chunks| - 1;
      LookupNone(chunks[..n], off);
      assert forall j :: 0 <= j < n ==> chunks[..n][j] == chunks[j];
    }
  }

  method FindBlock(chunks: seq<Extent>, off: nat) returns (r: Option<nat>)
    ensures r == Lookup(chunks, off)
  {
    for i := 0 to |chunks|
      invariant forall j :: 0 <= j < i ==> !Covers(chunks[j], off)
    {
      if Covers(chunks[i], off) {
        LookupFirst(chunks, off, i);
        return Some(BlockIn(chunks[i], off));
      }
    }
    LookupNone(chunks, off);
    r := None;
  }

  // ----- lists that tile a file without gaps

  function Total(chunks: seq<Extent>): nat {
    if chunks == [] then 0 else EndOf(chunks[|chunks| - 1])
  }

  /** The extents follow one another from 0, each starting on a block boundary. */
  ghost predicate Tiles(chunks: seq<Extent>) {
    chunks == [] ||
    var n := |chunks| - 1;
    && Tiles(chunks[..n])
    && Total(chunks[..n]) % BLOCK_SIZE == 0
    && chunks[n].logicalOffset == Total(chunks[..n])
    && chunks[n].length > 0
  }

  function Run(e: Extent): seq<nat> {
    seq(DivCeil(e.length), j requires 0 <= j => e.physicalBlock + j)
  }

  /** The blocks of the list, in file order. */
  function BlockList(chunks: seq<Extent>): seq<nat> {
    if chunks == [] then []
    else BlockList(chunks[..|chunks| - 1]) + Run(chunks[|chunks| - 1])
  }

  lemma {:induction false} BlockListPrefix(chunks: seq<Extent>, e: nat)
    requires e <= |chunks|
    ensures BlockList(chunks[..e]) <= BlockList(chunks)
  {
    if e == |chunks| {
      assert chunks[..e] == chunks;
    } else {
      var n := |chunks| - 1;
      assert chunks[..n][..e] == chunks[..e];
      BlockListPrefix(chunks[..n], e);
    }
  }

  /** A tiling list maps byte `off` to entry `off / BLOCK_SIZE` of its block list, and nothing past its end. */
  lemma {:induction false} TilesLookup(chunks: seq<Extent>, off: nat)
    requires Tiles(chunks)
    ensures |BlockList(chunks)| == DivCeil(Total(chunks))
    ensures off < Total(chunks) ==> Lookup(chunks, off) == Some(BlockList(chunks)[off / BLOCK_SIZE])
    ensures off >= Total(chunks) ==> Lookup(chunks, off) == None
  {
    if chunks != [] {
      var n := |chunks| - 1;
      TilesLookup(chunks[..n], off);
      var before := Total(chunks[..n]);
      assert |BlockList(chunks)| == before / BLOCK_SIZE + DivCeil(chunks[n].length);
      if before <= off < Total(chunks) {
        assert BlockList(chunks)[off / BLOCK_SIZE] == Run(chunks[n])[(off - before) / BLOCK_SIZE];
      }
    }
  }

  // ----- growing a list by one block

  /** The test under which a write extends the last extent instead of adding one. */
  predicate Merges(chunks: seq<Extent>, off: nat, newBlock: nat) {
    && chunks != []
    && var last := chunks[|chunks| - 1];
    && EndOf(last) <= off
    && last.length % BLOCK_SIZE == 0
    && last.physicalBlock + DivCeil(last.length) - 1 + 1 == newBlock
  }

  /** The list after `newBlock` has been taken for the unmapped byte `off`. */
  function Place(chunks: seq<Extent>, off: nat, newBlock: nat): seq<Extent> {
    if Merges(chunks, off, newBlock) then
      var n := |chunks| - 1;
      chunks[n := chunks[n].(length := chunks[n].length + BLOCK_SIZE)]
    else
      chunks + [Extent(off / BLOCK_SIZE * BLOCK_SIZE, newBlock, BLOCK_SIZE)]
  }

  /** At the end of a list of whole blocks, `Place` appends exactly one block. */
  lemma PlaceAppends(chunks: seq<Extent>, off: nat, newBlock: nat)
    requires Tiles(chunks) && Total(chunks) == off && off % BLOCK_SIZE == 0
    ensures Tiles(Place(chunks, off, newBlock))
    ensures Total(Place(chunks, off, newBlock)) == off + BLOCK_SIZE
    ensures BlockList(Place(chunks, off, newBlock)) == BlockList(chunks) + [newBlock]
  {
    var placed := Place(chunks, off, newBlock);
    var n := |placed| - 1;
    if Merges(chunks, off, newBlock) {
      assert placed[..n] == chunks[..n];
      assert Run(placed[n]) == Run(chunks[n]) + [newBlock];
      calc {
        BlockList(placed);
        BlockList(chunks[..n]) + (Run(chunks[n]) + [newBlock]);
        BlockList(chunks) + [newBlock];
      }
    } else {
      assert placed[..n] == chunks;
      assert Run(placed[n]) == [newBlock];
    }
  }

  /**
   * For a block-aligned list, whatever its gaps, `Place` maps the byte it was called for to the
   * new block if and only if it does not merge across a gap of a whole block. Merging tests only
   * that the last extent ends at or before `off`, so a write past the end of a file can attach
   * its block at the wrong place.
   */
  lemma PlaceMapsIff(chunks: seq<Extent>, off: nat, newBlock: nat)
    requires forall i :: 0 <= i < |chunks| ==> chunks[i].logicalOffset % BLOCK_SIZE == 0
    requires Lookup(chunks, off) == None
    ensures Lookup(Place(chunks, off, newBlock), off) == Some(newBlock)
       <==> !Merges(chunks, off, newBlock) || off < Total(chunks) + BLOCK_SIZE
  {
    var placed := Place(chunks, off, newBlock);
    var n := |placed| - 1;
    LookupNone(chunks, off);
    if Merges(chunks, off, newBlock) {
      assert placed[..n] == chunks[..n];
      LookupNone(placed[..n], off);
      assert DivCeil(chunks[n].length) == chunks[n].length / BLOCK_SIZE;
    } else {
      assert placed[..n] == chunks;
    }
  }

  /** A file of one block, a write two blocks past its end, and an adjacent free block. */
  lemma GapWriteMisplaced()
    ensures var chunks := [Extent(0, 20, BLOCK_SIZE)];
            var off := 3 * BLOCK_SIZE;
            && Lookup(chunks, off) == None
            && Lookup(Place(chunks, off, 21), off) == None
            && Lookup(Place(chunks, off, 21), BLOCK_SIZE) == Some(21)
  {
    var chunks := [Extent(0, 20, BLOCK_SIZE)];
    LookupNone(chunks, 3 * BLOCK_SIZE);
    var placed := Place(chunks, 3 * BLOCK_SIZE, 21);
    LookupNone(placed, 3 * BLOCK_SIZE);
    LookupFirst(placed, BLOCK_SIZE, 0);
  }

  // ----- bytes

  /** Byte `k` of the stream stored in `list`, one block after the other. */
  function ByteAt(blocks: seq<seq<Byte>>, list: seq<nat>, k: nat): Byte {
    if k / BLOCK_SIZE < |list| && list[k / BLOCK_SIZE] < |blocks|
       && k % BLOCK_SIZE < |blocks[list[k / BLOCK_SIZE]]|
    then blocks[list[k / BLOCK_SIZE]][k % BLOCK_SIZE]
    else 0
  }

  /** The first `size` bytes of that stream. */
  function Content(blocks: seq<seq<Byte>>, list: seq<nat>, size: nat): (bytes: seq<Byte>)
    ensures |bytes| == size
    ensures forall k :: 0 <= k < size ==> bytes[k] == ByteAt(blocks, list, k)
  {
    seq(size, k requires 0 <= k => ByteAt(blocks, list, k))
  }

  /** The byte that a read through the extents finds at `off`: unmapped bytes read as zero. */
  function ByteVia(blocks: seq<seq<Byte>>, chunks: seq<Extent>, off: nat): Byte {
    match Lookup(chunks, off)
    case None => 0
    case Some(b) => if b < |blocks| && off % BLOCK_SIZE < |blocks[b]| then blocks[b][off % BLOCK_SIZE] else 0
  }

  lemma TilesByteVia(blocks: seq<seq<Byte>>, chunks: seq<Extent>, off: nat)
    requires Tiles(chunks) && off < Total(chunks)
    ensures ByteVia(blocks, chunks, off) == ByteAt(blocks, BlockList(chunks), off)
  {
    TilesLookup(chunks, off);
  }

  /** Every extent starts on a block boundary, and ends on one unless it reaches `size`. */
  ghost predicate Aligned(chunks: seq<Extent>, size: nat) {
    forall i :: 0 <= i < |chunks| ==>
      && chunks[i].logicalOffset % BLOCK_SIZE == 0
      && (chunks[i].length % BLOCK_SIZE == 0 || EndOf(chunks[i]) >= size)
  }

  lemma {:induction false} TilesWhole(chunks: seq<Extent>)
    requires Tiles(chunks) && Total(chunks) % BLOCK_SIZE == 0
    ensures Aligned(chunks, Total(chunks) + 1)
    ensures forall i :: 0 <= i < |chunks| ==> EndOf(chunks[i]) <= Total(chunks)
  {
    if chunks != [] {
      var n := |chunks| - 1;
      TilesWhole(chunks[..n]);
      WholeLength(chunks[n]);
      forall i | 0 <= i < n
        ensures chunks[i].logicalOffset % BLOCK_SIZE == 0 && chunks[i].length % BLOCK_SIZE == 0
        ensures EndOf(chunks[i]) <= Total(chunks)
      {
        assert chunks[..n][i] == chunks[i];
        WholeLength(chunks[i]);
      }
    }
  }

  lemma WholeLength(e: Extent)
    ensures e.logicalOffset % BLOCK_SIZE == 0 && EndOf(e) % BLOCK_SIZE == 0 ==> e.length % BLOCK_SIZE == 0
  {
  }

  lemma TilesAligned(chunks: seq<Extent>)
    requires Tiles(chunks)
    ensures Aligned(chunks, Total(chunks))
  {
    if chunks != [] {
      var n := |chunks| - 1;
      TilesWhole(chunks[..n]);
      assert forall i :: 0 <= i < n ==> chunks[..n][i] == chunks[i];
    }
  }

  lemma AlignedBelow(chunks: seq<Extent>, size: nat)
    requires Tiles(chunks) && size <= Total(chunks)
    ensures Aligned(chunks, size)
  {
    TilesAligned(chunks);
  }

  /** The sum of the extent lengths, by which a large attribute is read. */
  function SumLengths(chunks: seq<Extent>): nat {
    if chunks == [] then 0 else chunks[0].length + SumLengths(chunks[1..])
  }

  lemma {:induction false} SumAppend(chunks: seq<Extent>, e: Extent)
    ensures SumLengths(chunks + [e]) == SumLengths(chunks) + e.length
  {
    if chunks != [] {
      assert (chunks + [e])[1..] == chunks[1..] + [e];
      SumAppend(chunks[1..], e);
    }
  }

  lemma {:induction false} TilesSum(chunks: seq<Extent>)
    requires Tiles(chunks)
    ensures SumLengths(chunks) == Total(chunks)
  {
    if chunks != [] {
      var n := |chunks| - 1;
      TilesSum(chunks[..n]);
      SumAppend(chunks[..n], chunks[n]);
      assert chunks[..n] + [chunks[n]] == chunks;
    }
  }

  /** Bytes of one block-sized window are found in one block. */
  lemma {:induction false} SameWindow(chunks: seq<Extent>, size: nat, off: nat, other: nat)
    requires Aligned(chunks, size) && off < size && other < size
    requires off / BLOCK_SIZE == other / BLOCK_SIZE
    ensures Lookup(chunks, off) == Lookup(chunks, other)
  {
    if chunks != [] {
      var n := |chunks| - 1;
      assert forall i :: 0 <= i < n ==> chunks[..n][i] == chunks[i];
      SameWindow(chunks[..n], size, off, other);
      OneWindow(chunks[n], size, off, other);
    }
  }

  lemma OneWindow(e: Extent, size: nat, off: nat, other: nat)
    requires e.logicalOffset % BLOCK_SIZE == 0 && (e.length % BLOCK_SIZE == 0 || EndOf(e) >= size)
    requires off < size && other < size && off / BLOCK_SIZE == other / BLOCK_SIZE
    ensures Covers(e, off) <==> Covers(e, other)
    ensures Covers(e, off) ==> BlockIn(e, off) == BlockIn(e, other)
  {
    if Covers(e, off) || Covers(e, other) {
      assert e.logicalOffset / BLOCK_SIZE * BLOCK_SIZE == e.logicalOffset;
    }
  }

  /** What a read of `n` bytes from `offset` on finds. */
  function Via(blocks: seq<seq<Byte>>, chunks: seq<Extent>, offset: nat, n: nat): (bytes: seq<Byte>)
    ensures |bytes| == n
    ensures forall k :: 0 <= k < n ==> bytes[k] == ByteVia(blocks, chunks, offset + k)
  {
    seq(n, k requires 0 <= k => ByteVia(blocks, chunks, offset + k))
  }

  /** Extent `e` covers a byte, and no extent before it does. */
  ghost predicate CoversFirst(chunks: seq<Extent>, e: nat, off: nat) {
    && e < |chunks| && chunks[e].logicalOffset <= off < chunks[e].logicalOffset + chunks[e].length
    && forall i :: 0 <= i < e ==> !(chunks[i].logicalOffset <= off < chunks[i].logicalOffset + chunks[i].length)
  }

  /** What is read: a byte of the first extent that covers it, in the block as far into it, and zero if none does. */
  lemma ByteMeans(blocks: seq<seq<Byte>>, chunks: seq<Extent>, off: nat)
    ensures (forall e: nat :: !CoversFirst(chunks, e, off)) ==> ByteVia(blocks, chunks, off) == 0
    ensures forall e: nat :: CoversFirst(chunks, e, off) ==>
              var b := chunks[e].physicalBlock + (off - chunks[e].logicalOffset) / 4096;
              && Lookup(chunks, off) == Some(b)
              && (b < |blocks| && |blocks[b]| == 4096 ==> ByteVia(blocks, chunks, off) == blocks[b][off % 4096])
  {
    hide Lookup;
    if forall e: nat :: !CoversFirst(chunks, e, off) {
      NoneFirst(chunks, off, |chunks|);
      LookupNone(chunks, off);
    }
    forall e: nat | CoversFirst(chunks, e, off)
      ensures Lookup(chunks, off) == Some(BlockIn(chunks[e], off))
    {
      LookupFirst(chunks, off, e);
    }
  }

  lemma {:induction false} NoneFirst(chunks: seq<Extent>, off: nat, n: nat)
    requires n <= |chunks| && forall e: nat :: !CoversFirst(chunks, e, off)
    ensures forall e :: 0 <= e < n ==> !Covers(chunks[e], off)
  {
    if n > 0 {
      NoneFirst(chunks, off, n - 1);
      assert !CoversFirst(chunks, n - 1, off);
    }
  }

  lemma ViaWindow(blocks: seq<seq<Byte>>, chunks: seq<Extent>, size: nat, offset: nat, done: nat, n: nat, b: nat)
    requires Aligned(chunks, size) && offset + done + n <= size
    requires b < |blocks| && |blocks[b]| == BLOCK_SIZE && (offset + done) % BLOCK_SIZE + n <= BLOCK_SIZE
    requires n > 0 && Lookup(chunks, offset + done) == Some(b)
    ensures var o := (offset + done) % BLOCK_SIZE;
            Via(blocks, chunks, offset, done + n) == Via(blocks, chunks, offset, done) + blocks[b][o..o + n]
  {
    var o := (offset + done) % BLOCK_SIZE;
    var longer := Via(blocks, chunks, offset, done + n);
    forall k: nat | done <= k < done + n
      ensures longer[k] == blocks[b][o..o + n][k - done]
    {
      SameWindow(chunks, size, offset + done, offset + k);
    }
  }

  /** The bytes in `[offset, offset + length)`, cut off at `totalSize`. */
  function ReadLength(offset: nat, length: nat, totalSize: nat): nat {
    var available := if totalSize > offset then totalSize - offset else 0;
    if length <= available then length else available
  }

  method ReadFromExtents(device: Device, chunks: seq<Extent>, offset: nat, length: nat, totalSize: nat)
    returns (r: Result<seq<Byte>>)
    requires device.Valid()
    requires Aligned(chunks, totalSize)
    ensures r.Ok? ==> r.value == Via(device.blocks, chunks, offset, ReadLength(offset, length, totalSize))
    ensures device.reliable
            && (forall off: nat :: Lookup(chunks, off).Some? ==> Lookup(chunks, off).value < |device.blocks|)
            ==> r.Ok?
  {
    var available := if totalSize > offset then totalSize - offset else 0;
    var toReadTotal := if length <= available then length else available;
    var buffer := [];
    var readSoFar := 0;
    while readSoFar < toReadTotal
      invariant readSoFar <= toReadTotal
      invariant buffer == Via(device.blocks, chunks, offset, readSoFar)
    {
      var currentOffset := offset + readSoFar;
      var found := FindBlock(chunks, currentOffset);
      if found.None? {
        buffer := buffer + [0];
        readSoFar := readSoFar + 1;
        continue;
      }
      var blockOffset := currentOffset % BLOCK_SIZE;
      var toRead := if BLOCK_SIZE - blockOffset <= toReadTotal - readSoFar
                    then BLOCK_SIZE - blockOffset else toReadTotal - readSoFar;
      var block := device.ReadBlock(found.value);
      if block.Err? {
        return Err(block.error);
      }
      ViaWindow(device.blocks, chunks, totalSize, offset, readSoFar, toRead, found.value);
      buffer := buffer + block.value[blockOffset..blockOffset + toRead];
      readSoFar := readSoFar + toRead;
    }
    r := Ok(buffer);
  }
}
