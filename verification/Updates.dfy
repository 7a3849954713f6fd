/** What the calls of UnaFS do to a file system image: which blocks change hands, and which files change. */
module Updates {
  import opened Storage
  import opened Types
  import opened Bitmap
  import opened Extents
  import opened Overlay
  import opened Image
  import opened Counter
  import opened Query

  /** The blocks that changed all belong to one stream. */
  ghost predicate OnlyStream(before: seq<seq<Byte>>, after: seq<seq<Byte>>, owner: Owners, s: Stream) {
    && |before| <= |after| && WholeBlocks(after)
    && forall b :: 0 <= b < |before| && after[b] != before[b] ==> b in owner && owner[b].Slot? && owner[b].stream == s
  }

  ghost predicate Extends(owner: Owners, grown: Owners) {
    forall b :: b in owner ==> b in grown && grown[b] == owner[b]
  }

  lemma ChunksOnly(cur: Inodes, id: nat, inode: Inode)
    requires id in cur && inode == cur[id].(chunks := inode.chunks)
    ensures forall t :: t != DataOf(id) ==> ExtentsOf(cur[id := inode], t) == ExtentsOf(cur, t)
    ensures ExtentsOf(cur[id := inode], DataOf(id)) == inode.chunks
  {
  }

  lemma WithinMore(owner: Owners, limit: nat, b: nat, o: Owner)
    requires Within(owner, limit) && b < limit
    ensures Within(owner[b := o], limit)
  {
  }

  lemma WithinParts(owner: Owners, limit: nat)
    requires Within(owner, limit)
    ensures forall b :: b in owner ==> b < limit
  {
  }

  lemma WithinMost(owner: Owners, limit: nat, more: nat, b: nat, o: Owner)
    requires Within(owner, limit) && limit <= more && b < more
    ensures Within(owner[b := o], more)
  {
  }

  lemma WithinLess(owner: Owners, fewer: Owners, limit: nat)
    requires Within(owner, limit) && fewer.Keys <= owner.Keys
    ensures Within(fewer, limit)
  {
  }

  lemma WithoutKeys(owner: Owners, s: Stream)
    ensures WithoutStream(owner, s).Keys <= owner.Keys
  {
  }

  lemma WithinBelow(owner: Owners, limit: nat)
    ensures Within(owner, limit) <==> Below(owner.Keys, limit)
    ensures |owner.Keys| == |owner|
  {
  }

  /** A block placed at the end of a file is owned by the file. */
  lemma PlaceOwned(blockCount: nat, cur: Inodes, owner: Owners, inode: Inode, off: nat, b: nat)
    requires Owned(blockCount, cur, owner) && inode.id in cur && cur[inode.id] == inode
    requires Tiles(inode.chunks) && Total(inode.chunks) == off && off % BLOCK_SIZE == 0
    requires b !in owner
    ensures var out := inode.(chunks := Place(inode.chunks, off, b));
            var grown := owner[b := Slot(DataOf(inode.id), |BlockList(inode.chunks)|)];
            && Owned(blockCount, cur[inode.id := out], grown)
            && |grown| == |owner| + 1 && grown.Keys == owner.Keys + {b}
            && Extends(owner, grown)
  {
    hide Tiles, BlockList, Place, Owned, Total;
    var s := DataOf(inode.id);
    var out := inode.(chunks := Place(inode.chunks, off, b));
    PlaceAppends(inode.chunks, off, b);
    ChunksOnly(cur, inode.id, out);
    assert ExtentsOf(cur, s) == inode.chunks;
    assert ListOf(cur[inode.id := out], s) == ListOf(cur, s) + [b];
    GrowOwned(blockCount, cur, cur[inode.id := out], owner, s, b);
  }

  lemma OwnedList(blockCount: nat, cur: Inodes, owner: Owners, inode: Inode, i: nat)
    requires Owned(blockCount, cur, owner) && inode.id in cur && cur[inode.id] == inode
    requires i < |BlockList(inode.chunks)|
    ensures BlockList(inode.chunks)[i] in owner
    ensures owner[BlockList(inode.chunks)[i]] == Slot(DataOf(inode.id), i)
  {
    assert ListOf(cur, DataOf(inode.id)) == BlockList(inode.chunks);
  }

  /** What a file's extents must satisfy after the block for byte `off` has been found or taken. */
  ghost predicate Maps(chunks: seq<Extent>, mapped: seq<Extent>, off: nat, b: nat) {
    && Tiles(mapped)
    && Total(mapped) == Max(Total(chunks), off / BLOCK_SIZE * BLOCK_SIZE + BLOCK_SIZE)
    && BlockList(mapped) == BlockList(chunks) + (if off < Total(chunks) then [] else [b])
    && off / BLOCK_SIZE < |BlockList(mapped)| && BlockList(mapped)[off / BLOCK_SIZE] == b
  }

  lemma FoundMaps(chunks: seq<Extent>, off: nat)
    requires Tiles(chunks) && Total(chunks) % BLOCK_SIZE == 0 && off <= Total(chunks)
    ensures Lookup(chunks, off).Some? <==> off < Total(chunks)
    ensures off < Total(chunks) ==> Maps(chunks, chunks, off, Lookup(chunks, off).value)
  {
    TilesLookup(chunks, off);
    assert BlockList(chunks) + [] == BlockList(chunks);
  }

  lemma FoundInside(blockCount: nat, cur: Inodes, owner: Owners, inode: Inode, off: nat)
    requires Owned(blockCount, cur, owner) && inode.id in cur && cur[inode.id] == inode
    requires Tiles(inode.chunks) && off < Total(inode.chunks)
    ensures Lookup(inode.chunks, off).Some? && Lookup(inode.chunks, off).value in owner
  {
    TilesLookup(inode.chunks, off);
    OwnedList(blockCount, cur, owner, inode, off / BLOCK_SIZE);
  }

  lemma PlacedMaps(chunks: seq<Extent>, off: nat, b: nat)
    requires Tiles(chunks) && Total(chunks) == off && off % BLOCK_SIZE == 0
    ensures Maps(chunks, Place(chunks, off, b), off, b)
  {
    TilesLookup(chunks, off);
    PlaceAppends(chunks, off, b);
  }

  lemma OwnedDistinct(blockCount: nat, cur: Inodes, owner: Owners, inode: Inode)
    requires Owned(blockCount, cur, owner) && inode.id in cur && cur[inode.id] == inode
    ensures Distinct(BlockList(inode.chunks))
  {
    var list := BlockList(inode.chunks);
    forall i, j | 0 <= i < j < |list|
      ensures list[i] != list[j]
    {
      OwnedList(blockCount, cur, owner, inode, i);
      OwnedList(blockCount, cur, owner, inode, j);
    }
  }

  /** Storing one piece of data in the block that `Maps` says overlays the file. */
  lemma ChunkStored(before: seq<seq<Byte>>, after: seq<seq<Byte>>, chunks: seq<Extent>, mapped: seq<Extent>,
                    size: nat, off: nat, b: nat, chunk: seq<Byte>)
    requires WholeBlocks(before) && b < |before| && Tiles(chunks) && Total(chunks) % BLOCK_SIZE == 0
    requires Maps(chunks, mapped, off, b) && Distinct(BlockList(mapped))
    requires off <= size <= Total(chunks) && off % BLOCK_SIZE + |chunk| <= BLOCK_SIZE
    requires var o := off % BLOCK_SIZE;
             after == before[b := before[b][..o] + chunk + before[b][o + |chunk|..]]
    ensures Content(after, BlockList(mapped), Max(size, off + |chunk|))
         == Overlaid(Content(before, BlockList(chunks), size), off, chunk)
  {
    TilesLookup(chunks, off);
    if off >= Total(chunks) {
      GrowContent(before, BlockList(chunks), b, size);
    } else {
      assert BlockList(mapped) == BlockList(chunks);
    }
    BlockWrite(before, after, BlockList(mapped), size, off, chunk);
  }

  lemma MapsOwned(blockCount: nat, cur: Inodes, owner: Owners, chunks: seq<Extent>, inode: Inode, off: nat, b: nat)
    requires Owned(blockCount, cur, owner) && inode.id in cur && cur[inode.id] == inode
    requires Maps(chunks, inode.chunks, off, b)
    ensures Tiles(inode.chunks)
    ensures Total(inode.chunks) == Max(Total(chunks), off / BLOCK_SIZE * BLOCK_SIZE + BLOCK_SIZE)
    ensures b in owner && owner[b] == Slot(DataOf(inode.id), off / BLOCK_SIZE)
  {
    OwnedList(blockCount, cur, owner, inode, off / BLOCK_SIZE);
  }

  lemma OnlyStreamTwice(b0: seq<seq<Byte>>, b1: seq<seq<Byte>>, b2: seq<seq<Byte>>, owner: Owners, grown: Owners,
                        s: Stream)
    requires OnlyStream(b0, b1, owner, s) && OnlyStream(b1, b2, grown, s) && Extends(owner, grown)
    ensures OnlyStream(b0, b2, grown, s)
  {
  }

  /** The blocks that a file of `was` bytes gains when it has `now` bytes. */
  function Growth(was: nat, now: nat): nat { if was <= now then DivCeil(now) - DivCeil(was) else 0 }

  /** How much of the data goes into the block of byte `off`. */
  function PieceSize(off: nat, left: nat): nat {
    if BLOCK_SIZE - off % BLOCK_SIZE <= left then BLOCK_SIZE - off % BLOCK_SIZE else left
  }

  /** The blocks a file of `size` bytes still lacks for a write. */
  function BlocksLacking(size: nat, offset: nat, length: nat): nat {
    DivCeil(Max(size, offset + length)) - DivCeil(size)
  }

  lemma PieceTotal(size: nat, off: nat, left: nat)
    requires left > 0
    ensures var n := PieceSize(off, left);
            Max(DivCeil(Max(size, off)) * BLOCK_SIZE, off / BLOCK_SIZE * BLOCK_SIZE + BLOCK_SIZE)
            == DivCeil(Max(size, off + n)) * BLOCK_SIZE
  {
  }

  lemma LackingIsGrowth(size: nat, offset: nat, length: nat)
    ensures BlocksLacking(size, offset, length) == Growth(size, Max(size, offset + length))
  {
  }

  lemma SomeLacking(size: nat, offset: nat, length: nat)
    ensures size == 0 && length > 0 ==> BlocksLacking(size, offset, length) > 0
  {
  }

  /** Writing one piece takes a block exactly when the file has none for it. */
  lemma PieceLacking(size: nat, offset: nat, length: nat, done: nat)
    requires offset <= size && done < length
    ensures var off := offset + done;
            var n := PieceSize(off, length - done);
            && 0 < n <= length - done && off % BLOCK_SIZE + n <= BLOCK_SIZE
            && Max(size, off) <= DivCeil(Max(size, off)) * BLOCK_SIZE
            && BlocksLacking(size, offset, done) + (if off < DivCeil(Max(size, off)) * BLOCK_SIZE then 0 else 1)
               == BlocksLacking(size, offset, done + n)
            && BlocksLacking(size, offset, done + n) <= BlocksLacking(size, offset, length)
  {
  }

  /**
   * The first part of a write: `written` overlaid on a file that was `inode0` on `blocks0`, with
   * `inode` as its inode so far.
   */
  ghost predicate PartlyStored(inode0: Inode, inode: Inode, blocks0: seq<seq<Byte>>, blocks: seq<seq<Byte>>,
                               owner: Owners, offset: nat, written: seq<Byte>)
    requires offset <= inode0.size
  {
    var size := Max(inode0.size, offset + |written|);
    && inode == inode0.(chunks := inode.chunks)
    && Tiles(inode.chunks) && Total(inode.chunks) == DivCeil(size) * BLOCK_SIZE
    && OnlyStream(blocks0, blocks, owner, DataOf(inode.id))
    && Content(blocks, BlockList(inode.chunks), size)
       == Overlaid(Content(blocks0, BlockList(inode0.chunks), inode0.size), offset, written)
  }

  lemma NothingStored(inode: Inode, blocks: seq<seq<Byte>>, owner: Owners, offset: nat)
    requires WholeBlocks(blocks) && offset <= inode.size
    requires Tiles(inode.chunks) && Total(inode.chunks) == DivCeil(inode.size) * BLOCK_SIZE
    ensures PartlyStored(inode, inode, blocks, blocks, owner, offset, [])
  {
    assert Max(inode.size, offset) == inode.size;
    var content := Content(blocks, BlockList(inode.chunks), inode.size);
    assert Overlaid(content, offset, []) == content;
  }

  lemma StoredShape(inode0: Inode, inode: Inode, blocks0: seq<seq<Byte>>, blocks: seq<seq<Byte>>, owner: Owners,
                    offset: nat, written: seq<Byte>)
    requires offset <= inode0.size && PartlyStored(inode0, inode, blocks0, blocks, owner, offset, written)
    ensures inode == inode0.(chunks := inode.chunks) && Tiles(inode.chunks)
    ensures Total(inode.chunks) == DivCeil(Max(inode0.size, offset + |written|)) * BLOCK_SIZE
    ensures Max(inode0.size, offset + |written|) <= Total(inode.chunks)
  {
  }

  /** The next piece of a write: where it goes, and whether it takes a block. */
  lemma MoreToWrite(inode0: Inode, inode: Inode, blocks0: seq<seq<Byte>>, blocks: seq<seq<Byte>>, owner: Owners,
                    offset: nat, data: seq<Byte>, done: nat)
    requires offset <= inode0.size && done < |data|
    requires PartlyStored(inode0, inode, blocks0, blocks, owner, offset, data[..done])
    ensures var off := offset + done;
            var n := PieceSize(off, |data| - done);
            && 0 < n <= |data| - done && |data[done..done + n]| == n && off % BLOCK_SIZE + n <= BLOCK_SIZE
            && off <= Max(inode0.size, off) <= Total(inode.chunks) && Total(inode.chunks) % BLOCK_SIZE == 0
            && inode == inode0.(chunks := inode.chunks) && Tiles(inode.chunks)
            && BlocksLacking(inode0.size, offset, done) + (if off < Total(inode.chunks) then 0 else 1)
               == BlocksLacking(inode0.size, offset, done + n)
            && BlocksLacking(inode0.size, offset, done + n) <= BlocksLacking(inode0.size, offset, |data|)
  {
    hide Tiles, Total, BlockList, Content, Overlaid, DivCeil, OnlyStream, PartlyStored, BlocksLacking, PieceSize;
    PieceLacking(inode0.size, offset, |data|, done);
    StoredShape(inode0, inode, blocks0, blocks, owner, offset, data[..done]);
  }

  lemma StoreMore(inode0: Inode, inode: Inode, out: Inode, blocks0: seq<seq<Byte>>, blocks1: seq<seq<Byte>>,
                  blocks2: seq<seq<Byte>>, owner1: Owners, owner2: Owners, offset: nat, data: seq<Byte>, done: nat)
    requires offset <= inode0.size && done < |data|
    requires PartlyStored(inode0, inode, blocks0, blocks1, owner1, offset, data[..done])
    requires out == inode.(chunks := out.chunks) && Extends(owner1, owner2)
    requires OnlyStream(blocks1, blocks2, owner2, DataOf(inode.id))
    requires var off := offset + done;
             var n := PieceSize(off, |data| - done);
             var size := Max(inode0.size, off);
             && Tiles(out.chunks)
             && Total(out.chunks) == Max(Total(inode.chunks), off / BLOCK_SIZE * BLOCK_SIZE + BLOCK_SIZE)
             && n <= |data| - done
             && Content(blocks2, BlockList(out.chunks), Max(size, off + n))
                == Overlaid(Content(blocks1, BlockList(inode.chunks), size), off, data[done..done + n])
    ensures var n := PieceSize(offset + done, |data| - done);
            PartlyStored(inode0, out, blocks0, blocks2, owner2, offset, data[..done + n])
  {
    hide Tiles, BlockList, Total, OnlyStream, Overlaid, DivCeil, Content;
    var n := PieceSize(offset + done, |data| - done);
    PieceTotal(inode0.size, offset + done, |data| - done);
    OnlyStreamTwice(blocks0, blocks1, blocks2, owner1, owner2, DataOf(inode.id));
    OverlaidMore(Content(blocks0, BlockList(inode0.chunks), inode0.size), offset, data, done, n);
  }

  /** Only the size differs between the inode in memory and the one to be stored: the streams are the same. */
  lemma SizedStreams(inodes: Inodes, out: Inode, final: Inode)
    requires out.id in inodes && out == inodes[out.id].(chunks := out.chunks) && final == out.(size := final.size)
    ensures SameStreams(inodes, inodes[out.id := final], DataOf(out.id))
    ensures SameLargeKeys(inodes, inodes[out.id := final], DataOf(out.id))
    ensures ListsAgree(inodes[out.id := out], inodes[out.id := final])
    ensures ExtentsOf(inodes[out.id := final], DataOf(out.id)) == out.chunks
  {
    ChunksOnly(inodes, out.id, out);
    var a, b := inodes[out.id := out], inodes[out.id := final];
    assert forall s :: ExtentsOf(b, s) == ExtentsOf(a, s);
  }

  ghost predicate ListsAgree(a: Inodes, b: Inodes) {
    forall s :: ListOf(b, s) == ListOf(a, s)
  }

  lemma SameListsOwned(blockCount: nat, a: Inodes, b: Inodes, owner: Owners)
    requires Owned(blockCount, a, owner) && b.Keys == a.Keys && ListsAgree(a, b)
    ensures Owned(blockCount, b, owner)
  {
    hide ListOf, SystemEnd;
  }

  lemma WriteKeepsOthers(before: seq<seq<Byte>>, written: seq<seq<Byte>>, after: seq<seq<Byte>>, owner: Owners,
                         grown: Owners, id: nat, block: seq<Byte>)
    requires WholeBlocks(before) && OnlyStream(before, written, grown, DataOf(id)) && Extends(owner, grown)
    requires id < |written| && |block| == BLOCK_SIZE && after == written[id := block]
    ensures KeepsOthers(before, after, owner, id, DataOf(id))
  {
  }

  /** The bytes of a file are not in its inode block. */
  lemma InodeBlockApart(blockCount: nat, inodes: Inodes, owner: Owners, written: seq<seq<Byte>>, id: nat,
                        block: seq<Byte>, size: nat)
    requires Owned(blockCount, inodes, owner) && Within(owner, |written|) && id in inodes && id < |written|
    ensures Content(written[id := block], ListOf(inodes, DataOf(id)), size)
              == Content(written, ListOf(inodes, DataOf(id)), size)
  {
    var list: seq<nat> := ListOf(inodes, DataOf(id));
    forall i | 0 <= i < |list|
      ensures list[i] != id
    {
      assert owner[list[i]] == Slot(DataOf(id), i);
    }
    ContentFrame(written, written[id := block], list, size);
  }

  /** A complete write, on the level of images. */
  lemma WriteStored(c: Codecs, before: seq<seq<Byte>>, written: seq<seq<Byte>>, after: seq<seq<Byte>>,
                    sb: Superblock, later: Superblock, inodes: Inodes, owner: Owners, grown: Owners,
                    inode0: Inode, out: Inode, final: Inode, offset: nat, data: seq<Byte>)
    requires c.Lawful() && Consistent(c, before, sb, inodes, owner)
    requires inode0.id in inodes && inodes[inode0.id] == inode0 && offset <= inode0.size
    requires PartlyStored(inode0, out, before, written, grown, offset, data)
    requires Owned(sb.blockCount, inodes[out.id := out], grown) && Within(grown, |written|) && Extends(owner, grown)
    requires later == sb.(freeBlocks := later.freeBlocks) && later.freeBlocks <= sb.blockCount
    requires final == out.(size := Max(inode0.size, offset + |data|))
    requires |c.inode.enc(final)| <= BLOCK_SIZE && final.id < |written|
    requires after == written[final.id := Padded(c.inode.enc(final))]
    ensures Consistent(c, after, later, inodes[final.id := final], grown)
    ensures OneFileWritten(View(c, before, inodes), View(c, after, inodes[final.id := final]), final.id, offset, data)
  {
    hide Tiles, Total, BlockList, Content, Overlaid, OnlyStream, SystemEnd, DivCeil, Owned, View, KeepsOthers;
    hide SameStreams, SameLargeKeys;
    var id := final.id;
    var updated := inodes[id := final];
    SizedStreams(inodes, out, final);
    SameListsOwned(sb.blockCount, inodes[id := out], updated, grown);
    WriteKeepsOthers(before, written, after, owner, grown, id, Padded(c.inode.enc(final)));
    c.inode.DecodesPadded(final);
    Rebuild(c, before, after, sb, later, inodes, owner, id, final, grown, DataOf(id));
    InodeBlockApart(sb.blockCount, updated, grown, written, id, Padded(c.inode.enc(final)), final.size);
    WrittenView(c, before, after, inodes, final, offset, data);
    OwnContent(c, before, inodes, id);
  }

  lemma WrittenView(c: Codecs, before: seq<seq<Byte>>, after: seq<seq<Byte>>, inodes: Inodes, final: Inode, offset: nat,
                    data: seq<Byte>)
    requires final.id in inodes && offset <= inodes[final.id].size
    requires final == inodes[final.id].(chunks := final.chunks, size := final.size)
    requires forall t :: t != DataOf(final.id) ==>
               StreamBytes(after, inodes[final.id := final], t) == StreamBytes(before, inodes, t)
    requires StreamBytes(after, inodes[final.id := final], DataOf(final.id))
          == Overlaid(StreamBytes(before, inodes, DataOf(final.id)), offset, data)
    ensures var was := ViewOf(c, before, inodes, final.id);
            ViewOf(c, after, inodes[final.id := final], final.id)
                == was.(content := Overlaid(was.content, offset, data))
  {
    hide StreamBytes, Decoded, Overlaid;
    assert AttrsOf(c, after, inodes[final.id := final], final.id) == AttrsOf(c, before, inodes, final.id);
  }

  lemma OwnContent(c: Codecs, blocks: seq<seq<Byte>>, inodes: Inodes, id: nat)
    requires id in inodes
    ensures id in View(c, blocks, inodes) && View(c, blocks, inodes)[id] == ViewOf(c, blocks, inodes, id)
    ensures |View(c, blocks, inodes)[id].content| == inodes[id].size
  {
  }

  lemma ConsistentParts(c: Codecs, blocks: seq<seq<Byte>>, sb: Superblock, inodes: Inodes, owner: Owners)
    requires Consistent(c, blocks, sb, inodes, owner)
    ensures Owned(sb.blockCount, inodes, owner) && Within(owner, |blocks|) && WholeBlocks(blocks)
    ensures sb.freeBlocks <= sb.blockCount && JOURNAL_END <= SystemEnd(sb.blockCount)
  {
  }

  /** Reading a stream through its extents: the requirements of the reader, and what it yields. */
  lemma StreamReads(c: Codecs, blocks: seq<seq<Byte>>, sb: Superblock, inodes: Inodes, owner: Owners, s: Stream,
                    offset: nat, length: nat)
    requires Consistent(c, blocks, sb, inodes, owner) && s.id in inodes
    ensures var chunks, size := ExtentsOf(inodes, s), SizeOf(inodes, s);
            && Tiles(chunks) && Aligned(chunks, size)
            && Via(blocks, chunks, offset, ReadLength(offset, length, size))
               == Window(StreamBytes(blocks, inodes, s), offset, length)
            && forall off: nat :: Lookup(chunks, off).Some? ==> Lookup(chunks, off).value < |blocks|
  {
    hide Tiles, Total, Lookup, Consistent, SystemEnd, BlockList, Content, Via, ReadLength, Window, Aligned, ExtentsOf;
    hide SizeOf;
    var chunks, size := ExtentsOf(inodes, s), SizeOf(inodes, s);
    StreamTiles(c, blocks, sb, inodes, owner, s);
    AlignedBelow(chunks, size);
    WindowReads(blocks, chunks, size, offset, length);
    forall off: nat | Lookup(chunks, off).Some?
      ensures Lookup(chunks, off).value < |blocks|
    {
      LookupInside(c, blocks, sb, inodes, owner, s, off);
    }
  }

  lemma StreamTiles(c: Codecs, blocks: seq<seq<Byte>>, sb: Superblock, inodes: Inodes, owner: Owners, s: Stream)
    requires Consistent(c, blocks, sb, inodes, owner) && s.id in inodes
    ensures Tiles(ExtentsOf(inodes, s)) && SizeOf(inodes, s) <= Total(ExtentsOf(inodes, s))
  {
    assert WellFormed(inodes[s.id]);
  }

  lemma WindowReads(blocks: seq<seq<Byte>>, chunks: seq<Extent>, size: nat, offset: nat, length: nat)
    requires Tiles(chunks) && size <= Total(chunks)
    ensures Via(blocks, chunks, offset, ReadLength(offset, length, size))
         == Window(Content(blocks, BlockList(chunks), size), offset, length)
  {
    if offset < size {
      ReadsContent(blocks, chunks, size, offset, ReadLength(offset, length, size));
    }
  }

  lemma LookupInside(c: Codecs, blocks: seq<seq<Byte>>, sb: Superblock, inodes: Inodes, owner: Owners, s: Stream,
                     off: nat)
    requires Consistent(c, blocks, sb, inodes, owner) && s.id in inodes
    ensures Lookup(ExtentsOf(inodes, s), off).Some? ==> Lookup(ExtentsOf(inodes, s), off).value < |blocks|
  {
    hide Tiles, Total, Lookup, SystemEnd, BlockList, DivCeil, WellFormed;
    StreamTiles(c, blocks, sb, inodes, owner, s);
    TilesLookup(ExtentsOf(inodes, s), off);
    if off < Total(ExtentsOf(inodes, s)) {
      DivCeilCovers(Total(ExtentsOf(inodes, s)), off);
    }
    StreamInside(sb.blockCount, inodes, owner, s, off / BLOCK_SIZE);
  }

  lemma DivCeilCovers(total: nat, off: nat)
    requires off < total
    ensures off / BLOCK_SIZE < DivCeil(total)
  {
  }

  lemma StreamInside(blockCount: nat, inodes: Inodes, owner: Owners, s: Stream, i: nat)
    requires Owned(blockCount, inodes, owner)
    ensures i < |ListOf(inodes, s)| ==> ListOf(inodes, s)[i] in owner
  {
    if i < |ListOf(inodes, s)| {
      assert owner[ListOf(inodes, s)[i]] == Slot(s, i);
    }
  }

  lemma LargeReadable(c: Codecs, blocks: seq<seq<Byte>>, sb: Superblock, inodes: Inodes, owner: Owners, id: nat,
                      key: Str)
    requires Consistent(c, blocks, sb, inodes, owner) && id in inodes && key in inodes[id].largeAttributes
    ensures key !in inodes[id].attributes
    ensures c.attribute.dec(StreamBytes(blocks, inodes, AttrOf(id, key))).Some?
    ensures |StreamBytes(blocks, inodes, AttrOf(id, key))| == Total(inodes[id].largeAttributes[key])
  {
    assert WellFormed(inodes[id]);
  }

  /** A new inode, on the level of images: the file it adds is empty, and nothing else changes. */
  lemma CreateStored(c: Codecs, before: seq<seq<Byte>>, logged: seq<seq<Byte>>, after: seq<seq<Byte>>, sb: Superblock,
                     later: Superblock, inodes: Inodes, owner: Owners, inode: Inode)
    requires c.Lawful() && Consistent(c, before, sb, inodes, owner)
    requires inode == NewInode(inode.id, inode.kind).(attributes := inode.attributes)
    requires inode.id !in owner && SystemEnd(sb.blockCount) <= inode.id
    requires later == sb.(freeBlocks := later.freeBlocks) && later.freeBlocks <= sb.blockCount
    requires WholeBlocks(logged) && AgreeOutside(before, logged, JOURNAL_START, JOURNAL_END)
    requires |c.inode.enc(inode)| <= BLOCK_SIZE && after == Put(logged, inode.id, Padded(c.inode.enc(inode)))
    ensures Consistent(c, after, later, inodes[inode.id := inode], owner[inode.id := InodeAt(inode.id)])
    ensures OneFileAdded(View(c, before, inodes), View(c, after, inodes[inode.id := inode]), inode.id,
                         NewFile(inode.kind, inode.attributes))
  {
    hide SystemEnd, Owned, View, SameStreams, SameLargeKeys, KeepsOthers, StreamBytes;
    var id := inode.id;
    AboveSystem(sb.blockCount, inodes, owner);
    AddInodeOwned(sb.blockCount, inodes, owner, id, inode);
    NewStreams(inodes, inode);
    CreateKeepsOthers(before, logged, after, sb.blockCount, owner, id, Padded(c.inode.enc(inode)));
    c.inode.DecodesPadded(inode);
    Rebuild(c, before, after, sb, later, inodes, owner, id, inode, owner[id := InodeAt(id)], DataOf(id));
    NewView(c, after, inodes, inode);
    ViewKeys(c, before, inodes);
  }

  lemma CreateKeepsOthers(before: seq<seq<Byte>>, logged: seq<seq<Byte>>, after: seq<seq<Byte>>, blockCount: nat,
                          owner: Owners, id: nat, block: seq<Byte>)
    requires WholeBlocks(logged) && AgreeOutside(before, logged, JOURNAL_START, JOURNAL_END)
    requires forall b :: b in owner && !owner[b].Reserved? ==> b >= SystemEnd(blockCount)
    requires |block| == BLOCK_SIZE && after == Put(logged, id, block)
    ensures KeepsOthers(before, after, owner, id, DataOf(id))
  {
    PutWhole(logged, id, block);
  }

  lemma NewInodeFields(inode: Inode, id: nat, kind: FileKind, attributes: map<Str, AttributeValue>)
    requires inode == NewInode(id, kind).(attributes := attributes)
    ensures inode.id == id && inode.kind == kind && inode.attributes == attributes
  {
  }

  lemma NewStreams(inodes: Inodes, inode: Inode)
    requires inode.id !in inodes && inode == NewInode(inode.id, inode.kind).(attributes := inode.attributes)
    ensures SameStreams(inodes, inodes[inode.id := inode], DataOf(inode.id))
    ensures SameLargeKeys(inodes, inodes[inode.id := inode], DataOf(inode.id))
    ensures WellFormed(inode)
  {
  }

  lemma NewView(c: Codecs, blocks: seq<seq<Byte>>, inodes: Inodes, inode: Inode)
    requires inode == NewInode(inode.id, inode.kind).(attributes := inode.attributes)
    ensures ViewOf(c, blocks, inodes[inode.id := inode], inode.id) == NewFile(inode.kind, inode.attributes)
  {
  }

  lemma ViewKeys(c: Codecs, blocks: seq<seq<Byte>>, inodes: Inodes)
    ensures View(c, blocks, inodes).Keys == inodes.Keys
  {
  }

  function Elems(list: seq<nat>): set<nat> { set x | x in list }

  lemma ElemsAppend(owner: Owners, a: seq<nat>, b: seq<nat>)
    ensures Elems(a + b) == Elems(a) + Elems(b)
    ensures owner - Elems(a) - Elems(b) == owner - Elems(a + b)
  {
  }

  lemma ElemsNone(owner: Owners)
    ensures owner - Elems([]) == owner
  {
  }

  lemma ElemsOne(b: nat)
    ensures Elems([b]) == {b}
  {
  }

  /** The blocks of a run differ, so those not yet freed are still owned. */
  lemma StillIn(owner: Owners, run: seq<nat>, i: nat)
    requires i < |run| && run[i] in owner && forall j, k :: 0 <= j < k < |run| ==> run[j] != run[k]
    ensures run[i] in owner - Elems(run[..i])
  {
  }

  lemma StreamsPart(blockCount: nat, inodes: Inodes, owner: Owners, s: Stream)
    requires Owned(blockCount, inodes, owner)
    ensures StreamsOwned(inodes, owner) && ListOf(inodes, s) == BlockList(ExtentsOf(inodes, s))
  {
  }

  lemma RunStart(owner: Owners, e: Extent)
    ensures |Run(e)| == DivCeil(e.length) && Run(e)[..DivCeil(e.length)] == Run(e)
    ensures owner - Elems(Run(e)[..0]) == owner
  {
    ElemsNone(owner);
  }

  /** Freeing the next block of a run. */
  lemma RunStep(was: Owners, owner: Owners, e: Extent, i: nat, b: nat)
    requires |Run(e)| == DivCeil(e.length) && i < |Run(e)| && Run(e)[i] in was && owner == was - Elems(Run(e)[..i])
    requires b == e.physicalBlock + i
    ensures b in owner && owner - {b} == was - Elems(Run(e)[..i + 1])
    ensures (owner - {b}).Keys == owner.Keys - {b}
  {
    hide Elems, DivCeil;
    assert Run(e)[i] == b && Run(e)[..i + 1] == Run(e)[..i] + [b];
    StillIn(was, Run(e), i);
    ElemsOne(b);
    ElemsAppend(was, Run(e)[..i], [b]);
  }

  lemma DropAll(inodes: Inodes, owner: Owners, s: Stream)
    requires StreamsOwned(inodes, owner)
    ensures owner - Elems(ListOf(inodes, s)) == WithoutStream(owner, s)
  {
    forall b | b in owner
      ensures b in Elems(ListOf(inodes, s)) <==> owner[b].Slot? && owner[b].stream == s
    {
      if b in Elems(ListOf(inodes, s)) {
        var i :| 0 <= i < |ListOf(inodes, s)| && ListOf(inodes, s)[i] == b;
        assert owner[b] == Slot(s, i);
      }
    }
  }

  /** The blocks of a stream. */
  ghost function BlocksOf(inodes: Inodes, s: Stream): set<nat> { Elems(ListOf(inodes, s)) }

  lemma FirstSlot(inodes: Inodes, owner: Owners, s: Stream)
    requires StreamsOwned(inodes, owner) && ListOf(inodes, s) != []
    ensures exists b :: b in owner && owner[b].Slot?
  {
    assert owner[ListOf(inodes, s)[0]] == Slot(s, 0);
  }

  lemma NoSlotNoList(inodes: Inodes, owner: Owners, s: Stream)
    requires StreamsOwned(inodes, owner) && forall b :: b in owner ==> !owner[b].Slot?
    ensures ListOf(inodes, s) == []
  {
    hide StreamsOwned, ListOf;
    if ListOf(inodes, s) != [] {
      FirstSlot(inodes, owner, s);
    }
  }

  lemma SomeBlocks(chunks: seq<Extent>)
    requires Tiles(chunks) && chunks != []
    ensures BlockList(chunks) != []
  {
    var n := |chunks| - 1;
    assert BlockList(chunks) == BlockList(chunks[..n]) + Run(chunks[n]);
    assert |Run(chunks[n])| > 0;
  }

  lemma NoListNoSize(inodes: Inodes, id: nat)
    requires id in inodes && ListOf(inodes, DataOf(id)) == []
    requires Tiles(inodes[id].chunks) && Total(inodes[id].chunks) == DivCeil(inodes[id].size) * BLOCK_SIZE
    ensures inodes[id].size == 0
  {
    hide BlockList, Tiles;
    if inodes[id].chunks != [] {
      SomeBlocks(inodes[id].chunks);
    }
  }

  lemma WithoutBlocks(inodes: Inodes, owner: Owners, s: Stream)
    requires StreamsOwned(inodes, owner)
    ensures BlocksOf(inodes, s) <= owner.Keys
    ensures WithoutStream(owner, s).Keys == owner.Keys - BlocksOf(inodes, s)
  {
    hide WithoutStream, ListOf;
    DropAll(inodes, owner, s);
  }

  /** The blocks of one extent are still owned after those of the extents before it are gone. */
  lemma RunStillOwned(inodes: Inodes, owner: Owners, s: Stream, e: nat)
    requires StreamsOwned(inodes, owner) && e < |ExtentsOf(inodes, s)|
    ensures var extents := ExtentsOf(inodes, s);
            && owner - Elems(BlockList(extents[..e])) - Elems(Run(extents[e]))
                 == owner - Elems(BlockList(extents[..e + 1]))
            && BlockList(extents[..e + 1]) == BlockList(extents[..e]) + Run(extents[e])
            && forall j :: 0 <= j < |Run(extents[e])| ==>
                 Run(extents[e])[j] in owner && Run(extents[e])[j] !in Elems(BlockList(extents[..e]))
  {
    var extents := ExtentsOf(inodes, s);
    var list := ListOf(inodes, s);
    assert extents[..e + 1][..e] == extents[..e];
    BlockListPrefix(extents, e + 1);
    ElemsAppend(owner, BlockList(extents[..e]), Run(extents[e]));
    var before := BlockList(extents[..e]);
    forall j | 0 <= j < |Run(extents[e])|
      ensures Run(extents[e])[j] in owner && Run(extents[e])[j] !in Elems(before)
    {
      assert list[|before| + j] == Run(extents[e])[j];
      forall i | 0 <= i < |before|
        ensures before[i] != Run(extents[e])[j]
      {
        assert list[i] == before[i];
      }
    }
  }

  lemma FreeingStarts(owner: Owners, extents: seq<Extent>)
    ensures owner - Elems(BlockList(extents[..0])) == owner
  {
    ElemsNone(owner);
  }

  /** Only the superblock and the bitmap differ. */
  ghost predicate SystemOnly(before: seq<seq<Byte>>, after: seq<seq<Byte>>, blockCount: nat) {
    && |after| == |before|
    && forall b :: 0 <= b < |before| && (b >= SystemEnd(blockCount) || JOURNAL_START <= b < JOURNAL_END) ==>
         after[b] == before[b]
  }

  lemma SystemOnlyParts(before: seq<seq<Byte>>, after: seq<seq<Byte>>, blockCount: nat)
    requires SystemOnly(before, after, blockCount)
    ensures |after| == |before|
    ensures forall b :: JOURNAL_START <= b < JOURNAL_END && b < |before| ==> after[b] == before[b]
    ensures forall b :: SystemEnd(blockCount) <= b < |before| ==> after[b] == before[b]
  {
  }

  /** The inodes with large attribute `s` kept in `extents`. */
  function WithLarge(base: Inodes, s: Stream, extents: seq<Extent>): Inodes
    requires s.AttrOf? && s.id in base
  {
    base[s.id := base[s.id].(largeAttributes := base[s.id].largeAttributes[s.key := extents])]
  }

  lemma WithLargeStreams(base: Inodes, s: Stream, extents: seq<Extent>)
    requires s.AttrOf? && s.id in base
    ensures ExtentsOf(WithLarge(base, s, extents), s) == extents
    ensures forall t :: t != s ==> ExtentsOf(WithLarge(base, s, extents), t) == ExtentsOf(base, t)
    ensures WithLarge(base, s, extents).Keys == base.Keys
  {
  }

  /** Data written so far to blocks of its own, one extent a block. */
  ghost predicate Spilled(extents: seq<Extent>, before: seq<seq<Byte>>, blocks: seq<seq<Byte>>, owner: Owners,
                          s: Stream, written: seq<Byte>) {
    && Tiles(extents) && Total(extents) == |written|
    && OnlyStream(before, blocks, owner, s)
    && Content(blocks, BlockList(extents), |written|) == written
  }

  lemma NothingSpilled(blocks: seq<seq<Byte>>, owner: Owners, s: Stream)
    requires WholeBlocks(blocks)
    ensures Spilled([], blocks, blocks, owner, s, [])
  {
  }

  lemma OneMoreExtent(extents: seq<Extent>, e: Extent)
    requires Tiles(extents) && OnBoundary(Total(extents))
    requires e.logicalOffset == Total(extents) && 0 < e.length <= BLOCK_SIZE
    ensures Tiles(extents + [e]) && Total(extents + [e]) == Total(extents) + e.length
    ensures BlockList(extents + [e]) == BlockList(extents) + [e.physicalBlock]
    ensures |BlockList(extents)| * BLOCK_SIZE == Total(extents)
  {
    hide Tiles, Total, BlockList, Run, OnBoundary;
    MoreTiles(extents, e);
    OneBlockRun(e);
    MoreBlocks(extents, e);
    ListLength(extents);
  }

  lemma MoreTiles(extents: seq<Extent>, e: Extent)
    requires Tiles(extents) && OnBoundary(Total(extents)) && e.logicalOffset == Total(extents) && e.length > 0
    ensures Tiles(extents + [e]) && Total(extents + [e]) == Total(extents) + e.length
  {
    hide BlockList;
    assert (extents + [e])[..|extents|] == extents;
  }

  lemma OneBlockRun(e: Extent)
    requires 0 < e.length <= BLOCK_SIZE
    ensures Run(e) == [e.physicalBlock]
  {
  }

  lemma MoreBlocks(extents: seq<Extent>, e: Extent)
    ensures BlockList(extents + [e]) == BlockList(extents) + Run(e)
  {
    hide Run;
    assert (extents + [e])[..|extents|] == extents;
  }

  lemma ListLength(extents: seq<Extent>)
    requires Tiles(extents) && OnBoundary(Total(extents))
    ensures |BlockList(extents)| * BLOCK_SIZE == Total(extents)
  {
    TilesLookup(extents, 0);
    hide Tiles, Total, BlockList;
  }

  /** A block added to a large attribute is owned by it. */
  lemma SpillOwned(blockCount: nat, base: Inodes, owner: Owners, s: Stream, extents: seq<Extent>,
                   before: seq<seq<Byte>>, blocks: seq<seq<Byte>>, written: seq<Byte>, e: Extent)
    requires s.AttrOf? && s.id in base && Owned(blockCount, WithLarge(base, s, extents), owner)
    requires Spilled(extents, before, blocks, owner, s, written) && OnBoundary(|written|)
    requires e.physicalBlock !in owner
    requires e.logicalOffset == |written| && 0 < e.length <= BLOCK_SIZE
    ensures var grown := owner[e.physicalBlock := Slot(s, |BlockList(extents)|)];
            && Owned(blockCount, WithLarge(base, s, extents + [e]), grown)
            && |grown| == |owner| + 1 && grown.Keys == owner.Keys + {e.physicalBlock}
            && Extends(owner, grown)
    ensures forall i :: 0 <= i < |BlockList(extents)| ==>
              BlockList(extents)[i] != e.physicalBlock && BlockList(extents)[i] in owner
  {
    hide *;
    var cur, next := WithLarge(base, s, extents), WithLarge(base, s, extents + [e]);
    SpilledTiles(extents, before, blocks, owner, s, written);
    OneMoreExtent(extents, e);
    WithLargeLists(base, s, extents, e);
    GrowOwned(blockCount, cur, next, owner, s, e.physicalBlock);
    GrowKeys(owner, e.physicalBlock, Slot(s, |BlockList(extents)|));
    forall i | 0 <= i < |BlockList(extents)|
      ensures BlockList(extents)[i] != e.physicalBlock && BlockList(extents)[i] in owner
    {
      StreamOwnedAt(blockCount, cur, owner, s, i);
    }
  }

  lemma SpilledTiles(extents: seq<Extent>, before: seq<seq<Byte>>, blocks: seq<seq<Byte>>, owner: Owners, s: Stream,
                     written: seq<Byte>)
    requires Spilled(extents, before, blocks, owner, s, written) && OnBoundary(|written|)
    ensures Tiles(extents) && Total(extents) == |written| && OnBoundary(Total(extents))
  {
  }

  lemma WithLargeLists(base: Inodes, s: Stream, extents: seq<Extent>, e: Extent)
    requires s.AttrOf? && s.id in base && BlockList(extents + [e]) == BlockList(extents) + [e.physicalBlock]
    ensures var cur, next := WithLarge(base, s, extents), WithLarge(base, s, extents + [e]);
            && ListOf(cur, s) == BlockList(extents)
            && ListOf(next, s) == ListOf(cur, s) + [e.physicalBlock]
            && (forall t :: t != s ==> ListOf(next, t) == ListOf(cur, t))
            && next.Keys == cur.Keys
  {
    hide BlockList, WithLarge, ExtentsOf;
    WithLargeStreams(base, s, extents);
    WithLargeStreams(base, s, extents + [e]);
  }

  lemma GrowKeys(owner: Owners, b: nat, o: Owner)
    requires b !in owner
    ensures owner[b := o].Keys == owner.Keys + {b} && Extends(owner, owner[b := o])
  {
  }

  lemma ExtendsMore(a: Owners, b: Owners, c: Owners)
    requires Extends(a, b) && Extends(b, c)
    ensures Extends(a, c)
  {
  }

  lemma StreamOwnedAt(blockCount: nat, inodes: Inodes, owner: Owners, s: Stream, i: nat)
    requires Owned(blockCount, inodes, owner) && i < |ListOf(inodes, s)|
    ensures ListOf(inodes, s)[i] in owner && owner[ListOf(inodes, s)[i]] == Slot(s, i)
  {
  }

  lemma SpillMore(extents: seq<Extent>, b: nat, before: seq<seq<Byte>>, blocks: seq<seq<Byte>>, after: seq<seq<Byte>>,
                  owner: Owners, grown: Owners, s: Stream, written: seq<Byte>, chunk: seq<Byte>)
    requires Spilled(extents, before, blocks, owner, s, written) && |written| % BLOCK_SIZE == 0
    requires 0 < |chunk| <= BLOCK_SIZE && after == Put(blocks, b, Padded(chunk))
    requires Extends(owner, grown) && b in grown && grown[b].Slot? && grown[b].stream == s
    requires forall i :: 0 <= i < |BlockList(extents)| ==>
               BlockList(extents)[i] != b && BlockList(extents)[i] < |blocks|
    ensures Spilled(extents + [Extent(|written|, b, |chunk|)], before, after, grown, s, written + chunk)
  {
    var e := Extent(|written|, b, |chunk|);
    var list := BlockList(extents);
    OneMoreExtent(extents, e);
    hide Tiles, Total, BlockList;
    forall k: nat | k < |written + chunk|
      ensures ByteAt(after, list + [b], k) == (written + chunk)[k]
    {
      if k < |written| {
        assert k / BLOCK_SIZE < |list| && ByteAt(blocks, list, k) == Content(blocks, list, |written|)[k];
      } else {
        assert k / BLOCK_SIZE == |list|;
      }
    }
  }

  lemma SpillPiece(extents: seq<Extent>, b: nat, before: seq<seq<Byte>>, blocks: seq<seq<Byte>>, after: seq<seq<Byte>>,
                   owner: Owners, s: Stream, data: seq<Byte>, done: nat, n: nat)
    requires done + n <= |data| && 0 < n <= BLOCK_SIZE && OnBoundary(done)
    requires Spilled(extents, before, blocks, owner, s, data[..done])
    requires b !in owner && after == Put(blocks, b, Padded(data[done..done + n]))
    requires forall i :: 0 <= i < |BlockList(extents)| ==>
               BlockList(extents)[i] != b && BlockList(extents)[i] < |blocks|
    ensures Spilled(extents + [Extent(done, b, n)], before, after, owner[b := Slot(s, |BlockList(extents)|)], s,
                    data[..done + n])
  {
    hide Spilled, BlockList;
    SpillMore(extents, b, before, blocks, after, owner, owner[b := Slot(s, |BlockList(extents)|)], s, data[..done],
              data[done..done + n]);
    assert data[..done] + data[done..done + n] == data[..done + n];
  }

  predicate OnBoundary(n: nat) { n % BLOCK_SIZE == 0 }

  lemma PieceFits(done: nat, left: nat)
    requires left > 0 && OnBoundary(done)
    ensures 0 < PieceSize(done, left) <= left && PieceSize(done, left) <= BLOCK_SIZE
    ensures OnBoundary(done + PieceSize(done, left)) || PieceSize(done, left) == left
    ensures DivCeil(done) + 1 == DivCeil(done + PieceSize(done, left)) <= DivCeil(done + left)
  {
  }

  /** Outside the superblock and the bitmap, the blocks that changed all belong to one stream. */
  ghost predicate StreamOrSystem(before: seq<seq<Byte>>, after: seq<seq<Byte>>, owner: Owners, s: Stream,
                                 blockCount: nat) {
    && |before| <= |after| && WholeBlocks(after)
    && forall b :: 0 <= b < |before| && after[b] != before[b] ==>
         b >= SystemEnd(blockCount) || JOURNAL_START <= b < JOURNAL_END ==>
           b in owner && owner[b].Slot? && owner[b].stream == s
  }

  lemma SyncedStream(before: seq<seq<Byte>>, mid: seq<seq<Byte>>, after: seq<seq<Byte>>, owner: Owners, s: Stream,
                     blockCount: nat)
    requires OnlyStream(before, mid, owner, s) && SystemOnly(mid, after, blockCount) && WholeBlocks(after)
    ensures StreamOrSystem(before, after, owner, s, blockCount)
  {
  }

  /** The system blocks hold no file data. */
  lemma SystemContent(blockCount: nat, inodes: Inodes, owner: Owners, s: Stream, before: seq<seq<Byte>>,
                      after: seq<seq<Byte>>, size: nat)
    requires Owned(blockCount, inodes, owner) && Within(owner, |before|) && SystemOnly(before, after, blockCount)
    ensures Content(after, ListOf(inodes, s), size) == Content(before, ListOf(inodes, s), size)
  {
    var list: seq<nat> := ListOf(inodes, s);
    AboveSystem(blockCount, inodes, owner);
    hide SystemEnd, ListOf;
    forall i | 0 <= i < |list|
      ensures list[i] < |before| && after[list[i]] == before[list[i]]
    {
      assert owner[list[i]] == Slot(s, i);
    }
    ContentFrame(before, after, list, size);
  }

  /** Large data in blocks of its own. */
  ghost predicate HoldsData(extents: seq<Extent>, blocks: seq<seq<Byte>>, data: seq<Byte>) {
    Tiles(extents) && Total(extents) == |data| && Content(blocks, BlockList(extents), |data|) == data
  }

  lemma SpilledHolds(blockCount: nat, base: Inodes, owner: Owners, s: Stream, extents: seq<Extent>,
                     before: seq<seq<Byte>>, mid: seq<seq<Byte>>, after: seq<seq<Byte>>, data: seq<Byte>)
    requires s.AttrOf? && s.id in base && Owned(blockCount, WithLarge(base, s, extents), owner) && Within(owner, |mid|)
    requires Spilled(extents, before, mid, owner, s, data) && SystemOnly(mid, after, blockCount) && WholeBlocks(after)
    ensures HoldsData(extents, after, data) && StreamOrSystem(before, after, owner, s, blockCount)
  {
    hide Owned, Content, BlockList, Tiles, Total, SystemEnd;
    WithLargeStreams(base, s, extents);
    SystemContent(blockCount, WithLarge(base, s, extents), owner, s, mid, after, |data|);
    SyncedStream(before, mid, after, owner, s, blockCount);
  }

  lemma NoExtents(blockCount: nat, base: Inodes, owner: Owners, s: Stream)
    requires s.AttrOf? && s.id in base && ExtentsOf(base, s) == [] && Owned(blockCount, base, owner)
    ensures Owned(blockCount, WithLarge(base, s, []), owner)
  {
    WithLargeStreams(base, s, []);
    var b := WithLarge(base, s, []);
    assert forall t :: ExtentsOf(b, t) == ExtentsOf(base, t);
    SameListsOwned(blockCount, base, b, owner);
  }

  /** The inode of a file after one of its attributes was set: a key is kept either inline or in blocks. */
  function WithAttribute(inode: Inode, key: Str, value: AttributeValue, extents: seq<Extent>): Inode {
    if IsLarge(value) then
      inode.(attributes := inode.attributes - {key}, largeAttributes := inode.largeAttributes[key := extents])
    else
      inode.(attributes := inode.attributes[key := value], largeAttributes := inode.largeAttributes - {key})
  }

  /** A file with one attribute set. */
  function Attributed(file: FileView, key: Str, value: AttributeValue): FileView {
    file.(attrs := file.attrs[key := value],
          inline := if IsLarge(value) then file.inline - {key} else file.inline + {key})
  }

  /** One attribute has a new value; every other attribute and file is as it was. */
  ghost predicate OneAttributeSet(before: Files, after: Files, id: nat, key: Str, value: AttributeValue) {
    id in before && after == before[id := Attributed(before[id], key, value)]
  }

  lemma WithAttributeStreams(inodes: Inodes, inode: Inode, key: Str, value: AttributeValue, extents: seq<Extent>)
    requires inode.id in inodes && inodes[inode.id] == inode
    ensures var final, s := WithAttribute(inode, key, value, extents), AttrOf(inode.id, key);
            && SameStreams(inodes, inodes[inode.id := final], s)
            && SameLargeKeys(inodes, inodes[inode.id := final], s)
            && ExtentsOf(inodes[inode.id := final], s) == (if IsLarge(value) then extents else [])
  {
  }

  lemma WithAttributeFormed(inode: Inode, key: Str, value: AttributeValue, extents: seq<Extent>)
    requires WellFormed(inode) && (IsLarge(value) ==> Tiles(extents))
    ensures WellFormed(WithAttribute(inode, key, value, extents))
  {
    hide Tiles, Total;
  }

  lemma AttributeKeepsOthers(before: seq<seq<Byte>>, freed: seq<seq<Byte>>, mid: seq<seq<Byte>>, after: seq<seq<Byte>>,
                             blockCount: nat, inodes: Inodes, owner: Owners, grown: Owners, s: Stream, block: seq<Byte>)
    requires SystemOnly(before, freed, blockCount) && StreamOrSystem(freed, mid, grown, s, blockCount)
    requires Owned(blockCount, inodes, owner) && Extends(WithoutStream(owner, s), grown)
    requires s.id < |mid| && |block| == BLOCK_SIZE && after == mid[s.id := block]
    ensures KeepsOthers(before, after, owner, s.id, s)
  {
    AboveSystem(blockCount, inodes, owner);
    hide Owned, SystemEnd;
    forall b | b in owner && b < |before| && b != s.id && !owner[b].Reserved? && !(owner[b].Slot? && owner[b].stream
                                                                                   == s)
      ensures after[b] == before[b]
    {
      assert b in WithoutStream(owner, s) && WithoutStream(owner, s)[b] == owner[b];
    }
  }

  lemma AttributeBytes(c: Codecs, mid: seq<seq<Byte>>, after: seq<seq<Byte>>, blockCount: nat, updated: Inodes,
                       grown: Owners, s: Stream, block: seq<Byte>, value: AttributeValue, extents: seq<Extent>)
    requires c.Lawful() && Owned(blockCount, updated, grown) && Within(grown, |mid|) && s.AttrOf? && s.id in updated
    requires ExtentsOf(updated, s) == extents
    requires HoldsData(extents, mid, c.attribute.enc(value)) && s.id < |mid| && after == mid[s.id := block]
    ensures c.attribute.dec(StreamBytes(after, updated, s)) == Some(value)
  {
    hide Content, BlockList, Total, Tiles, SystemEnd;
    var list: seq<nat> := ListOf(updated, s);
    forall i | 0 <= i < |list|
      ensures list[i] != s.id
    {
      StreamOwnedAt(blockCount, updated, grown, s, i);
    }
    ContentFrame(mid, after, list, SizeOf(updated, s));
    c.attribute.Decodes(value);
  }

  lemma AttributeView(c: Codecs, before: seq<seq<Byte>>, after: seq<seq<Byte>>, inodes: Inodes, inode: Inode, key: Str,
                      value: AttributeValue, extents: seq<Extent>)
    requires inode.id in inodes && inodes[inode.id] == inode
    requires var updated := inodes[inode.id := WithAttribute(inode, key, value, extents)];
             && (forall t :: t != AttrOf(inode.id, key) ==>
                 StreamBytes(after, updated, t) == StreamBytes(before, inodes, t))
             && (IsLarge(value) ==> c.attribute.dec(StreamBytes(after, updated, AttrOf(inode.id, key))) == Some(value))
    ensures var updated := inodes[inode.id := WithAttribute(inode, key, value, extents)];
            var was := ViewOf(c, before, inodes, inode.id);
            ViewOf(c, after, updated, inode.id) == Attributed(was, key, value)
  {
    hide StreamBytes, AttrsOf, WithAttribute, Decoded;
    var updated := inodes[inode.id := WithAttribute(inode, key, value, extents)];
    var was, now := AttrsOf(c, before, inodes, inode.id), AttrsOf(c, after, updated, inode.id);
    forall k: Str
      ensures k in now <==> k in was || k == key
      ensures k in now ==> now[k] == was[key := value][k]
    {
      AttributeAt(c, before, after, inodes, updated, inode, key, value, extents, k);
    }
    assert now == was[key := value];
    AttributeKind(inode, key, value, extents);
  }

  lemma AttributeKind(inode: Inode, key: Str, value: AttributeValue, extents: seq<Extent>)
    ensures WithAttribute(inode, key, value, extents).kind == inode.kind
    ensures WithAttribute(inode, key, value, extents).attributes.Keys
         == if IsLarge(value) then inode.attributes.Keys - {key} else inode.attributes.Keys + {key}
  {
  }

  lemma AttributeAt(c: Codecs, before: seq<seq<Byte>>, after: seq<seq<Byte>>, inodes: Inodes, updated: Inodes,
                    inode: Inode, key: Str, value: AttributeValue, extents: seq<Extent>, k: Str)
    requires inode.id in inodes && inodes[inode.id] == inode
    requires updated == inodes[inode.id := WithAttribute(inode, key, value, extents)]
    requires forall t :: t != AttrOf(inode.id, key) ==> StreamBytes(after, updated, t) == StreamBytes(before, inodes, t)
    requires IsLarge(value) ==> c.attribute.dec(StreamBytes(after, updated, AttrOf(inode.id, key))) == Some(value)
    ensures var was, now := AttrsOf(c, before, inodes, inode.id), AttrsOf(c, after, updated, inode.id);
            && (k in now <==> k in was || k == key)
            && (k in now ==> now[k] == was[key := value][k])
  {
    hide StreamBytes, IsLarge;
    if k != key {
      assert StreamBytes(after, updated, AttrOf(inode.id, k)) == StreamBytes(before, inodes, AttrOf(inode.id, k));
    }
  }

  /** Setting an attribute, on the level of images. */
  lemma AttributeStored(c: Codecs, before: seq<seq<Byte>>, freed: seq<seq<Byte>>, mid: seq<seq<Byte>>,
                        after: seq<seq<Byte>>,
                        sb: Superblock, later: Superblock, inodes: Inodes, owner: Owners, grown: Owners,
                        inode: Inode, key: Str, value: AttributeValue, extents: seq<Extent>, final: Inode)
    requires c.Lawful() && Consistent(c, before, sb, inodes, owner)
    requires inode.id in inodes && inodes[inode.id] == inode && final == WithAttribute(inode, key, value, extents)
    requires SystemOnly(before, freed, sb.blockCount)
    requires StreamOrSystem(freed, mid, grown, AttrOf(inode.id, key), sb.blockCount)
    requires IsLarge(value) ==> HoldsData(extents, mid, c.attribute.enc(value))
    requires Owned(sb.blockCount, inodes[inode.id := final], grown) && Within(grown, |mid|)
    requires Extends(WithoutStream(owner, AttrOf(inode.id, key)), grown)
    requires later == sb.(freeBlocks := later.freeBlocks) && later.freeBlocks <= sb.blockCount
    requires |c.inode.enc(final)| <= BLOCK_SIZE && inode.id < |mid|
    requires after == mid[inode.id := Padded(c.inode.enc(final))]
    ensures Consistent(c, after, later, inodes[inode.id := final], grown)
    ensures OneAttributeSet(View(c, before, inodes), View(c, after, inodes[inode.id := final]), inode.id, key, value)
  {
    hide SystemEnd, Owned, View, SameStreams, SameLargeKeys, KeepsOthers, StreamBytes, WellFormed, SystemOnly,
        StreamOrSystem, HoldsData,
         WithoutStream, Extends, ExtentsOf, AttrsReadable, Stored;
    var id, s := inode.id, AttrOf(inode.id, key);
    var updated := inodes[id := final];
    var block := Padded(c.inode.enc(final));
    WithAttributeStreams(inodes, inode, key, value, extents);
    if IsLarge(value) {
      AttributeBytes(c, mid, after, sb.blockCount, updated, grown, s, block, value, extents);
      HoldsTiles(extents, mid, c.attribute.enc(value));
    }
    WithAttributeFormed(inode, key, value, extents);
    AttributeKeepsOthers(before, freed, mid, after, sb.blockCount, inodes, owner, grown, s, block);
    c.inode.DecodesPadded(final);
    Rebuild(c, before, after, sb, later, inodes, owner, id, final, grown, s);
    AttributeView(c, before, after, inodes, inode, key, value, extents);
    OwnContent(c, before, inodes, id);
  }

  lemma HoldsTiles(extents: seq<Extent>, blocks: seq<seq<Byte>>, data: seq<Byte>)
    requires HoldsData(extents, blocks, data)
    ensures Tiles(extents)
  {
  }

  lemma DroppedStreams(inodes: Inodes, inode: Inode, key: Str)
    requires inode.id in inodes && inodes[inode.id] == inode
    ensures var base, s :=
              inodes[inode.id := inode.(largeAttributes := inode.largeAttributes - {key})], AttrOf(inode.id, key);
            && ExtentsOf(base, s) == []
            && (forall t :: t != s ==> ExtentsOf(base, t) == ExtentsOf(inodes, t))
            && base.Keys == inodes.Keys
  {
  }

  /** The image after a key has lost its blocks, whether or not it had any. */
  lemma Dropped(blockCount: nat, inodes: Inodes, owner: Owners, inode: Inode, key: Str)
    requires Owned(blockCount, inodes, owner) && inode.id in inodes && inodes[inode.id] == inode
    ensures var s := AttrOf(inode.id, key);
            && Owned(blockCount, inodes[inode.id := inode.(largeAttributes := inode.largeAttributes - {key})],
                     WithoutStream(owner, s))
            && (key !in inode.largeAttributes ==>
                  inode.(largeAttributes := inode.largeAttributes - {key}) == inode && WithoutStream(owner, s) == owner)
  {
    hide Owned, BlockList, WithoutStream;
    var s := AttrOf(inode.id, key);
    var base := inodes[inode.id := inode.(largeAttributes := inode.largeAttributes - {key})];
    DroppedStreams(inodes, inode, key);
    assert ListOf(base, s) == [] by {
      EmptyList();
    }
    DropOwned(blockCount, inodes, base, owner, s);
    if key !in inode.largeAttributes {
      assert inode.largeAttributes - {key} == inode.largeAttributes;
      EmptyStream(blockCount, inodes, owner, s);
    }
  }

  lemma LargeIs(inodes: Inodes, inode: Inode, key: Str)
    requires inode.id in inodes && inodes[inode.id] == inode && key in inode.largeAttributes
    ensures ExtentsOf(inodes, AttrOf(inode.id, key)) == inode.largeAttributes[key]
  {
  }

  lemma LargeValueIs(inode: Inode, key: Str, value: AttributeValue, extents: seq<Extent>)
    requires IsLarge(value)
    ensures inode.(attributes := inode.attributes - {key},
                   largeAttributes := (inode.largeAttributes - {key})[key := extents])
         == WithAttribute(inode, key, value, extents)
  {
    assert (inode.largeAttributes - {key})[key := extents] == inode.largeAttributes[key := extents];
  }

  lemma SmallValueIs(inode: Inode, key: Str, value: AttributeValue)
    requires !IsLarge(value)
    ensures inode.(attributes := inode.attributes[key := value], largeAttributes := inode.largeAttributes - {key})
         == WithAttribute(inode, key, value, [])
  {
  }

  lemma WithAttributeId(inode: Inode, key: Str, value: AttributeValue, extents: seq<Extent>)
    ensures WithAttribute(inode, key, value, extents).id == inode.id
  {
  }

  lemma EmptyList()
    ensures BlockList([]) == []
  {
  }

  lemma EmptyStream(blockCount: nat, inodes: Inodes, owner: Owners, s: Stream)
    requires Owned(blockCount, inodes, owner) && ExtentsOf(inodes, s) == []
    ensures WithoutStream(owner, s) == owner
  {
    StreamsPart(blockCount, inodes, owner, s);
    DropAll(inodes, owner, s);
    EmptyList();
    ElemsNone(owner);
  }

  lemma NothingTouched(blocks: seq<seq<Byte>>, owner: Owners, s: Stream, blockCount: nat)
    requires WholeBlocks(blocks)
    ensures SystemOnly(blocks, blocks, blockCount) && StreamOrSystem(blocks, blocks, owner, s, blockCount)
    ensures Extends(owner, owner)
  {
  }

  /** A large value is kept in blocks: the final inode names the same blocks as the one under construction. */
  lemma LargeLists(inodes: Inodes, inode: Inode, key: Str, value: AttributeValue, extents: seq<Extent>)
    requires inode.id in inodes && inodes[inode.id] == inode && IsLarge(value)
    ensures var base := inodes[inode.id := inode.(largeAttributes := inode.largeAttributes - {key})];
            var final := WithAttribute(inode, key, value, extents);
            && ListsAgree(WithLarge(base, AttrOf(inode.id, key), extents), inodes[inode.id := final])
            && WithLarge(base, AttrOf(inode.id, key), extents).Keys == inodes[inode.id := final].Keys
  {
    var base := inodes[inode.id := inode.(largeAttributes := inode.largeAttributes - {key})];
    var s := AttrOf(inode.id, key);
    var a, b := WithLarge(base, s, extents), inodes[inode.id := WithAttribute(inode, key, value, extents)];
    assert forall t :: ExtentsOf(b, t) == ExtentsOf(a, t);
  }

  lemma SmallLists(inodes: Inodes, inode: Inode, key: Str, value: AttributeValue, extents: seq<Extent>)
    requires inode.id in inodes && inodes[inode.id] == inode && !IsLarge(value)
    ensures var base := inodes[inode.id := inode.(largeAttributes := inode.largeAttributes - {key})];
            var final := WithAttribute(inode, key, value, extents);
            ListsAgree(base, inodes[inode.id := final]) && base.Keys == inodes[inode.id := final].Keys
  {
    var a := inodes[inode.id := inode.(largeAttributes := inode.largeAttributes - {key})];
    var b := inodes[inode.id := WithAttribute(inode, key, value, extents)];
    assert forall t :: ExtentsOf(b, t) == ExtentsOf(a, t);
  }

  lemma AboveSystem(blockCount: nat, inodes: Inodes, owner: Owners)
    requires Owned(blockCount, inodes, owner)
    ensures forall b :: b in owner && !owner[b].Reserved? ==> b >= SystemEnd(blockCount)
  {
  }

  /** The blocks of its own that a value needs. */
  function SpillCount(c: Codecs, value: AttributeValue): nat {
    if IsLarge(value) then DivCeil(|c.attribute.enc(value)|) else 0
  }

  lemma SpillCountIs(c: Codecs, value: AttributeValue)
    ensures SpillCount(c, value) == if IsLarge(value) then DivCeil(|c.attribute.enc(value)|) else 0
  {
  }

  function ContentSize(files: Files, id: nat): nat { if id in files then |files[id].content| else 0 }

  lemma AttributedSize(before: Files, id: nat, key: Str, value: AttributeValue, other: nat)
    ensures ContentSize(AfterSetting(before, id, key, value), other) == ContentSize(before, other)
  {
  }

  lemma AddedSize(before: Files, after: Files, id: nat, file: FileView, other: nat)
    requires OneFileAdded(before, after, id, file) && other in before
    ensures ContentSize(after, other) == ContentSize(before, other)
  {
  }

  /** What a write does to the number of blocks of the file, seen from its size. */
  lemma WriteGrows(before: Files, after: Files, id: nat, data: seq<Byte>, size: nat)
    requires OneFileWritten(before, after, id, 0, data) && id in before && |before[id].content| == size && data != []
    ensures BlocksLacking(size, 0, |data|) == Growth(ContentSize(before, id), ContentSize(after, id))
    ensures ContentSize(after, id) > 0
  {
    hide DivCeil, Growth, BlocksLacking;
    WrittenSize(before, after, id, 0, data);
    LackingIsGrowth(size, 0, |data|);
  }

  /** The file after a write that starts inside it or at its end. */
  function Written(file: FileView, offset: nat, data: seq<Byte>): FileView {
    if offset <= |file.content| then file.(content := Overlaid(file.content, offset, data)) else file
  }

  /** One file has been written to; every other file, and its own attributes, are as they were. */
  ghost predicate OneFileWritten(before: Files, after: Files, id: nat, offset: nat, data: seq<Byte>) {
    id in before && after == before[id := Written(before[id], offset, data)]
  }

  lemma WrittenSize(before: Files, after: Files, id: nat, offset: nat, data: seq<Byte>)
    requires OneFileWritten(before, after, id, offset, data) && offset <= |before[id].content|
    ensures id in after && |after[id].content| == Max(|before[id].content|, offset + |data|)
  {
  }

  function NewFile(kind: FileKind, attributes: map<Str, AttributeValue>): FileView {
    FileView(kind, [], attributes, attributes.Keys)
  }

  ghost predicate OneFileAdded(before: Files, after: Files, id: nat, file: FileView) {
    id !in before && after == before[id := file]
  }

  lemma NewFileIs(before: Files, after: Files, id: nat, kind: FileKind, attributes: map<Str, AttributeValue>)
    requires OneFileAdded(before, after, id, NewFile(kind, attributes))
    ensures id !in before && after == before[id := FileView(kind, [], attributes, attributes.Keys)]
  {
  }

  // ----- the catalog file

  predicate CatalogUnreadable(c: Codecs, files: Files, catalog: nat) {
    catalog in files && CatalogReads(c, files, catalog) == None
  }

  /** The catalog file was rewritten with one more entry. */
  ghost predicate EntryIndexed(c: Codecs, before: Files, after: Files, catalog: nat, e: CatalogEntry) {
    && catalog in before && CatalogReads(c, before, catalog).Some?
    && after == before[catalog := Written(before[catalog], 0,
                                    c.catalog.enc(CatalogReads(c, before, catalog).value + [e]))]
  }

  lemma UnreadableIs(c: Codecs, files: Files, catalog: nat)
    requires catalog in files && CatalogReads(c, files, catalog) == None
    ensures CatalogUnreadable(c, files, catalog)
  {
  }

  lemma Indexed(c: Codecs, before: Files, after: Files, catalog: nat, entries: seq<CatalogEntry>, e: CatalogEntry)
    requires catalog in before && CatalogReads(c, before, catalog) == Some(entries)
    requires OneFileWritten(before, after, catalog, 0, c.catalog.enc(entries + [e]))
    ensures EntryIndexed(c, before, after, catalog, e)
  {
  }

  /** The errors of a device that is full, or of an inode that has grown past its block. */
  predicate IsCapacity(error: FsError) { error == InodeTooLarge || error == NoSpace || error.OutOfBounds? }

  /** An attribute was set, and then the catalog rewritten with an entry for it. */
  ghost predicate AttributeIndexed(c: Codecs, h: Hashes, before: Files, after: Files, catalog: nat, id: nat, key: Str,
                                   value: AttributeValue) {
    && id in before
    && EntryIndexed(c, before[id := Attributed(before[id], key, value)], after, catalog,
                    NewCatalogEntry(h, key, value, id))
  }

  function AfterSetting(files: Files, id: nat, key: Str, value: AttributeValue): Files {
    if id in files then files[id := Attributed(files[id], key, value)] else files
  }

  lemma SettingIs(before: Files, mid: Files, id: nat, key: Str, value: AttributeValue)
    requires OneAttributeSet(before, mid, id, key, value)
    ensures mid == AfterSetting(before, id, key, value)
  {
  }

  lemma SetAndIndexed(c: Codecs, h: Hashes, before: Files, mid: Files, after: Files, catalog: nat, id: nat, key: Str,
                      value: AttributeValue)
    requires OneAttributeSet(before, mid, id, key, value)
    requires EntryIndexed(c, mid, after, catalog, NewCatalogEntry(h, key, value, id))
    ensures AttributeIndexed(c, h, before, after, catalog, id, key, value)
  {
  }

  /**
   * An attribute just set, and the number of blocks it takes. Numbers and up to 256 bytes stay in the inode, where
   * filters see them; all else goes into blocks of its own, as many as its encoding needs.
   */
  ghost predicate KeptBySize(c: Codecs, files: Files, id: nat, key: Str, value: AttributeValue, taken: nat) {
    && id in files && key in files[id].attrs && files[id].attrs[key] == value
    && (key in files[id].inline <==>
          match value
          case Int(_) => true
          case Float(_) => true
          case Text(s) => |s| <= 256
          case Blob(b) => |b| <= 256
          case Vector(v) => |v| <= 64)
    && taken == if key in files[id].inline then 0 else (|c.attribute.enc(value)| + 4095) / 4096
  }

  lemma SetBySize(c: Codecs, before: Files, after: Files, id: nat, key: Str, value: AttributeValue)
    requires OneAttributeSet(before, after, id, key, value)
    ensures KeptBySize(c, after, id, key, value, SpillCount(c, value))
  {
  }

  lemma IndexedBySize(c: Codecs, h: Hashes, before: Files, after: Files, catalog: nat, id: nat, key: Str,
                      value: AttributeValue)
    requires AttributeIndexed(c, h, before, after, catalog, id, key, value)
    ensures KeptBySize(c, after, id, key, value, SpillCount(c, value))
  {
    var mid := before[id := Attributed(before[id], key, value)];
    SetBySize(c, before, mid, id, key, value);
    hide CatalogReads, Overlaid, SpillCount, Attributed;
  }

  /** What setting an attribute appends to the journal: the rewriting of the catalog is nested in it. */
  function SetAttributeOps(id: nat, key: Str, catalog: nat): seq<JournalOp> {
    [BeginOp(id, SET_ATTR + key), BeginWrite(catalog), EndWrite(catalog), EndOp(id)]
  }

  lemma SetAttributeOpsAre(logged: seq<JournalOp>, id: nat, key: Str, catalog: nat)
    ensures logged + [BeginOp(id, SET_ATTR + key)] + [BeginWrite(catalog), EndWrite(catalog)] + [EndOp(id)]
         == logged + SetAttributeOps(id, key, catalog)
  {
  }
}
