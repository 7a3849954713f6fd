/** What a write does to the bytes of a file. */
module Overlay {
  import opened Storage
  import opened Types
  import opened Extents

  function Max(a: nat, b: nat): nat { if a > b then a else b }

  /** `was` with `data` in place of what was at `offset`, longer if the data runs past the end. */
  function Overlaid(was: seq<Byte>, offset: nat, data: seq<Byte>): (r: seq<Byte>)
    requires offset <= |was|
    ensures |r| == Max(|was|, offset + |data|)
    ensures forall k :: 0 <= k < |r| ==> r[k] == if offset <= k < offset + |data| then data[k - offset] else was[k]
  {
    was[..offset] + data + if offset + |data| < |was| then was[offset + |data|..] else []
  }

  /** Writing the next piece of the data. */
  lemma OverlaidMore(was: seq<Byte>, offset: nat, data: seq<Byte>, done: nat, n: nat)
    requires offset <= |was| && done + n <= |data|
    ensures Overlaid(Overlaid(was, offset, data[..done]), offset + done, data[done..done + n])
         == Overlaid(was, offset, data[..done + n])
  {
  }

  ghost predicate Distinct(list: seq<nat>) {
    forall i, j :: 0 <= i < j < |list| ==> list[i] != list[j]
  }

  /** Overwriting part of one block of a stream overlays its content, growing it if need be. */
  lemma BlockWrite(before: seq<seq<Byte>>, after: seq<seq<Byte>>, list: seq<nat>, size: nat, off: nat, chunk: seq<Byte>)
    requires WholeBlocks(before) && Distinct(list)
    requires off <= size <= BLOCK_SIZE * |list|
    requires off / BLOCK_SIZE < |list| && list[off / BLOCK_SIZE] < |before|
    requires off % BLOCK_SIZE + |chunk| <= BLOCK_SIZE
    requires var b, o := list[off / BLOCK_SIZE], off % BLOCK_SIZE;
             after == before[b := before[b][..o] + chunk + before[b][o + |chunk|..]]
    ensures Content(after, list, Max(size, off + |chunk|)) == Overlaid(Content(before, list, size), off, chunk)
  {
    var grown := Content(after, list, Max(size, off + |chunk|));
    var expected := Overlaid(Content(before, list, size), off, chunk);
    forall k | 0 <= k < |grown|
      ensures grown[k] == expected[k]
    {
      if k / BLOCK_SIZE == off / BLOCK_SIZE {
        assert k - off == k % BLOCK_SIZE - off % BLOCK_SIZE;
      } else {
        assert !(off <= k < off + |chunk|);
      }
    }
  }

  lemma GrowContent(blocks: seq<seq<Byte>>, list: seq<nat>, b: nat, size: nat)
    requires size <= BLOCK_SIZE * |list|
    ensures Content(blocks, list + [b], size) == Content(blocks, list, size)
  {
    forall k | 0 <= k < size
      ensures ByteAt(blocks, list + [b], k) == ByteAt(blocks, list, k)
    {
      assert k / BLOCK_SIZE < |list|;
    }
  }

  /** A read through extents that tile the file yields the bytes of the file. */
  lemma ReadsContent(blocks: seq<seq<Byte>>, chunks: seq<Extent>, size: nat, offset: nat, n: nat)
    requires Tiles(chunks) && size <= Total(chunks) && offset + n <= size
    ensures Via(blocks, chunks, offset, n) == Content(blocks, BlockList(chunks), size)[offset..offset + n]
  {
    forall k: nat | k < n
      ensures Via(blocks, chunks, offset, n)[k] == Content(blocks, BlockList(chunks), size)[offset + k]
    {
      TilesByteVia(blocks, chunks, offset + k);
    }
  }

  /** The part of the content in `[offset, offset + length)`. */
  function Window(content: seq<Byte>, offset: nat, length: nat): (part: seq<Byte>)
    ensures |part| == if offset + length <= |content| then length else if offset < |content| then |content| - offset
              else 0
    ensures forall i :: 0 <= i < |part| ==> part[i] == content[offset + i]
  {
    if offset >= |content| then []
    else content[offset..if offset + length <= |content| then offset + length else |content|]
  }
}
