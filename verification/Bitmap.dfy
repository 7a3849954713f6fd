/** The free-space bitmap: one bit per block, packed into bytes, set when the block is in use. */
module Bitmap {
  import opened Storage
  import Bits

  /** The byte `1 << i`. */
  function Mask(i: nat): Byte
    requires i < 8
  {
    if i == 0 then 0x01 else if i == 1 then 0x02 else if i == 2 then 0x04 else if i == 3 then 0x08
    else if i == 4 then 0x10 else if i == 5 then 0x20 else if i == 6 then 0x40 else 0x80
  }

  predicate Bit(b: Byte, i: nat)
    requires i < 8
  {
    b & Mask(i) != 0
  }

  predicate IsSet(bits: seq<Byte>, n: nat)
    requires n < 8 * |bits|
  {
    Bit(bits[n / 8], n % 8)
  }

  /** The blocks that the bitmap marks as used. */
  function UsedIn(bits: seq<Byte>): (used: set<nat>)
    ensures forall n: nat :: n in used <==> n < 8 * |bits| && IsSet(bits, n)
  {
    set n: nat | n < 8 * |bits| && IsSet(bits, n)
  }

  /** Block `n` has bit `n % 8` of byte `n / 8`, counted from the lowest, in the bytes taken as numbers. */
  lemma UsedAreBits(bits: seq<Byte>, n: nat)
    ensures Bits.Power(2, n % 8) > 0
    ensures n in UsedIn(bits) <==> n < 8 * |bits| && bits[n / 8] as nat / Bits.Power(2, n % 8) % 2 == 1
  {
    Bits.PowerPositive(2, n % 8);
    if n < 8 * |bits| {
      BitOfNumber(bits[n / 8], n % 8);
    }
  }

  lemma BitIsUnpacked(b: Byte, i: nat)
    requires i < 8
    ensures |Bits.Unpack(b)| == 8 && Bits.Unpack(b)[i] == Bit(b, i)
  {
  }

  lemma OneBit(bit: bool)
    ensures Bits.BitsValue([bit]) == (if bit then 1 else 0) && Bits.Power(2, 1) == 2
  {
  }

  lemma BitOfNumber(b: Byte, i: nat)
    requires i < 8
    ensures Bits.Power(2, i) > 0 && (Bit(b, i) <==> b as nat / Bits.Power(2, i) % 2 == 1)
  {
    hide Bit, Bits.Unpack, Bits.BitsValue, Bits.Power;
    var all := Bits.Unpack(b);
    BitIsUnpacked(b, i);
    Bits.BitsBetween(all, i, i + 1);
    Bits.ByteIsNumber(b);
    OneBit(all[i]);
    assert all[i..i + 1] == [all[i]];
  }

  /** What an allocator over `[0, limit)` should return: the least block not in use. */
  ghost predicate IsLeastFree(used: set<nat>, limit: nat, r: Option<nat>) {
    match r
    case Some(b) => b < limit && b !in used && forall n: nat :: n < b ==> n in used
    case None => forall n: nat :: n < limit ==> n in used
  }

  lemma LeastFreeIsUnique(used: set<nat>, limit: nat, r: Option<nat>, s: Option<nat>)
    requires IsLeastFree(used, limit, r) && IsLeastFree(used, limit, s)
    ensures r == s
  {
  }

  /**
   * Two allocators over the same used blocks, one of them with room to spare past the
   * device, agree exactly when the smaller one is not full (or they are the same size).
   */
  lemma WiderLimitAgrees(used: set<nat>, limit: nat, wider: nat, r: Option<nat>, s: Option<nat>)
    requires limit <= wider && forall n :: n in used ==> n < limit
    requires IsLeastFree(used, limit, r) && IsLeastFree(used, wider, s)
    ensures r == s <==> limit == wider || exists n: nat :: n < limit && n !in used
  {
    if exists n: nat :: n < limit && n !in used {
      assert r.Some? && IsLeastFree(used, wider, r);
      LeastFreeIsUnique(used, wider, r, s);
    } else if limit == wider {
      LeastFreeIsUnique(used, limit, r, s);
    } else {
      assert limit !in used;
    }
  }

  lemma SetBit(b: Byte, i: nat, j: nat)
    requires i < 8 && j < 8
    ensures Bit(b | Mask(i), j) <==> i == j || Bit(b, j)
  {
  }

  lemma ClearBit(b: Byte, i: nat, j: nat)
    requires i < 8 && j < 8
    ensures Bit(b & !Mask(i), j) <==> i != j && Bit(b, j)
  {
  }

  lemma FullByte(bits: seq<Byte>, byteIdx: nat)
    requires byteIdx < |bits| && bits[byteIdx] == 0xFF
    ensures forall n: nat :: 8 * byteIdx <= n < 8 * byteIdx + 8 ==> IsSet(bits, n)
  {
    assert forall j: nat :: j < 8 ==> Bit(0xFF, j);
  }

  /** Full bytes before `byteIdx` and set bits before `bitIdx` in it: the first free block. */
  lemma FirstFit(bits: seq<Byte>, byteIdx: nat, bitIdx: nat)
    requires byteIdx < |bits| && bitIdx < 8
    requires forall n: nat :: n < 8 * byteIdx ==> IsSet(bits, n)
    requires !Bit(bits[byteIdx], bitIdx) && forall j: nat :: j < bitIdx ==> Bit(bits[byteIdx], j)
    ensures !IsSet(bits, 8 * byteIdx + bitIdx)
    ensures forall n: nat :: n < 8 * byteIdx + bitIdx ==> IsSet(bits, n)
  {
    forall n: nat | 8 * byteIdx <= n < 8 * byteIdx + bitIdx
      ensures IsSet(bits, n)
    {
      assert Bit(bits[byteIdx], n - 8 * byteIdx);
    }
  }

  lemma SomeClearBit(b: Byte)
    requires b != 0xFF
    ensures exists j: nat :: j < 8 && !Bit(b, j)
  {
    if Bit(b, 0) && Bit(b, 1) && Bit(b, 2) && Bit(b, 3) && Bit(b, 4) && Bit(b, 5) && Bit(b, 6) && Bit(b, 7) {
      assert false;
    }
  }

  /** Setting one bit of the packed bytes adds one block to the set. */
  lemma SettingAdds(bits: seq<Byte>, n: nat)
    requires n < 8 * |bits|
    ensures UsedIn(bits[n / 8 := bits[n / 8] | Mask(n % 8)]) == UsedIn(bits) + {n}
  {
    var after := bits[n / 8 := bits[n / 8] | Mask(n % 8)];
    forall m: nat | m < 8 * |bits|
      ensures IsSet(after, m) <==> m == n || IsSet(bits, m)
    {
      SetBit(bits[n / 8], n % 8, m % 8);
    }
  }

  lemma ClearingRemoves(bits: seq<Byte>, n: nat)
    requires n < 8 * |bits|
    ensures UsedIn(bits[n / 8 := bits[n / 8] & !Mask(n % 8)]) == UsedIn(bits) - {n}
  {
    var after := bits[n / 8 := bits[n / 8] & !Mask(n % 8)];
    forall m: nat | m < 8 * |bits|
      ensures IsSet(after, m) <==> m != n && IsSet(bits, m)
    {
      ClearBit(bits[n / 8], n % 8, m % 8);
    }
  }

  lemma ZeroBitsAreFree(n: nat)
    ensures UsedIn(Zeros(n)) == {}
  {
    forall m: nat | m < 8 * n
      ensures !IsSet(Zeros(n), m)
    {
      assert Zeros(n)[m / 8] == 0;
    }
  }

  /** The `i`-th block-sized chunk of the packed bytes, zero-filled at the end. */
  function Chunk(bits: seq<Byte>, i: nat): (c: seq<Byte>)
    requires i < DivCeil(|bits|)
    ensures |c| == BLOCK_SIZE
  {
    var from := i * BLOCK_SIZE;
    Padded(bits[from..if from + BLOCK_SIZE <= |bits| then from + BLOCK_SIZE else |bits|])
  }

  /** The device holds the bitmap from block `start` on. */
  ghost predicate Saved(blocks: seq<seq<Byte>>, start: nat, bits: seq<Byte>) {
    && start + DivCeil(|bits|) <= |blocks|
    && forall i: nat :: i < DivCeil(|bits|) ==> blocks[start + i] == Chunk(bits, i)
  }

  /** `loaded` is what reading `count` blocks from `start` on yields. */
  ghost predicate Loaded(blocks: seq<seq<Byte>>, start: nat, count: nat, loaded: seq<Byte>)
    requires WholeBlocks(blocks)
  {
    && (count == 0 || start + count <= |blocks|)
    && |loaded| == count * BLOCK_SIZE
    && forall k :: 0 <= k < |loaded| ==> loaded[k] == blocks[start + k / BLOCK_SIZE][k % BLOCK_SIZE]
  }

  /** Saving a bitmap and loading it back keeps the set of used blocks. */
  lemma SaveThenLoad(blocks: seq<seq<Byte>>, start: nat, bits: seq<Byte>, loaded: seq<Byte>)
    requires WholeBlocks(blocks)
    requires Saved(blocks, start, bits) && Loaded(blocks, start, DivCeil(|bits|), loaded)
    ensures UsedIn(loaded) == UsedIn(bits)
  {
    forall k | 0 <= k < |loaded|
      ensures loaded[k] == if k < |bits| then bits[k] else 0
    {
      var i := k / BLOCK_SIZE;
      assert blocks[start + i] == Chunk(bits, i);
    }
    forall n: nat
      ensures n in UsedIn(loaded) <==> n in UsedIn(bits)
    {
      if n < 8 * |loaded| {
        assert loaded[n / 8] == if n / 8 < |bits| then bits[n / 8] else 0;
      }
    }
  }

  class SpaceMap {
    var bits: seq<Byte>
    const blockCount: nat

    ghost function Used(): set<nat>
      reads this
    {
      UsedIn(bits)
    }

    constructor (blockCount: nat)
      ensures Used() == {} && this.blockCount == blockCount && |bits| == (blockCount + 7) / 8
    {
      this.bits, this.blockCount := Zeros((blockCount + 7) / 8), blockCount;
      new;
      ZeroBitsAreFree((blockCount + 7) / 8);
    }

    /** Reads a bitmap back. Its size is known only to the block, so its limit is rounded up. */
    constructor FromBytes(bits: seq<Byte>)
      ensures this.bits == bits && blockCount == |bits| * 8
    {
      this.bits, this.blockCount := bits, |bits| * 8;
    }

    static method Load(device: Device, start: nat, count: nat) returns (r: Result<SpaceMap>)
      requires device.Valid()
      ensures r.Ok? ==>
                && fresh(r.value)
                && Loaded(device.blocks, start, count, r.value.bits)
                && r.value.blockCount == count * BLOCK_SIZE * 8
      ensures device.reliable && start + count <= |device.blocks| ==> r.Ok?
    {
      var bits := [];
      for i := 0 to count
        invariant start + i <= |device.blocks| || i == 0
        invariant |bits| == i * BLOCK_SIZE
        invariant forall k :: 0 <= k < |bits| ==> bits[k] == device.blocks[start + k / BLOCK_SIZE][k % BLOCK_SIZE]
      {
        var b := device.ReadBlock(start + i);
        if b.Err? {
          return Err(b.error);
        }
        bits := bits + b.value;
      }
      var m := new SpaceMap.FromBytes(bits);
      r := Ok(m);
    }

    method Save(device: Device, start: nat) returns (r: Result<()>)
      requires device.Valid()
      modifies device
      ensures device.Valid()
      ensures KeptOutside(old(device.blocks), device.blocks, start, start + DivCeil(|bits|))
      ensures start + DivCeil(|bits|) <= |old(device.blocks)| ==> |device.blocks| == |old(device.blocks)|
      ensures r.Ok? && start <= |device.blocks| ==> Saved(device.blocks, start, bits)
      ensures device.reliable && start + DivCeil(|bits|) <= |device.blocks| ==> r.Ok?
    {
      for i := 0 to DivCeil(|bits|)
        invariant device.Valid() && |device.blocks| >= |old(device.blocks)|
        invariant start + DivCeil(|bits|) <= |old(device.blocks)| ==> |device.blocks| == |old(device.blocks)|
        invariant start + i <= |device.blocks| || i == 0
        invariant forall b :: 0 <= b < |old(device.blocks)| && !(start <= b < start + i) ==>
                  device.blocks[b] == old(device.blocks)[b]
        invariant forall j: nat :: j < i ==> device.blocks[start + j] == Chunk(bits, j)
      {
        var w := device.WriteBlock(start + i, Chunk(bits, i));
        if w.Err? {
          return Err(w.error);
        }
      }
      r := Ok(());
    }

    /** The scan of one byte. */
    static method FirstClearBit(b: Byte) returns (i: nat)
      requires b != 0xFF
      ensures i < 8 && !Bit(b, i) && forall j: nat :: j < i ==> Bit(b, j)
    {
      SomeClearBit(b);
      i := 0;
      while b & Mask(i) != 0
        invariant i < 8 && forall j: nat :: j < i ==> Bit(b, j)
        decreases 8 - i
      {
        i := i + 1;
      }
    }

    /** First fit over the packed bytes. */
    method Allocate() returns (r: Option<nat>)
      modifies this`bits
      ensures |bits| == |old(bits)|
      ensures blockCount <= 8 * |bits| ==> IsLeastFree(old(Used()), blockCount, r)
      ensures Used() == if r.Some? then old(Used()) + {r.value} else old(Used())
    {
      for byteIdx := 0 to |bits|
        invariant bits == old(bits)
        invariant forall n: nat :: n < 8 * byteIdx ==> IsSet(bits, n)
      {
        if bits[byteIdx] != 0xFF {
          var bitIdx := FirstClearBit(bits[byteIdx]);
          var blockId := byteIdx * 8 + bitIdx;
          FirstFit(bits, byteIdx, bitIdx);
          if blockId >= blockCount {
            return None;
          }
          assert blockId / 8 == byteIdx && blockId % 8 == bitIdx;
          SettingAdds(bits, blockId);
          bits := bits[byteIdx := bits[byteIdx] | Mask(bitIdx)];
          return Some(blockId);
        }
        FullByte(bits, byteIdx);
      }
      r := None;
    }

    method MarkUsed(blockId: nat)
      modifies this`bits
      ensures |bits| == |old(bits)|
      ensures Used() == if blockId < 8 * |bits| then old(Used()) + {blockId} else old(Used())
    {
      var byteIdx, bitIdx := blockId / 8, blockId % 8;
      if byteIdx < |bits| {
        SettingAdds(bits, blockId);
        bits := bits[byteIdx := bits[byteIdx] | Mask(bitIdx)];
      }
    }

    method Free(blockId: nat)
      modifies this`bits
      ensures |bits| == |old(bits)|
      ensures Used() == old(Used()) - {blockId}
    {
      var byteIdx, bitIdx := blockId / 8, blockId % 8;
      if byteIdx < |bits| {
        ClearingRemoves(bits, blockId);
        bits := bits[byteIdx := bits[byteIdx] & !Mask(bitIdx)];
      }
    }
  }
}
