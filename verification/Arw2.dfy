/** The delta decoder of the Lux raw photo parser: a stream of blocks of 4 + 11 + 15 * 7 bits, lowest bit first. */
module Arw2 {
  import opened Storage
  import opened Bits

  const MAX_PIXEL: int := 16383

  function Least(a: nat, b: nat): nat { if a <= b then a else b }

  /** All bits of the data, in reading order. */
  function DataBits(data: seq<Byte>): (bits: seq<bool>)
    ensures |bits| == 8 * |data|
  {
    seq(8 * |data|, k requires 0 <= k < 8 * |data| => Unpack(data[k / 8])[k % 8])
  }

  // ----- what a stream of bits decodes to

  /** A 7-bit delta, bit 6 being the sign. */
  function Delta(bits: seq<bool>): int { if BitsValue(bits) >= 64 then BitsValue(bits) - 128 else BitsValue(bits) }

  function Clamp(v: int): nat { if v < 0 then 0 else if v > MAX_PIXEL then MAX_PIXEL else v }

  /** At most `k` pixels after one with value `val`, as far as the bits go. */
  function Row(val: nat, bits: seq<bool>, k: nat): (row: seq<nat>)
    ensures |row| <= k && 7 * |row| <= |bits|
    decreases k
  {
    if k == 0 || |bits| < 7 then []
    else
      var next := Clamp(val + Delta(bits[..7]));
      [next] + Row(next, bits[7..], k - 1)
  }

  /** The first pixel of a block, after the four bits of its table index. */
  function Base(bits: seq<bool>): nat
    requires |bits| >= 15
  {
    2 * BitsValue(bits[4..15])
  }

  /** The pixels that can be decoded, at most `count`. */
  function Decode(bits: seq<bool>, count: nat): (pixels: seq<nat>)
    ensures |pixels| <= count
    decreases count
  {
    if count == 0 || |bits| < 15 then []
    else
      var row := Row(Base(bits), bits[15..], Least(15, count - 1));
      [Base(bits)] + row + Decode(bits[15 + 7 * |row|..], count - 1 - |row|)
  }

  /** The picture: what can be decoded, and zeros for the rest. */
  function Picture(bits: seq<bool>, count: nat): (pixels: seq<nat>)
    ensures |pixels| == count
  {
    Decode(bits, count) + seq(count - |Decode(bits, count)|, _ => 0)
  }

  lemma {:induction false} RowInRange(val: nat, bits: seq<bool>, k: nat)
    ensures forall i :: 0 <= i < |Row(val, bits, k)| ==> Row(val, bits, k)[i] <= MAX_PIXEL
    decreases k
  {
    if k > 0 && |bits| >= 7 {
      RowInRange(Clamp(val + Delta(bits[..7])), bits[7..], k - 1);
    }
  }

  lemma {:induction false} DecodeInRange(bits: seq<bool>, count: nat)
    ensures forall i :: 0 <= i < |Decode(bits, count)| ==> Decode(bits, count)[i] <= MAX_PIXEL
    decreases count
  {
    hide *;
    DecodeIs(bits, count);
    if count > 0 && |bits| >= 15 {
      var row := Row(Base(bits), bits[15..], Least(15, count - 1));
      BaseInRange(bits);
      RowInRange(Base(bits), bits[15..], Least(15, count - 1));
      DecodeInRange(bits[15 + 7 * |row|..], count - 1 - |row|);
    }
  }

  lemma BaseInRange(bits: seq<bool>)
    requires |bits| >= 15
    ensures Base(bits) < 4096 <= MAX_PIXEL
  {
    ValueBelow(bits[4..15]);
    assert Power(2, 11) == 2048;
  }

  lemma DecodeIs(bits: seq<bool>, count: nat)
    ensures count == 0 || |bits| < 15 ==> Decode(bits, count) == []
    ensures count > 0 && |bits| >= 15 ==>
              var row := Row(Base(bits), bits[15..], Least(15, count - 1));
              && |row| <= count - 1 && 15 + 7 * |row| <= |bits|
              && Decode(bits, count) == [Base(bits)] + row + Decode(bits[15 + 7 * |row|..], count - 1 - |row|)
  {
    hide Row, Base;
  }

  // ----- where each pixel comes from

  /** The data as one number, the first byte lowest. */
  function StreamNumber(data: seq<Byte>): nat {
    if data == [] then 0 else data[0] as nat + 256 * StreamNumber(data[1..])
  }

  lemma {:induction false} StreamIsNumber(data: seq<Byte>)
    ensures BitsValue(DataBits(data)) == StreamNumber(data)
  {
    hide Unpack, BitsValue;
    if data == [] {
      NoBits([], 0);
    } else {
      assert Power(2, 8) == 256;
      UnpacksEight(data[0]);
      assert DataBits(data) == Unpack(data[0]) + DataBits(data[1..]);
      ValueAppend(Unpack(data[0]), DataBits(data[1..]));
      ByteIsNumber(data[0]);
      StreamIsNumber(data[1..]);
    }
  }

  lemma UnpacksEight(b: Byte)
    ensures |Unpack(b)| == 8
  {
  }

  /** Reading bits is dividing that number. */
  lemma ReadsNumber(data: seq<Byte>, from: nat, to: nat)
    requires from <= to <= 8 * |data|
    ensures Power(2, from) > 0 && Power(2, to - from) > 0
    ensures BitsValue(DataBits(data)[from..to]) == StreamNumber(data) / Power(2, from) % Power(2, to - from)
  {
    hide *;
    StreamIsNumber(data);
    BitsBetween(DataBits(data), from, to);
  }

  /** The place after the bits of pixel `i`: 120 bits a block, 15 for its first pixel and 7 for each other. */
  function PixelEnd(i: nat): (n: nat)
    ensures n >= 15
  {
    120 * (i / 16) + 15 + 7 * (i % 16)
  }

  lemma Shifted(bits: seq<bool>, skip: nat, from: nat, to: nat)
    requires from <= to && skip + to <= |bits|
    ensures bits[skip..][from..to] == bits[skip + from..skip + to]
  {
  }

  lemma {:induction false} RowAt(val: nat, bits: seq<bool>, k: nat, j: nat)
    ensures j < |Row(val, bits, k)| <==> j < k && 7 * j + 7 <= |bits|
    ensures j < |Row(val, bits, k)| ==>
              Row(val, bits, k)[j]
                == Clamp((if j == 0 then val else Row(val, bits, k)[j - 1]) + Delta(bits[7 * j..7 * j + 7]))
    decreases j
  {
    if k > 0 && |bits| >= 7 && j > 0 {
      RowAt(Clamp(val + Delta(bits[..7])), bits[7..], k - 1, j - 1);
      if 7 * j + 7 <= |bits| {
        Shifted(bits, 7, 7 * (j - 1), 7 * (j - 1) + 7);
      }
    }
  }

  /** Every pixel of the stream, from its own bits and the pixel before it. */
  lemma {:induction false} PixelBits(bits: seq<bool>, count: nat, i: nat)
    ensures i < |Decode(bits, count)| <==> i < count && PixelEnd(i) <= |bits|
    ensures i < |Decode(bits, count)| && i % 16 == 0 ==>
              Decode(bits, count)[i] == 2 * BitsValue(bits[PixelEnd(i) - 11..PixelEnd(i)])
    ensures i < |Decode(bits, count)| && i % 16 > 0 ==>
              Decode(bits, count)[i] == Clamp(Decode(bits, count)[i - 1] + Delta(bits[PixelEnd(i) - 7..PixelEnd(i)]))
    decreases i
  {
    hide *;
    if i < 16 {
      FirstPixels(bits, count, i);
    } else {
      DecodeIs(bits, count);
      EndsLater(i);
      if count > 0 && |bits| >= 15 {
        var k := Least(15, count - 1);
        var row := Row(Base(bits), bits[15..], k);
        LeastIs(15, count - 1);
        RowAt(Base(bits), bits[15..], k, |row|);
        DecodeIs(bits[15 + 7 * |row|..], count - 1 - |row|);
        if |row| == 15 {
          PixelBits(bits[120..], count - 16, i - 16);
          if PixelEnd(i) <= |bits| {
            Shifted(bits, 120, PixelEnd(i - 16) - 11, PixelEnd(i - 16));
            Shifted(bits, 120, PixelEnd(i - 16) - 7, PixelEnd(i - 16));
          }
        }
      }
    }
  }

  lemma EndsLater(i: nat)
    requires i >= 16
    ensures PixelEnd(i) == PixelEnd(i - 16) + 120 && PixelEnd(i) >= 135 && (i - 16) % 16 == i % 16
  {
  }

  /** The pixels of the first block. */
  lemma FirstPixels(bits: seq<bool>, count: nat, i: nat)
    requires i < 16
    ensures i < |Decode(bits, count)| <==> i < count && PixelEnd(i) <= |bits|
    ensures i < |Decode(bits, count)| && i % 16 == 0 ==>
              Decode(bits, count)[i] == 2 * BitsValue(bits[PixelEnd(i) - 11..PixelEnd(i)])
    ensures i < |Decode(bits, count)| && i % 16 > 0 ==>
              Decode(bits, count)[i] == Clamp(Decode(bits, count)[i - 1] + Delta(bits[PixelEnd(i) - 7..PixelEnd(i)]))
  {
    hide *;
    DecodeIs(bits, count);
    EndInBlock(i);
    if count > 0 && |bits| >= 15 {
      var k := Least(15, count - 1);
      var row := Row(Base(bits), bits[15..], k);
      LeastIs(15, count - 1);
      BaseIs(bits);
      RowAt(Base(bits), bits[15..], k, |row|);
      DecodeIs(bits[15 + 7 * |row|..], count - 1 - |row|);
      if i > 0 {
        RowAt(Base(bits), bits[15..], k, i - 1);
        if PixelEnd(i) <= |bits| {
          Shifted(bits, 15, 7 * (i - 1), 7 * (i - 1) + 7);
        }
      }
    }
  }

  lemma EndInBlock(i: nat)
    requires i < 16
    ensures PixelEnd(i) == 15 + 7 * i && i % 16 == i
  {
  }

  lemma BaseIs(bits: seq<bool>)
    requires |bits| >= 15
    ensures Base(bits) == 2 * BitsValue(bits[4..15])
  {
  }

  /**
   * The picture in numbers. Every sixteenth pixel is twice eleven bits of the stream; every other one adds seven
   * bits, taken as signed, to the pixel before it, and stays within 14 bits; what has no bits left is zero.
   */
  lemma PixelAt(data: seq<Byte>, count: nat, i: nat)
    requires i < count
    ensures Power(2, PixelEnd(i) - 7) > 0 && Power(2, PixelEnd(i) - 11) > 0
    ensures var picture, stream := Picture(DataBits(data), count), StreamNumber(data);
            if PixelEnd(i) > 8 * |data| then picture[i] == 0
            else if i % 16 == 0 then picture[i] == 2 * (stream / Power(2, PixelEnd(i) - 11) % 2048)
            else
              var raw := stream / Power(2, PixelEnd(i) - 7) % 128;
              var value: int := picture[i - 1] + if raw < 64 then raw else raw - 128;
              picture[i] == if value < 0 then 0 else if value > 16383 then 16383 else value
  {
    hide *;
    var bits := DataBits(data);
    PixelBits(bits, count, i);
    PictureAt(bits, count, i);
    PowerPositive(2, PixelEnd(i) - 7);
    PowerPositive(2, PixelEnd(i) - 11);
    SmallPowers();
    if PixelEnd(i) <= 8 * |data| {
      ReadsNumber(data, PixelEnd(i) - 11, PixelEnd(i));
      ReadsNumber(data, PixelEnd(i) - 7, PixelEnd(i));
      StepIs(if i > 0 then Picture(bits, count)[i - 1] else 0, bits[PixelEnd(i) - 7..PixelEnd(i)]);
    }
  }

  lemma PictureAt(bits: seq<bool>, count: nat, i: nat)
    requires i < count
    ensures Picture(bits, count)[i] == if i < |Decode(bits, count)| then Decode(bits, count)[i] else 0
    ensures 0 < i < |Decode(bits, count)| ==> Picture(bits, count)[i - 1] == Decode(bits, count)[i - 1]
  {
    hide Decode;
  }

  lemma SmallPowers()
    ensures Power(2, 11) == 2048 && Power(2, 7) == 128
  {
  }

  lemma StepIs(before: nat, bits: seq<bool>)
    ensures var raw := BitsValue(bits);
            var value: int := before + if raw < 64 then raw else raw - 128;
            Clamp(before + Delta(bits)) == if value < 0 then 0 else if value > 16383 then 16383 else value
  {
  }

  // ----- truncated streams

  lemma {:induction false} RowPrefix(val: nat, bits: seq<bool>, n: nat, k: nat)
    requires n <= |bits|
    ensures Row(val, bits[..n], k) <= Row(val, bits, k)
    ensures |Row(val, bits[..n], k)| < |Row(val, bits, k)| ==> n < 7 * |Row(val, bits[..n], k)| + 7
    decreases k
  {
    if k > 0 && n >= 7 {
      var next := Clamp(val + Delta(bits[..7]));
      assert bits[..n][..7] == bits[..7] && bits[..n][7..] == bits[7..][..n - 7];
      RowPrefix(next, bits[7..], n - 7, k - 1);
    }
  }

  /** Decoding a truncated stream gives the first pixels of the full decoding. */
  lemma {:induction false} DecodePrefix(bits: seq<bool>, n: nat, count: nat)
    requires n <= |bits|
    ensures Decode(bits[..n], count) <= Decode(bits, count)
    decreases count
  {
    hide *;
    DecodeIs(bits, count);
    DecodeIs(bits[..n], count);
    if count > 0 && n >= 15 {
      var k := Least(15, count - 1);
      SameBase(bits, n);
      var row, full := Row(Base(bits), bits[15..][..n - 15], k), Row(Base(bits), bits[15..], k);
      RowPrefix(Base(bits), bits[15..], n - 15, k);
      var at := 15 + 7 * |row|;
      if |row| < |full| {
        DecodeIs(bits[..n][at..], count - 1 - |row|);
        assert [Base(bits)] + row + [] <= [Base(bits)] + full;
      } else {
        assert row == full;
        assert bits[..n][at..] == bits[at..][..n - at];
        DecodePrefix(bits[at..], n - at, count - 1 - |row|);
      }
    }
  }

  lemma SameBase(bits: seq<bool>, n: nat)
    requires 15 <= n <= |bits|
    ensures Base(bits[..n]) == Base(bits) && bits[..n][15..] == bits[15..][..n - 15]
  {
    assert bits[..n][4..15] == bits[4..15];
  }

  /** So a truncated picture is a part of the whole one from its start, and zeros. */
  lemma PicturePrefix(bits: seq<bool>, n: nat, count: nat)
    requires n <= |bits|
    ensures var got := |Decode(bits[..n], count)|;
            forall i :: 0 <= i < count ==>
                Picture(bits[..n], count)[i] == if i < got then Picture(bits, count)[i] else 0
  {
    DecodePrefix(bits, n, count);
  }

  // ----- packing

  function DeltaBits(d: int): seq<bool>
    requires -64 <= d < 64
  {
    BitsOf(if d < 0 then d + 128 else d, 7)
  }

  lemma DeltaRoundTrip(d: int)
    requires -64 <= d < 64
    ensures |DeltaBits(d)| == 7 && Delta(DeltaBits(d)) == d
  {
    assert Power(2, 7) == 128;
    BitsRoundTrip(if d < 0 then d + 128 else d, 7);
  }

  /** Pixels that follow one of value `val` in its block. */
  ghost predicate RowPacks(val: nat, row: seq<nat>)
    decreases row
  {
    row == [] || (row[0] <= MAX_PIXEL && -64 <= row[0] - val < 64 && RowPacks(row[0], row[1..]))
  }

  function PackRow(val: nat, row: seq<nat>): (bits: seq<bool>)
    requires RowPacks(val, row)
    ensures |bits| == 7 * |row|
    decreases row
  {
    if row == [] then [] else DeltaBits(row[0] - val) + PackRow(row[0], row[1..])
  }

  /** A picture that can be packed: in each block of 16 an even first pixel below 4096, then small steps. */
  ghost predicate Packs(pixels: seq<nat>)
    decreases |pixels|
  {
    pixels == [] ||
    (pixels[0] % 2 == 0 && pixels[0] < 4096
     && RowPacks(pixels[0], pixels[1..Least(16, |pixels|)]) && Packs(pixels[Least(16, |pixels|)..]))
  }

  function Packed(pixels: seq<nat>, table: nat): seq<bool>
    requires Packs(pixels)
    decreases |pixels|
  {
    if pixels == [] then []
    else
      BitsOf(table, 4) + BitsOf(pixels[0] / 2, 11)
      + PackRow(pixels[0], pixels[1..Least(16, |pixels|)]) + Packed(pixels[Least(16, |pixels|)..], table)
  }

  lemma {:induction false} RowRoundTrip(val: nat, row: seq<nat>, rest: seq<bool>)
    requires RowPacks(val, row)
    ensures Row(val, PackRow(val, row) + rest, |row|) == row
    decreases row
  {
    hide Row, Delta, DeltaBits;
    RowUnfolds(val, PackRow(val, row) + rest, |row|);
    if row != [] {
      var bits := PackRow(val, row) + rest;
      DeltaRoundTrip(row[0] - val);
      assert bits[..7] == DeltaBits(row[0] - val);
      assert bits[7..] == PackRow(row[0], row[1..]) + rest;
      RowRoundTrip(row[0], row[1..], rest);
    }
  }

  lemma BaseRoundTrip(first: nat, table: nat, rest: seq<bool>)
    requires first % 2 == 0 && first < 4096
    ensures |BitsOf(table, 4) + BitsOf(first / 2, 11)| == 15
    ensures Base(BitsOf(table, 4) + BitsOf(first / 2, 11) + rest) == first
  {
    assert Power(2, 11) == 2048;
    BitsRoundTrip(first / 2, 11);
    assert (BitsOf(table, 4) + BitsOf(first / 2, 11) + rest)[4..15] == BitsOf(first / 2, 11);
  }

  /** Decoding inverts packing, whatever the table index and whatever follows. */
  lemma {:induction false} PackRoundTrips(pixels: seq<nat>, table: nat, rest: seq<bool>)
    requires Packs(pixels)
    ensures Decode(Packed(pixels, table) + rest, |pixels|) == pixels
    decreases |pixels|
  {
    hide *;
    PackedIs(pixels, table);
    if pixels == [] {
      DecodeIs(Packed(pixels, table) + rest, 0);
    } else {
      var m := Least(16, |pixels|);
      var row, tail := pixels[1..m], Packed(pixels[m..], table) + rest;
      var head, packed := BitsOf(table, 4) + BitsOf(pixels[0] / 2, 11), PackRow(pixels[0], row);
      var bits := Packed(pixels, table) + rest;
      assert bits == head + (packed + tail);
      BaseRoundTrip(pixels[0], table, packed + tail);
      assert bits[15..] == packed + tail;
      RowRoundTrip(pixels[0], row, tail);
      assert bits[15 + 7 * |row|..] == tail;
      DecodeIs(bits, |pixels|);
      PackRoundTrips(pixels[m..], table, rest);
      assert pixels == [pixels[0]] + row + pixels[m..];
    }
  }

  lemma PackedIs(pixels: seq<nat>, table: nat)
    requires Packs(pixels)
    ensures pixels == [] ==> Packed(pixels, table) == []
    ensures pixels != [] ==>
              var m := Least(16, |pixels|);
              && 1 <= m <= |pixels| && m - 1 == Least(15, |pixels| - 1)
              && pixels[0] % 2 == 0 && pixels[0] < 4096 && RowPacks(pixels[0], pixels[1..m]) && Packs(pixels[m..])
              && Packed(pixels, table)
                 == BitsOf(table, 4) + BitsOf(pixels[0] / 2, 11) + PackRow(pixels[0], pixels[1..m])
                     + Packed(pixels[m..], table)
              && |PackRow(pixels[0], pixels[1..m])| == 7 * (m - 1)
  {
    hide RowPacks, PackRow, BitsOf;
  }

  lemma {:induction false} DecodedRowPacks(val: nat, bits: seq<bool>, k: nat)
    requires val <= MAX_PIXEL
    ensures RowPacks(val, Row(val, bits, k))
    ensures |Row(val, bits, k)| < k ==> |bits| < 7 * |Row(val, bits, k)| + 7
    decreases k
  {
    if k > 0 && |bits| >= 7 {
      var next := Clamp(val + Delta(bits[..7]));
      ValueBelow(bits[..7]);
      assert Power(2, 7) == 128;
      DecodedRowPacks(next, bits[7..], k - 1);
    }
  }

  lemma {:induction false} DecodedPacks(bits: seq<bool>, count: nat)
    ensures Packs(Decode(bits, count))
    decreases count
  {
    hide *;
    DecodeIs(bits, count);
    NothingPacks();
    if count > 0 && |bits| >= 15 {
      var k := Least(15, count - 1);
      var row := Row(Base(bits), bits[15..], k);
      var rest := bits[15 + 7 * |row|..];
      LeastIs(15, count - 1);
      BaseInRange(bits);
      BaseEven(bits);
      DecodedRowPacks(Base(bits), bits[15..], k);
      DecodeIs(rest, count - 1 - |row|);
      DecodedPacks(rest, count - 1 - |row|);
      BlockPacks(Base(bits), row, Decode(rest, count - 1 - |row|));
    }
  }

  lemma NothingPacks()
    ensures Packs([])
  {
  }

  lemma BaseEven(bits: seq<bool>)
    requires |bits| >= 15
    ensures Base(bits) % 2 == 0
  {
  }

  lemma BlockPacks(first: nat, row: seq<nat>, rest: seq<nat>)
    requires first % 2 == 0 && first < 4096 && RowPacks(first, row) && Packs(rest)
    requires |row| <= 15 && (|row| < 15 ==> rest == [])
    ensures Packs([first] + row + rest)
  {
    hide RowPacks;
    var pixels := [first] + row + rest;
    var m := Least(16, |pixels|);
    assert pixels[1..m] == row && pixels[m..] == rest;
  }

  /** The pictures that some stream decodes to are exactly those that pack. */
  lemma DecodableIff(pixels: seq<nat>)
    ensures (exists bits :: Decode(bits, |pixels|) == pixels) <==> Packs(pixels)
  {
    if Packs(pixels) {
      PackRoundTrips(pixels, 0, []);
    }
    forall bits | Decode(bits, |pixels|) == pixels
      ensures Packs(pixels)
    {
      DecodedPacks(bits, |pixels|);
    }
  }

  // ----- the decoder

  datatype Bayer = Uncompressed(data: seq<Byte>) | Lossless(pixels: seq<nat>)

  datatype Outcome = Decoded(bayer: Bayer) | CorruptData | UnsupportedCompression

  /** Reads `n` bits, lowest first, or nothing if the data ends before. */
  method ReadBits(data: seq<Byte>, offset: nat, n: nat) returns (r: Option<nat>)
    ensures r == if offset + n > 8 * |data| then None else Some(BitsValue(DataBits(data)[offset..offset + n]))
    ensures Power(2, offset) > 0 && Power(2, n) > 0
    ensures r.Some? ==> r.value == StreamNumber(data) / Power(2, offset) % Power(2, n)
  {
    hide *;
    PowerPositive(2, offset);
    PowerPositive(2, n);
    if offset + n > 8 * |data| {
      return None;
    }
    ghost var bits := DataBits(data);
    var result := 0;
    NoBits(bits, offset);
    for i := 0 to n
      invariant result == BitsValue(bits[offset..offset + i])
    {
      var bitIdx := offset + i;
      ValueSnoc(bits[offset..offset + i], bits[bitIdx]);
      assert bits[offset..offset + i] + [bits[bitIdx]] == bits[offset..offset + i + 1];
      DataBit(data, bitIdx);
      if Unpack(data[bitIdx / 8])[bitIdx % 8] {
        result := result + Power(2, i);
      }
    }
    ReadsNumber(data, offset, offset + n);
    r := Some(result);
  }

  lemma NoBits(bits: seq<bool>, offset: nat)
    requires offset <= |bits|
    ensures BitsValue(bits[offset..offset + 0]) == 0
  {
  }

  lemma DataBit(data: seq<Byte>, k: nat)
    requires k < 8 * |data|
    ensures |Unpack(data[k / 8])| == 8 && DataBits(data)[k] == Unpack(data[k / 8])[k % 8]
  {
  }

  /** The deltas of one block. */
  method ReadRow(data: seq<Byte>, offset: nat, first: nat, bayer0: seq<nat>, pixelCount: nat)
    returns (bayer: seq<nat>, next: nat)
    requires offset <= 8 * |data| && |bayer0| <= pixelCount
    ensures var row := Row(first, DataBits(data)[offset..], Least(15, pixelCount - |bayer0|));
            bayer == bayer0 + row && next == offset + 7 * |row|
  {
    hide *;
    ghost var bits, k := DataBits(data), Least(15, pixelCount - |bayer0|);
    ghost var row := Row(first, bits[offset..], k);
    LeastIs(15, pixelCount - |bayer0|);
    var currentVal: nat := first;
    bayer, next := bayer0, offset;
    for i := 0 to 15
      invariant next <= 8 * |data| && next == offset + 7 * (|bayer| - |bayer0|)
      invariant |bayer| == |bayer0| + i <= pixelCount && i <= k
      invariant bayer + Row(currentVal, bits[next..], k - i) == bayer0 + row
    {
      RowUnfolds(currentVal, bits[next..], k - i);
      if |bayer| >= pixelCount {
        break;
      }
      var deltaRaw := ReadBits(data, next, 7);
      if deltaRaw.None? {
        break;
      }
      var raw: int := deltaRaw.value;
      var delta := if raw >= 64 then raw - 128 else raw;
      RowContinues(bits, next, raw, delta);
      currentVal := Clamp(currentVal + delta);
      bayer := bayer + [currentVal];
      next := next + 7;
    }
    RowUnfolds(currentVal, bits[next..], k - (|bayer| - |bayer0|));
  }

  lemma LeastIs(a: nat, b: nat)
    ensures Least(a, b) == if a <= b then a else b
  {
  }

  lemma RowContinues(bits: seq<bool>, next: nat, raw: int, delta: int)
    requires next + 7 <= |bits| && raw == BitsValue(bits[next..next + 7])
    requires delta == if raw >= 64 then raw - 128 else raw
    ensures Delta(bits[next..][..7]) == delta && bits[next..][7..] == bits[next + 7..]
  {
    assert bits[next..][..7] == bits[next..next + 7];
  }

  lemma RowUnfolds(val: nat, bits: seq<bool>, k: nat)
    ensures k == 0 || |bits| < 7 ==> Row(val, bits, k) == []
    ensures k > 0 && |bits| >= 7 ==>
              var next := Clamp(val + Delta(bits[..7])); Row(val, bits, k) == [next] + Row(next, bits[7..], k - 1)
  {
  }

  lemma DecodeUnfolds(bits: seq<bool>, offset: nat, count: nat)
    requires offset <= |bits|
    ensures count == 0 || |bits| - offset < 15 ==> Decode(bits[offset..], count) == []
    ensures count > 0 && |bits| - offset >= 15 ==>
              var row := Row(2 * BitsValue(bits[offset + 4..offset + 15]), bits[offset + 15..], Least(15, count - 1));
              && offset + 15 + 7 * |row| <= |bits|
              && Decode(bits[offset..], count)
                 == [2 * BitsValue(bits[offset + 4..offset + 15])] + row
                     + Decode(bits[offset + 15 + 7 * |row|..], count - 1 - |row|)
  {
    hide Row, BitsValue, Decode;
    DecodeIs(bits[offset..], count);
    if count > 0 && |bits| - offset >= 15 {
      assert bits[offset..][4..15] == bits[offset + 4..offset + 15] && bits[offset..][15..] == bits[offset + 15..];
      var row := Row(Base(bits[offset..]), bits[offset..][15..], Least(15, count - 1));
      assert bits[offset..][15 + 7 * |row|..] == bits[offset + 15 + 7 * |row|..];
    }
  }

  lemma PictureIs(bits: seq<bool>, count: nat)
    ensures Picture(bits, count) == Decode(bits, count) + seq(count - |Decode(bits, count)|, _ => 0)
    ensures (forall i :: 0 <= i < |Decode(bits, count)| ==> Decode(bits, count)[i] <= MAX_PIXEL) ==>
              forall i :: 0 <= i < count ==> Picture(bits, count)[i] <= MAX_PIXEL
  {
  }

  /** The delta decoder: it ends with exactly the pixels asked for, however long or short the data. */
  method DecodeAll(data: seq<Byte>, pixelCount: nat) returns (bayer: seq<nat>)
    ensures bayer == Picture(DataBits(data), pixelCount)
    ensures |bayer| == pixelCount && forall i :: 0 <= i < |bayer| ==> bayer[i] <= MAX_PIXEL
  {
    hide *;
    ghost var bits := DataBits(data);
    PictureIs(bits, pixelCount);
    DecodeInRange(bits, pixelCount);
    var bitOffset: nat := 0;
    bayer := [];
    assert bits[0..] == bits;
    while |bayer| < pixelCount
      invariant bitOffset <= 8 * |data| && |bayer| <= pixelCount
      invariant bayer + Decode(bits[bitOffset..], pixelCount - |bayer|) == Decode(bits, pixelCount)
      decreases pixelCount - |bayer|
    {
      DecodeUnfolds(bits, bitOffset, pixelCount - |bayer|);
      if bitOffset + 4 + 11 > 8 * |data| {
        break;
      }
      var tableIdx := ReadBits(data, bitOffset, 4);
      var base := ReadBits(data, bitOffset + 4, 11);
      var currentVal := base.value * 2;
      bayer, bitOffset := ReadRow(data, bitOffset + 15, currentVal, bayer + [currentVal], pixelCount);
    }
    DecodeUnfolds(bits, bitOffset, pixelCount - |bayer|);
    bayer := bayer + seq(pixelCount - |bayer|, _ => 0);
  }

  method DecompressRaw(compression: nat, data: seq<Byte>, width: nat, height: nat) returns (r: Outcome)
    ensures compression == 1 ==> r == if |data| < width * height * 2 then CorruptData else Decoded(Uncompressed(data))
    ensures compression == 32769 ==> r == Decoded(Lossless(Picture(DataBits(data), width * height)))
    ensures r == UnsupportedCompression <==> compression != 1 && compression != 32769
  {
    if compression == 1 {
      var pixelCount := width * height;
      if |data| < pixelCount * 2 {
        return CorruptData;
      }
      return Decoded(Uncompressed(data));
    } else if compression == 32769 {
      var bayer := DecodeAll(data, width * height);
      return Decoded(Lossless(bayer));
    }
    r := UnsupportedCompression;
  }
}
