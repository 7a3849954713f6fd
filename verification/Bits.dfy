/** Numbers and bytes as lists of bits, lowest first. */
module Bits {
  import opened Storage

  /** The low `width` bits of a number, lowest first. */
  function BitsOf(n: nat, width: nat): (bits: seq<bool>)
    ensures |bits| == width
  {
    if width == 0 then [] else [n % 2 == 1] + BitsOf(n / 2, width - 1)
  }

  function BitsValue(bits: seq<bool>): nat {
    if bits == [] then 0 else (if bits[0] then 1 else 0) + 2 * BitsValue(bits[1..])
  }

  function Power(base: nat, exponent: nat): nat {
    if exponent == 0 then 1 else base * Power(base, exponent - 1)
  }

  lemma {:induction false} BitsRoundTrip(n: nat, width: nat)
    requires n < Power(2, width)
    ensures BitsValue(BitsOf(n, width)) == n
  {
    if width > 0 {
      BitsRoundTrip(n / 2, width - 1);
      assert BitsOf(n, width)[1..] == BitsOf(n / 2, width - 1);
    }
  }

  function Pack(bits: seq<bool>): Byte
    requires |bits| == 8
  {
    (if bits[0] then 0x01 else 0x00) | (if bits[1] then 0x02 else 0x00)
    | (if bits[2] then 0x04 else 0x00) | (if bits[3] then 0x08 else 0x00)
    | (if bits[4] then 0x10 else 0x00) | (if bits[5] then 0x20 else 0x00)
    | (if bits[6] then 0x40 else 0x00) | (if bits[7] then 0x80 else 0x00)
  }

  function Unpack(b: Byte): seq<bool> {
    [b & 0x01 != 0, b & 0x02 != 0, b & 0x04 != 0, b & 0x08 != 0, b & 0x10 != 0, b & 0x20 != 0, b & 0x40 != 0,
     b & 0x80 != 0]
  }

  lemma PackRoundTrip(bits: seq<bool>)
    requires |bits| == 8
    ensures Unpack(Pack(bits)) == bits
  {
  }

  function LowByte(n: nat): Byte { Pack(BitsOf(n % 256, 8)) }

  function ByteValue(b: Byte): nat { BitsValue(Unpack(b)) }

  function Weight(isSet: bool, value: nat): nat { if isSet then value else 0 }

  lemma FourBits(bits: seq<bool>)
    requires |bits| >= 4
    ensures BitsValue(bits)
         == Weight(bits[0], 1) + Weight(bits[1], 2) + Weight(bits[2], 4) + Weight(bits[3], 8)
            + 16 * BitsValue(bits[4..])
  {
    assert BitsValue(bits[1..]) == Weight(bits[1], 1) + 2 * BitsValue(bits[2..]) by {
      assert bits[1..][1..] == bits[2..];
    }
    assert BitsValue(bits[2..]) == Weight(bits[2], 1) + 2 * BitsValue(bits[3..]) by {
      assert bits[2..][1..] == bits[3..];
    }
    assert BitsValue(bits[3..]) == Weight(bits[3], 1) + 2 * BitsValue(bits[4..]) by {
      assert bits[3..][1..] == bits[4..];
    }
  }

  lemma ByteOfBits(b: Byte)
    ensures b as nat
         == Weight(b & 0x01 != 0, 1) + Weight(b & 0x02 != 0, 2) + Weight(b & 0x04 != 0, 4) + Weight(b & 0x08 != 0, 8)
            + Weight(b & 0x10 != 0, 16) + Weight(b & 0x20 != 0, 32) + Weight(b & 0x40 != 0, 64)
            + Weight(b & 0x80 != 0, 128)
  {
  }

  /** The bits of a byte are those of the number it is. */
  lemma ByteIsNumber(b: Byte)
    ensures ByteValue(b) == b as nat
  {
    hide BitsValue, Weight;
    EightBits(Unpack(b));
    ByteOfBits(b);
  }

  lemma EightBits(bits: seq<bool>)
    requires |bits| == 8
    ensures BitsValue(bits)
         == Weight(bits[0], 1) + Weight(bits[1], 2) + Weight(bits[2], 4) + Weight(bits[3], 8)
            + Weight(bits[4], 16) + Weight(bits[5], 32) + Weight(bits[6], 64) + Weight(bits[7], 128)
  {
    FourBits(bits);
    FourBits(bits[4..]);
    assert bits[4..][4..] == [];
  }

  lemma LowByteIsNumber(n: nat)
    ensures LowByte(n) as nat == n % 256
  {
    hide LowByte, ByteValue;
    ByteRoundTrip(n);
    ByteIsNumber(LowByte(n));
  }

  lemma ByteRoundTrip(n: nat)
    ensures ByteValue(LowByte(n)) == n % 256
  {
    assert Power(2, 8) == 256;
    BitsRoundTrip(n % 256, 8);
    PackRoundTrip(BitsOf(n % 256, 8));
  }

  lemma ZeroByte()
    ensures ByteValue(0) == 0
  {
    assert Unpack(0) == BitsOf(0, 8);
    assert Power(2, 8) == 256;
    BitsRoundTrip(0, 8);
  }

  lemma {:induction false} ValueSnoc(bits: seq<bool>, b: bool)
    ensures BitsValue(bits + [b]) == BitsValue(bits) + if b then Power(2, |bits|) else 0
  {
    if bits == [] {
      assert [b][1..] == [];
    } else {
      assert (bits + [b])[1..] == bits[1..] + [b];
      ValueSnoc(bits[1..], b);
    }
  }

  lemma {:induction false} ValueBelow(bits: seq<bool>)
    ensures BitsValue(bits) < Power(2, |bits|)
  {
    if bits != [] {
      ValueBelow(bits[1..]);
    }
  }

  lemma {:induction false} ValueAppend(a: seq<bool>, b: seq<bool>)
    ensures BitsValue(a + b) == BitsValue(a) + Power(2, |a|) * BitsValue(b)
  {
    if a == [] {
      assert a + b == b;
    } else {
      assert (a + b)[1..] == a[1..] + b;
      ValueAppend(a[1..], b);
      Spread(Power(2, |a| - 1), BitsValue(b));
    }
  }

  lemma Spread(p: nat, v: nat)
    ensures 2 * p * v == 2 * (p * v)
  {
  }

  lemma {:induction false} PowerPositive(base: nat, exponent: nat)
    requires base > 0
    ensures Power(base, exponent) > 0
  {
    if exponent > 0 {
      PowerPositive(base, exponent - 1);
    }
  }

  lemma Quotient(n: nat, d: nat, q: nat, r: nat)
    requires n == d * q + r && r < d
    ensures n / d == q && n % d == r
  {
    var e := n / d;
    assert n == d * e + n % d;
    Apart(d, e, q);
    Apart(d, q, e);
  }

  lemma {:induction false} Apart(d: nat, a: nat, b: nat)
    ensures a < b ==> d * a + d <= d * b
    decreases b
  {
    if a < b {
      Apart(d, a, b - 1);
      assert d * b == d * (b - 1) + d;
    }
  }

  /** Taking bits out of a number is division and remainder. */
  lemma BitsBetween(bits: seq<bool>, from: nat, to: nat)
    requires from <= to <= |bits|
    ensures Power(2, from) > 0 && Power(2, to - from) > 0
    ensures BitsValue(bits[from..to]) == BitsValue(bits) / Power(2, from) % Power(2, to - from)
  {
    hide BitsValue, Power;
    PowerPositive(2, from);
    PowerPositive(2, to - from);
    var low, mid, high := bits[..from], bits[from..to], bits[to..];
    assert bits == low + (mid + high);
    ValueAppend(low, mid + high);
    ValueAppend(mid, high);
    ValueBelow(low);
    ValueBelow(mid);
    Quotient(BitsValue(bits), Power(2, from), BitsValue(mid + high), BitsValue(low));
    Quotient(BitsValue(mid + high), Power(2, to - from), BitsValue(high), BitsValue(mid));
  }
}
