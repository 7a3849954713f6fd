/** The IPv4 header parser and its checksum, section 3.1 of RFC 791 and section 1 of RFC 1071. */
module Ipv4 {
  import opened Storage

  type Octet = n: nat | n < 256

  const ONES: nat := 65535

  /** The bytes that the length field, the low nibble of the first byte, stands for. */
  function LengthOf(first: Octet): (n: nat)
    ensures n % 4 == 0 && n % 2 == 0 && n <= 60
  {
    first % 16 * 4
  }

  /** A header of whole 32-bit words that the buffer holds entirely. */
  datatype Header = Header(buffer: seq<Octet>) {
    predicate Valid() { |buffer| >= 20 && buffer[0] / 16 == 4 && |buffer| >= HeaderLength() }

    function HeaderLength(): (n: nat)
      ensures n % 4 == 0 && n % 2 == 0 && n <= 60
    {
      if buffer == [] then 0 else LengthOf(buffer[0])
    }
  }

  /** The parser: 20 bytes, version 4, and as many bytes as the length field says, which may be fewer than 20. */
  function NewHeader(buffer: seq<Octet>): (r: Option<Header>)
    ensures r.Some? <==> Header(buffer).Valid()
    ensures r.Some? ==> r.value.buffer == buffer
  {
    if |buffer| < 20 then None
    else if buffer[0] / 16 != 4 then None
    else
      var ihl := buffer[0] % 16;
      if |buffer| < ihl * 4 then None else Some(Header(buffer))
  }

  function Word(high: Octet, low: Octet): nat { 256 * high + low }

  /** The 16-bit words of the first `length` bytes. */
  function Words(buffer: seq<Octet>, length: nat): (words: seq<nat>)
    requires length % 2 == 0 && length <= |buffer|
    ensures |words| == length / 2 && forall i :: 0 <= i < |words| ==> words[i] <= ONES
  {
    seq(length / 2, i requires 0 <= i < length / 2 => Word(buffer[2 * i], buffer[2 * i + 1]))
  }

  function Sum(words: seq<nat>): nat {
    if words == [] then 0 else Sum(words[..|words| - 1]) + words[|words| - 1]
  }

  lemma {:induction false} SumBound(words: seq<nat>)
    requires forall i :: 0 <= i < |words| ==> words[i] <= ONES
    ensures Sum(words) <= ONES * |words|
  {
    if words != [] {
      SumBound(words[..|words| - 1]);
    }
  }

  /** The words check out when they add up to zero in one's complement arithmetic, without all being zero. */
  predicate ChecksOut(words: seq<nat>) { Sum(words) > 0 && Sum(words) % ONES == 0 }

  /** Adds the carries back in until none is left. The residue is kept, and so is being zero. */
  method Fold(total: nat) returns (sum: nat)
    ensures sum <= ONES && sum % ONES == total % ONES && (sum == 0 <==> total == 0)
  {
    sum := total;
    while sum / 65536 != 0
      invariant sum % ONES == total % ONES && (sum == 0 <==> total == 0)
      decreases sum
    {
      FoldKeepsResidue(sum);
      sum := sum % 65536 + sum / 65536;
    }
  }

  lemma FoldKeepsResidue(n: nat)
    ensures (n % 65536 + n / 65536) % ONES == n % ONES
    ensures n >= 65536 ==> 0 < n % 65536 + n / 65536 < n
  {
    assert n == n % 65536 + n / 65536 + ONES * (n / 65536);
  }

  method SumWords(buffer: seq<Octet>, hlen: nat) returns (sum: nat)
    requires hlen % 2 == 0 && hlen <= |buffer|
    ensures sum == Sum(Words(buffer, hlen))
  {
    hide *;
    ghost var words := Words(buffer, hlen);
    sum := 0;
    NoWords(words);
    var i := 0;
    while i < hlen
      invariant i % 2 == 0 && i <= hlen && sum == Sum(words[..i / 2])
    {
      OneWord(buffer, hlen, i / 2);
      sum := sum + Word(buffer[i], buffer[i + 1]);
      i := i + 2;
    }
    assert words[..hlen / 2] == words;
  }

  lemma NoWords(words: seq<nat>)
    ensures Sum(words[..0 / 2]) == 0
  {
  }

  lemma OneWord(buffer: seq<Octet>, length: nat, i: nat)
    requires length % 2 == 0 && length <= |buffer| && i < length / 2
    ensures Sum(Words(buffer, length)[..i + 1])
              == Sum(Words(buffer, length)[..i]) + Word(buffer[2 * i], buffer[2 * i + 1])
  {
    var words := Words(buffer, length);
    assert words[..i + 1][..i] == words[..i];
  }

  /** True exactly for the headers whose words check out. No sum of a header overflows 32 bits. */
  method VerifyChecksum(h: Header) returns (ok: bool)
    requires h.Valid()
    ensures h.HeaderLength() == 4 * (h.buffer[0] % 16)
    ensures ok <==> ChecksOut(Words(h.buffer, h.HeaderLength()))
    ensures Sum(Words(h.buffer, h.HeaderLength())) < 0x1_0000_0000
  {
    hide Sum, Words;
    var hlen := h.HeaderLength();
    var sum := SumWords(h.buffer, hlen);
    SumBound(Words(h.buffer, hlen));
    sum := Fold(sum);
    ok := sum == ONES;
  }

  // ----- what the checksum detects

  lemma {:induction false} SumOfChanged(words: seq<nat>, i: nat, w: nat)
    requires i < |words|
    ensures Sum(words[i := w]) == Sum(words) - words[i] + w
  {
    var n := |words| - 1;
    if i < n {
      assert words[i := w][..n] == words[..n][i := w];
      SumOfChanged(words[..n], i, w);
    } else {
      assert words[i := w][..n] == words[..n];
    }
  }

  /** The two words that one's complement arithmetic does not tell apart. */
  predicate AreZeros(a: nat, b: nat) { (a == 0 && b == ONES) || (a == ONES && b == 0) }

  /** The words of a header, as far as its own length field says. */
  function HeaderWords(buffer: seq<Octet>): (words: seq<nat>)
    requires Header(buffer).Valid()
    ensures |words| == Header(buffer).HeaderLength() / 2 && forall i :: 0 <= i < |words| ==> words[i] <= ONES
  {
    Words(buffer, Header(buffer).HeaderLength())
  }

  /** What a receiver takes: a header of version 4, in the buffer whole, whose words check out. */
  predicate Accepted(buffer: seq<Octet>) { Header(buffer).Valid() && ChecksOut(HeaderWords(buffer)) }

  /** The buffer with bytes `2 * i` and `2 * i + 1` replaced. */
  function WithWord(buffer: seq<Octet>, i: nat, high: Octet, low: Octet): (changed: seq<Octet>)
    requires 2 * i + 1 < |buffer|
  {
    buffer[2 * i := high][2 * i + 1 := low]
  }

  lemma {:induction false} SumSplit(a: seq<nat>, b: seq<nat>)
    ensures Sum(a + b) == Sum(a) + Sum(b)
    decreases |b|
  {
    if b == [] {
      assert a + b == a;
    } else {
      assert (a + b)[..|a + b| - 1] == a + b[..|b| - 1];
      SumSplit(a, b[..|b| - 1]);
    }
  }

  lemma WordsPrefix(buffer: seq<Octet>, shorter: nat, longer: nat)
    requires shorter % 2 == 0 && longer % 2 == 0 && shorter <= longer <= |buffer|
    ensures Words(buffer, longer) == Words(buffer, shorter) + Words(buffer, longer)[shorter / 2..]
  {
  }

  lemma WordsChanged(buffer: seq<Octet>, length: nat, i: nat, high: Octet, low: Octet)
    requires length % 2 == 0 && length <= |buffer| && i < length / 2
    ensures Words(WithWord(buffer, i, high, low), length) == Words(buffer, length)[i := Word(high, low)]
  {
  }

  /** What the words from `from` to `to` add up to, counted negative if they are lost rather than gained. */
  function Gained(buffer: seq<Octet>, from: nat, to: nat): int
    requires from % 2 == 0 && to % 2 == 0 && from <= |buffer| && to <= |buffer|
  {
    if from <= to then Sum(Words(buffer, to)[from / 2..]) else -(Sum(Words(buffer, from)[to / 2..]) as int)
  }

  lemma GainedIs(buffer: seq<Octet>, from: nat, to: nat)
    requires from % 2 == 0 && to % 2 == 0 && from <= |buffer| && to <= |buffer|
    ensures Sum(Words(buffer, to)) == Sum(Words(buffer, from)) + Gained(buffer, from, to)
  {
    hide Sum, Words;
    if from <= to {
      WordsPrefix(buffer, from, to);
      SumSplit(Words(buffer, from), Words(buffer, to)[from / 2..]);
    } else {
      WordsPrefix(buffer, to, from);
      SumSplit(Words(buffer, to), Words(buffer, from)[to / 2..]);
    }
  }

  /**
   * A change of one word that leaves the length field alone is unnoticed, in a header whose words check out, exactly
   * when it is no change, or one between the two zeros.
   */
  lemma OneChangeIff(buffer: seq<Octet>, i: nat, high: Octet, low: Octet)
    requires Accepted(buffer) && i < |HeaderWords(buffer)| && (i == 0 ==> high % 16 == buffer[0] % 16)
    ensures var changed := WithWord(buffer, i, high, low);
            var w := HeaderWords(buffer)[i];
            && (Header(changed).Valid() <==> changed[0] / 16 == 4)
            && (Accepted(changed) <==>
                  && changed[0] / 16 == 4 && (w == Word(high, low) || AreZeros(w, Word(high, low))))
  {
    hide Sum, Words;
    var changed := WithWord(buffer, i, high, low);
    var words, w := HeaderWords(buffer), Word(high, low);
    WordsChanged(buffer, Header(buffer).HeaderLength(), i, high, low);
    SumOfChanged(words, i, w);
    Differences(Sum(words), Sum(words[i := w]));
    FirstWord(buffer, Header(buffer).HeaderLength());
    if i > 0 {
      AtLeast(words[i := w], 0);
    }
  }

  /**
   * A change of the first word that changes the length field makes the checksum cover other words. It is unnoticed
   * exactly when the buffer holds that many bytes, and the change of the word and the words gained or lost cancel out.
   */
  lemma LengthChangeIff(buffer: seq<Octet>, high: Octet, low: Octet)
    requires Accepted(buffer) && high % 16 != buffer[0] % 16
    ensures LengthOf(high) == 4 * (high % 16) && Header(buffer).HeaderLength() == 4 * (buffer[0] % 16)
    ensures var (length, changed) := (LengthOf(high), WithWord(buffer, 0, high, low));
            Accepted(changed) <==>
              && high / 16 == 4 && 0 < length <= |buffer|
              && (Word(high, low) - Word(buffer[0], buffer[1])
                  + Gained(buffer, Header(buffer).HeaderLength(), length)) % ONES == 0
  {
    hide *;
    var length := LengthOf(high);
    LengthChanged(buffer, high, low);
    LengthIs(buffer);
    FieldIs(high);
    if high / 16 == 4 && length <= |buffer| {
      if length == 0 {
        NoneCovered(WithWord(buffer, 0, high, low));
      } else {
        ChangedSum(buffer, high, low, length);
        Cancels(Sum(HeaderWords(buffer)), Word(high, low) - Word(buffer[0], buffer[1])
                                          + Gained(buffer, Header(buffer).HeaderLength(), length));
      }
    }
  }

  lemma FieldIs(first: Octet)
    ensures LengthOf(first) == 4 * (first % 16)
  {
  }

  lemma LengthIs(buffer: seq<Octet>)
    requires Header(buffer).Valid()
    ensures |buffer| >= 20 && Header(buffer).HeaderLength() == 4 * (buffer[0] % 16) <= |buffer|
  {
  }

  lemma LengthChanged(buffer: seq<Octet>, high: Octet, low: Octet)
    requires Accepted(buffer)
    ensures var length := LengthOf(high);
            var changed := WithWord(buffer, 0, high, low);
            && |buffer| >= 20 && |changed| == |buffer| && length % 2 == 0 && Header(buffer).HeaderLength() <= |buffer|
            && Header(buffer).HeaderLength() % 2 == 0 && Header(buffer).Valid()
            && (Accepted(changed) <==> high / 16 == 4 && length <= |buffer| && ChecksOut(Words(changed, length)))
    ensures Sum(HeaderWords(buffer)) % ONES == 0
    ensures HeaderWords(buffer) == Words(buffer, Header(buffer).HeaderLength())
  {
    hide Sum, Words;
  }

  lemma ChangedSum(buffer: seq<Octet>, high: Octet, low: Octet, length: nat)
    requires Header(buffer).Valid() && high / 16 == 4 && length % 2 == 0 && 0 < length <= |buffer|
    ensures Sum(Words(WithWord(buffer, 0, high, low), length))
         == Sum(HeaderWords(buffer)) + (Word(high, low) - Word(buffer[0], buffer[1])
                                        + Gained(buffer, Header(buffer).HeaderLength(), length))
    ensures Sum(Words(WithWord(buffer, 0, high, low), length)) > 0
    ensures ChecksOut(Words(WithWord(buffer, 0, high, low), length)) <==>
              Sum(Words(WithWord(buffer, 0, high, low), length)) % ONES == 0
  {
    hide Sum, Words, Gained, WithWord;
    WordsChanged(buffer, length, 0, high, low);
    SumOfChanged(Words(buffer, length), 0, Word(high, low));
    FirstWord(buffer, length);
    GainedIs(buffer, Header(buffer).HeaderLength(), length);
    AtLeast(Words(buffer, length), 0);
  }

  lemma {:induction false} AtLeast(words: seq<nat>, i: nat)
    requires i < |words|
    ensures Sum(words) >= words[i]
  {
    if i < |words| - 1 {
      AtLeast(words[..|words| - 1], i);
    }
  }

  lemma FirstWord(buffer: seq<Octet>, length: nat)
    requires length % 2 == 0 && 0 < length <= |buffer|
    ensures Words(buffer, length)[0] == Word(buffer[0], buffer[1])
  {
  }

  lemma NoneCovered(buffer: seq<Octet>)
    ensures !ChecksOut(Words(buffer, 0))
  {
  }

  lemma Cancels(s: nat, d: int)
    requires s % ONES == 0
    ensures (s + d) % ONES == 0 <==> d % ONES == 0
  {
  }

  /** A header of 24 bytes, with a length field of 5 words and a word after them. */
  const LONGER: seq<Octet> :=
    [0x45, 0, 0, 0, 0, 0, 0, 0, 0, 0, 0xBA, 0xFF, 0, 0, 0, 0, 0, 0, 0, 0, 0xFE, 0xFF, 0, 0]

  /** One changed byte that goes unnoticed: the length field grows from 5 to 6, and the word gained makes up for it. */
  lemma LengthChangeUnnoticed()
    ensures Accepted(LONGER) && Accepted(WithWord(LONGER, 0, 0x46, 0)) && WithWord(LONGER, 0, 0x46, 0) != LONGER
  {
    hide Sum, Words;
    FiveWords(LONGER);
    GainedFew(LONGER);
    assert LONGER[0] == 0x45 && WithWord(LONGER, 0, 0x46, 0)[0] == 0x46;
    LengthChangeIff(LONGER, 0x46, 0);
  }

  lemma FiveWords(buffer: seq<Octet>)
    requires buffer == LONGER
    ensures ChecksOut(Words(buffer, 20))
  {
    hide Sum;
    var words := Words(buffer, 20);
    assert words == [0x4500, 0, 0, 0, 0] + [0xBAFF, 0, 0, 0, 0];
    SumSplit([0x4500, 0, 0, 0, 0], [0xBAFF, 0, 0, 0, 0]);
    FirstOfFive(0x4500);
    FirstOfFive(0xBAFF);
  }

  lemma FirstOfFive(w: nat)
    ensures Sum([w, 0, 0, 0, 0]) == w
  {
    hide Sum;
    FewWords(w);
    SumSplit([w, 0], [0, 0]);
    assert [w, 0] + [0, 0] == [w, 0, 0, 0];
    FewWords(0);
    SumSplit([w, 0, 0, 0], [0]);
    assert [w, 0, 0, 0] + [0] == [w, 0, 0, 0, 0];
  }

  lemma FewWords(w: nat)
    ensures Sum([w]) == w && Sum([w, 0]) == w
  {
    assert [w][..0] == [] && [w, 0][..1] == [w];
  }

  lemma GainedFew(buffer: seq<Octet>)
    requires buffer == LONGER
    ensures Gained(buffer, 20, 24) == 0xFEFF
  {
    hide Sum;
    var gained := Words(buffer, 24)[10..];
    WordAt(buffer, 24, 10);
    WordAt(buffer, 24, 11);
    assert |gained| == 2 && gained[0] == 0xFEFF && gained[1] == 0;
    assert gained == [0xFEFF, 0];
    FewWords(0xFEFF);
  }

  /**
   * Which bytes the checksum protects: a change of one byte after the first is unnoticed exactly past the length
   * that the header claims. A length field below 5 is not refused, and then that includes bytes of the header.
   */
  lemma ByteChangeIff(buffer: seq<Octet>, j: nat, x: Octet)
    requires Accepted(buffer) && 0 < j < |buffer|
    ensures Accepted(buffer[j := x]) <==> x == buffer[j] || j >= 4 * (buffer[0] % 16)
  {
    hide Sum, Words;
    var changed, length := buffer[j := x], Header(buffer).HeaderLength();
    if j >= length {
      SameWords(buffer, changed, length);
    } else {
      var i := j / 2;
      var high, low := changed[2 * i], changed[2 * i + 1];
      assert changed == WithWord(buffer, i, high, low);
      WordAt(buffer, length, i);
      OneChangeIff(buffer, i, high, low);
      assert !AreZeros(Word(buffer[2 * i], buffer[2 * i + 1]), Word(high, low));
    }
  }

  lemma SameWords(buffer: seq<Octet>, changed: seq<Octet>, length: nat)
    requires length % 2 == 0 && length <= |buffer| == |changed| && forall k :: 0 <= k < length ==>
               changed[k] == buffer[k]
    ensures Words(changed, length) == Words(buffer, length)
  {
  }

  lemma WordAt(buffer: seq<Octet>, length: nat, i: nat)
    requires length % 2 == 0 && length <= |buffer| && i < length / 2
    ensures Words(buffer, length)[i] == Word(buffer[2 * i], buffer[2 * i + 1])
  {
  }

  /** A header of 20 bytes with a length field of 3 words. */
  const SHORTER: seq<Octet> := [0x43, 0, 0, 0, 0, 0, 0, 0, 0, 0, 0xBC, 0xFF, 192, 168, 0, 1, 192, 168, 0, 2]

  /** An accepted header whose addresses the checksum never reads: any other addresses are accepted too. */
  lemma AddressesUnread(addresses: seq<Octet>)
    requires |addresses| == 8
    ensures Accepted(SHORTER) && Accepted(SHORTER[..12] + addresses)
  {
    var other := SHORTER[..12] + addresses;
    SixWords(SHORTER);
    assert SHORTER[0] == 0x43 && other[0] == 0x43;
    SameWords(SHORTER, other, 12);
  }

  lemma SixWords(buffer: seq<Octet>)
    requires buffer == SHORTER
    ensures ChecksOut(Words(buffer, 12))
  {
    hide Sum;
    var words := Words(buffer, 12);
    assert words == [0x4300, 0, 0, 0, 0] + [0xBCFF];
    SumSplit([0x4300, 0, 0, 0, 0], [0xBCFF]);
    FirstOfFive(0x4300);
    FewWords(0xBCFF);
  }

  /** Two multiples of 65535 less than that far apart are equal. */
  lemma Differences(s: nat, t: nat)
    requires s % ONES == 0 && -(ONES as int) <= t - s <= ONES
    ensures t % ONES == 0 <==> t == s || t == s + ONES || t == s - ONES
  {
  }

  /** What a sender stores: the complement of the folded sum of the other words. */
  function Checksum(words: seq<nat>): nat {
    if Sum(words) == 0 then ONES
    else if Sum(words) % ONES == 0 then 0 else ONES - Sum(words) % ONES
  }

  /** With that word in a place that was zero, the header checks out; and no other does, up to the two zeros. */
  lemma ChecksumChecksOut(words: seq<nat>, i: nat, w: nat)
    requires i < |words| && words[i] == 0 && w <= ONES
    ensures ChecksOut(words[i := Checksum(words)])
    ensures ChecksOut(words[i := w]) ==> w == Checksum(words) || AreZeros(w, Checksum(words))
  {
    SumOfChanged(words, i, Checksum(words));
    SumOfChanged(words, i, w);
  }

  /** The receiver's fold and the sender's complement agree. */
  lemma ComplementOfFold(words: seq<nat>, folded: nat)
    requires folded <= ONES && folded % ONES == Sum(words) % ONES && (folded == 0 <==> Sum(words) == 0)
    ensures Checksum(words) == ONES - folded
  {
  }
}
