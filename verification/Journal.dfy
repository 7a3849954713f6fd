/** The journal: length-prefixed operations appended to ten reserved blocks, and the scan that looks for open ones. */
module Journal {
  import opened Storage
  import opened Types
  import opened Bits

  const JOURNAL_BYTES: nat := JOURNAL_BLOCKS * BLOCK_SIZE

  /** The bytes of the length prefix. */
  const PREFIX: nat := 8

  // ----- the length prefix

  function LittleEndian(n: nat, width: nat): (bytes: seq<Byte>)
    ensures |bytes| == width
  {
    if width == 0 then [] else [LowByte(n)] + LittleEndian(n / 256, width - 1)
  }

  function FromLittleEndian(bytes: seq<Byte>): nat {
    if bytes == [] then 0 else ByteValue(bytes[0]) + 256 * FromLittleEndian(bytes[1..])
  }

  /** Byte `k` is digit `k` of the number to the base of 256, the lowest first. */
  lemma {:induction false} LittleEndianDigits(n: nat, width: nat, k: nat)
    requires k < width
    ensures Power(256, k) > 0 && LittleEndian(n, width)[k] as nat == n / Power(256, k) % 256
  {
    PowerPositive(256, k);
    LowByteIsNumber(n);
    if k > 0 {
      LittleEndianDigits(n / 256, width - 1, k - 1);
      DivideTwice(n, 256, Power(256, k - 1));
    }
  }

  lemma DivideTwice(n: nat, a: nat, b: nat)
    requires a > 0 && b > 0
    ensures a * b > 0 && n / a / b == n / (a * b)
  {
    var m := n / a;
    var q := m / b;
    assert n == a * (b * q + m % b) + n % a;
    assert a * (b * q + m % b) == (a * b) * q + a * (m % b);
    Apart(a, m % b, b);
    Quotient(n, a * b, q, a * (m % b) + n % a);
  }

  lemma {:induction false} PrefixRoundTrip(n: nat, width: nat)
    requires n < Power(256, width)
    ensures FromLittleEndian(LittleEndian(n, width)) == n
  {
    if width > 0 {
      ByteRoundTrip(n);
      PrefixRoundTrip(n / 256, width - 1);
      assert LittleEndian(n, width)[1..] == LittleEndian(n / 256, width - 1);
    }
  }

  lemma {:induction false} ZeroPrefix(bytes: seq<Byte>)
    requires forall i :: 0 <= i < |bytes| ==> bytes[i] == 0
    ensures FromLittleEndian(bytes) == 0
  {
    if bytes != [] {
      ZeroByte();
      ZeroPrefix(bytes[1..]);
    }
  }

  // ----- reading the journal back

  /** The bytes of the journal blocks, one after the other. */
  function Region(blocks: seq<seq<Byte>>): (j: seq<Byte>)
    requires WholeBlocks(blocks) && JOURNAL_END <= |blocks|
    ensures |j| == JOURNAL_BYTES
    ensures forall p :: 0 <= p < JOURNAL_BYTES ==> j[p] == blocks[JOURNAL_START + p / BLOCK_SIZE][p % BLOCK_SIZE]
  {
    seq(JOURNAL_BYTES, p requires 0 <= p < JOURNAL_BYTES => blocks[JOURNAL_START + p / BLOCK_SIZE][p % BLOCK_SIZE])
  }

  lemma RegionSame(before: seq<seq<Byte>>, after: seq<seq<Byte>>)
    requires WholeBlocks(before) && JOURNAL_END <= |before|
    requires WholeBlocks(after) && JOURNAL_END <= |after|
    requires forall b :: JOURNAL_START <= b < JOURNAL_END ==> after[b] == before[b]
    ensures Region(after) == Region(before)
  {
  }

  lemma RegionSlice(blocks: seq<seq<Byte>>, off: nat, n: nat)
    requires WholeBlocks(blocks) && JOURNAL_END <= |blocks|
    requires off < JOURNAL_BYTES && off % BLOCK_SIZE + n <= BLOCK_SIZE
    ensures off + n <= JOURNAL_BYTES
    ensures var o := off % BLOCK_SIZE;
            Region(blocks)[off..off + n] == blocks[JOURNAL_START + off / BLOCK_SIZE][o..o + n]
  {
  }

  /** Overwriting `n` bytes inside one block of the journal. */
  lemma RegionWrite(before: seq<seq<Byte>>, after: seq<seq<Byte>>, off: nat, bytes: seq<Byte>)
    requires WholeBlocks(before) && JOURNAL_END <= |before|
    requires off < JOURNAL_BYTES && off % BLOCK_SIZE + |bytes| <= BLOCK_SIZE
    requires var b, o := JOURNAL_START + off / BLOCK_SIZE, off % BLOCK_SIZE;
             after == before[b := before[b][..o] + bytes + before[b][o + |bytes|..]]
    ensures WholeBlocks(after) && off + |bytes| <= JOURNAL_BYTES
    ensures Region(after) == Region(before)[..off] + bytes + Region(before)[off + |bytes|..]
  {
    assert WholeBlocks(after);
    var expected := Region(before)[..off] + bytes + Region(before)[off + |bytes|..];
    forall p | 0 <= p < JOURNAL_BYTES
      ensures Region(after)[p] == expected[p]
    {
      if p / BLOCK_SIZE == off / BLOCK_SIZE {
        assert p - off == p % BLOCK_SIZE - off % BLOCK_SIZE;
      }
    }
  }

  datatype Reading = Halt | Skip(next: nat) | Entry(op: JournalOp, next: nat)

  /** What the recovery scan does at one offset of the journal. */
  function ReadAt(c: Codec<JournalOp>, j: seq<Byte>, off: nat): (r: Reading)
    requires |j| == JOURNAL_BYTES
    ensures r.Skip? || r.Entry? ==> off < r.next <= JOURNAL_BYTES
  {
    if off >= JOURNAL_BYTES then Halt
    else
      var o := off % BLOCK_SIZE;
      if o + PREFIX > BLOCK_SIZE then Skip((off / BLOCK_SIZE + 1) * BLOCK_SIZE)
      else
        var len := FromLittleEndian(j[off..off + PREFIX]);
        if len == 0 || o + PREFIX + len > BLOCK_SIZE then Halt
        else
          match c.dec(j[off + PREFIX..off + PREFIX + len])
          case None => Halt
          case Some(op) => Entry(op, off + PREFIX + len)
  }

  /**
   * An entry is read exactly where eight bytes give a length that is not zero, as many bytes follow in the same block,
   * and they decode; the scan goes on after them, and where there is no room for a length, in the next block.
   */
  lemma ReadIff(c: Codec<JournalOp>, j: seq<Byte>, off: nat, op: JournalOp, next: nat)
    requires |j| == JOURNAL_BYTES
    ensures ReadAt(c, j, off) == Entry(op, next) <==>
              && off < 40960 && off % 4096 <= 4088 && off + 8 < next <= off / 4096 * 4096 + 4096
              && FromLittleEndian(j[off..off + 8]) == next - off - 8 && c.dec(j[off + 8..next]) == Some(op)
    ensures ReadAt(c, j, off) == Skip(next) <==>
              off < 40960 && off % 4096 > 4088 && next == off / 4096 * 4096 + 4096
  {
  }

  /** Every operation the scan decodes from `off` on. */
  function Scan(c: Codec<JournalOp>, j: seq<Byte>, off: nat): seq<JournalOp>
    requires |j| == JOURNAL_BYTES
    decreases if off < JOURNAL_BYTES then JOURNAL_BYTES - off else 0
  {
    match ReadAt(c, j, off)
    case Halt => []
    case Skip(next) => Scan(c, j, next)
    case Entry(op, next) => [op] + Scan(c, j, next)
  }

  /** The operations read on the way from `off` to `to`, if the scan gets exactly there. */
  function OpsTo(c: Codec<JournalOp>, j: seq<Byte>, off: nat, to: nat): (r: Option<seq<JournalOp>>)
    requires |j| == JOURNAL_BYTES
    ensures r.Some? ==> off <= to
    decreases if off < JOURNAL_BYTES then JOURNAL_BYTES - off else 0
  {
    if off == to then Some([])
    else if off > to then None
    else
      match ReadAt(c, j, off)
      case Halt => None
      case Skip(next) => OpsTo(c, j, next, to)
      case Entry(op, next) =>
        match OpsTo(c, j, next, to)
        case None => None
        case Some(ops) => Some([op] + ops)
  }

  lemma SameSlice(j: seq<Byte>, k: seq<Byte>, to: nat, a: nat, b: nat)
    requires to <= |j| && to <= |k| && j[..to] == k[..to] && a <= b <= to
    ensures j[a..b] == k[a..b]
  {
    assert j[a..b] == j[..to][a..b] && k[a..b] == k[..to][a..b];
  }

  /** A scan that gets to `to` gets there on any journal with the same bytes before `to`. */
  lemma {:induction false} OpsToFrame(c: Codec<JournalOp>, j: seq<Byte>, k: seq<Byte>, off: nat, to: nat)
    requires |j| == |k| == JOURNAL_BYTES && to <= JOURNAL_BYTES && j[..to] == k[..to]
    requires OpsTo(c, j, off, to).Some?
    ensures OpsTo(c, k, off, to) == OpsTo(c, j, off, to)
    decreases if off < JOURNAL_BYTES then JOURNAL_BYTES - off else 0
  {
    if off < to {
      var r := ReadAt(c, j, off);
      if r.Entry? {
        SameSlice(j, k, to, off, off + PREFIX);
        SameSlice(j, k, to, off + PREFIX, r.next);
      }
      OpsToFrame(c, j, k, r.next, to);
    }
  }

  /** Reading on from where a scan got to. */
  lemma {:induction false} OpsToStep(c: Codec<JournalOp>, j: seq<Byte>, off: nat, to: nat)
    requires |j| == JOURNAL_BYTES
    requires OpsTo(c, j, off, to).Some? && !ReadAt(c, j, to).Halt?
    ensures var ops := OpsTo(c, j, off, to).value;
            var r := ReadAt(c, j, to);
            OpsTo(c, j, off, r.next) == Some(if r.Entry? then ops + [r.op] else ops)
    decreases if off < JOURNAL_BYTES then JOURNAL_BYTES - off else 0
  {
    var last := ReadAt(c, j, to);
    if off == to {
      assert OpsTo(c, j, last.next, last.next) == Some([]);
      if last.Entry? {
        assert [last.op] + [] == [] + [last.op];
      }
    } else {
      var r := ReadAt(c, j, off);
      OpsToStep(c, j, r.next, to);
      if r.Entry? && last.Entry? {
        var rest := OpsTo(c, j, r.next, to).value;
        assert [r.op] + (rest + [last.op]) == [r.op] + rest + [last.op];
      }
    }
  }

  lemma {:induction false} ScanFrom(c: Codec<JournalOp>, j: seq<Byte>, off: nat, to: nat)
    requires |j| == JOURNAL_BYTES && OpsTo(c, j, off, to).Some?
    ensures Scan(c, j, off) == OpsTo(c, j, off, to).value + Scan(c, j, to)
    decreases if off < JOURNAL_BYTES then JOURNAL_BYTES - off else 0
  {
    if off == to {
      assert [] + Scan(c, j, to) == Scan(c, j, to);
    } else {
      ScanFrom(c, j, ReadAt(c, j, off).next, to);
    }
  }

  ghost predicate ZeroBytes(j: seq<Byte>, from: nat, to: nat) {
    forall p :: from <= p < to && p < |j| ==> j[p] == 0
  }

  lemma HaltsAtZero(c: Codec<JournalOp>, j: seq<Byte>, at: nat)
    requires |j| == JOURNAL_BYTES
    requires at % BLOCK_SIZE + PREFIX <= BLOCK_SIZE && ZeroBytes(j, at, at + PREFIX)
    ensures ReadAt(c, j, at) == Halt
  {
    if at < JOURNAL_BYTES {
      ZeroPrefix(j[at..at + PREFIX]);
    }
  }

  // ----- what the journal holds

  /**
   * How far a scan gets: to the end of the log, to a place where it stops for good (`seen`
   * operations in), or unknown because the log has run over old entries.
   */
  datatype Tail = Live | Halted(at: nat, seen: nat) | Lost

  /** The journal after writing `since` from offset 0 up to `w`, zero from there to `zeroEnd`. */
  ghost predicate Holds(c: Codec<JournalOp>, j: seq<Byte>, w: nat, since: seq<JournalOp>, tail: Tail, zeroEnd: nat) {
    && |j| == JOURNAL_BYTES
    && w <= JOURNAL_BYTES
    && ZeroBytes(j, w, zeroEnd)
    && (w < BLOCK_SIZE ==> tail.Live?)
    && (zeroEnd >= JOURNAL_BYTES ==> !tail.Lost?)
    && (tail.Live? ==> OpsTo(c, j, 0, w) == Some(since))
    && (tail.Halted? ==>
          && tail.seen <= |since|
          && OpsTo(c, j, 0, tail.at) == Some(since[..tail.seen])
          && tail.at % BLOCK_SIZE + PREFIX <= BLOCK_SIZE
          && tail.at + PREFIX <= w
          && ZeroBytes(j, tail.at, tail.at + PREFIX))
  }

  /**
   * What recovery reads is a prefix of what was logged since the log last stood at the start, if the
   * rest of the journal was zero then; it is all of it while the log fits one block, less the room for a prefix.
   */
  lemma ScanIsPrefix(c: Codec<JournalOp>, j: seq<Byte>, w: nat, since: seq<JournalOp>, tail: Tail, zeroEnd: nat)
    requires Holds(c, j, w, since, tail, zeroEnd)
    ensures tail.Live? ==> since <= Scan(c, j, 0)
    ensures tail.Live? && zeroEnd >= JOURNAL_BYTES ==> Scan(c, j, 0) == since
    ensures zeroEnd >= JOURNAL_BYTES ==> Scan(c, j, 0) <= since
    ensures tail.Halted? ==> Scan(c, j, 0) == since[..tail.seen]
    ensures w + PREFIX <= BLOCK_SIZE <= zeroEnd ==> Scan(c, j, 0) == since
  {
    if tail.Live? {
      ScanFrom(c, j, 0, w);
      if zeroEnd >= JOURNAL_BYTES || w + PREFIX <= BLOCK_SIZE <= zeroEnd {
        NothingAfter(c, j, w, zeroEnd);
      }
    }
    if tail.Halted? {
      ScanFrom(c, j, 0, tail.at);
      HaltsAtZero(c, j, tail.at);
    }
  }

  lemma NothingAfter(c: Codec<JournalOp>, j: seq<Byte>, w: nat, zeroEnd: nat)
    requires |j| == JOURNAL_BYTES && ZeroBytes(j, w, zeroEnd)
    requires zeroEnd >= JOURNAL_BYTES || w + PREFIX <= BLOCK_SIZE <= zeroEnd
    ensures Scan(c, j, w) == []
  {
    if w % BLOCK_SIZE + PREFIX <= BLOCK_SIZE {
      HaltsAtZero(c, j, w);
    } else if w < JOURNAL_BYTES {
      var next := (w / BLOCK_SIZE + 1) * BLOCK_SIZE;
      HaltsAtZero(c, j, next);
      assert ReadAt(c, j, w) == Skip(next);
    }
  }

  lemma EmptyHolds(c: Codec<JournalOp>, j: seq<Byte>, zeroEnd: nat)
    requires |j| == JOURNAL_BYTES && ZeroBytes(j, 0, zeroEnd)
    ensures Holds(c, j, 0, [], Live, zeroEnd)
  {
  }

  /** The journal blocks that the device has are zero. */
  ghost predicate Blank(blocks: seq<seq<Byte>>) {
    forall b :: JOURNAL_START <= b < JOURNAL_END && b < |blocks| ==> blocks[b] == Zeros(BLOCK_SIZE)
  }

  /** The bytes of a journal whose first block was cleared. */
  lemma ZeroRegion(blocks: seq<seq<Byte>>, blank: bool)
    requires WholeBlocks(blocks) && JOURNAL_END <= |blocks| && blocks[JOURNAL_START] == Zeros(BLOCK_SIZE)
    requires blank ==> Blank(blocks)
    ensures ZeroBytes(Region(blocks), 0, if blank then JOURNAL_BYTES else BLOCK_SIZE)
  {
    forall p | 0 <= p < (if blank then JOURNAL_BYTES else BLOCK_SIZE)
      ensures Region(blocks)[p] == 0
    {
      assert blocks[JOURNAL_START + p / BLOCK_SIZE] == Zeros(BLOCK_SIZE);
    }
  }

  lemma ClearedRegion(before: seq<seq<Byte>>, after: seq<seq<Byte>>)
    requires WholeBlocks(before) && JOURNAL_END <= |before|
    requires after == Put(before, JOURNAL_START, Zeros(BLOCK_SIZE))
    ensures WholeBlocks(after) && JOURNAL_END <= |after|
    ensures ZeroBytes(Region(after), 0, if Blank(before) then JOURNAL_BYTES else BLOCK_SIZE)
  {
    ZeroRegion(after, Blank(before));
  }

  // ----- where the next entry goes

  /** One call of `log`: the offset of the next attempt, or None when the entry is written. */
  function Attempt(w: nat, total: nat): Option<nat> {
    var w1 := if w + total > JOURNAL_BYTES then 0 else w;
    if w1 % BLOCK_SIZE + total > BLOCK_SIZE then Some((w1 / BLOCK_SIZE + 1) * BLOCK_SIZE) else None
  }

  /** After `n` attempts `log` is still looking for a place. */
  ghost predicate Pending(w: nat, total: nat, n: nat)
    decreases n
  {
    n == 0 || (Attempt(w, total).Some? && Pending(Attempt(w, total).value, total, n - 1))
  }

  /** `log` comes to an end exactly for entries that fit one block, wherever the log stands. */
  lemma LogTerminatesIff(w: nat, total: nat)
    ensures (exists n: nat :: !Pending(w, total, n)) <==> total <= BLOCK_SIZE
  {
    if total <= BLOCK_SIZE {
      WrittenSoon(w, total);
    } else {
      forall n: nat
        ensures Pending(w, total, n)
      {
        NeverWritten(w, total, n);
      }
    }
  }

  lemma WrittenSoon(w: nat, total: nat)
    requires total <= BLOCK_SIZE
    ensures !Pending(w, total, 2)
  {
    if Attempt(w, total).Some? {
      var w' := Attempt(w, total).value;
      assert w' % BLOCK_SIZE == 0 && Attempt(w', total) == None;
      assert !Pending(w', total, 1);
    }
  }

  lemma {:induction false} NeverWritten(w: nat, total: nat, n: nat)
    requires total > BLOCK_SIZE
    ensures Pending(w, total, n)
    decreases n
  {
    if n > 0 {
      NeverWritten(Attempt(w, total).value, total, n - 1);
    }
  }

  function EntrySize(c: Codec<JournalOp>, op: JournalOp): nat { PREFIX + |c.enc(op)| }

  /** The offset at which an entry of `total` bytes is written. */
  function Settle(w: nat, total: nat): (slot: nat)
    requires total <= BLOCK_SIZE
    ensures slot % BLOCK_SIZE + total <= BLOCK_SIZE && slot + total <= JOURNAL_BYTES
    decreases if Attempt(w, total).None? then 0 else 1
  {
    match Attempt(w, total)
    case Some(next) => Settle(next, total)
    case None => if w + total > JOURNAL_BYTES then 0 else w
  }

  /**
   * An entry is written where the log stands if it fits the rest of that block, and otherwise at the start of the
   * next one; at the start of the journal if it does not fit before the end of it.
   */
  lemma SettleIs(w: nat, total: nat)
    requires total <= 4096
    ensures Settle(w, total) ==
              if w + total > 40960 then 0
              else if w % 4096 + total <= 4096 then w
              else if (w / 4096 + 1) * 4096 + total > 40960 then 0
              else (w / 4096 + 1) * 4096
  {
    match Attempt(w, total)
    case None =>
    case Some(next) =>
      assert next % 4096 == 0;
      assert Attempt(next, total) == None;
  }

  function LogSize(c: Codec<JournalOp>, ops: seq<JournalOp>): nat {
    if ops == [] then 0 else LogSize(c, ops[..|ops| - 1]) + EntrySize(c, ops[|ops| - 1])
  }

  ghost predicate AllFit(c: Codec<JournalOp>, ops: seq<JournalOp>) {
    forall i :: 0 <= i < |ops| ==> EntrySize(c, ops[i]) <= BLOCK_SIZE
  }

  /** Where the log stands after `ops`, from the sizes of the entries alone. */
  ghost function EndOf(c: Codec<JournalOp>, ops: seq<JournalOp>): nat
    requires AllFit(c, ops)
  {
    if ops == [] then 0
    else
      var last := EntrySize(c, ops[|ops| - 1]);
      Settle(EndOf(c, ops[..|ops| - 1]), last) + last
  }

  /** The log has not gone back to the start of the journal. */
  ghost predicate BeforeWrap(c: Codec<JournalOp>, ops: seq<JournalOp>)
    requires AllFit(c, ops)
  {
    ops != [] ==>
      var w := EndOf(c, ops[..|ops| - 1]);
      BeforeWrap(c, ops[..|ops| - 1]) && Settle(w, EntrySize(c, ops[|ops| - 1])) >= w
  }

  /** An entry of `total` bytes leaves room for a length prefix unused when it goes to the next block. */
  predicate LeavesGap(w: nat, total: nat)
    requires total <= BLOCK_SIZE
  {
    Settle(w, total) > w && w % BLOCK_SIZE + PREFIX <= BLOCK_SIZE
  }

  /** How many entries stand before the first gap. */
  ghost function BeforeGap(c: Codec<JournalOp>, ops: seq<JournalOp>): (seen: nat)
    requires AllFit(c, ops)
    ensures seen <= |ops|
  {
    if ops == [] then 0
    else
      var n := |ops| - 1;
      var seen := BeforeGap(c, ops[..n]);
      if seen < n || LeavesGap(EndOf(c, ops[..n]), EntrySize(c, ops[n])) then seen else n + 1
  }

  /** Entry `i` is placed where a scan gets to from the entry before it. */
  ghost predicate FollowsOn(c: Codec<JournalOp>, ops: seq<JournalOp>, i: nat)
    requires AllFit(c, ops) && i < |ops|
  {
    !LeavesGap(EndOf(c, ops[..i]), EntrySize(c, ops[i]))
  }

  lemma {:induction false} NoGapIff(c: Codec<JournalOp>, ops: seq<JournalOp>)
    requires AllFit(c, ops)
    ensures BeforeGap(c, ops) == |ops| <==> forall i :: 0 <= i < |ops| ==> FollowsOn(c, ops, i)
  {
    if ops != [] {
      hide LeavesGap, EndOf;
      var n := |ops| - 1;
      NoGapIff(c, ops[..n]);
      forall i | 0 <= i < n
        ensures FollowsOn(c, ops[..n], i) == FollowsOn(c, ops, i)
      {
        assert ops[..n][..i] == ops[..i];
      }
      assert FollowsOn(c, ops, n) <==> !LeavesGap(EndOf(c, ops[..n]), EntrySize(c, ops[n]));
      if forall i :: 0 <= i < n ==> FollowsOn(c, ops[..n], i) {
        assert forall i :: 0 <= i < n ==> FollowsOn(c, ops, i);
      } else {
        var i :| 0 <= i < n && !FollowsOn(c, ops[..n], i);
        assert !FollowsOn(c, ops, i);
      }
    }
  }

  /** Whatever is logged after a gap, before a wrap, recovery does not read it. */
  lemma {:induction false} GapHidesRest(c: Codec<JournalOp>, ops: seq<JournalOp>, more: seq<JournalOp>)
    requires AllFit(c, ops + more) && AllFit(c, ops) && BeforeGap(c, ops) < |ops|
    ensures BeforeGap(c, ops + more) == BeforeGap(c, ops)
    decreases |more|
  {
    if more == [] {
      assert ops + more == ops;
    } else {
      var n := |more| - 1;
      assert (ops + more)[..|ops + more| - 1] == ops + more[..n];
      forall i | 0 <= i < |ops + more[..n]|
        ensures EntrySize(c, (ops + more[..n])[i]) <= BLOCK_SIZE
      {
        assert (ops + more[..n])[i] == (ops + more)[i];
      }
      GapHidesRest(c, ops, more[..n]);
    }
  }

  /** The tail of a log of `count` entries of which a scan reads `seen`. */
  predicate Reads(tail: Tail, seen: nat, count: nat) {
    if seen == count then tail.Live? else tail.Halted? && tail.seen == seen
  }

  /** The log stands where the sizes of its entries say, in a journal that was zero at the start. */
  ghost predicate StandsAt(c: Codec<JournalOp>, ops: seq<JournalOp>, w: nat, base: nat, tail: Tail, zeroEnd: nat)
    requires AllFit(c, ops)
  {
    BeforeWrap(c, ops) ==>
      base == 0 && zeroEnd >= JOURNAL_BYTES && w == EndOf(c, ops) && Reads(tail, BeforeGap(c, ops), |ops|)
  }

  /** The same on the way to the place of one more entry: at the end of the log, or at that place already. */
  ghost predicate HeadsFor(c: Codec<JournalOp>, ops: seq<JournalOp>, op: JournalOp, w: nat, base: nat, tail: Tail,
                           zeroEnd: nat)
    requires AllFit(c, ops) && AllFit(c, ops + [op])
  {
    BeforeWrap(c, ops + [op]) ==>
      var total := EntrySize(c, op);
      var slot := Settle(EndOf(c, ops), total);
      && total <= BLOCK_SIZE && base == 0 && zeroEnd >= JOURNAL_BYTES
      && ((w == EndOf(c, ops) < slot && Reads(tail, BeforeGap(c, ops), |ops|))
          || (w == slot && Reads(tail, BeforeGap(c, ops + [op]), |ops| + 1)))
  }

  lemma FitMore(c: Codec<JournalOp>, ops: seq<JournalOp>, op: JournalOp)
    requires AllFit(c, ops) && EntrySize(c, op) <= BLOCK_SIZE
    ensures AllFit(c, ops + [op])
    ensures EndOf(c, ops + [op]) == Settle(EndOf(c, ops), EntrySize(c, op)) + EntrySize(c, op)
    ensures BeforeWrap(c, ops + [op]) <==>
              BeforeWrap(c, ops) && Settle(EndOf(c, ops), EntrySize(c, op)) >= EndOf(c, ops)
    ensures BeforeGap(c, ops + [op]) ==
              if BeforeGap(c, ops) < |ops| || LeavesGap(EndOf(c, ops), EntrySize(c, op)) then BeforeGap(c, ops)
                  else |ops| + 1
  {
    assert (ops + [op])[..|ops|] == ops;
  }

  lemma SetsOut(c: Codec<JournalOp>, ops: seq<JournalOp>, op: JournalOp, w: nat, base: nat, tail: Tail, zeroEnd: nat)
    requires AllFit(c, ops) && EntrySize(c, op) <= BLOCK_SIZE && StandsAt(c, ops, w, base, tail, zeroEnd)
    ensures AllFit(c, ops + [op]) && HeadsFor(c, ops, op, w, base, tail, zeroEnd)
  {
    hide Settle, Attempt, EndOf, BeforeWrap, BeforeGap;
    FitMore(c, ops, op);
  }

  /** Past the end of the journal there is no place, so the log goes back to the start. */
  lemma NoPlaceLeft(c: Codec<JournalOp>, ops: seq<JournalOp>, op: JournalOp, w: nat, base: nat, tail: Tail,
                    zeroEnd: nat)
    requires AllFit(c, ops) && EntrySize(c, op) <= BLOCK_SIZE && AllFit(c, ops + [op])
    requires HeadsFor(c, ops, op, w, base, tail, zeroEnd) && w + EntrySize(c, op) > JOURNAL_BYTES
    ensures !BeforeWrap(c, ops + [op])
  {
    hide EndOf, BeforeWrap, BeforeGap;
    FitMore(c, ops, op);
  }

  lemma MovesOn(c: Codec<JournalOp>, ops: seq<JournalOp>, op: JournalOp, w: nat, base: nat, tail: Tail, zeroEnd: nat)
    requires AllFit(c, ops) && EntrySize(c, op) <= BLOCK_SIZE && AllFit(c, ops + [op])
    requires HeadsFor(c, ops, op, w, base, tail, zeroEnd) && w + EntrySize(c, op) <= JOURNAL_BYTES
    requires w % BLOCK_SIZE + EntrySize(c, op) > BLOCK_SIZE
    ensures HeadsFor(c, ops, op, (w / BLOCK_SIZE + 1) * BLOCK_SIZE, base, SkipTail(w, ops, tail, zeroEnd), zeroEnd)
  {
    hide EndOf, BeforeWrap, BeforeGap;
    FitMore(c, ops, op);
  }

  lemma HeadsNowhere(c: Codec<JournalOp>, ops: seq<JournalOp>, op: JournalOp, w: nat, base: nat, tail: Tail,
                     zeroEnd: nat)
    requires AllFit(c, ops) && AllFit(c, ops + [op]) && !BeforeWrap(c, ops + [op])
    ensures HeadsFor(c, ops, op, w, base, tail, zeroEnd)
  {
  }

  lemma Arrives(c: Codec<JournalOp>, ops: seq<JournalOp>, op: JournalOp, w: nat, base: nat, tail: Tail, zeroEnd: nat)
    requires AllFit(c, ops) && EntrySize(c, op) <= BLOCK_SIZE && AllFit(c, ops + [op])
    requires HeadsFor(c, ops, op, w, base, tail, zeroEnd)
    requires w % BLOCK_SIZE + EntrySize(c, op) <= BLOCK_SIZE && w + EntrySize(c, op) <= JOURNAL_BYTES
    ensures StandsAt(c, ops + [op], w + EntrySize(c, op), base, tail, zeroEnd)
  {
    hide EndOf, BeforeWrap, BeforeGap;
    FitMore(c, ops, op);
  }

  function EntryBytes(c: Codec<JournalOp>, op: JournalOp): seq<Byte> {
    LittleEndian(|c.enc(op)|, PREFIX) + c.enc(op)
  }

  lemma EntryReads(c: Codec<JournalOp>, j: seq<Byte>, w: nat, op: JournalOp)
    requires c.Lawful() && |j| == JOURNAL_BYTES && EntrySize(c, op) <= BLOCK_SIZE
    requires w % BLOCK_SIZE + EntrySize(c, op) <= BLOCK_SIZE && w + EntrySize(c, op) <= JOURNAL_BYTES
    requires j[w..w + EntrySize(c, op)] == EntryBytes(c, op)
    ensures ReadAt(c, j, w) == Entry(op, w + EntrySize(c, op))
  {
    hide *;
    EntryParts(c, j, w, op);
    PrefixFits(|c.enc(op)|);
    c.EncodesToSomething(op, if op.EndOp? then BeginWrite(0) else EndOp(0));
    c.Decodes(op);
    EntryAt(c, j, w, op);
  }

  lemma EntryParts(c: Codec<JournalOp>, j: seq<Byte>, w: nat, op: JournalOp)
    requires w + EntrySize(c, op) <= |j| && j[w..w + EntrySize(c, op)] == EntryBytes(c, op)
    ensures w + PREFIX + |c.enc(op)| <= |j|
    ensures j[w..w + PREFIX] == LittleEndian(|c.enc(op)|, PREFIX)
    ensures j[w + PREFIX..w + PREFIX + |c.enc(op)|] == c.enc(op)
    ensures |c.enc(op)| == EntrySize(c, op) - PREFIX
  {
    hide LittleEndian;
    var len := |c.enc(op)|;
    var entry := j[w..w + EntrySize(c, op)];
    assert j[w..w + PREFIX] == entry[..PREFIX];
    assert j[w + PREFIX..w + PREFIX + len] == entry[PREFIX..];
  }

  lemma PrefixFits(len: nat)
    requires len <= BLOCK_SIZE
    ensures FromLittleEndian(LittleEndian(len, PREFIX)) == len
  {
    hide LittleEndian, FromLittleEndian;
    assert Power(256, 8) == 0x1_0000_0000_0000_0000;
    PrefixRoundTrip(len, PREFIX);
  }

  lemma EntryAt(c: Codec<JournalOp>, j: seq<Byte>, w: nat, op: JournalOp)
    requires |j| == JOURNAL_BYTES && w + PREFIX + |c.enc(op)| <= JOURNAL_BYTES
    requires w % BLOCK_SIZE + PREFIX + |c.enc(op)| <= BLOCK_SIZE
    requires FromLittleEndian(j[w..w + PREFIX]) == |c.enc(op)| > 0
    requires j[w + PREFIX..w + PREFIX + |c.enc(op)|] == c.enc(op) && c.dec(c.enc(op)) == Some(op)
    ensures ReadAt(c, j, w) == Entry(op, w + EntrySize(c, op))
  {
    hide FromLittleEndian;
  }

  lemma AppendEntry(c: Codec<JournalOp>, j: seq<Byte>, k: seq<Byte>, w: nat, since: seq<JournalOp>, tail: Tail,
                    zeroEnd: nat, op: JournalOp)
    requires c.Lawful() && Holds(c, j, w, since, tail, zeroEnd)
    requires w % BLOCK_SIZE + EntrySize(c, op) <= BLOCK_SIZE && w + EntrySize(c, op) <= JOURNAL_BYTES
    requires k == j[..w] + EntryBytes(c, op) + j[w + EntrySize(c, op)..]
    ensures Holds(c, k, w + EntrySize(c, op), since + [op], tail, zeroEnd)
  {
    hide LittleEndian, ReadAt, OpsTo;
    assert k[..w] == j[..w];
    if tail.Live? {
      OpsToFrame(c, j, k, 0, w);
      assert k[w..w + EntrySize(c, op)] == EntryBytes(c, op);
      EntryReads(c, k, w, op);
      OpsToStep(c, k, 0, w);
    }
    if tail.Halted? {
      assert k[..tail.at] == k[..w][..tail.at] == j[..tail.at];
      OpsToFrame(c, j, k, 0, tail.at);
      assert (since + [op])[..tail.seen] == since[..tail.seen];
    }
  }

  /** Leaving the rest of a block unused: a scan stops there unless no length prefix would fit. */
  function SkipTail(w: nat, since: seq<JournalOp>, tail: Tail, zeroEnd: nat): Tail {
    if !tail.Live? || w % BLOCK_SIZE + PREFIX > BLOCK_SIZE then tail
    else if w + PREFIX <= zeroEnd then Halted(w, |since|)
    else Lost
  }

  lemma SkipBlock(c: Codec<JournalOp>, j: seq<Byte>, w: nat, since: seq<JournalOp>, tail: Tail, zeroEnd: nat)
    requires Holds(c, j, w, since, tail, zeroEnd) && w % BLOCK_SIZE > 0
    ensures Holds(c, j, (w / BLOCK_SIZE + 1) * BLOCK_SIZE, since, SkipTail(w, since, tail, zeroEnd), zeroEnd)
  {
    hide OpsTo;
    if tail.Live? {
      if w % BLOCK_SIZE + PREFIX > BLOCK_SIZE {
        assert ReadAt(c, j, w) == Skip((w / BLOCK_SIZE + 1) * BLOCK_SIZE);
        OpsToStep(c, j, 0, w);
      } else {
        assert since[..|since|] == since;
      }
    }
  }

  // ----- the open-transaction fold

  datatype Open = Open(ids: set<nat>, count: nat)

  const NOTHING_OPEN: Open := Open({}, 0)

  function Follow(o: Open, op: JournalOp): Open {
    match op
    case BeginOp(id, _) => o.(ids := o.ids + {id})
    case EndOp(id) => o.(ids := o.ids - {id})
    case BeginCreate(_, _) => o.(count := o.count + 1)
    case BeginWrite(_) => o.(count := o.count + 1)
    case EndCreate(_) => if o.count > 0 then o.(count := o.count - 1) else o
    case EndWrite(_) => if o.count > 0 then o.(count := o.count - 1) else o
  }

  function FoldFrom(o: Open, ops: seq<JournalOp>): Open
    decreases ops
  {
    if ops == [] then o else FoldFrom(Follow(o, ops[0]), ops[1..])
  }

  predicate IsDirty(o: Open) { o.ids != {} || o.count > 0 }

  /** What recovery should report for a log. */
  predicate Dirty(ops: seq<JournalOp>) { IsDirty(FoldFrom(NOTHING_OPEN, ops)) }

  /** How many more creations and writes a stretch of a log begins than ends. */
  function Balance(ops: seq<JournalOp>): int {
    if ops == [] then 0
    else
      var last := ops[|ops| - 1];
      Balance(ops[..|ops| - 1])
      + if last.BeginCreate? || last.BeginWrite? then 1 else if last.EndCreate? || last.EndWrite? then -1 else 0
  }

  /** Entry `i` begins an operation that no later entry ends. */
  ghost predicate Unended(ops: seq<JournalOp>, i: nat) {
    i < |ops| && ops[i].BeginOp? && EndOp(ops[i].opId) !in ops[i + 1..]
  }

  /**
   * A log ends inside of what it begins: an operation without its end after it, or more begun than ended at
   * its end.
   */
  ghost predicate LeftOpen(ops: seq<JournalOp>) {
    || (exists i: nat :: Unended(ops, i))
    || (exists i :: 0 <= i <= |ops| && Balance(ops[i..]) > 0)
  }

  lemma FoldLast(ops: seq<JournalOp>, op: JournalOp)
    ensures FoldFrom(NOTHING_OPEN, ops + [op]) == Follow(FoldFrom(NOTHING_OPEN, ops), op)
  {
    hide Follow;
    FoldAppend(NOTHING_OPEN, ops, [op]);
    assert [op][1..] == [];
  }

  lemma BalanceLast(ops: seq<JournalOp>, op: JournalOp, i: nat)
    requires i <= |ops|
    ensures Balance((ops + [op])[i..])
         == Balance(ops[i..])
            + if op.BeginCreate? || op.BeginWrite? then 1 else if op.EndCreate? || op.EndWrite? then -1 else 0
  {
    var s := (ops + [op])[i..];
    assert s == ops[i..] + [op] && s[..|s| - 1] == ops[i..];
  }

  /** The counter is the largest balance of an end of the log. */
  lemma {:induction false} CountIsBalance(ops: seq<JournalOp>)
    ensures forall i :: 0 <= i <= |ops| ==> Balance(ops[i..]) <= FoldFrom(NOTHING_OPEN, ops).count
    ensures exists i :: 0 <= i <= |ops| && Balance(ops[i..]) == FoldFrom(NOTHING_OPEN, ops).count
  {
    if ops == [] {
      assert Balance(ops[0..]) == 0;
    } else {
      var front, op := ops[..|ops| - 1], ops[|ops| - 1];
      assert ops == front + [op] && ops[|ops|..] == [];
      CountIsBalance(front);
      FoldLast(front, op);
      forall i: nat | i <= |front|
        ensures Balance(ops[i..])
             == Balance(front[i..])
                + if op.BeginCreate? || op.BeginWrite? then 1 else if op.EndCreate? || op.EndWrite? then -1 else 0
      {
        BalanceLast(front, op, i);
      }
      var i :| 0 <= i <= |front| && Balance(front[i..]) == FoldFrom(NOTHING_OPEN, front).count;
      assert Balance(ops[|ops|..]) == 0;
      assert Balance(ops[i..]) == FoldFrom(NOTHING_OPEN, ops).count || FoldFrom(NOTHING_OPEN, ops).count == 0;
    }
  }

  lemma {:induction false} OpenIds(ops: seq<JournalOp>, id: nat)
    ensures id in FoldFrom(NOTHING_OPEN, ops).ids <==>
              exists i: nat :: Unended(ops, i) && ops[i].opId == id
  {
    if ops != [] {
      var front, op := ops[..|ops| - 1], ops[|ops| - 1];
      assert ops == front + [op];
      OpenIds(front, id);
      FoldLast(front, op);
      forall i: nat | i < |front|
        ensures Unended(ops, i) <==> Unended(front, i) && op != EndOp(front[i].opId)
      {
        assert ops[i + 1..] == front[i + 1..] + [op];
      }
      assert ops[|front| + 1..] == [];
    }
  }

  /** What recovery reports for any log: whether it ends inside of what it begins. */
  lemma DirtyIff(ops: seq<JournalOp>)
    ensures Dirty(ops) <==> LeftOpen(ops)
  {
    hide FoldFrom, Balance, Unended;
    CountIsBalance(ops);
    if i: nat :| Unended(ops, i) {
      UnendedAt(ops, i);
      OpenIds(ops, ops[i].opId);
    }
    if id :| id in FoldFrom(NOTHING_OPEN, ops).ids {
      OpenIds(ops, id);
    }
  }

  lemma UnendedAt(ops: seq<JournalOp>, i: nat)
    requires Unended(ops, i)
    ensures i < |ops| && ops[i].BeginOp?
  {
  }

  lemma {:induction false} FoldAppend(o: Open, before: seq<JournalOp>, after: seq<JournalOp>)
    ensures FoldFrom(o, before + after) == FoldFrom(FoldFrom(o, before), after)
    decreases before
  {
    if before == [] {
      assert before + after == after;
    } else {
      assert (before + after)[1..] == before[1..] + after;
      FoldAppend(Follow(o, before[0]), before[1..], after);
    }
  }

  // ----- the journal itself

  lemma ScanStep(c: Codec<JournalOp>, j: seq<Byte>, off: nat, o: Open)
    requires |j| == JOURNAL_BYTES
    ensures var r := ReadAt(c, j, off);
            FoldFrom(o, Scan(c, j, off)) ==
              if r.Halt? then o
              else if r.Skip? then FoldFrom(o, Scan(c, j, r.next))
              else FoldFrom(Follow(o, r.op), Scan(c, j, r.next))
  {
    var r := ReadAt(c, j, off);
    if r.Entry? {
      assert ([r.op] + Scan(c, j, r.next))[1..] == Scan(c, j, r.next);
    }
  }

  class Journal {
    var writeOffset: nat
    const codec: Codec<JournalOp>
    /** How many bytes of the journal are zero when logging starts. */
    ghost const clean: nat
    /** Everything logged, and the part of it written since the last return to the start. */
    ghost var logged: seq<JournalOp>
    ghost var base: nat
    ghost var tail: Tail
    ghost var zeroEnd: nat

    ghost predicate HoldsOn(blocks: seq<seq<Byte>>)
      reads this
    {
      && codec.Lawful()
      && WholeBlocks(blocks) && JOURNAL_END <= |blocks|
      && base <= |logged| && AllFit(codec, logged)
      && Holds(codec, Region(blocks), writeOffset, logged[base..], tail, zeroEnd)
    }

    /**
     * While the log and `more` bytes fit the first block, which was zero at the start, the log stands where
     * it ends.
     */
    ghost predicate InPlaceFor(more: nat)
      reads this
    {
      clean >= BLOCK_SIZE && LogSize(codec, logged) + more <= BLOCK_SIZE ==>
        base == 0 && writeOffset == LogSize(codec, logged) && zeroEnd >= BLOCK_SIZE
    }

    ghost predicate ValidOn(blocks: seq<seq<Byte>>)
      reads this
    {
      && HoldsOn(blocks) && InPlaceFor(0)
      && (clean >= JOURNAL_BYTES ==> StandsAt(codec, logged, writeOffset, base, tail, zeroEnd))
    }

    /** Ready to write `op`, here or further on. */
    ghost predicate ReadyFor(op: JournalOp, blocks: seq<seq<Byte>>)
      reads this
    {
      && HoldsOn(blocks) && EntrySize(codec, op) <= BLOCK_SIZE && InPlaceFor(EntrySize(codec, op))
      && AllFit(codec, logged + [op])
      && (clean >= JOURNAL_BYTES ==> HeadsFor(codec, logged, op, writeOffset, base, tail, zeroEnd))
    }

    lemma GetsReady(op: JournalOp, blocks: seq<seq<Byte>>)
      requires ValidOn(blocks) && EntrySize(codec, op) <= BLOCK_SIZE
      ensures ReadyFor(op, blocks)
    {
      hide *;
      ValidParts(op, blocks);
      if clean >= JOURNAL_BYTES {
        SetsOut(codec, logged, op, writeOffset, base, tail, zeroEnd);
      }
      MakeReady(op, blocks);
    }

    lemma ValidParts(op: JournalOp, blocks: seq<seq<Byte>>)
      requires ValidOn(blocks) && EntrySize(codec, op) <= BLOCK_SIZE
      ensures HoldsOn(blocks) && InPlaceFor(EntrySize(codec, op)) && AllFit(codec, logged)
      ensures AllFit(codec, logged + [op])
      ensures clean >= JOURNAL_BYTES ==> StandsAt(codec, logged, writeOffset, base, tail, zeroEnd)
    {
      hide Holds, Region;
    }

    lemma ReadyParts(op: JournalOp, blocks: seq<seq<Byte>>)
      requires ReadyFor(op, blocks)
      ensures AllFit(codec, logged) && AllFit(codec, logged + [op])
      ensures clean >= JOURNAL_BYTES ==> HeadsFor(codec, logged, op, writeOffset, base, tail, zeroEnd)
    {
    }

    lemma MakeReady(op: JournalOp, blocks: seq<seq<Byte>>)
      requires HoldsOn(blocks) && EntrySize(codec, op) <= BLOCK_SIZE && InPlaceFor(EntrySize(codec, op))
      requires AllFit(codec, logged)
      requires AllFit(codec, logged + [op])
      requires clean >= JOURNAL_BYTES ==> HeadsFor(codec, logged, op, writeOffset, base, tail, zeroEnd)
      ensures ReadyFor(op, blocks)
    {
      hide Holds, Region;
    }

    lemma MakeValid(blocks: seq<seq<Byte>>)
      requires HoldsOn(blocks) && InPlaceFor(0) && AllFit(codec, logged)
      requires clean >= JOURNAL_BYTES ==> StandsAt(codec, logged, writeOffset, base, tail, zeroEnd)
      ensures ValidOn(blocks)
    {
    }

    /** While the log fits its first block, less the room for a prefix, recovery reads all of it and nothing else. */
    lemma ScanIsLog(blocks: seq<seq<Byte>>)
      requires ValidOn(blocks) && clean >= BLOCK_SIZE && LogSize(codec, logged) + PREFIX <= BLOCK_SIZE
      ensures Scan(codec, Region(blocks), 0) == logged
    {
      hide Holds, Region, Scan, StandsAt;
      ScanIsPrefix(codec, Region(blocks), writeOffset, logged[base..], tail, zeroEnd);
      assert logged[0..] == logged;
    }

    lemma RegionThere(blocks: seq<seq<Byte>>)
      requires ValidOn(blocks)
      ensures WholeBlocks(blocks) && JOURNAL_END <= |blocks|
    {
    }

    /**
     * On a journal that was zero at the start, recovery reads what was logged before the first gap, until the
     * log wraps.
     */
    lemma ScanStopsAtGap(blocks: seq<seq<Byte>>)
      requires ValidOn(blocks) && clean >= JOURNAL_BYTES && BeforeWrap(codec, logged)
      ensures Scan(codec, Region(blocks), 0) == logged[..BeforeGap(codec, logged)]
      ensures Scan(codec, Region(blocks), 0) == logged <==>
                forall i :: 0 <= i < |logged| ==> FollowsOn(codec, logged, i)
    {
      hide Holds, Region, Scan, EndOf, BeforeWrap, BeforeGap, FollowsOn;
      ScanIsPrefix(codec, Region(blocks), writeOffset, logged[base..], tail, zeroEnd);
      assert logged[0..] == logged && logged[..|logged|] == logged;
      NoGapIff(codec, logged);
    }

    /** A journal at its start, on a device whose first `clean` journal bytes are zero, or about to be. */
    constructor (codec: Codec<JournalOp>, ghost blocks: seq<seq<Byte>>, ghost clean: nat)
      requires codec.Lawful()
      ensures this.codec == codec && this.clean == clean && logged == [] && base == 0 && writeOffset == 0
      ensures WholeBlocks(blocks) && JOURNAL_END <= |blocks| && (clean > 0 ==> ZeroBytes(Region(blocks), 0, clean)) ==>
                ValidOn(blocks)
    {
      this.writeOffset, this.codec, this.clean := 0, codec, clean;
      logged, base, tail, zeroEnd := [], 0, Live, clean;
    }

    /** Back to the start. Only the first block is cleared, and made if the device ends before it. */
    method Reset(device: Device) returns (r: Result<()>)
      requires device.Valid() && codec.Lawful() && base <= |logged|
      modifies this, device
      ensures device.Valid()
      ensures logged == old(logged) && base <= |logged|
      ensures r.Ok? ==>
                && old(device.HasPlace(JOURNAL_START))
                && device.blocks == Put(old(device.blocks), JOURNAL_START, Zeros(BLOCK_SIZE))
                && writeOffset == 0 && base == |logged| && tail == Live
                && zeroEnd == if Blank(old(device.blocks)) then JOURNAL_BYTES else BLOCK_SIZE
      ensures r.Err? ==> device.blocks == old(device.blocks)
      ensures device.reliable && old(device.HasPlace(JOURNAL_START)) ==> r.Ok?
    {
      ghost var blank := Blank(device.blocks);
      writeOffset := 0;
      r := device.WriteBlock(JOURNAL_START, Zeros(BLOCK_SIZE));
      if r.Ok? {
        base, tail := |logged|, Live;
        zeroEnd := if blank then JOURNAL_BYTES else BLOCK_SIZE;
      }
    }

    /** A journal that was reset stands on every device that is zero as far as it says. */
    lemma StartsOn(blocks: seq<seq<Byte>>)
      requires codec.Lawful() && writeOffset == 0 && base == |logged| && tail == Live && AllFit(codec, logged)
      requires WholeBlocks(blocks) && JOURNAL_END <= |blocks| && ZeroBytes(Region(blocks), 0, zeroEnd)
      ensures HoldsOn(blocks)
      ensures logged == [] && zeroEnd >= clean ==> ValidOn(blocks)
    {
      hide Region, Holds;
      EmptyHolds(codec, Region(blocks), zeroEnd);
      assert logged[base..] == [];
      assert LogSize(codec, []) == 0;
    }

    /** Appends one entry, at the next place where it does not straddle two blocks. */
    method Log(device: Device, op: JournalOp) returns (r: Result<()>)
      requires device.Valid() && EntrySize(codec, op) <= BLOCK_SIZE
      requires ValidOn(device.blocks) || ReadyFor(op, device.blocks)
      modifies this, device
      ensures device.Valid()
      ensures AgreeOutside(old(device.blocks), device.blocks, JOURNAL_START, JOURNAL_END)
      ensures r.Ok? ==> ValidOn(device.blocks) && logged == old(logged) + [op]
      ensures r.Ok? ==> writeOffset == Settle(old(writeOffset), EntrySize(codec, op)) + EntrySize(codec, op)
      ensures r.Ok? && old(writeOffset) + EntrySize(codec, op) <= JOURNAL_BYTES ==>
                base == old(base) && zeroEnd == old(zeroEnd)
      ensures device.reliable ==> r.Ok?
      decreases if Attempt(writeOffset, EntrySize(codec, op)).None? then 0 else 1
    {
      hide Holds, Region, LittleEndian, HeadsFor, StandsAt, ValidOn, ReadyFor, InPlaceFor;
      if ValidOn(device.blocks) {
        GetsReady(op, device.blocks);
      }
      ReadyNow(op, device.blocks);
      var bytes := codec.enc(op);
      var totalLen := PREFIX + |bytes|;
      if writeOffset + totalLen > JOURNAL_BYTES {
        r := Wrap(device, op);
        if r.Err? {
          return;
        }
      }
      var blockIdx := writeOffset / BLOCK_SIZE;
      var offsetInBlock := writeOffset % BLOCK_SIZE;
      var physicalBlock := JOURNAL_START + blockIdx;
      if offsetInBlock + totalLen > BLOCK_SIZE {
        ToNextBlock(device, op);
        r := Log(device, op);
        return;
      }
      r := WriteEntry(device, op, bytes);
    }

    /** Back to the start for an entry that no longer fits: no claim about places is left. */
    method Wrap(device: Device, ghost op: JournalOp) returns (r: Result<()>)
      requires device.Valid() && ReadyFor(op, device.blocks) && writeOffset + EntrySize(codec, op) > JOURNAL_BYTES
      modifies this, device
      ensures device.Valid() && AgreeOutside(old(device.blocks), device.blocks, JOURNAL_START, JOURNAL_START + 1)
      ensures r.Ok? ==> ReadyFor(op, device.blocks) && writeOffset == 0 && logged == old(logged)
      ensures device.reliable ==> r.Ok?
    {
      hide Holds, Region, HeadsFor, StandsAt, ValidOn, ReadyFor;
      ReadyNow(op, device.blocks);
      ReadyParts(op, device.blocks);
      PastFirst(op, device.blocks);
      ghost var before, w, base0, tail0, end0 := device.blocks, writeOffset, base, tail, zeroEnd;
      r := Reset(device);
      if r.Ok? {
        ClearedRegion(before, device.blocks);
        StartsOn(device.blocks);
        if clean >= JOURNAL_BYTES {
          NoPlaceLeft(codec, logged, op, w, base0, tail0, end0);
          HeadsNowhere(codec, logged, op, writeOffset, base, tail, zeroEnd);
        }
        MakeReady(op, device.blocks);
      }
    }

    lemma ReadyNow(op: JournalOp, blocks: seq<seq<Byte>>)
      requires ReadyFor(op, blocks)
      ensures codec.Lawful() && base <= |logged| && WholeBlocks(blocks) && JOURNAL_END <= |blocks|
      ensures writeOffset <= JOURNAL_BYTES && AllFit(codec, logged) && EntrySize(codec, op) <= BLOCK_SIZE
    {
    }

    lemma PastFirst(op: JournalOp, blocks: seq<seq<Byte>>)
      requires ReadyFor(op, blocks) && writeOffset + EntrySize(codec, op) > JOURNAL_BYTES
      ensures clean < BLOCK_SIZE || LogSize(codec, logged) + EntrySize(codec, op) > BLOCK_SIZE
    {
      hide Holds, Region, HeadsFor;
    }

    /** Leaves the rest of the current block unused. */
    method ToNextBlock(ghost device: Device, ghost op: JournalOp)
      requires ReadyFor(op, device.blocks) && writeOffset + EntrySize(codec, op) <= JOURNAL_BYTES
      requires writeOffset % BLOCK_SIZE + EntrySize(codec, op) > BLOCK_SIZE
      modifies this
      ensures ReadyFor(op, device.blocks)
      ensures logged == old(logged) && base == old(base) && zeroEnd == old(zeroEnd)
      ensures writeOffset == (old(writeOffset) / BLOCK_SIZE + 1) * BLOCK_SIZE
    {
      hide Holds, Region, HeadsFor, StandsAt;
      SkipBlock(codec, Region(device.blocks), writeOffset, logged[base..], tail, zeroEnd);
      if clean >= JOURNAL_BYTES {
        HeadsMove(op);
      }
      tail := SkipTail(writeOffset, logged[base..], tail, zeroEnd);
      writeOffset := (writeOffset / BLOCK_SIZE + 1) * BLOCK_SIZE;
    }

    lemma HeadsMove(op: JournalOp)
      requires AllFit(codec, logged) && EntrySize(codec, op) <= BLOCK_SIZE && AllFit(codec, logged + [op])
      requires base <= |logged|
      requires HeadsFor(codec, logged, op, writeOffset, base, tail, zeroEnd)
      requires writeOffset + EntrySize(codec, op) <= JOURNAL_BYTES
      requires writeOffset % BLOCK_SIZE + EntrySize(codec, op) > BLOCK_SIZE
      ensures HeadsFor(codec, logged, op, (writeOffset / BLOCK_SIZE + 1) * BLOCK_SIZE, base,
                       SkipTail(writeOffset, logged[base..], tail, zeroEnd), zeroEnd)
    {
      hide EndOf, BeforeWrap, BeforeGap, Settle, SkipTail;
      if BeforeWrap(codec, logged + [op]) {
        MovesOn(codec, logged, op, writeOffset, base, tail, zeroEnd);
        assert logged[0..] == logged;
      }
    }

    /** Writes an entry where the journal stands. */
    method WriteEntry(device: Device, op: JournalOp, bytes: seq<Byte>) returns (r: Result<()>)
      requires device.Valid() && ReadyFor(op, device.blocks) && bytes == codec.enc(op)
      requires writeOffset % BLOCK_SIZE + PREFIX + |bytes| <= BLOCK_SIZE
      requires writeOffset + PREFIX + |bytes| <= JOURNAL_BYTES
      modifies this, device
      ensures device.Valid()
      ensures AgreeOutside(old(device.blocks), device.blocks, JOURNAL_START, JOURNAL_END)
      ensures r.Ok? ==> ValidOn(device.blocks) && logged == old(logged) + [op]
      ensures r.Ok? ==>
                writeOffset == old(writeOffset) + PREFIX + |bytes| && base == old(base) && zeroEnd == old(zeroEnd)
      ensures device.reliable ==> r.Ok?
    {
      hide Holds, Region, LittleEndian, HeadsFor, StandsAt;
      var physicalBlock := JOURNAL_START + writeOffset / BLOCK_SIZE;
      var o := writeOffset % BLOCK_SIZE;
      var block := device.ReadBlock(physicalBlock);
      if block.Err? {
        return Err(block.error);
      }
      var entry := LittleEndian(|bytes|, PREFIX) + bytes;
      var updated := block.value[..o] + entry + block.value[o + |entry|..];
      ghost var before := device.blocks;
      r := device.WriteBlock(physicalBlock, updated);
      if r.Ok? {
        RegionWrite(before, device.blocks, writeOffset, entry);
        AppendEntry(codec, Region(before), Region(device.blocks), writeOffset, logged[base..], tail, zeroEnd, op);
        if clean >= JOURNAL_BYTES {
          Arrives(codec, logged, op, writeOffset, base, tail, zeroEnd);
        }
        assert (logged + [op])[base..] == logged[base..] + [op];
        assert (logged + [op])[..|logged|] == logged;
        logged := logged + [op];
        writeOffset := writeOffset + |entry|;
      }
    }

    /** One step of the recovery scan, from the bytes of the block that holds `offset`. */
    method ReadEntry(device: Device, offset: nat) returns (r: Result<Reading>)
      requires device.Valid()
      ensures r.Ok? && JOURNAL_END <= |device.blocks| ==> r.value == ReadAt(codec, Region(device.blocks), offset)
      ensures r.Ok? && !r.value.Halt? ==> offset < r.value.next <= JOURNAL_BYTES
      ensures device.reliable && JOURNAL_END <= |device.blocks| ==> r.Ok?
    {
      hide FromLittleEndian, Region;
      if offset >= JOURNAL_BYTES {
        return Ok(Halt);
      }
      var blockIdx, o := offset / BLOCK_SIZE, offset % BLOCK_SIZE;
      if o + PREFIX > BLOCK_SIZE {
        return Ok(Skip((blockIdx + 1) * BLOCK_SIZE));
      }
      var block := device.ReadBlock(JOURNAL_START + blockIdx);
      if block.Err? {
        return Err(block.error);
      }
      if JOURNAL_END <= |device.blocks| {
        RegionSlice(device.blocks, offset, PREFIX);
      }
      var len := FromLittleEndian(block.value[o..o + PREFIX]);
      if len == 0 || o + PREFIX + len > BLOCK_SIZE {
        return Ok(Halt);
      }
      if JOURNAL_END <= |device.blocks| {
        RegionSlice(device.blocks, offset + PREFIX, len);
      }
      match codec.dec(block.value[o + PREFIX..o + PREFIX + len])
      case None => return Ok(Halt);
      case Some(op) => return Ok(Entry(op, offset + PREFIX + len));
    }

    /** What one operation does to the open ones. */
    static method FollowOp(openOps: set<nat>, openTransactionCount: nat, op: JournalOp)
      returns (ops: set<nat>, count: nat)
      ensures Open(ops, count) == Follow(Open(openOps, openTransactionCount), op)
    {
      ops, count := openOps, openTransactionCount;
      match op {
        case BeginOp(opId, _) => ops := ops + {opId};
        case EndOp(opId) => ops := ops - {opId};
        case BeginCreate(_, _) => count := count + 1;
        case BeginWrite(_) => count := count + 1;
        case EndCreate(_) =>
          if count > 0 {
            count := count - 1;
          }
        case EndWrite(_) =>
          if count > 0 {
            count := count - 1;
          }
      }
    }

    /** Scans the journal for operations that were begun and not ended. */
    method CheckRecovery(device: Device) returns (r: Result<bool>)
      requires device.Valid()
      ensures r.Ok? && JOURNAL_END <= |device.blocks| ==> r.value == Dirty(Scan(codec, Region(device.blocks), 0))
      ensures device.reliable && JOURNAL_END <= |device.blocks| ==> r.Ok?
    {
      hide Region, Scan, FoldFrom, ReadAt, Follow;
      ghost var large := JOURNAL_END <= |device.blocks|;
      ghost var j := if large then Region(device.blocks) else Zeros(JOURNAL_BYTES);
      var offset := 0;
      var openOps: set<nat> := {};
      var openTransactionCount: nat := 0;
      while true
        invariant large ==>
                    FoldFrom(NOTHING_OPEN, Scan(codec, j, 0))
                        == FoldFrom(Open(openOps, openTransactionCount), Scan(codec, j, offset))
        decreases if offset < JOURNAL_BYTES then JOURNAL_BYTES - offset else 0
      {
        var reading := ReadEntry(device, offset);
        if reading.Err? {
          return Err(reading.error);
        }
        ScanStep(codec, j, offset, Open(openOps, openTransactionCount));
        match reading.value {
          case Halt =>
            break;
          case Skip(next) =>
            offset := next;
          case Entry(op, next) =>
            openOps, openTransactionCount := FollowOp(openOps, openTransactionCount, op);
            offset := next;
        }
      }
      r := Ok(openOps != {} || openTransactionCount > 0);
    }
  }
}
