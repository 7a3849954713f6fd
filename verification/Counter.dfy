/** The free-block counter and the set of used blocks: what taking and giving back blocks does to both. */
module Counter {
  import opened Storage
  import opened Types
  import opened Bitmap
  import opened Image

  /** The counter is right: it is the number of clear bits below the block count. */
  ghost predicate CountsClear(sb: Superblock, used: set<nat>) { sb.freeBlocks == |Range(sb.blockCount) - used| }

  /** All used blocks lie below `limit`. */
  ghost predicate Below(used: set<nat>, limit: nat) {
    forall b :: b in used ==> b < limit
  }

  /** The used blocks that the block count covers, and those past it. */
  ghost function Low(used: set<nat>, limit: nat): set<nat> { used * Range(limit) }

  ghost function Past(used: set<nat>, limit: nat): set<nat> { used - Range(limit) }

  // ----- sizes of sets

  lemma SetSize(s: set<nat>, t: set<nat>)
    requires s <= t
    ensures |s| <= |t| && |t - s| == |t| - |s|
  {
    assert t == s + (t - s);
  }

  lemma SubsetSize(s: set<nat>, limit: nat)
    requires Below(s, limit)
    ensures |s| <= limit
  {
    assert s <= Range(limit);
    SetSize(s, Range(limit));
  }

  /** A block outside the used ones leaves room below the limit. */
  lemma RoomLeft(used: set<nat>, limit: nat, b: nat)
    requires Below(used, limit) && b < limit && b !in used
    ensures |used| < limit
  {
    SubsetSize(used + {b}, limit);
    assert |used + {b}| == |used| + 1;
  }

  lemma NoRoomLeft(used: set<nat>, limit: nat)
    requires forall x: nat :: x < limit ==> x in used
    ensures |used| >= limit
  {
    assert Range(limit) <= used;
    SetSize(Range(limit), used);
  }

  lemma FullRange(used: set<nat>, limit: nat)
    requires Below(used, limit) && |used| >= limit
    ensures used == Range(limit)
  {
    assert used <= Range(limit);
    SetSize(used, Range(limit));
    assert |Range(limit) - used| == 0;
  }

  lemma OneMore(used: set<nat>, b: nat)
    requires b !in used
    ensures |used + {b}| == |used| + 1
  {
  }

  // ----- taking blocks

  /** The superblock after `n` blocks were taken: the counter stays at zero. */
  function Lowered(sb: Superblock, n: nat): Superblock {
    sb.(freeBlocks := if n <= sb.freeBlocks then sb.freeBlocks - n else 0)
  }

  function OneTaken(sb: Superblock): Superblock { Lowered(sb, 1) }

  /** The `n` least free blocks were taken: below each of them all is in use. */
  ghost predicate Took(sb0: Superblock, used0: set<nat>, sb: Superblock, used: set<nat>, n: nat) {
    && sb == Lowered(sb0, n)
    && used0 <= used && |used| == |used0| + n
    && forall b, x: nat :: b in used && b !in used0 && x < b ==> x in used
  }

  lemma TookNone(sb: Superblock, used: set<nat>)
    ensures Took(sb, used, sb, used, 0)
  {
  }

  lemma TookOne(sb: Superblock, used: set<nat>, limit: nat, b: nat)
    requires IsLeastFree(used, limit, Some(b))
    ensures Took(sb, used, OneTaken(sb), used + {b}, 1)
  {
    OneMore(used, b);
  }

  lemma OneTakenKeeps(sb: Superblock)
    ensures OneTaken(sb) == sb.(freeBlocks := OneTaken(sb).freeBlocks) && OneTaken(sb).freeBlocks <= sb.freeBlocks
    ensures OneTaken(sb) == if sb.freeBlocks > 0 then sb.(freeBlocks := sb.freeBlocks - 1) else sb
  {
  }

  /** The least free block below `limit` was taken. */
  ghost predicate TookLeast(sb0: Superblock, used0: set<nat>, sb: Superblock, used: set<nat>, limit: nat, b: nat) {
    && sb == OneTaken(sb0) && Took(sb0, used0, sb, used, 1)
    && IsLeastFree(used0, limit, Some(b)) && used == used0 + {b}
  }

  lemma TakesLeast(sb: Superblock, used: set<nat>, limit: nat, b: nat)
    requires IsLeastFree(used, limit, Some(b))
    ensures TookLeast(sb, used, OneTaken(sb), used + {b}, limit, b)
  {
    hide Took, IsLeastFree, OneTaken;
    TookOne(sb, used, limit, b);
  }

  lemma TookLeastParts(sb0: Superblock, used0: set<nat>, sb: Superblock, used: set<nat>, limit: nat, b: nat)
    requires TookLeast(sb0, used0, sb, used, limit, b)
    ensures sb == OneTaken(sb0) && Took(sb0, used0, sb, used, 1)
    ensures IsLeastFree(used0, limit, Some(b)) && used == used0 + {b}
  {
  }

  lemma TookMore(sb0: Superblock, used0: set<nat>, sb1: Superblock, used1: set<nat>, sb2: Superblock, used2: set<nat>,
                 n: nat, m: nat)
    requires Took(sb0, used0, sb1, used1, n) && Took(sb1, used1, sb2, used2, m)
    ensures Took(sb0, used0, sb2, used2, n + m)
  {
  }

  lemma TookKeeps(sb0: Superblock, used0: set<nat>, sb: Superblock, used: set<nat>, n: nat)
    requires Took(sb0, used0, sb, used, n)
    ensures sb == sb0.(freeBlocks := sb.freeBlocks) && sb.freeBlocks <= sb0.freeBlocks
    ensures used0 <= used && |used| == |used0| + n
    ensures LaidOut(sb0) ==> LaidOut(sb)
  {
  }

  /** Taking blocks keeps a right counter right, whatever the allocator's limit. */
  lemma TakingKeepsCount(sb0: Superblock, used0: set<nat>, sb: Superblock, used: set<nat>, n: nat)
    requires CountsClear(sb0, used0) && Took(sb0, used0, sb, used, n)
    ensures CountsClear(sb, used)
  {
    var all, taken := Range(sb0.blockCount), used - used0;
    SetSize(used0, used);
    assert all - used == (all - used0) - taken;
    if b: nat :| b in taken && b >= sb0.blockCount {
      assert all - used == {};
      SetSize(all - used0, taken);
    } else {
      SetSize(taken, all - used0);
    }
  }

  /**
   * While all used blocks lie below a limit, they still do after taking some exactly if there is room for
   * that many.
   */
  lemma TakingStaysBelowIff(sb0: Superblock, used0: set<nat>, sb: Superblock, used: set<nat>, n: nat, limit: nat)
    requires Took(sb0, used0, sb, used, n) && Below(used0, limit)
    ensures Below(used, limit) <==> |used0| + n <= limit
  {
    if Below(used, limit) {
      SubsetSize(used, limit);
    } else {
      var b :| b in used && b >= limit;
      NoRoomLeft(used - {b}, limit);
      assert |used - {b}| == |used| - 1;
    }
  }

  /** Where all used blocks are counted, the counter and they make up the block count. */
  lemma FreeIsRest(sb: Superblock, used: set<nat>)
    requires CountsClear(sb, used) && Below(used, sb.blockCount)
    ensures sb.freeBlocks + |used| == sb.blockCount
  {
    SetSize(used, Range(sb.blockCount));
  }

  /** What an allocation says about the used blocks. */
  lemma FreshBlock(used: set<nat>, limit: nat, bound: nat, r: Result<nat>)
    requires r.Ok? ==> IsLeastFree(used, limit, Some(r.value))
    requires r.Err? ==> IsLeastFree(used, limit, None)
    ensures r.Ok? ==> r.value !in used && r.value < limit
    ensures r.Err? ==> |used| >= limit
    ensures r.Ok? && r.value >= bound ==> |used| >= bound
  {
    if r.Err? {
      NoRoomLeft(used, limit);
    } else if r.value >= bound {
      NoRoomLeft(used, bound);
    }
  }

  /** The length of a device that is made to end after the block taken: it grows only once it is full. */
  lemma GrowsWhenFull(used: set<nat>, limit: nat, b: nat, length: nat)
    requires Below(used, length) && IsLeastFree(used, limit, Some(b))
    ensures |used| <= length && (if b < length then |used| < length else b == |used| == length)
    ensures LengthFor(length, b + 1) == LengthFor(length, |used| + 1)
  {
    SubsetSize(used, length);
    if b < length {
      RoomLeft(used, length, b);
    } else {
      NoRoomLeft(used, length);
      FullRange(used, length);
      assert length !in used;
    }
  }

  // ----- giving blocks back

  /** The superblock after `k` blocks were given back: the counter stays at the block count. */
  function GivenBack(sb: Superblock, k: nat): Superblock {
    sb.(freeBlocks := if sb.freeBlocks + k <= sb.blockCount then sb.freeBlocks + k else sb.blockCount)
  }

  ghost predicate Freed(sb0: Superblock, used0: set<nat>, sb: Superblock, used: set<nat>) {
    sb0.freeBlocks <= sb0.blockCount && used <= used0 && sb == GivenBack(sb0, |used0 - used|)
  }

  lemma FreedNone(sb: Superblock, used: set<nat>)
    requires sb.freeBlocks <= sb.blockCount
    ensures Freed(sb, used, sb, used)
  {
    assert used - used == {};
  }

  lemma FreedOne(sb0: Superblock, used0: set<nat>, sb: Superblock, used: set<nat>, b: nat)
    requires Freed(sb0, used0, sb, used) && b in used
    ensures Freed(sb0, used0, GivenBack(sb, 1), used - {b})
  {
    assert used0 - (used - {b}) == (used0 - used) + {b};
  }

  lemma FreedMore(sb0: Superblock, used0: set<nat>, sb1: Superblock, used1: set<nat>, sb2: Superblock, used2: set<nat>)
    requires Freed(sb0, used0, sb1, used1) && Freed(sb1, used1, sb2, used2)
    ensures Freed(sb0, used0, sb2, used2)
  {
    assert used0 - used2 == (used0 - used1) + (used1 - used2);
    assert |used0 - used2| == |used0 - used1| + |used1 - used2|;
  }

  lemma FreedKeeps(sb0: Superblock, used0: set<nat>, sb: Superblock, used: set<nat>)
    requires Freed(sb0, used0, sb, used)
    ensures sb == sb0.(freeBlocks := sb.freeBlocks) && sb0.freeBlocks <= sb.freeBlocks <= sb.blockCount
    ensures LaidOut(sb0) ==> LaidOut(sb)
  {
  }

  /** Giving back one block keeps a right counter right exactly if the block is one that it counts. */
  lemma FreeingKeepsCountIff(sb: Superblock, used: set<nat>, b: nat)
    requires CountsClear(sb, used) && b in used && sb.freeBlocks < sb.blockCount
    ensures CountsClear(GivenBack(sb, 1), used - {b}) <==> b < sb.blockCount
  {
    var all := Range(sb.blockCount);
    if b < sb.blockCount {
      assert all - (used - {b}) == (all - used) + {b};
    } else {
      assert all - (used - {b}) == all - used;
    }
  }

  lemma FreedRaises(sb0: Superblock, used0: set<nat>, sb: Superblock, used: set<nat>)
    requires Freed(sb0, used0, sb, used)
    ensures var raised := sb0.freeBlocks + |used0 - used|;
            sb.freeBlocks == if raised <= sb.blockCount then raised else sb.blockCount
  {
  }

  // ----- replacing blocks

  /** The blocks `gone` were given back, and then `n` others taken. */
  ghost predicate Exchanged(sb0: Superblock, used0: set<nat>, gone: set<nat>, sb: Superblock, used: set<nat>, n: nat) {
    && sb0.freeBlocks <= sb0.blockCount && gone <= used0
    && Took(GivenBack(sb0, |gone|), used0 - gone, sb, used, n)
  }

  lemma NothingExchanged(sb0: Superblock, used0: set<nat>, sb: Superblock, used: set<nat>, n: nat)
    requires sb0.freeBlocks <= sb0.blockCount && Took(sb0, used0, sb, used, n)
    ensures Exchanged(sb0, used0, {}, sb, used, n)
  {
    assert used0 - {} == used0;
  }

  lemma FreedThenTook(sb0: Superblock, used0: set<nat>, sb1: Superblock, used1: set<nat>, sb2: Superblock,
                      used2: set<nat>, gone: set<nat>, n: nat)
    requires Freed(sb0, used0, sb1, used1) && Took(sb1, used1, sb2, used2, n)
    requires used1 == used0 - gone && gone <= used0
    ensures Exchanged(sb0, used0, gone, sb2, used2, n)
  {
    assert used0 - used1 == gone;
  }

  lemma ExchangedMore(sb0: Superblock, used0: set<nat>, gone: set<nat>, sb1: Superblock, used1: set<nat>,
                      sb2: Superblock, used2: set<nat>, n: nat, m: nat)
    requires Exchanged(sb0, used0, gone, sb1, used1, n) && Took(sb1, used1, sb2, used2, m)
    ensures Exchanged(sb0, used0, gone, sb2, used2, n + m)
  {
    TookMore(GivenBack(sb0, |gone|), used0 - gone, sb1, used1, sb2, used2, n, m);
  }

  lemma ExchangedKeeps(sb0: Superblock, used0: set<nat>, gone: set<nat>, sb: Superblock, used: set<nat>, n: nat)
    requires Exchanged(sb0, used0, gone, sb, used, n)
    ensures sb == sb0.(freeBlocks := sb.freeBlocks) && sb.freeBlocks <= sb.blockCount
    ensures gone <= used0 && used0 - gone <= used && |used| == |used0 - gone| + n
    ensures LaidOut(sb0) ==> LaidOut(sb)
  {
  }

  /** An exchange, and how long the device is after it: it grows only once it is full. */
  ghost predicate ExchangedOn(sb0: Superblock, used0: set<nat>, length0: nat, gone: set<nat>, sb: Superblock,
                              used: set<nat>, length: nat, n: nat) {
    Exchanged(sb0, used0, gone, sb, used, n) && length == LengthFor(length0, |used0 - gone| + n)
  }

  lemma ExchangedParts(sb0: Superblock, used0: set<nat>, length0: nat, gone: set<nat>, sb: Superblock, used: set<nat>,
                       length: nat, n: nat)
    requires ExchangedOn(sb0, used0, length0, gone, sb, used, length, n)
    ensures Exchanged(sb0, used0, gone, sb, used, n) && length == LengthFor(length0, |used0 - gone| + n)
    ensures length0 <= length
  {
  }

  lemma MakeExchanged(sb0: Superblock, used0: set<nat>, length0: nat, gone: set<nat>, sb: Superblock, used: set<nat>,
                      length: nat, n: nat)
    requires Exchanged(sb0, used0, gone, sb, used, n) && length == LengthFor(length0, |used0 - gone| + n)
    ensures ExchangedOn(sb0, used0, length0, gone, sb, used, length, n)
  {
  }

  /** An exchange fails for a lack of room exactly if there is not enough; otherwise the inode is too large. */
  ghost predicate ExchangeExcused(error: FsError, room: nat, used0: set<nat>, gone: set<nat>, n: nat) {
    && (error == InodeTooLarge || error == NoSpace || error.OutOfBounds?)
    && (error != InodeTooLarge <==> room < |used0 - gone| + n)
  }

  lemma ExcusedIs(error: FsError, room: nat, used0: set<nat>, gone: set<nat>, n: nat)
    requires error == InodeTooLarge || error == NoSpace || error.OutOfBounds?
    requires error != InodeTooLarge <==> room < |used0 - gone| + n
    ensures ExchangeExcused(error, room, used0, gone, n)
  {
  }

  lemma ExcusedKinds(error: FsError, room: nat, used0: set<nat>, gone: set<nat>, n: nat)
    requires ExchangeExcused(error, room, used0, gone, n)
    ensures error == InodeTooLarge || error == NoSpace || error.OutOfBounds?
  {
  }

  /**
   * What every call does to the counter and the used blocks: some are given back, and then the least free
   * ones taken.
   */
  ghost predicate Accounts(sb0: Superblock, used0: set<nat>, gone: set<nat>, sb: Superblock, used: set<nat>) {
    |used0 - gone| <= |used| && Exchanged(sb0, used0, gone, sb, used, |used| - |used0 - gone|)
  }

  lemma MakeAccounts(sb0: Superblock, used0: set<nat>, gone: set<nat>, sb: Superblock, used: set<nat>, n: nat)
    requires Exchanged(sb0, used0, gone, sb, used, n)
    ensures Accounts(sb0, used0, gone, sb, used)
    ensures sb.blockCount == sb0.blockCount && |used| == |used0 - gone| + n
  {
  }

  lemma TookAccounts(sb0: Superblock, used0: set<nat>, sb: Superblock, used: set<nat>, n: nat)
    requires sb0.freeBlocks <= sb0.blockCount && Took(sb0, used0, sb, used, n)
    ensures Accounts(sb0, used0, {}, sb, used)
    ensures sb.blockCount == sb0.blockCount && |used| == |used0| + n
  {
    NothingExchanged(sb0, used0, sb, used, n);
    assert used0 - {} == used0;
    MakeAccounts(sb0, used0, {}, sb, used, n);
  }

  /** What a call leaves of a right counter, and of used blocks that are all counted. */
  lemma AccountsFor(sb0: Superblock, used0: set<nat>, gone: set<nat>, sb: Superblock, used: set<nat>)
    requires Accounts(sb0, used0, gone, sb, used) && exists x :: x in used0 && x !in gone && x < sb0.blockCount
    ensures sb.blockCount == sb0.blockCount && |used0 - gone| <= |used|
    ensures CountsClear(sb0, used0) ==>
              (CountsClear(sb, used) <==> CountSurvives(sb0.blockCount, used0, gone, |used| - |used0 - gone|))
    ensures CountsClear(sb0, used0) && Below(used0, sb0.blockCount) ==> CountsClear(sb, used)
    ensures Below(used0, sb0.blockCount) ==> (Below(used, sb0.blockCount) <==> |used| <= sb0.blockCount)
  {
    var n := |used| - |used0 - gone|;
    if CountsClear(sb0, used0) {
      ExchangeKeepsCountIff(sb0, used0, gone, sb, used, n);
      if Below(used0, sb0.blockCount) {
        CountedSurvive(sb0.blockCount, used0, gone, n);
      }
    }
    if Below(used0, sb0.blockCount) {
      TakingStaysBelowIff(GivenBack(sb0, |gone|), used0 - gone, sb, used, n, sb0.blockCount);
    }
  }

  function Least(a: nat, b: nat): nat { if a < b then a else b }

  /**
   * The counter after `gone` was given back and `n` blocks taken is right exactly if as many blocks are taken after
   * the last clear one as it counted too many: those of `gone` that lie past the block count, as far as it can rise.
   */
  ghost predicate CountSurvives(blockCount: nat, used0: set<nat>, gone: set<nat>, n: nat) {
    var clear := |Range(blockCount) - (used0 - gone)|;
    Least(|Past(gone, blockCount)|, |Low(used0 - gone, blockCount)|) <= if n > clear then n - clear else 0
  }

  lemma ExchangeKeepsCountIff(sb0: Superblock, used0: set<nat>, gone: set<nat>, sb: Superblock, used: set<nat>, n: nat)
    requires CountsClear(sb0, used0) && Exchanged(sb0, used0, gone, sb, used, n)
    requires exists x :: x in used0 && x !in gone && x < sb0.blockCount
    ensures CountsClear(sb, used) <==> CountSurvives(sb0.blockCount, used0, gone, n)
  {
    hide Range, Low, Past;
    var bc, mid := sb0.blockCount, used0 - gone;
    BackCount(bc, used0, gone);
    LowRest(bc, mid);
    TakenCount(bc, mid, used);
    SetSize(mid, used);
    assert |used - mid| == n;
  }

  /** The clear bits after giving back: those before, and the blocks given back that are counted. */
  lemma BackCount(limit: nat, used0: set<nat>, gone: set<nat>)
    requires gone <= used0
    ensures |Range(limit) - (used0 - gone)| == |Range(limit) - used0| + |Low(gone, limit)|
    ensures |gone| == |Low(gone, limit)| + |Past(gone, limit)|
  {
    assert Range(limit) - (used0 - gone) == (Range(limit) - used0) + Low(gone, limit);
    assert gone == Low(gone, limit) + Past(gone, limit);
  }

  lemma LowRest(limit: nat, used: set<nat>)
    ensures |Range(limit) - used| + |Low(used, limit)| == limit
    ensures (exists x :: x in used && x < limit) ==> |Low(used, limit)| > 0
  {
    assert Range(limit) == (Range(limit) - used) + Low(used, limit);
    if x :| x in used && x < limit {
      assert x in Low(used, limit);
    }
  }

  /** Of the blocks taken, those past the count come only after all counted ones. */
  lemma TakenCount(limit: nat, used0: set<nat>, used: set<nat>)
    requires used0 <= used && forall b, x: nat :: b in used && b !in used0 && x < b ==> x in used
    ensures |used - used0| == |(Range(limit) - used0) - (Range(limit) - used)| + |Past(used - used0, limit)|
    ensures |Range(limit) - used| <= |Range(limit) - used0|
    ensures |(Range(limit) - used0) - (Range(limit) - used)| == |Range(limit) - used0| - |Range(limit) - used|
    ensures |Past(used - used0, limit)| > 0 ==> |Range(limit) - used| == 0
  {
    var all, taken := Range(limit), used - used0;
    assert taken == ((all - used0) - (all - used)) + Past(taken, limit);
    SetSize(all - used, all - used0);
    if b :| b in Past(taken, limit) {
      assert all - used == {};
    } else {
      assert Past(taken, limit) == {};
    }
  }

  /** A replacement of blocks that are all counted keeps a right counter right. */
  lemma CountedSurvive(blockCount: nat, used0: set<nat>, gone: set<nat>, n: nat)
    requires gone <= used0 && Below(gone, blockCount)
    ensures CountSurvives(blockCount, used0, gone, n)
  {
    assert Past(gone, blockCount) == {};
  }

  /**
   * A full device, mounted with room past its block count. One large attribute is put in the block after the last
   * one, and then replaced by a small value: the first call keeps the counter right, the second leaves it at one
   * with nothing clear.
   */
  lemma FreedPastCount(sb: Superblock) returns (used: set<nat>, used1: set<nat>)
    requires sb.blockCount > 0 && sb.freeBlocks == 0
    ensures used == Range(sb.blockCount) && used1 == used + {sb.blockCount}
    ensures CountsClear(sb, used) && Exchanged(sb, used, {}, OneTaken(sb), used1, 1) && CountsClear(OneTaken(sb), used1)
    ensures Exchanged(OneTaken(sb), used1, {sb.blockCount}, GivenBack(OneTaken(sb), 1), used, 0)
    ensures GivenBack(OneTaken(sb), 1).freeBlocks == 1 && !CountsClear(GivenBack(OneTaken(sb), 1), used)
  {
    hide Took, Exchanged;
    var n, later := sb.blockCount, OneTaken(sb);
    used, used1 := Range(n), Range(n) + {n};
    assert used - used == {} && used1 - {n} == used;
    TookOne(sb, used, n + 1, n);
    NothingExchanged(sb, used, later, used1, 1);
    TakingKeepsCount(sb, used, later, used1, 1);
    FreeingKeepsCountIff(later, used1, n);
    FreedNone(later, used1);
    FreedOne(later, used1, later, used1, n);
    TookNone(GivenBack(later, 1), used);
    FreedThenTook(later, used1, GivenBack(later, 1), used, GivenBack(later, 1), used, {n}, 0);
  }
}
