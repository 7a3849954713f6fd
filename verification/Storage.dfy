/** The block device under UnaFS, and the result type shared by every file system call. */
module Storage {
  type Byte = bv8

  const BLOCK_SIZE: nat := 4096

  /** The number of 64-bit words: block numbers, and so inode numbers, are below it. */
  const WORDS: nat := 0x1_0000_0000_0000_0000

  datatype Option<+T> = None | Some(value: T)

  datatype FsError =
    | OutOfBounds(id: nat)
    | BadBlockSize(len: nat)
    | Io
    | BadSuperblock
    | BadInode
    | InodeTooLarge
    | Deserialization
    | NoSpace
    | RootMissing
    | NotADirectory
    | FileExists
    | InvalidAttributeData

  datatype Result<+T> = Ok(value: T) | Err(error: FsError)

  /** The number of blocks that `n` bytes occupy. */
  function DivCeil(n: nat): nat { (n + BLOCK_SIZE - 1) / BLOCK_SIZE }

  function Zeros(n: nat): (z: seq<Byte>)
    ensures |z| == n && forall i :: 0 <= i < n ==> z[i] == 0
  {
    seq(n, _ => 0)
  }

  /** A whole block that starts with `bytes` and is zero afterwards. */
  function Padded(bytes: seq<Byte>): (b: seq<Byte>)
    requires |bytes| <= BLOCK_SIZE
    ensures |b| == BLOCK_SIZE && bytes <= b && forall i :: |bytes| <= i < BLOCK_SIZE ==> b[i] == 0
  {
    bytes + Zeros(BLOCK_SIZE - |bytes|)
  }

  ghost predicate WholeBlocks(blocks: seq<seq<Byte>>) {
    forall i :: 0 <= i < |blocks| ==> |blocks[i]| == BLOCK_SIZE
  }

  /** Two contents of one device that differ in no block outside `[lo, hi)`. */
  ghost predicate AgreeOutside(before: seq<seq<Byte>>, after: seq<seq<Byte>>, lo: nat, hi: nat) {
    && |before| == |after|
    && forall b :: 0 <= b < |before| && !(lo <= b < hi) ==> after[b] == before[b]
  }

  /** The length of a device of `n` blocks once it has `needed` of them. */
  function LengthFor(n: nat, needed: nat): nat { if needed <= n then n else needed }

  lemma LengthIs(n: nat, needed: nat)
    ensures LengthFor(n, needed) == if needed <= n then n else needed
  {
  }

  /** `blocks` with one block written; writing past the end fills the space between with zeros. */
  function Put(blocks: seq<seq<Byte>>, id: nat, buf: seq<Byte>): (r: seq<seq<Byte>>)
    ensures |r| == if id < |blocks| then |blocks| else id + 1
    ensures r[id] == buf && forall b: nat :: b < |blocks| && b != id ==> r[b] == blocks[b]
    ensures forall b :: |blocks| <= b < |r| && b != id ==> r[b] == Zeros(BLOCK_SIZE)
    ensures id < |blocks| ==> r == blocks[id := buf]
  {
    if id < |blocks| then blocks[id := buf] else blocks + seq(id - |blocks|, _ => Zeros(BLOCK_SIZE)) + [buf]
  }

  lemma PutWhole(blocks: seq<seq<Byte>>, id: nat, buf: seq<Byte>)
    requires WholeBlocks(blocks) && |buf| == BLOCK_SIZE
    ensures WholeBlocks(Put(blocks, id, buf))
  {
    var r := Put(blocks, id, buf);
    forall b | 0 <= b < |r|
      ensures |r[b]| == BLOCK_SIZE
    {
    }
  }

  /** Nothing before the end of the device has changed outside `[lo, hi)`; it may have grown. */
  ghost predicate KeptOutside(before: seq<seq<Byte>>, after: seq<seq<Byte>>, lo: nat, hi: nat) {
    && |before| <= |after|
    && forall b :: 0 <= b < |before| && !(lo <= b < hi) ==> after[b] == before[b]
  }

  /**
   * A device. Reads past its end fail; so do writes, unless it is one that grows. One that is
   * not reliable may also fail at any other access, so no result below depends on an access succeeding.
   */
  class Device {
    var blocks: seq<seq<Byte>>
    const reliable: bool
    const grows: bool

    ghost predicate Valid()
      reads this
    {
      WholeBlocks(blocks) && |blocks| < WORDS
    }

    lemma FitsWords()
      requires Valid()
      ensures |blocks| < WORDS
    {
    }

    constructor (blocks: seq<seq<Byte>>, reliable: bool, grows: bool)
      requires WholeBlocks(blocks) && |blocks| < WORDS
      ensures Valid() && this.blocks == blocks && this.reliable == reliable && this.grows == grows
    {
      this.blocks, this.reliable, this.grows := blocks, reliable, grows;
    }

    method Fault() returns (failed: bool)
      ensures reliable ==> !failed
    {
      failed := *;
      failed := failed && !reliable;
    }

    /** Whether a block can be written: inside the device, or past its end if it grows. */
    predicate HasPlace(id: nat)
      reads this
    {
      id < |blocks| || (grows && id + 1 < WORDS)
    }

    method ReadBlock(id: nat) returns (r: Result<seq<Byte>>)
      ensures r.Ok? ==> id < |blocks| && r.value == blocks[id]
      ensures id >= |blocks| ==> r == Err(OutOfBounds(id))
      ensures reliable && id < |blocks| ==> r.Ok?
    {
      if id >= |blocks| {
        return Err(OutOfBounds(id));
      }
      var failed := Fault();
      r := if failed then Err(Io) else Ok(blocks[id]);
    }

    method WriteBlock(id: nat, buf: seq<Byte>) returns (r: Result<()>)
      requires Valid()
      modifies this
      ensures Valid()
      ensures r.Ok? ==> |buf| == BLOCK_SIZE && old(HasPlace(id)) && blocks == Put(old(blocks), id, buf)
      ensures r.Err? ==> blocks == old(blocks)
      ensures reliable && |buf| == BLOCK_SIZE && old(HasPlace(id)) ==> r.Ok?
      ensures |buf| == BLOCK_SIZE && !old(HasPlace(id)) ==> r == Err(OutOfBounds(id))
    {
      if |buf| != BLOCK_SIZE {
        return Err(BadBlockSize(|buf|));
      }
      if !HasPlace(id) {
        return Err(OutOfBounds(id));
      }
      var failed := Fault();
      if failed {
        return Err(Io);
      }
      PutWhole(blocks, id, buf);
      blocks := Put(blocks, id, buf);
      r := Ok(());
    }
  }
}
