/** The entities that UnaFS stores, and the encoders that turn them into bytes. */
module Types {
  import opened Storage

  /** A string, as its UTF-8 bytes: lengths and comparisons are those of the bytes. */
  type Str = seq<Byte>

  datatype FileKind = File | Directory | Symlink | System

  datatype Extent = Extent(logicalOffset: nat, physicalBlock: nat, length: nat)

  /** Floats are kept as their IEEE 754 bit patterns. */
  datatype AttributeValue =
    | Int(i: int)
    | Float(bits: nat)
    | Text(s: Str)
    | Blob(b: seq<Byte>)
    | Vector(v: seq<nat>)

  /** Values that do not stay in the inode: more than 256 bytes. */
  predicate IsLarge(v: AttributeValue) {
    match v
    case Vector(e) => |e| > 64
    case Blob(b) => |b| > 256
    case Text(s) => |s| > 256
    case _ => false
  }

  datatype Inode = Inode(
    id: nat,
    kind: FileKind,
    size: nat,
    chunks: seq<Extent>,
    attributes: map<Str, AttributeValue>,
    largeAttributes: map<Str, seq<Extent>>)

  function NewInode(id: nat, kind: FileKind): Inode {
    Inode(id, kind, 0, [], map[], map[])
  }

  datatype DirEntry = DirEntry(name: Str, inodeId: nat, kind: FileKind)

  datatype CatalogEntry = CatalogEntry(keyHash: nat, valHash: nat, inodeId: nat)

  /** The hashes that the catalog is built on: any functions of the key and of the value will do. */
  datatype Hashes = Hashes(key: Str -> nat, value: AttributeValue -> nat)

  function NewCatalogEntry(h: Hashes, key: Str, value: AttributeValue, inodeId: nat): CatalogEntry {
    CatalogEntry(h.key(key), h.value(value), inodeId)
  }

  datatype JournalOp =
    | BeginOp(opId: nat, desc: Str)
    | EndOp(opId: nat)
    | BeginCreate(parentInode: nat, name: Str)
    | EndCreate(inodeId: nat)
    | BeginWrite(inodeId: nat)
    | EndWrite(inodeId: nat)

  const MAGIC: Str := [0x55, 0x4E, 0x41, 0x46, 0x53]
  const VERSION: nat := 2

  datatype Superblock = Superblock(
    magic: Str,
    version: nat,
    blockSize: nat,
    blockCount: nat,
    rootInode: nat,
    freeBlocks: nat,
    bitmapStart: nat,
    bitmapBlocks: nat,
    journalStart: nat,
    journalBlocks: nat,
    catalogInode: nat)

  const JOURNAL_START: nat := 1
  const JOURNAL_BLOCKS: nat := 10
  const JOURNAL_END: nat := 11
  const BITMAP_START: nat := 11

  function BitmapBlocks(blockCount: nat): nat { DivCeil((blockCount + 7) / 8) }

  /** The first block after the superblock, the journal and the bitmap. */
  function SystemEnd(blockCount: nat): nat { BITMAP_START + BitmapBlocks(blockCount) }

  function NewSuperblock(blockCount: nat): Superblock {
    var used := SystemEnd(blockCount);
    Superblock(MAGIC, VERSION, BLOCK_SIZE, blockCount, 0,
               if blockCount > used then blockCount - used else 0,
               BITMAP_START, BitmapBlocks(blockCount), JOURNAL_START, JOURNAL_BLOCKS, 0)
  }

  /**
   * An encoder with its decoder. The file system reads back whole blocks, so the law it
   * relies on lets any padding follow the encoding.
   */
  datatype Codec<!T(!new)> = Codec(enc: T -> seq<Byte>, dec: seq<Byte> -> Option<T>) {
    ghost predicate Lawful() {
      forall x: T, pad: seq<Byte> :: dec(enc(x) + pad) == Some(x)
    }

    lemma DecodesPadded(x: T)
      requires Lawful() && |enc(x)| <= BLOCK_SIZE
      ensures dec(Padded(enc(x))) == Some(x)
    {
    }

    lemma Decodes(x: T)
      requires Lawful()
      ensures dec(enc(x)) == Some(x)
    {
      assert enc(x) + [] == enc(x);
    }

    /** A type with two values leaves no room for an empty encoding. */
    lemma EncodesToSomething(x: T, y: T)
      requires Lawful() && x != y
      ensures enc(x) != []
    {
      assert dec(enc(x) + enc(y)) == Some(x) && dec(enc(y) + []) == Some(y);
      assert enc(x) == [] ==> enc(x) + enc(y) == enc(y) + [];
    }
  }

  datatype Codecs = Codecs(
    superblock: Codec<Superblock>,
    inode: Codec<Inode>,
    attribute: Codec<AttributeValue>,
    entries: Codec<seq<DirEntry>>,
    catalog: Codec<seq<CatalogEntry>>,
    op: Codec<JournalOp>)
  {
    ghost predicate Lawful() {
      && superblock.Lawful()
      && inode.Lawful()
      && attribute.Lawful()
      && entries.Lawful()
      && catalog.Lawful()
      && op.Lawful()
    }

    /** Records of fixed size fit a block: the superblock, and every journal entry without free text. */
    ghost predicate FitsBlocks() {
      && (forall sb: Superblock :: |sb.magic| == |MAGIC| && FitsWords(sb) ==> |superblock.enc(sb)| <= BLOCK_SIZE)
      && (forall o: JournalOp :: IsFixed(o) ==> 8 + |op.enc(o)| <= BLOCK_SIZE)
    }
  }

  /** The numbers of the superblock are 64-bit words. */
  predicate FitsWords(sb: Superblock) {
    && sb.version < WORDS && sb.blockSize < WORDS && sb.blockCount < WORDS && sb.rootInode < WORDS
    && sb.freeBlocks < WORDS && sb.bitmapStart < WORDS && sb.bitmapBlocks < WORDS
    && sb.journalStart < WORDS && sb.journalBlocks < WORDS && sb.catalogInode < WORDS
  }

  /** A journal entry made of 64-bit words and no text but "unknown". */
  predicate IsFixed(o: JournalOp) {
    match o
    case BeginOp(_, _) => false
    case BeginCreate(parent, name) => parent < WORDS && name == UNKNOWN
    case EndOp(id) => id < WORDS
    case EndCreate(id) => id < WORDS
    case BeginWrite(id) => id < WORDS
    case EndWrite(id) => id < WORDS
  }

  /** The text "SetAttr: " that starts the journal entry for an attribute. */
  const SET_ATTR: Str := [0x53, 0x65, 0x74, 0x41, 0x74, 0x74, 0x72, 0x3A, 0x20]

  /** The text "unknown", the name in every journal entry for a new inode. */
  const UNKNOWN: Str := [0x75, 0x6E, 0x6B, 0x6E, 0x6F, 0x77, 0x6E]
}
