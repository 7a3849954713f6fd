/**
 * A file system image: the inodes, which block belongs to what, and the files that a device
 * with those inodes holds.
 */
module Image {
  import opened Storage
  import opened Types
  import opened Extents

  type Inodes = map<nat, Inode>

  /** A run of bytes kept in blocks of its own: the data of a file, or one large attribute. */
  datatype Stream = DataOf(id: nat) | AttrOf(id: nat, key: Str)

  /** What a used block is for. */
  datatype Owner = Reserved | InodeAt(id: nat) | Slot(stream: Stream, index: nat)

  type Owners = map<nat, Owner>

  function ExtentsOf(inodes: Inodes, s: Stream): seq<Extent> {
    match s
    case DataOf(id) => if id in inodes then inodes[id].chunks else []
    case AttrOf(id, key) =>
      if id in inodes && key in inodes[id].largeAttributes then inodes[id].largeAttributes[key] else []
  }

  function ListOf(inodes: Inodes, s: Stream): seq<nat> { BlockList(ExtentsOf(inodes, s)) }

  function SizeOf(inodes: Inodes, s: Stream): nat {
    match s
    case DataOf(id) => if id in inodes then inodes[id].size else 0
    case AttrOf(_, _) => Total(ExtentsOf(inodes, s))
  }

  function StreamBytes(blocks: seq<seq<Byte>>, inodes: Inodes, s: Stream): seq<Byte> {
    Content(blocks, ListOf(inodes, s), SizeOf(inodes, s))
  }

  // ----- ownership

  /** System blocks and inode blocks are owned as such, and nothing else is. */
  ghost predicate FixedBlocksOwned(blockCount: nat, inodes: Inodes, owner: Owners) {
    && (forall b: nat :: b < SystemEnd(blockCount) ==> b in owner && owner[b] == Reserved)
    && (forall b :: b in owner && owner[b].Reserved? ==> b < SystemEnd(blockCount))
    && (forall id :: id in inodes ==> id in owner && owner[id] == InodeAt(id))
    && (forall b :: b in owner && owner[b].InodeAt? ==> owner[b].id == b && b in inodes)
  }

  /** The blocks of the streams are owned as such, and nothing else is. */
  ghost predicate StreamsOwned(inodes: Inodes, owner: Owners) {
    && (forall s, i :: 0 <= i < |ListOf(inodes, s)| ==>
          ListOf(inodes, s)[i] in owner && owner[ListOf(inodes, s)[i]] == Slot(s, i))
    && (forall b :: b in owner && owner[b].Slot? ==>
          owner[b].index < |ListOf(inodes, owner[b].stream)| && ListOf(inodes, owner[b].stream)[owner[b].index] == b)
  }

  /**
   * `owner` says what each used block is for, and agrees both ways with the inodes: every block
   * they name is owned as named, and every owned block is named. A map has one value per key, so
   * no block is used twice.
   */
  ghost predicate Owned(blockCount: nat, inodes: Inodes, owner: Owners) {
    FixedBlocksOwned(blockCount, inodes, owner) && StreamsOwned(inodes, owner)
  }

  /** All used blocks lie below `limit`. */
  ghost predicate Within(owner: Owners, limit: nat) {
    forall b :: b in owner ==> b < limit
  }

  /** The plain reading of `Owned`: a block named twice is named by the same stream at the same place. */
  lemma NoBlockTwice(blockCount: nat, inodes: Inodes, owner: Owners, s: Stream, i: nat, t: Stream, j: nat)
    requires Owned(blockCount, inodes, owner)
    requires i < |ListOf(inodes, s)| && j < |ListOf(inodes, t)|
    ensures ListOf(inodes, s)[i] == ListOf(inodes, t)[j] ==> s == t && i == j
    ensures ListOf(inodes, s)[i] !in inodes
    ensures SystemEnd(blockCount) <= ListOf(inodes, s)[i] && ListOf(inodes, s)[i] in owner
  {
    assert owner[ListOf(inodes, s)[i]] == Slot(s, i) && owner[ListOf(inodes, t)[j]] == Slot(t, j);
  }

  lemma InodesAboveSystem(blockCount: nat, inodes: Inodes, owner: Owners, id: nat)
    requires Owned(blockCount, inodes, owner) && id in inodes
    ensures SystemEnd(blockCount) <= id && id in owner
  {
  }

  /** Giving a free block to the end of one stream. */
  lemma GrowOwned(blockCount: nat, before: Inodes, after: Inodes, owner: Owners, s: Stream, b: nat)
    requires Owned(blockCount, before, owner) && b !in owner
    requires after.Keys == before.Keys
    requires ListOf(after, s) == ListOf(before, s) + [b]
    requires forall t :: t != s ==> ListOf(after, t) == ListOf(before, t)
    ensures Owned(blockCount, after, owner[b := Slot(s, |ListOf(before, s)|)])
    ensures |owner[b := Slot(s, |ListOf(before, s)|)]| == |owner| + 1
  {
    hide ListOf, SystemEnd;
    var grown := owner[b := Slot(s, |ListOf(before, s)|)];
    assert grown.Keys == owner.Keys + {b};
    forall t, i | 0 <= i < |ListOf(after, t)|
      ensures ListOf(after, t)[i] in grown && grown[ListOf(after, t)[i]] == Slot(t, i)
    {
      if t == s && i < |ListOf(before, s)| {
        assert ListOf(after, t)[i] == ListOf(before, s)[i];
      }
    }
  }

  function WithoutStream(owner: Owners, s: Stream): Owners {
    map b | b in owner && !(owner[b].Slot? && owner[b].stream == s) :: owner[b]
  }

  /** Taking all blocks away from one stream. */
  lemma DropOwned(blockCount: nat, before: Inodes, after: Inodes, owner: Owners, s: Stream)
    requires Owned(blockCount, before, owner)
    requires after.Keys == before.Keys
    requires ListOf(after, s) == []
    requires forall t :: t != s ==> ListOf(after, t) == ListOf(before, t)
    ensures Owned(blockCount, after, WithoutStream(owner, s))
  {
  }

  lemma NewInodeLists(inodes: Inodes, id: nat, inode: Inode)
    requires id !in inodes && inode.chunks == [] && inode.largeAttributes == map[]
    ensures forall s :: ExtentsOf(inodes[id := inode], s) == ExtentsOf(inodes, s)
  {
  }

  /** A free block becomes an inode without blocks of its own. */
  lemma AddInodeOwned(blockCount: nat, inodes: Inodes, owner: Owners, id: nat, inode: Inode)
    requires Owned(blockCount, inodes, owner) && id !in owner
    requires inode.chunks == [] && inode.largeAttributes == map[]
    ensures id !in inodes
    ensures Owned(blockCount, inodes[id := inode], owner[id := InodeAt(id)])
    ensures |owner[id := InodeAt(id)]| == |owner| + 1
  {
    hide ListOf, SystemEnd, StreamsOwned;
    AddsOne(owner, id, InodeAt(id));
    AddInodeStreams(inodes, owner, id, inode);
  }

  lemma AddsOne(owner: Owners, b: nat, o: Owner)
    requires b !in owner
    ensures |owner[b := o]| == |owner| + 1
  {
    assert owner[b := o].Keys == owner.Keys + {b};
  }

  lemma AddInodeStreams(inodes: Inodes, owner: Owners, id: nat, inode: Inode)
    requires StreamsOwned(inodes, owner) && id !in owner && id !in inodes
    requires inode.chunks == [] && inode.largeAttributes == map[]
    ensures StreamsOwned(inodes[id := inode], owner[id := InodeAt(id)])
  {
    NewInodeLists(inodes, id, inode);
    SameLists(inodes, inodes[id := inode], owner, owner[id := InodeAt(id)]);
  }

  lemma SameLists(before: Inodes, after: Inodes, owner: Owners, grown: Owners)
    requires StreamsOwned(before, owner)
    requires forall s :: ListOf(after, s) == ListOf(before, s)
    requires forall b :: b in owner ==> b in grown && grown[b] == owner[b]
    requires forall b :: b in grown && grown[b].Slot? ==> b in owner
    ensures StreamsOwned(after, grown)
  {
    hide ListOf;
  }

  // ----- files

  /** A file as its users see it; `inline` are the keys of the attributes kept in the inode itself. */
  datatype FileView = FileView(kind: FileKind, content: seq<Byte>, attrs: map<Str, AttributeValue>, inline: set<Str>)

  type Files = map<nat, FileView>

  function Decoded(c: Codecs, bytes: seq<Byte>): AttributeValue {
    match c.attribute.dec(bytes)
    case Some(v) => v
    case None => Int(0)
  }

  function AttrsOf(c: Codecs, blocks: seq<seq<Byte>>, inodes: Inodes, id: nat): map<Str, AttributeValue>
    requires id in inodes
  {
    map k | k in inodes[id].attributes.Keys + inodes[id].largeAttributes.Keys ::
      if k in inodes[id].attributes then inodes[id].attributes[k]
      else Decoded(c, StreamBytes(blocks, inodes, AttrOf(id, k)))
  }

  function ViewOf(c: Codecs, blocks: seq<seq<Byte>>, inodes: Inodes, id: nat): FileView
    requires id in inodes
  {
    FileView(inodes[id].kind, StreamBytes(blocks, inodes, DataOf(id)), AttrsOf(c, blocks, inodes, id),
             inodes[id].attributes.Keys)
  }

  function View(c: Codecs, blocks: seq<seq<Byte>>, inodes: Inodes): Files {
    map id | id in inodes :: ViewOf(c, blocks, inodes, id)
  }

  /** An inode whose extents tile its data in whole blocks and its large attributes, keys kept apart. */
  ghost predicate WellFormed(inode: Inode) {
    && Tiles(inode.chunks)
    && Total(inode.chunks) == DivCeil(inode.size) * BLOCK_SIZE
    && (forall k :: k in inode.largeAttributes ==> k !in inode.attributes && Tiles(inode.largeAttributes[k]))
  }

  /** Every inode is stored in the block that carries its number. */
  ghost predicate Stored(c: Codecs, blocks: seq<seq<Byte>>, inodes: Inodes) {
    forall id :: id in inodes ==>
      id < |blocks| && c.inode.dec(blocks[id]) == Some(inodes[id]) && inodes[id].id == id
  }

  ghost predicate AttrsReadable(c: Codecs, blocks: seq<seq<Byte>>, inodes: Inodes) {
    forall id, k :: id in inodes && k in inodes[id].largeAttributes ==>
      c.attribute.dec(StreamBytes(blocks, inodes, AttrOf(id, k))).Some?
  }

  ghost predicate LaidOut(sb: Superblock) {
    && sb == NewSuperblock(sb.blockCount).(
         rootInode := sb.rootInode, catalogInode := sb.catalogInode, freeBlocks := sb.freeBlocks)
    && SystemEnd(sb.blockCount) < sb.blockCount < WORDS
    && sb.rootInode < sb.blockCount && sb.catalogInode < sb.blockCount && sb.freeBlocks <= sb.blockCount
  }

  /**
   * The invariant of a file system, apart from its copy of superblock and bitmap on the device.
   * The device may be shorter or longer than the block count, but holds every used block.
   */
  ghost predicate Consistent(c: Codecs, blocks: seq<seq<Byte>>, sb: Superblock, inodes: Inodes, owner: Owners) {
    && WholeBlocks(blocks) && LaidOut(sb)
    && Owned(sb.blockCount, inodes, owner) && Within(owner, |blocks|)
    && (forall id :: id in inodes ==> WellFormed(inodes[id]))
    && Stored(c, blocks, inodes)
    && AttrsReadable(c, blocks, inodes)
    && sb.rootInode in inodes && inodes[sb.rootInode].kind == Directory
    && sb.catalogInode in inodes && inodes[sb.catalogInode].kind == System
  }

  function Range(n: nat): (r: set<nat>)
    ensures forall b: nat :: b in r <==> b < n
    ensures |r| == n
  {
    if n == 0 then {} else Range(n - 1) + {n - 1}
  }

  // ----- what a call leaves alone

  lemma ContentFrame(before: seq<seq<Byte>>, after: seq<seq<Byte>>, list: seq<nat>, size: nat)
    requires |before| <= |after|
    requires forall i :: 0 <= i < |list| ==> list[i] < |before| && after[list[i]] == before[list[i]]
    ensures Content(after, list, size) == Content(before, list, size)
  {
    forall k | 0 <= k < size
      ensures ByteAt(after, list, k) == ByteAt(before, list, k)
    {
    }
  }

  /** The device keeps every block in use, except inode block `id` and those of stream `s`. */
  ghost predicate KeepsOthers(before: seq<seq<Byte>>, after: seq<seq<Byte>>, owner: Owners, id: nat, s: Stream) {
    && |before| <= |after| && WholeBlocks(after)
    && forall b :: b in owner && b < |before| && b != id && !owner[b].Reserved? ==>
         !(owner[b].Slot? && owner[b].stream == s) ==> after[b] == before[b]
  }

  /** The inodes before and after name the same blocks and sizes, except for stream `s`. */
  ghost predicate SameStreams(before: Inodes, after: Inodes, s: Stream) {
    forall t :: t != s ==> ExtentsOf(after, t) == ExtentsOf(before, t) && SizeOf(after, t) == SizeOf(before, t)
  }

  lemma OtherStreams(before: seq<seq<Byte>>, after: seq<seq<Byte>>, inodes: Inodes, later: Inodes, owner: Owners,
                     id: nat, s: Stream)
    requires StreamsOwned(inodes, owner) && Within(owner, |before|) && (id in owner ==> !owner[id].Slot?)
    requires KeepsOthers(before, after, owner, id, s) && SameStreams(inodes, later, s)
    ensures forall t :: t != s ==> StreamBytes(after, later, t) == StreamBytes(before, inodes, t)
  {
    forall t | t != s
      ensures StreamBytes(after, later, t) == StreamBytes(before, inodes, t)
    {
      var list: seq<nat> := ListOf(inodes, t);
      assert ListOf(later, t) == list;
      forall i | 0 <= i < |list|
        ensures list[i] < |before| && after[list[i]] == before[list[i]]
      {
        assert owner[list[i]] == Slot(t, i);
      }
      ContentFrame(before, after, list, SizeOf(inodes, t));
    }
  }

  lemma SameView(c: Codecs, before: seq<seq<Byte>>, after: seq<seq<Byte>>, inodes: Inodes, later: Inodes, j: nat)
    requires j in inodes && j in later && later[j] == inodes[j]
    requires forall t: Stream :: t.id == j ==> StreamBytes(after, later, t) == StreamBytes(before, inodes, t)
    ensures ViewOf(c, after, later, j) == ViewOf(c, before, inodes, j)
  {
    hide StreamBytes, Decoded;
    assert DataOf(j).id == j;
    assert AttrsOf(c, after, later, j) == AttrsOf(c, before, inodes, j) by {
      forall k | k in inodes[j].attributes.Keys + inodes[j].largeAttributes.Keys
        ensures AttrsOf(c, after, later, j)[k] == AttrsOf(c, before, inodes, j)[k]
      {
        assert AttrOf(j, k).id == j;
      }
    }
  }

  lemma OtherViews(c: Codecs, before: seq<seq<Byte>>, after: seq<seq<Byte>>, inodes: Inodes, later: Inodes, id: nat)
    requires forall t: Stream :: t.id != id ==> StreamBytes(after, later, t) == StreamBytes(before, inodes, t)
    requires id in later && later == inodes[id := later[id]]
    ensures View(c, after, later) == View(c, before, inodes)[id := ViewOf(c, after, later, id)]
  {
    forall j | j in inodes && j != id
      ensures ViewOf(c, after, later, j) == ViewOf(c, before, inodes, j)
    {
      SameView(c, before, after, inodes, later, j);
    }
    hide ViewOf;
  }

  lemma OtherAttrs(c: Codecs, before: seq<seq<Byte>>, after: seq<seq<Byte>>, inodes: Inodes, later: Inodes, s: Stream)
    requires AttrsReadable(c, before, inodes) && SameStreams(inodes, later, s)
    requires forall t :: t != s ==> StreamBytes(after, later, t) == StreamBytes(before, inodes, t)
    requires s.id in later && later == inodes[s.id := later[s.id]]
    requires s.AttrOf? && s.key in later[s.id].largeAttributes ==> c.attribute.dec(StreamBytes(after, later, s)).Some?
    requires SameLargeKeys(inodes, later, s)
    ensures AttrsReadable(c, after, later)
  {
    hide StreamBytes, SameStreams;
    forall j, k | j in later && k in later[j].largeAttributes
      ensures c.attribute.dec(StreamBytes(after, later, AttrOf(j, k))).Some?
    {
      if AttrOf(j, k) != s {
        assert StreamBytes(after, later, AttrOf(j, k)) == StreamBytes(before, inodes, AttrOf(j, k));
      }
    }
  }

  /** Only the large attribute `s`, if it is one, may appear or go. */
  ghost predicate SameLargeKeys(inodes: Inodes, later: Inodes, s: Stream) {
    forall j, k :: j in later && k in later[j].largeAttributes && AttrOf(j, k) != s ==>
      j in inodes && k in inodes[j].largeAttributes
  }

  /**
   * Every mutating call rewrites one inode and at most one of its streams. If the new inode is
   * stored and owned as it says, the invariant holds again and no other file looks different.
   */
  lemma Rebuild(c: Codecs, before: seq<seq<Byte>>, after: seq<seq<Byte>>, sb: Superblock, later: Superblock,
                inodes: Inodes, owner: Owners, id: nat, inode: Inode, grown: Owners, s: Stream)
    requires Consistent(c, before, sb, inodes, owner)
    requires s.id == id && (id in inodes || id !in owner)
    requires KeepsOthers(before, after, owner, id, s)
    requires SameStreams(inodes, inodes[id := inode], s)
    requires later == sb.(freeBlocks := later.freeBlocks) && later.freeBlocks <= sb.blockCount
    requires Owned(sb.blockCount, inodes[id := inode], grown) && Within(grown, |after|)
    requires WellFormed(inode) && inode.id == id && id < |after| && c.inode.dec(after[id]) == Some(inode)
    requires id in inodes ==> inode.kind == inodes[id].kind
    requires SameLargeKeys(inodes, inodes[id := inode], s)
    requires s.AttrOf? && s.key in inode.largeAttributes ==>
               c.attribute.dec(StreamBytes(after, inodes[id := inode], s)).Some?
    ensures Consistent(c, after, later, inodes[id := inode], grown)
    ensures View(c, after, inodes[id := inode])
              == View(c, before, inodes)[id := ViewOf(c, after, inodes[id := inode], id)]
    ensures forall t :: t != s ==> StreamBytes(after, inodes[id := inode], t) == StreamBytes(before, inodes, t)
  {
    hide *;
    var updated := inodes[id := inode];
    PartsOf(c, before, sb, inodes, owner, id);
    OtherStreams(before, after, inodes, updated, owner, id, s);
    OtherViews(c, before, after, inodes, updated, id);
    OtherAttrs(c, before, after, inodes, updated, s);
    StoredToo(c, before, after, inodes, owner, id, inode, s);
    Replaced(c, before, after, sb, later, inodes, owner, id, inode, grown);
  }

  lemma PartsOf(c: Codecs, blocks: seq<seq<Byte>>, sb: Superblock, inodes: Inodes, owner: Owners, id: nat)
    requires Consistent(c, blocks, sb, inodes, owner) && (id in inodes || id !in owner)
    ensures StreamsOwned(inodes, owner) && FixedBlocksOwned(sb.blockCount, inodes, owner) && Within(owner, |blocks|)
    ensures Stored(c, blocks, inodes) && AttrsReadable(c, blocks, inodes)
    ensures id in owner ==> !owner[id].Slot?
  {
  }

  lemma StoredToo(c: Codecs, before: seq<seq<Byte>>, after: seq<seq<Byte>>, inodes: Inodes, owner: Owners, id: nat,
                  inode: Inode, s: Stream)
    requires Stored(c, before, inodes) && KeepsOthers(before, after, owner, id, s)
    requires Within(owner, |before|) && exists blockCount :: FixedBlocksOwned(blockCount, inodes, owner)
    requires inode.id == id && id < |after| && c.inode.dec(after[id]) == Some(inode)
    ensures Stored(c, after, inodes[id := inode]) && |before| <= |after| && WholeBlocks(after)
  {
    hide SystemEnd;
  }

  lemma Replaced(c: Codecs, before: seq<seq<Byte>>, after: seq<seq<Byte>>, sb: Superblock, later: Superblock,
                 inodes: Inodes, owner: Owners, id: nat, inode: Inode, grown: Owners)
    requires Consistent(c, before, sb, inodes, owner) && WholeBlocks(after)
    requires later == sb.(freeBlocks := later.freeBlocks) && later.freeBlocks <= sb.blockCount
    requires Owned(sb.blockCount, inodes[id := inode], grown) && Within(grown, |after|) && WellFormed(inode)
    requires id in inodes ==> inode.kind == inodes[id].kind
    requires Stored(c, after, inodes[id := inode]) && AttrsReadable(c, after, inodes[id := inode])
    ensures Consistent(c, after, later, inodes[id := inode], grown)
  {
    hide Owned, WellFormed, Stored, AttrsReadable, SystemEnd;
  }

  /** Rewriting system blocks, or blocks that nothing owns, changes no file. */
  lemma SystemWrite(c: Codecs, before: seq<seq<Byte>>, after: seq<seq<Byte>>, sb: Superblock, inodes: Inodes,
                    owner: Owners)
    requires Consistent(c, before, sb, inodes, owner)
    requires |before| <= |after| && WholeBlocks(after)
    requires forall b :: b in owner && b < |before| && !owner[b].Reserved? ==> after[b] == before[b]
    ensures Consistent(c, after, sb, inodes, owner)
    ensures View(c, after, inodes) == View(c, before, inodes)
    ensures forall t :: StreamBytes(after, inodes, t) == StreamBytes(before, inodes, t)
  {
    hide SystemEnd, WellFormed, ExtentsOf, SizeOf, ListOf, View, ViewOf;
    SystemStreams(before, after, inodes, owner);
    hide StreamBytes, StreamsOwned;
    SystemViews(c, before, after, inodes);
    assert Stored(c, after, inodes);
    assert AttrsReadable(c, after, inodes);
  }

  lemma SystemStreams(before: seq<seq<Byte>>, after: seq<seq<Byte>>, inodes: Inodes, owner: Owners)
    requires StreamsOwned(inodes, owner) && Within(owner, |before|) && |before| <= |after|
    requires forall b :: b in owner && b < |before| && !owner[b].Reserved? ==> after[b] == before[b]
    ensures forall t :: StreamBytes(after, inodes, t) == StreamBytes(before, inodes, t)
  {
    forall t
      ensures StreamBytes(after, inodes, t) == StreamBytes(before, inodes, t)
    {
      var list: seq<nat> := ListOf(inodes, t);
      forall i | 0 <= i < |list|
        ensures list[i] < |before| && after[list[i]] == before[list[i]]
      {
        assert owner[list[i]] == Slot(t, i);
      }
      ContentFrame(before, after, list, SizeOf(inodes, t));
    }
  }

  lemma SystemViews(c: Codecs, before: seq<seq<Byte>>, after: seq<seq<Byte>>, inodes: Inodes)
    requires forall t :: StreamBytes(after, inodes, t) == StreamBytes(before, inodes, t)
    ensures View(c, after, inodes) == View(c, before, inodes)
  {
    forall j | j in inodes
      ensures ViewOf(c, after, inodes, j) == ViewOf(c, before, inodes, j)
    {
      SameView(c, before, after, inodes, inodes, j);
    }
    hide ViewOf;
  }
}
