/** Encoders that meet all laws asked of `Codecs` together, so that what is proved from them is not void. */
module Encoding {
  import opened Storage
  import opened Types
  import opened Bits
  import Bitmap
  import Counter
  import Image
  import Journal
  import Layout
  import Updates

  /** An encoder, and a decoder that also says what follows the encoding. */
  datatype Wire<!T(!new)> = Wire(put: T -> seq<Byte>, take: seq<Byte> -> Option<(T, seq<Byte>)>) {
    ghost predicate Faithful() {
      forall x: T, rest: seq<Byte> :: take(put(x) + rest) == Some((x, rest))
    }
  }

  // ----- numbers, seven bits a byte

  function PutNat(n: nat): seq<Byte> {
    if n < 128 then [LowByte(n)] else [LowByte(128 + n % 128)] + PutNat(n / 128)
  }

  function TakeNat(bytes: seq<Byte>): Option<(nat, seq<Byte>)> {
    if bytes == [] then None
    else
      var v := ByteValue(bytes[0]);
      if v < 128 then Some((v, bytes[1..]))
      else
        match TakeNat(bytes[1..])
        case None => None
        case Some(p) => Some((v - 128 + 128 * p.0, p.1))
  }

  lemma {:induction false} NatFaithful(n: nat, rest: seq<Byte>)
    ensures TakeNat(PutNat(n) + rest) == Some((n, rest))
  {
    hide *;
    var bytes := PutNat(n) + rest;
    PutNatIs(n);
    TakeNatIs(bytes);
    if n < 128 {
      ByteRoundTrip(n);
      assert bytes[1..] == rest;
    } else {
      ByteRoundTrip(128 + n % 128);
      NatFaithful(n / 128, rest);
      assert bytes[1..] == PutNat(n / 128) + rest;
    }
  }

  lemma PutNatIs(n: nat)
    ensures n < 128 ==> PutNat(n) == [LowByte(n)]
    ensures n >= 128 ==> PutNat(n) == [LowByte(128 + n % 128)] + PutNat(n / 128)
  {
  }

  lemma TakeNatIs(bytes: seq<Byte>)
    requires bytes != []
    ensures var v := ByteValue(bytes[0]);
            && (v < 128 ==> TakeNat(bytes) == Some((v, bytes[1..])))
            && (v >= 128 && TakeNat(bytes[1..]).Some? ==>
                  var (q, rest) := TakeNat(bytes[1..]).value; TakeNat(bytes) == Some((v - 128 + 128 * q, rest)))
  {
    hide ByteValue;
  }

  lemma {:induction false} NatSize(n: nat, k: nat)
    requires n < Power(128, k)
    ensures |PutNat(n)| <= if k == 0 then 1 else k
  {
    if k > 0 && n >= 128 {
      NatSize(n / 128, k - 1);
    }
  }

  lemma WordSize(n: nat)
    requires n < WORDS
    ensures |PutNat(n)| <= 10
  {
    hide Power;
    TenSevens();
    NatSize(n, 10);
  }

  lemma TenSevens()
    ensures Power(128, 10) >= WORDS
  {
    assert Power(128, 5) == 0x8_0000_0000;
    assert Power(128, 10) == 128 * 128 * 128 * 128 * 128 * Power(128, 5);
  }

  ghost function Nats(): Wire<nat> { Wire(PutNat, TakeNat) }

  ghost function Bytes(): Wire<Byte> {
    Wire((b: Byte) => [b], (s: seq<Byte>) => if s == [] then None else Some((s[0], s[1..])))
  }

  // ----- combinators

  function TakePair<A(!new), B(!new)>(a: Wire<A>, b: Wire<B>, bytes: seq<Byte>): Option<((A, B), seq<Byte>)> {
    match a.take(bytes)
    case None => None
    case Some(p) =>
      match b.take(p.1)
      case None => None
      case Some(q) => Some(((p.0, q.0), q.1))
  }

  ghost function Pair<A(!new), B(!new)>(a: Wire<A>, b: Wire<B>): Wire<(A, B)> {
    Wire((x: (A, B)) => a.put(x.0) + b.put(x.1), (bytes: seq<Byte>) => TakePair(a, b, bytes))
  }

  lemma PairFaithful<A(!new), B(!new)>(a: Wire<A>, b: Wire<B>)
    requires a.Faithful() && b.Faithful()
    ensures Pair(a, b).Faithful()
  {
    forall x: (A, B), rest: seq<Byte>
      ensures Pair(a, b).take(Pair(a, b).put(x) + rest) == Some((x, rest))
    {
      assert Pair(a, b).put(x) + rest == a.put(x.0) + (b.put(x.1) + rest);
      assert a.take(a.put(x.0) + (b.put(x.1) + rest)) == Some((x.0, b.put(x.1) + rest));
    }
  }

  function PutList<A(!new)>(a: Wire<A>, xs: seq<A>): seq<Byte> {
    if xs == [] then [0] else [1] + a.put(xs[0]) + PutList(a, xs[1..])
  }

  function TakeList<A(!new)>(a: Wire<A>, bytes: seq<Byte>): Option<(seq<A>, seq<Byte>)>
    decreases |bytes|
  {
    if bytes == [] then None
    else if bytes[0] == 0 then Some(([], bytes[1..]))
    else
      match a.take(bytes[1..])
      case None => None
      case Some(p) =>
        if |p.1| >= |bytes| then None
        else
          match TakeList(a, p.1)
          case None => None
          case Some(q) => Some(([p.0] + q.0, q.1))
  }

  lemma {:induction false} ListTakes<A(!new)>(a: Wire<A>, xs: seq<A>, rest: seq<Byte>)
    requires a.Faithful()
    ensures TakeList(a, PutList(a, xs) + rest) == Some((xs, rest))
    decreases xs
  {
    var bytes := PutList(a, xs) + rest;
    if xs == [] {
      assert bytes[1..] == rest;
    } else {
      ListTakes(a, xs[1..], rest);
      var tail := PutList(a, xs[1..]) + rest;
      assert bytes[1..] == a.put(xs[0]) + tail;
      assert a.take(a.put(xs[0]) + tail) == Some((xs[0], tail));
      assert [xs[0]] + xs[1..] == xs;
    }
  }

  ghost function List<A(!new)>(a: Wire<A>): Wire<seq<A>> {
    Wire((xs: seq<A>) => PutList(a, xs), (bytes: seq<Byte>) => TakeList(a, bytes))
  }

  lemma ListFaithful<A(!new)>(a: Wire<A>)
    requires a.Faithful()
    ensures List(a).Faithful()
  {
    forall xs: seq<A>, rest: seq<Byte>
      ensures List(a).take(List(a).put(xs) + rest) == Some((xs, rest))
    {
      ListTakes(a, xs, rest);
    }
  }

  function TakeVia<A(!new), B(!new)>(a: Wire<A>, from: A -> B, bytes: seq<Byte>): Option<(B, seq<Byte>)> {
    match a.take(bytes)
    case None => None
    case Some(p) => Some((from(p.0), p.1))
  }

  /** A type that embeds in one with an encoding. */
  ghost function Via<A(!new), B(!new)>(a: Wire<A>, to: B -> A, from: A -> B): Wire<B> {
    Wire((x: B) => a.put(to(x)), (bytes: seq<Byte>) => TakeVia(a, from, bytes))
  }

  lemma ViaFaithful<A(!new), B(!new)>(a: Wire<A>, to: B -> A, from: A -> B)
    requires a.Faithful() && forall x: B :: from(to(x)) == x
    ensures Via(a, to, from).Faithful()
  {
    forall x: B, rest: seq<Byte>
      ensures Via(a, to, from).take(Via(a, to, from).put(x) + rest) == Some((x, rest))
    {
      assert a.take(a.put(to(x)) + rest) == Some((to(x), rest));
    }
  }

  // ----- maps, as lists of their entries in some order

  ghost function Entries<V(!new)>(m: map<Str, V>): (entries: seq<(Str, V)>)
    decreases |m.Keys|
  {
    if m.Keys == {} then []
    else
      var k :| k in m.Keys;
      assert (m - {k}).Keys == m.Keys - {k};
      [(k, m[k])] + Entries(m - {k})
  }

  function FromEntries<V(!new)>(entries: seq<(Str, V)>): map<Str, V> {
    if entries == [] then map[] else FromEntries(entries[1..])[entries[0].0 := entries[0].1]
  }

  lemma {:induction false} EntriesFaithful<V(!new)>(m: map<Str, V>)
    ensures FromEntries(Entries(m)) == m
    decreases |m.Keys|
  {
    if m.Keys != {} {
      var entries := Entries(m);
      var k := entries[0].0;
      assert (m - {k}).Keys == m.Keys - {k};
      assert entries[1..] == Entries(m - {k});
      EntriesFaithful(m - {k});
    }
  }

  ghost function Maps<V(!new)>(v: Wire<V>): Wire<map<Str, V>> {
    Via(List(Pair(Strings(), v)), (m: map<Str, V>) => Entries(m), (e: seq<(Str, V)>) => FromEntries(e))
  }

  ghost function Strings(): Wire<Str> { List(Bytes()) }

  lemma StringsFaithful()
    ensures Strings().Faithful() && Nats().Faithful()
  {
    forall b: Byte, rest: seq<Byte>
      ensures Bytes().take(Bytes().put(b) + rest) == Some((b, rest))
    {
      assert ([b] + rest)[1..] == rest;
    }
    ListFaithful(Bytes());
    forall n: nat, rest: seq<Byte>
      ensures Nats().take(Nats().put(n) + rest) == Some((n, rest))
    {
      NatFaithful(n, rest);
    }
  }

  lemma MapsFaithful<V(!new)>(v: Wire<V>)
    requires v.Faithful()
    ensures Maps(v).Faithful()
  {
    StringsFaithful();
    PairFaithful(Strings(), v);
    ListFaithful(Pair(Strings(), v));
    var to, from := (m: map<Str, V>) => Entries(m), (e: seq<(Str, V)>) => FromEntries(e);
    forall m: map<Str, V>
      ensures from(to(m)) == m
    {
      EntriesFaithful(m);
    }
    ViaFaithful(List(Pair(Strings(), v)), to, from);
  }

  // ----- the entities

  /** A tag, a number, a text and a list of numbers: enough for every variant of an entity. */
  type Variant = (nat, (nat, (Str, seq<nat>)))

  ghost function Variants(): Wire<Variant> { Pair(Nats(), Pair(Nats(), Pair(Strings(), List(Nats())))) }

  lemma VariantsFaithful()
    ensures Variants().Faithful()
  {
    StringsFaithful();
    ListFaithful(Nats());
    PairFaithful(Strings(), List(Nats()));
    PairFaithful(Nats(), Pair(Strings(), List(Nats())));
    PairFaithful(Nats(), Pair(Nats(), Pair(Strings(), List(Nats()))));
  }

  function KindNumber(k: FileKind): nat {
    match k
    case File => 0
    case Directory => 1
    case Symlink => 2
    case System => 3
  }

  function NumberKind(n: nat): FileKind {
    if n == 0 then File else if n == 1 then Directory else if n == 2 then Symlink else System
  }

  function FromValue(v: AttributeValue): Variant {
    match v
    case Int(i) => (if i < 0 then 0 else 1, (if i < 0 then -i else i, ([], [])))
    case Float(b) => (2, (b, ([], [])))
    case Text(s) => (3, (0, (s, [])))
    case Blob(b) => (4, (0, (b, [])))
    case Vector(e) => (5, (0, ([], e)))
  }

  function ToValue(x: Variant): AttributeValue {
    if x.0 == 0 then Int(0 - x.1.0) else if x.0 == 1 then Int(x.1.0) else if x.0 == 2 then Float(x.1.0)
    else if x.0 == 3 then Text(x.1.1.0) else if x.0 == 4 then Blob(x.1.1.0) else Vector(x.1.1.1)
  }

  function FromOp(o: JournalOp): Variant {
    match o
    case BeginOp(id, desc) => (0, (id, (desc, [])))
    case EndOp(id) => (1, (id, ([], [])))
    case BeginCreate(parent, name) => (2, (parent, (name, [])))
    case EndCreate(id) => (3, (id, ([], [])))
    case BeginWrite(id) => (4, (id, ([], [])))
    case EndWrite(id) => (5, (id, ([], [])))
  }

  function ToOp(x: Variant): JournalOp {
    if x.0 == 0 then BeginOp(x.1.0, x.1.1.0) else if x.0 == 1 then EndOp(x.1.0)
    else if x.0 == 2 then BeginCreate(x.1.0, x.1.1.0)
    else if x.0 == 3 then EndCreate(x.1.0) else if x.0 == 4 then BeginWrite(x.1.0) else EndWrite(x.1.0)
  }

  function FromSuperblock(s: Superblock): Variant {
    (s.version, (s.blockSize, (s.magic, [s.blockCount, s.rootInode, s.freeBlocks, s.bitmapStart, s.bitmapBlocks,
                                         s.journalStart, s.journalBlocks, s.catalogInode])))
  }

  function ToSuperblock(x: Variant): Superblock {
    var n := x.1.1.1;
    if |n| != 8 then NewSuperblock(0)
    else Superblock(x.1.1.0, x.0, x.1.0, n[0], n[1], n[2], n[3], n[4], n[5], n[6], n[7])
  }

  function FromDirEntry(e: DirEntry): Variant { (KindNumber(e.kind), (e.inodeId, (e.name, []))) }

  function ToDirEntry(x: Variant): DirEntry { DirEntry(x.1.1.0, x.1.0, NumberKind(x.0)) }

  function FromCatalogEntry(e: CatalogEntry): Variant { (e.keyHash, (e.valHash, ([], [e.inodeId]))) }

  function ToCatalogEntry(x: Variant): CatalogEntry {
    CatalogEntry(x.0, x.1.0, if x.1.1.1 == [] then 0 else x.1.1.1[0])
  }

  function FromExtent(e: Extent): Variant { (e.logicalOffset, (e.physicalBlock, ([], [e.length]))) }

  function ToExtent(x: Variant): Extent { Extent(x.0, x.1.0, if x.1.1.1 == [] then 0 else x.1.1.1[0]) }

  type InodeParts = (Variant, (seq<Extent>, (map<Str, AttributeValue>, map<Str, seq<Extent>>)))

  function FromInode(i: Inode): InodeParts {
    ((i.id, (i.size, ([], [KindNumber(i.kind)]))), (i.chunks, (i.attributes, i.largeAttributes)))
  }

  function ToInode(x: InodeParts): Inode {
    Inode(x.0.0, NumberKind(if x.0.1.1.1 == [] then 0 else x.0.1.1.1[0]), x.0.1.0, x.1.0, x.1.1.0, x.1.1.1)
  }

  ghost function Values(): Wire<AttributeValue> { Via(Variants(), FromValue, ToValue) }

  ghost function Extents(): Wire<seq<Extent>> { List(Via(Variants(), FromExtent, ToExtent)) }

  ghost function Parts(): Wire<InodeParts> { Pair(Variants(), Pair(Extents(), Pair(Maps(Values()), Maps(Extents())))) }

  ghost function Inodes(): Wire<Inode> { Via(Parts(), FromInode, ToInode) }

  lemma InodesFaithful()
    ensures Inodes().Faithful() && Values().Faithful()
  {
    VariantsFaithful();
    ViaFaithful(Variants(), FromValue, ToValue);
    ViaFaithful(Variants(), FromExtent, ToExtent);
    ListFaithful(Via(Variants(), FromExtent, ToExtent));
    MapsFaithful(Values());
    MapsFaithful(Extents());
    PairFaithful(Maps(Values()), Maps(Extents()));
    PairFaithful(Extents(), Pair(Maps(Values()), Maps(Extents())));
    PairFaithful(Variants(), Pair(Extents(), Pair(Maps(Values()), Maps(Extents()))));
    ViaFaithful(Parts(), FromInode, ToInode);
  }

  function Taken<T(!new)>(w: Wire<T>, bytes: seq<Byte>): Option<T> {
    match w.take(bytes)
    case None => None
    case Some(p) => Some(p.0)
  }

  ghost function CodecOf<T(!new)>(w: Wire<T>): Codec<T> { Codec(w.put, (bytes: seq<Byte>) => Taken(w, bytes)) }

  lemma CodecLawful<T(!new)>(w: Wire<T>)
    requires w.Faithful()
    ensures CodecOf(w).Lawful()
  {
  }

  lemma {:induction false} StringSize(s: Str)
    ensures |PutList(Bytes(), s)| == 2 * |s| + 1
  {
    if s != [] {
      StringSize(s[1..]);
    }
  }

  lemma {:induction false} NumbersSize(ns: seq<nat>)
    requires forall i :: 0 <= i < |ns| ==> ns[i] < WORDS
    ensures |PutList(Nats(), ns)| <= 11 * |ns| + 1
  {
    if ns != [] {
      WordSize(ns[0]);
      NumbersSize(ns[1..]);
    }
  }

  lemma VariantSize(x: Variant)
    requires x.0 < WORDS && x.1.0 < WORDS && forall i :: 0 <= i < |x.1.1.1| ==> x.1.1.1[i] < WORDS
    ensures |Variants().put(x)| <= 22 + 2 * |x.1.1.0| + 11 * |x.1.1.1|
  {
    WordSize(x.0);
    WordSize(x.1.0);
    StringSize(x.1.1.0);
    NumbersSize(x.1.1.1);
  }

  ghost function Superblocks(): Wire<Superblock> { Via(Variants(), FromSuperblock, ToSuperblock) }

  ghost function Operations(): Wire<JournalOp> { Via(Variants(), FromOp, ToOp) }

  ghost function DirEntries(): Wire<seq<DirEntry>> { List(Via(Variants(), FromDirEntry, ToDirEntry)) }

  ghost function CatalogEntries(): Wire<seq<CatalogEntry>> { List(Via(Variants(), FromCatalogEntry, ToCatalogEntry)) }

  lemma RecordsFaithful()
    ensures Superblocks().Faithful() && Operations().Faithful() && DirEntries().Faithful()
    ensures CatalogEntries().Faithful()
  {
    VariantsFaithful();
    ViaFaithful(Variants(), FromSuperblock, ToSuperblock);
    ViaFaithful(Variants(), FromOp, ToOp);
    ViaFaithful(Variants(), FromDirEntry, ToDirEntry);
    ViaFaithful(Variants(), FromCatalogEntry, ToCatalogEntry);
    ListFaithful(Via(Variants(), FromDirEntry, ToDirEntry));
    ListFaithful(Via(Variants(), FromCatalogEntry, ToCatalogEntry));
  }

  ghost function Built(): Codecs {
    Codecs(CodecOf(Superblocks()), CodecOf(Inodes()), CodecOf(Values()),
           CodecOf(DirEntries()), CodecOf(CatalogEntries()), CodecOf(Operations()))
  }

  lemma BuiltLawful()
    ensures Built().Lawful()
  {
    hide Superblocks, Inodes, Values, DirEntries, CatalogEntries, Operations, CodecOf;
    InodesFaithful();
    RecordsFaithful();
    CodecLawful(Superblocks());
    CodecLawful(Inodes());
    CodecLawful(Values());
    CodecLawful(DirEntries());
    CodecLawful(CatalogEntries());
    CodecLawful(Operations());
  }

  lemma SuperblockSize(sb: Superblock)
    requires |sb.magic| == |MAGIC| && FitsWords(sb)
    ensures |Built().superblock.enc(sb)| <= BLOCK_SIZE
  {
    hide Variants;
    VariantSize(FromSuperblock(sb));
  }

  lemma OperationSize(o: JournalOp)
    requires IsFixed(o)
    ensures 8 + |Built().op.enc(o)| <= BLOCK_SIZE
  {
    hide Variants;
    VariantSize(FromOp(o));
  }

  lemma BuiltFits()
    ensures Built().FitsBlocks()
  {
    hide Built;
    forall sb: Superblock | |sb.magic| == |MAGIC| && FitsWords(sb)
      ensures |Built().superblock.enc(sb)| <= BLOCK_SIZE
    {
      SuperblockSize(sb);
    }
    forall o: JournalOp | IsFixed(o)
      ensures 8 + |Built().op.enc(o)| <= BLOCK_SIZE
    {
      OperationSize(o);
    }
  }

  /** The laws that the file system asks of its encoders can be met. */
  lemma LawfulCodecsExist()
    ensures exists c: Codecs :: c.Lawful() && c.FitsBlocks()
  {
    hide Built, Codecs.Lawful, Codecs.FitsBlocks;
    BuiltLawful();
    BuiltFits();
  }

  lemma EmptyInodeSize(id: nat, kind: FileKind)
    requires id < WORDS
    ensures |Built().inode.enc(NewInode(id, kind))| <= 64 < BLOCK_SIZE
  {
    hide Variants, Values, Extents, Strings;
    var i := NewInode(id, kind);
    var parts := FromInode(i);
    VariantSize(parts.0);
    assert |Extents().put([])| == 1 by {
      EmptyExtents();
    }
    EmptyMaps(Values());
    EmptyMaps(Extents());
    assert Parts().put(parts)
        == Variants().put(parts.0) + (Extents().put([]) + (Maps(Values()).put(map[]) + Maps(Extents()).put(map[])));
  }

  lemma EmptyExtents()
    ensures |Extents().put([])| == 1
  {
  }

  lemma EmptyMaps<V(!new)>(v: Wire<V>)
    ensures |Maps(v).put(map[])| == 1
  {
  }

  /** With these encoders sixteen blocks hold a formatted file system: the invariant can be met. */
  lemma ConsistentImageExists()
    ensures exists c: Codecs, blocks, sb, inodes, owner ::
              c.Lawful() && c.FitsBlocks() && |blocks| == 16 && Image.Consistent(c, blocks, sb, inodes, owner)
  {
    hide *;
    BuiltLawful();
    BuiltFits();
    var c, root := Built(), SystemEnd(16);
    var blocks := SixteenBlocks();
    Layout.FreshConsistent(c, blocks, 16);
    assert Image.Consistent(c, blocks, Layout.FreshSuperblock(16), Layout.FreshInodes(root, root + 1),
                            Layout.FreshOwner(16));
  }

  lemma SixteenBlocks() returns (blocks: seq<seq<Byte>>)
    ensures |blocks| == 16 && Layout.FreshOn(Built(), blocks, 16)
  {
    hide Built;
    var c := Built();
    BuiltLawful();
    assert SystemEnd(16) == 12;
    EmptyInodeSize(12, Directory);
    EmptyInodeSize(13, System);
    var root, catalog := Padded(c.inode.enc(NewInode(12, Directory))), Padded(c.inode.enc(NewInode(13, System)));
    var empty := Zeros(BLOCK_SIZE);
    blocks :=
        [empty, empty, empty, empty, empty, empty, empty, empty, empty, empty, empty, empty, root, catalog, empty,
         empty];
    assert |blocks| == 16 && blocks[12] == root && blocks[13] == catalog && WholeBlocks(blocks);
    assert Layout.FormatFits(c, 16);
    assert Layout.FreshOn(c, blocks, 16);
  }

  // ----- what the journal does not show

  /** The size of a journal entry for operations on the first inodes. */
  lemma OpSize(o: JournalOp)
    ensures o.BeginOp? && o.opId < 128 ==> Journal.EntrySize(Built().op, o) == 12 + 2 * |o.desc|
    ensures o.EndOp? && o.opId < 128 ==> Journal.EntrySize(Built().op, o) == 12
    ensures (o.BeginWrite? || o.EndWrite?) && o.inodeId < 128 ==> Journal.EntrySize(Built().op, o) == 12
  {
    var x := FromOp(o);
    assert Built().op.enc(o) == Variants().put(x);
    StringSize(x.1.1.0);
    hide Built, Variants;
    VariantPut(x);
  }

  lemma VariantPut(x: Variant)
    ensures |Variants().put(x)|
              == |PutNat(x.0)| + (|PutNat(x.1.0)| + (|PutList(Bytes(), x.1.1.0)| + |PutList(Nats(), x.1.1.1)|))
  {
  }

  /** A key of 2100 bytes makes a journal entry larger than a block: logging it never ends. */
  lemma LongKeyNeverLogged(key: Str, w: nat, n: nat)
    requires |key| == 2100
    ensures Journal.EntrySize(Built().op, BeginOp(14, SET_ATTR + key)) > BLOCK_SIZE
    ensures Journal.Pending(w, Journal.EntrySize(Built().op, BeginOp(14, SET_ATTR + key)), n)
  {
    hide Built, Journal.Pending, Journal.EntrySize;
    OpSize(BeginOp(14, SET_ATTR + key));
    Journal.NeverWritten(w, Journal.EntrySize(Built().op, BeginOp(14, SET_ATTR + key)), n);
  }

  /** The entries of one `set_attribute` on inode 14, with the catalog in inode 13. */
  function SetOps(key: Str): seq<JournalOp> { Updates.SetAttributeOps(14, key, 13) }

  lemma SetOpsSize(key: Str)
    ensures |SetOps(key)| == 4
    ensures Journal.EntrySize(Built().op, SetOps(key)[0]) == 30 + 2 * |key|
    ensures forall i :: 1 <= i < 4 ==> Journal.EntrySize(Built().op, SetOps(key)[i]) == 12
  {
    hide Built, Journal.EntrySize;
    OpSize(SetOps(key)[0]);
    OpSize(SetOps(key)[1]);
    OpSize(SetOps(key)[2]);
    OpSize(SetOps(key)[3]);
  }

  /** The log after one `set_attribute` that fits the first block: it ends where the sizes add up to. */
  lemma AfterOneSet(key: Str)
    requires 66 + 2 * |key| <= BLOCK_SIZE
    ensures Journal.AllFit(Built().op, SetOps(key)) && Journal.BeforeWrap(Built().op, SetOps(key))
    ensures Journal.EndOf(Built().op, SetOps(key)) == 66 + 2 * |key| && Journal.BeforeGap(Built().op, SetOps(key)) == 4
  {
    hide *;
    var c, ops := Built().op, SetOps(key);
    BlockIs();
    SetOpsSize(key);
    NothingLogged(c);
    InPlace(0, 30 + 2 * |key|);
    InPlace(30 + 2 * |key|, 12);
    InPlace(42 + 2 * |key|, 12);
    InPlace(54 + 2 * |key|, 12);
    assert ops == [] + [ops[0]] + [ops[1]] + [ops[2]] + [ops[3]];
    Journal.FitMore(c, [], ops[0]);
    Journal.FitMore(c, [] + [ops[0]], ops[1]);
    Journal.FitMore(c, [] + [ops[0]] + [ops[1]], ops[2]);
    Journal.FitMore(c, [] + [ops[0]] + [ops[1]] + [ops[2]], ops[3]);
  }

  lemma NothingLogged(c: Codec<JournalOp>)
    ensures Journal.AllFit(c, []) && Journal.BeforeWrap(c, [])
    ensures Journal.EndOf(c, []) == 0 && Journal.BeforeGap(c, []) == 0
  {
  }

  /**
   * Setting two attributes with keys of 1001 bytes, torn after the second has begun: its entry goes to the
   * next block, recovery stops at the gap before it, and the open operation is not reported.
   */
  lemma TornCallUnseen(key: Str, journal: Journal.Journal, blocks: seq<seq<Byte>>)
    requires |key| == 1001 && journal.codec == Built().op && journal.ValidOn(blocks)
    requires journal.clean >= Journal.JOURNAL_BYTES
    requires journal.logged == SetOps(key) + [SetOps(key)[0]]
    ensures WholeBlocks(blocks) && JOURNAL_END <= |blocks|
    ensures Journal.Scan(journal.codec, Journal.Region(blocks), 0) == SetOps(key)
    ensures Journal.Dirty(journal.logged) && !Journal.Dirty(Journal.Scan(journal.codec, Journal.Region(blocks), 0))
  {
    hide *;
    var c, ops := Built().op, SetOps(key);
    BlockIs();
    PrefixIs();
    SetOpsSize(key);
    AfterOneSet(key);
    SecondInNextBlock(c, ops, 2068, Journal.EntrySize(c, ops[0]));
    Journal.FitMore(c, ops, ops[0]);
    journal.RegionThere(blocks);
    journal.ScanStopsAtGap(blocks);
    assert (ops + [ops[0]])[..4] == ops;
    SetOpsDirty(key, key);
  }

  lemma BlockIs()
    ensures BLOCK_SIZE == 4096
  {
  }

  lemma SecondInNextBlock(c: Codec<JournalOp>, ops: seq<JournalOp>, w: nat, total: nat)
    requires w < BLOCK_SIZE < w + total && total <= BLOCK_SIZE
    ensures Journal.Settle(w, total) == BLOCK_SIZE
    ensures Journal.LeavesGap(w, total) <==> w + Journal.PREFIX <= BLOCK_SIZE
  {
  }

  lemma SetOpsDirty(key: Str, other: Str)
    ensures !Journal.Dirty(SetOps(key))
    ensures Journal.Dirty(SetOps(key) + [SetOps(other)[0]])
    ensures !Journal.Dirty(SetOps(key) + SetOps(other))
  {
    var ops, more := SetOps(key), SetOps(other);
    FoldSet(Journal.NOTHING_OPEN, key);
    FoldSet(Journal.NOTHING_OPEN, other);
    Journal.FoldAppend(Journal.NOTHING_OPEN, ops, [more[0]]);
    Journal.FoldAppend(Journal.NOTHING_OPEN, ops, more);
    assert [more[0]][1..] == [];
  }

  /** One whole `set_attribute` leaves nothing open. */
  lemma FoldSet(o: Journal.Open, key: Str)
    requires o == Journal.NOTHING_OPEN
    ensures Journal.FoldFrom(o, SetOps(key)) == o
  {
    var ops := SetOps(key);
    var o1 := Journal.Follow(o, ops[0]);
    var o2 := Journal.Follow(o1, ops[1]);
    var o3 := Journal.Follow(o2, ops[2]);
    var o4 := Journal.Follow(o3, ops[3]);
    assert ops[1..][1..] == ops[2..] && ops[2..][1..] == ops[3..] && ops[3..][1..] == [];
    assert Journal.FoldFrom(o, ops) == Journal.FoldFrom(o1, ops[1..]);
    assert Journal.FoldFrom(o1, ops[1..]) == Journal.FoldFrom(o2, ops[2..]);
    assert Journal.FoldFrom(o2, ops[2..]) == Journal.FoldFrom(o3, ops[3..]);
    assert Journal.FoldFrom(o3, ops[3..]) == o4;
  }

  /**
   * Setting two attributes with keys of 1001 and 994 bytes, both to the end: the second call's entries are cut
   * by a gap, and a clean log is reported as torn.
   */
  lemma WholeCallReported(key: Str, other: Str, journal: Journal.Journal, blocks: seq<seq<Byte>>)
    requires |key| == 1001 && |other| == 994
    requires journal.codec == Built().op && journal.ValidOn(blocks) && journal.clean >= Journal.JOURNAL_BYTES
    requires journal.logged == SetOps(key) + SetOps(other)
    ensures WholeBlocks(blocks) && JOURNAL_END <= |blocks|
    ensures Journal.Scan(journal.codec, Journal.Region(blocks), 0) == SetOps(key) + [SetOps(other)[0]]
    ensures !Journal.Dirty(journal.logged) && Journal.Dirty(Journal.Scan(journal.codec, Journal.Region(blocks), 0))
  {
    hide *;
    BlockIs();
    SetOpsSize(other);
    AfterOneSet(key);
    TwoSets(key, other);
    journal.RegionThere(blocks);
    journal.ScanStopsAtGap(blocks);
    SetOpsSize(key);
    assert (SetOps(key) + SetOps(other))[..5] == SetOps(key) + [SetOps(other)[0]];
    SetOpsDirty(key, other);
  }

  lemma TwoSets(key: Str, other: Str)
    requires |key| == 1001 && |other| == 994
    ensures var c, ops := Built().op, SetOps(key) + SetOps(other);
            Journal.AllFit(c, ops) && Journal.BeforeWrap(c, ops) && Journal.BeforeGap(c, ops) == 5
  {
    hide *;
    var c, a, b := Built().op, SetOps(key), SetOps(other);
    BlockIs();
    SetOpsSize(key);
    SetOpsSize(other);
    AfterOneSet(key);
    InPlace(2068, 2018);
    SecondInNextBlock(c, a, 4086, 12);
    InPlace(4108, 12);
    InPlace(4120, 12);
    Journal.FitMore(c, a, b[0]);
    Journal.FitMore(c, a + [b[0]], b[1]);
    Journal.FitMore(c, a + [b[0]] + [b[1]], b[2]);
    Journal.FitMore(c, a + [b[0]] + [b[1]] + [b[2]], b[3]);
    assert a + [b[0]] + [b[1]] + [b[2]] + [b[3]] == a + b;
    PrefixIs();
  }

  lemma PrefixIs()
    ensures Journal.PREFIX == 8
  {
  }

  lemma InPlace(w: nat, total: nat)
    requires w + total <= BLOCK_SIZE || (BLOCK_SIZE <= w && w + total <= 2 * BLOCK_SIZE)
    ensures total <= BLOCK_SIZE && Journal.Settle(w, total) == w && !Journal.LeavesGap(w, total)
  {
  }

  // ----- a full device

  /**
   * A file of 64 MiB that is full, as mounted: nothing is free and the counter says so, but the allocator's limit is
   * rounded up to 32768 blocks. It hands out block 16384. The counter is still right then, but one used block lies
   * past the block count.
   */
  lemma FullDeviceOverruns()
    returns (c: Codecs, blocks: seq<seq<Byte>>, sb: Superblock, inodes: Image.Inodes, owner: Image.Owners)
    ensures c.Lawful() && c.FitsBlocks() && |blocks| == 16384 == Layout.BlocksFromSize(64)
    ensures Image.Consistent(c, blocks, sb, inodes, owner) && Counter.CountsClear(sb, owner.Keys)
    ensures sb.blockCount == 16384 && sb.freeBlocks == 0 && sb.bitmapBlocks * BLOCK_SIZE * 8 == 32768
    ensures Counter.Below(owner.Keys, 16384) && Bitmap.IsLeastFree(owner.Keys, 16384, None)
    ensures Counter.TookLeast(sb, owner.Keys, Counter.OneTaken(sb), owner.Keys + {16384}, 32768, 16384)
    ensures Counter.CountsClear(Counter.OneTaken(sb), owner.Keys + {16384})
    ensures !Counter.Below(owner.Keys + {16384}, 16384)
  {
    hide *;
    c := Built();
    BuiltLawful();
    BuiltFits();
    forall id: nat, kind | id < WORDS
      ensures |c.inode.enc(NewInode(id, kind))| <= BLOCK_SIZE
    {
      EmptyInodeSize(id, kind);
    }
    FullIs(16384);
    Layout.FullConsistent(c, 16384);
    blocks, sb, inodes, owner :=
      Layout.FullBlocks(c, 16384), Layout.FreshSuperblock(16384).(freeBlocks := 0), Layout.FullInodes(16384),
          Layout.FullOwner(16384);
    NoneBelow(owner.Keys, 16384, 32768);
    Counter.TakesLeast(sb, owner.Keys, 32768, 16384);
    Counter.TookOne(sb, owner.Keys, 32768, 16384);
    Counter.TakingKeepsCount(sb, owner.Keys, Counter.OneTaken(sb), owner.Keys + {16384}, 1);
  }

  lemma FullIs(n: nat)
    requires n == 16384
    ensures n == Layout.BlocksFromSize(64) && SystemEnd(n) + 2 <= n < WORDS
    ensures Layout.FreshSuperblock(n).bitmapBlocks * BLOCK_SIZE * 8 == 32768
    ensures Layout.FreshSuperblock(n).blockCount == n
    ensures forall c: Codecs :: |Layout.FullBlocks(c, n)| == n
  {
  }

  lemma NoneBelow(used: set<nat>, n: nat, limit: nat)
    requires n < limit && forall b: nat :: b in used <==> b < n
    ensures Counter.Below(used, n) && !Counter.Below(used + {n}, n)
    ensures Bitmap.IsLeastFree(used, n, None) && Bitmap.IsLeastFree(used, limit, Some(n))
  {
    assert n in used + {n};
  }
}
