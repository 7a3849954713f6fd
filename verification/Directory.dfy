/** Directories: sorted lists of names, and the tree that paths walk. */
module Directory {
  import opened Storage
  import opened Types
  import opened Floats
  import opened Image
  import opened Overlay
  import opened Updates
  import opened Query

  // ----- the order of names

  predicate StrLess(a: Str, b: Str) { StrOrder(a, b) == Less }

  /** Names are ordered by their bytes. */
  lemma LessIsBytes(a: Str, b: Str)
    ensures StrLess(a, b) <==> Precedes(a, b)
    ensures !Precedes(a, b) && !Precedes(b, a) <==> a == b
  {
    hide Precedes, StrOrder;
    StringsCompareBytes(a, b);
  }

  lemma {:induction false} LessTransitive(a: Str, b: Str, c: Str)
    requires StrLess(a, b) && StrLess(b, c)
    ensures StrLess(a, c)
    decreases a
  {
    if a != [] && a[0] == b[0] == c[0] {
      LessTransitive(a[1..], b[1..], c[1..]);
    }
  }

  lemma PrecedesTransitive(a: Str, b: Str, c: Str)
    requires Precedes(a, b) && Precedes(b, c)
    ensures Precedes(a, c)
  {
    hide Precedes, StrLess;
    LessIsBytes(a, b);
    LessIsBytes(b, c);
    LessTransitive(a, b, c);
    LessIsBytes(a, c);
  }

  // ----- sorted entries

  ghost predicate Sorted(entries: seq<DirEntry>) {
    forall i, j :: 0 <= i < j < |entries| ==> Precedes(entries[i].name, entries[j].name)
  }

  /** Where a stable sort puts `e` among sorted entries: before the first greater name. */
  function Insert(entries: seq<DirEntry>, e: DirEntry): (r: seq<DirEntry>)
    ensures |r| == |entries| + 1
    ensures multiset(r) == multiset(entries) + multiset{e}
  {
    if entries == [] then [e]
    else if StrLess(e.name, entries[0].name) then
      assert entries == [entries[0]] + entries[1..];
      [e] + entries
    else
      assert entries == [entries[0]] + entries[1..];
      [entries[0]] + Insert(entries[1..], e)
  }

  /** The stable sort by name, as insertion of one entry after the other. */
  function SortByName(entries: seq<DirEntry>): (r: seq<DirEntry>)
    ensures multiset(r) == multiset(entries)
  {
    if entries == [] then []
    else
      assert entries == entries[..|entries| - 1] + [entries[|entries| - 1]];
      Insert(SortByName(entries[..|entries| - 1]), entries[|entries| - 1])
  }

  predicate Named(entries: seq<DirEntry>, name: Str) {
    exists i :: 0 <= i < |entries| && entries[i].name == name
  }

  lemma PrependSorted(e: DirEntry, rest: seq<DirEntry>)
    requires Sorted(rest) && forall x :: x in rest ==> Precedes(e.name, x.name)
    ensures Sorted([e] + rest)
  {
    var r := [e] + rest;
    forall i, j | 0 <= i < j < |r|
      ensures Precedes(r[i].name, r[j].name)
    {
      assert r[j] == rest[j - 1];
      if i > 0 {
        assert r[i] == rest[i - 1];
      }
    }
  }

  lemma HeadIsLeast(entries: seq<DirEntry>, x: DirEntry)
    requires Sorted(entries) && entries != [] && x in entries[1..]
    ensures Precedes(entries[0].name, x.name)
  {
    var k :| 0 <= k < |entries[1..]| && entries[1..][k] == x;
    assert entries[k + 1] == x;
  }

  lemma {:induction false} InsertSorted(entries: seq<DirEntry>, e: DirEntry)
    requires Sorted(entries) && !Named(entries, e.name)
    ensures Sorted(Insert(entries, e))
    ensures forall x :: x in Insert(entries, e) <==> x in entries || x == e
  {
    hide StrLess, Precedes;
    if entries != [] {
      var head, rest := entries[0], entries[1..];
      assert entries == [head] + rest;
      LessIsBytes(e.name, head.name);
      if Precedes(e.name, head.name) {
        forall x | x in entries
          ensures Precedes(e.name, x.name)
        {
          if x != head {
            HeadIsLeast(entries, x);
            PrecedesTransitive(e.name, head.name, x.name);
          }
        }
        PrependSorted(e, entries);
      } else {
        assert !Named(rest, e.name);
        InsertSorted(rest, e);
        forall x | x in Insert(rest, e)
          ensures Precedes(head.name, x.name)
        {
          if x != e {
            HeadIsLeast(entries, x);
          }
        }
        PrependSorted(head, Insert(rest, e));
      }
    }
  }

  lemma NoneBefore(a: Str, b: Str)
    requires Precedes(a, b)
    ensures !Precedes(b, a) && a != b
  {
    hide Precedes;
    StringsCompareBytes(a, b);
  }

  lemma {:induction false} InsertLast(entries: seq<DirEntry>, e: DirEntry)
    requires forall i :: 0 <= i < |entries| ==> Precedes(entries[i].name, e.name)
    ensures Insert(entries, e) == entries + [e]
  {
    hide StrLess, Precedes;
    if entries != [] {
      LessIsBytes(entries[0].name, e.name);
      LessIsBytes(e.name, entries[0].name);
      NoneBefore(entries[0].name, e.name);
      InsertLast(entries[1..], e);
      assert [entries[0]] + (entries[1..] + [e]) == entries + [e];
    }
  }

  lemma {:induction false} SortedStays(entries: seq<DirEntry>)
    requires Sorted(entries)
    ensures SortByName(entries) == entries
  {
    if entries != [] {
      var n := |entries| - 1;
      SortedStays(entries[..n]);
      InsertLast(entries[..n], entries[n]);
    }
  }

  /** Pushing one entry with a new name and sorting gives the sorted entries with it among them. */
  lemma PushAndSort(entries: seq<DirEntry>, e: DirEntry)
    requires Sorted(entries) && !Named(entries, e.name)
    ensures Sorted(SortByName(entries + [e]))
    ensures forall x :: x in SortByName(entries + [e]) <==> x in entries || x == e
  {
    assert (entries + [e])[..|entries|] == entries;
    SortedStays(entries);
    InsertSorted(entries, e);
  }

  // ----- directories of a file system

  /** The entries a directory holds: an empty file is an empty directory. */
  function Entries(c: Codecs, content: seq<Byte>): Option<seq<DirEntry>> {
    if content == [] then Some([]) else c.entries.dec(content)
  }

  /** What listing file `id` yields. */
  function Listing(c: Codecs, files: Files, id: nat): Option<seq<DirEntry>> {
    if id in files && files[id].kind == Directory then Entries(c, files[id].content) else None
  }

  /** Directory `d` has an entry for inode `id` under `name`. */
  ghost predicate Links(c: Codecs, files: Files, d: nat, name: Str, id: nat) {
    Listing(c, files, d).Some? && exists e :: e in Listing(c, files, d).value && e.name == name && e.inodeId == id
  }

  /**
   * Every directory can be listed, strictly sorted by name; entries name files of the kind they
   * say; each file but the root is named at most once, the root never.
   */
  ghost predicate IsTree(c: Codecs, files: Files, root: nat) {
    && root in files && files[root].kind == Directory
    && (forall d :: d in files && files[d].kind == Directory ==>
          Entries(c, files[d].content).Some? && Sorted(Entries(c, files[d].content).value))
    && (forall d, e :: Listing(c, files, d).Some? && e in Listing(c, files, d).value ==>
          e.inodeId in files && files[e.inodeId].kind == e.kind && e.inodeId != root)
    && (forall d1, n1, d2, n2, id :: Links(c, files, d1, n1, id) && Links(c, files, d2, n2, id) ==>
        d1 == d2 && n1 == n2)
  }

  function Find(entries: seq<DirEntry>, name: Str): (r: Option<DirEntry>)
    ensures r.Some? ==> r.value in entries && r.value.name == name
    ensures r == None <==> !Named(entries, name)
  {
    if entries == [] then None
    else if entries[0].name == name then Some(entries[0])
    else
      assert Named(entries[1..], name) ==> Named(entries, name);
      Find(entries[1..], name)
  }

  /** In a sorted list only one entry has a given name. */
  lemma FindsTheOne(entries: seq<DirEntry>, e: DirEntry)
    requires Sorted(entries) && e in entries
    ensures Find(entries, e.name) == Some(e)
  {
    hide Sorted, Precedes;
    var i :| 0 <= i < |entries| && entries[i] == e;
    var f := Find(entries, e.name).value;
    var j :| 0 <= j < |entries| && entries[j] == f;
    if i < j {
      NamesDiffer(entries, i, j);
    } else if j < i {
      NamesDiffer(entries, j, i);
    }
  }

  lemma NamesDiffer(entries: seq<DirEntry>, i: nat, j: nat)
    requires Sorted(entries) && i < j < |entries|
    ensures entries[i].name != entries[j].name
  {
    hide Precedes;
    LessIsBytes(entries[i].name, entries[j].name);
  }

  function Child(c: Codecs, files: Files, d: nat, name: Str): Option<nat> {
    match Listing(c, files, d)
    case None => None
    case Some(entries) =>
      match Find(entries, name)
      case None => None
      case Some(e) => Some(e.inodeId)
  }

  /** The file that a sequence of names leads to from `start`. */
  function Resolve(c: Codecs, files: Files, start: nat, parts: seq<Str>): Option<nat>
    decreases parts
  {
    if parts == [] then Some(start)
    else
      match Child(c, files, start, parts[0])
      case None => None
      case Some(next) => Resolve(c, files, next, parts[1..])
  }

  lemma {:induction false} ResolveLast(c: Codecs, files: Files, start: nat, parts: seq<Str>, name: Str)
    ensures Resolve(c, files, start, parts + [name])
         == match Resolve(c, files, start, parts) case None => None case Some(d) => Child(c, files, d, name)
    decreases parts
  {
    if parts == [] {
      assert Resolve(c, files, start, [name])
          == match Child(c, files, start, name) case None => None case Some(n) => Some(n);
    } else {
      assert (parts + [name])[1..] == parts[1..] + [name];
      match Child(c, files, start, parts[0]) {
        case None =>
        case Some(next) => ResolveLast(c, files, next, parts[1..], name);
      }
    }
  }

  lemma ChildLinks(c: Codecs, files: Files, root: nat, d: nat, name: Str)
    requires IsTree(c, files, root)
    ensures Child(c, files, d, name).Some? <==> exists id :: Links(c, files, d, name, id)
    ensures Child(c, files, d, name).Some? ==>
              && Links(c, files, d, name, Child(c, files, d, name).value)
              && Child(c, files, d, name).value in files && Child(c, files, d, name).value != root
  {
    if Listing(c, files, d).Some? {
      var entries := Listing(c, files, d).value;
      if Child(c, files, d, name).Some? {
        var e := Find(entries, name).value;
        assert e in entries && Links(c, files, d, name, e.inodeId);
      }
    }
  }

  lemma {:induction false} ResolvesInside(c: Codecs, files: Files, root: nat, start: nat, parts: seq<Str>)
    requires IsTree(c, files, root) && start in files
    ensures Resolve(c, files, start, parts).Some? ==> Resolve(c, files, start, parts).value in files
    decreases parts
  {
    if parts != [] {
      ChildLinks(c, files, root, start, parts[0]);
      if Child(c, files, start, parts[0]).Some? {
        ResolvesInside(c, files, root, Child(c, files, start, parts[0]).value, parts[1..]);
      }
    }
  }

  /** No file has two paths. */
  lemma {:induction false} OnePath(c: Codecs, files: Files, root: nat, p: seq<Str>, q: seq<Str>)
    requires IsTree(c, files, root)
    requires Resolve(c, files, root, p).Some? && Resolve(c, files, root, p) == Resolve(c, files, root, q)
    ensures p == q
    decreases |p| + |q|
  {
    if p == [] && q == [] {
    } else if p == [] {
      NotRoot(c, files, root, q);
    } else if q == [] {
      NotRoot(c, files, root, p);
    } else {
      hide *;
      LastStep(c, files, root, p);
      LastStep(c, files, root, q);
      var d1, d2 := Resolve(c, files, root, p[..|p| - 1]).value, Resolve(c, files, root, q[..|q| - 1]).value;
      OneLink(c, files, root, d1, p[|p| - 1], d2, q[|q| - 1], Resolve(c, files, root, p).value);
      OnePath(c, files, root, p[..|p| - 1], q[..|q| - 1]);
      assert p[..|p| - 1] + [p[|p| - 1]] == p && q[..|q| - 1] + [q[|q| - 1]] == q;
    }
  }

  /** The last step of a path that leads somewhere is a link. */
  lemma LastStep(c: Codecs, files: Files, root: nat, p: seq<Str>)
    requires IsTree(c, files, root) && p != [] && Resolve(c, files, root, p).Some?
    ensures Resolve(c, files, root, p[..|p| - 1]).Some?
    ensures Links(c, files, Resolve(c, files, root, p[..|p| - 1]).value, p[|p| - 1], Resolve(c, files, root, p).value)
  {
    hide IsTree, Links, Resolve, Child;
    var m := |p| - 1;
    assert p[..m] + [p[m]] == p;
    ResolveLast(c, files, root, p[..m], p[m]);
    ChildLinks(c, files, root, Resolve(c, files, root, p[..m]).value, p[m]);
  }

  lemma OneLink(c: Codecs, files: Files, root: nat, d1: nat, n1: Str, d2: nat, n2: Str, id: nat)
    requires IsTree(c, files, root) && Links(c, files, d1, n1, id) && Links(c, files, d2, n2, id)
    ensures d1 == d2 && n1 == n2
  {
    hide Links;
  }

  lemma NotRoot(c: Codecs, files: Files, root: nat, p: seq<Str>)
    requires IsTree(c, files, root) && p != []
    ensures Resolve(c, files, root, p) != Some(root)
  {
    var m := |p| - 1;
    assert p[..m] + [p[m]] == p;
    ResolveLast(c, files, root, p[..m], p[m]);
    if Resolve(c, files, root, p[..m]).Some? {
      ChildLinks(c, files, root, Resolve(c, files, root, p[..m]).value, p[m]);
    }
  }

  // ----- adding an entry

  /** The files after a new one was entered in a directory under a name. */
  function WithEntry(c: Codecs, before: Files, parent: nat, name: Str, kind: FileKind, id: nat): Files
    requires parent in before
  {
    var entries := match Entries(c, before[parent].content) case Some(es) => es case None => [];
    var made := before[id := NewFile(kind, map[])];
    made[parent := Written(made[parent], 0, c.entries.enc(SortByName(entries + [DirEntry(name, id, kind)])))]
  }

  ghost predicate EntryAdded(c: Codecs, before: Files, after: Files, parent: nat, name: Str, kind: FileKind, id: nat) {
    && Listing(c, before, parent).Some? && !Named(Listing(c, before, parent).value, name)
    && id !in before
    && after == WithEntry(c, before, parent, name, kind, id)
  }

  /** Writing an encoding at the start of a file is enough for it to be read back, whatever was there. */
  lemma WrittenDecodes(c: Codecs, file: FileView, entries: seq<DirEntry>)
    requires c.Lawful()
    ensures Entries(c, Written(file, 0, c.entries.enc(entries)).content) == Some(entries)
  {
    var data := c.entries.enc(entries);
    var longer := entries + [DirEntry([], 0, File)];
    assert |longer| != |entries|;
    c.entries.EncodesToSomething(entries, longer);
    var content := Overlaid(file.content, 0, data);
    assert content == data + content[|data|..];
    assert c.entries.dec(data + content[|data|..]) == Some(entries);
  }

  lemma ListingsAfter(c: Codecs, before: Files, after: Files, parent: nat, name: Str, kind: FileKind, id: nat, d: nat)
    requires c.Lawful() && EntryAdded(c, before, after, parent, name, kind, id)
    ensures Listing(c, after, d) ==
              if d == parent then Some(SortByName(Listing(c, before, parent).value + [DirEntry(name, id, kind)]))
              else if d == id then (if kind == Directory then Some([]) else None)
              else Listing(c, before, d)
  {
    WrittenDecodes(c, before[parent], SortByName(Listing(c, before, parent).value + [DirEntry(name, id, kind)]));
  }

  /**
   * What entering a name does: there is one new empty file, the directory lists what it did and the new entry, in
   * byte order of the names, and no other file, nor what else is known of the directory, changes.
   */
  lemma EntryListed(c: Codecs, before: Files, after: Files, root: nat, parent: nat, name: Str, kind: FileKind, id: nat)
    requires c.Lawful() && IsTree(c, before, root) && EntryAdded(c, before, after, parent, name, kind, id)
    ensures id !in before && parent in before && after.Keys == before.Keys + {id}
    ensures after[id] == FileView(kind, [], map[], {})
    ensures after[parent] == before[parent].(content := after[parent].content)
    ensures forall other :: other in before && other != parent ==> after[other] == before[other]
    ensures var (listed0, listed) := (Listing(c, before, parent), Listing(c, after, parent));
            && listed0.Some? && listed.Some? && |listed.value| == |listed0.value| + 1
            && (forall e :: e in listed.value <==> e in listed0.value || e == DirEntry(name, id, kind))
            && forall i, j :: 0 <= i < j < |listed.value| ==> Precedes(listed.value[i].name, listed.value[j].name)
  {
    hide *;
    EntryFiles(c, before, after, parent, name, kind, id);
    ListingsAfter(c, before, after, parent, name, kind, id, parent);
    TreeListing(c, before, root, parent);
    var entries, e := Listing(c, before, parent).value, DirEntry(name, id, kind);
    PushAndSort(entries, e);
    SortedLength(entries + [e]);
    SortedIs(SortByName(entries + [e]));
  }

  lemma EntryFiles(c: Codecs, before: Files, after: Files, parent: nat, name: Str, kind: FileKind, id: nat)
    requires EntryAdded(c, before, after, parent, name, kind, id)
    ensures id !in before && parent in before && after.Keys == before.Keys + {id}
    ensures after[id] == FileView(kind, [], map[], {})
    ensures after[parent] == before[parent].(content := after[parent].content)
    ensures forall other :: other in before && other != parent ==> after[other] == before[other]
    ensures Listing(c, before, parent).Some? && !Named(Listing(c, before, parent).value, name)
  {
    hide SortByName, Overlaid;
  }

  lemma SortedIs(entries: seq<DirEntry>)
    requires Sorted(entries)
    ensures forall i, j :: 0 <= i < j < |entries| ==> Precedes(entries[i].name, entries[j].name)
  {
  }

  lemma SortedLength(entries: seq<DirEntry>)
    ensures |SortByName(entries)| == |entries|
  {
    assert |multiset(SortByName(entries))| == |multiset(entries)|;
  }

  /** A link after the call is the new one or an old one. */
  lemma LinksAfter(c: Codecs, before: Files, after: Files, root: nat, parent: nat, name: Str, kind: FileKind, id: nat,
                   d: nat, n: Str, x: nat)
    requires c.Lawful() && IsTree(c, before, root) && EntryAdded(c, before, after, parent, name, kind, id)
    ensures Links(c, after, d, n, x) <==> Links(c, before, d, n, x) || (d == parent && n == name && x == id)
  {
    hide IsTree, SortByName, Insert;
    TreeListing(c, before, root, parent);
    ListingsAfter(c, before, after, parent, name, kind, id, d);
    PushAndSort(Listing(c, before, parent).value, DirEntry(name, id, kind));
    if d == parent && n == name && x == id {
      assert DirEntry(name, id, kind) in Listing(c, after, parent).value;
    }
  }

  lemma TreeListing(c: Codecs, files: Files, root: nat, d: nat)
    requires IsTree(c, files, root) && Listing(c, files, d).Some?
    ensures Sorted(Listing(c, files, d).value)
    ensures forall e :: e in Listing(c, files, d).value ==>
              e.inodeId in files && files[e.inodeId].kind == e.kind && e.inodeId != root
  {
  }

  lemma LinkInside(c: Codecs, files: Files, root: nat, d: nat, n: Str, id: nat)
    requires IsTree(c, files, root) && Links(c, files, d, n, id)
    ensures d in files && id in files && id != root
  {
  }

  /** Adding an entry keeps the tree a tree. */
  lemma EntryKeepsTree(c: Codecs, before: Files, after: Files, root: nat, parent: nat, name: Str, kind: FileKind,
                       id: nat)
    requires c.Lawful() && IsTree(c, before, root) && EntryAdded(c, before, after, parent, name, kind, id)
    ensures IsTree(c, after, root)
  {
    hide *;
    AddedRoot(c, before, after, root, parent, name, kind, id);
    forall d | d in after && after[d].kind == Directory
      ensures Entries(c, after[d].content).Some? && Sorted(Entries(c, after[d].content).value)
    {
      SortedAfter(c, before, after, root, parent, name, kind, id, d);
    }
    forall d, e | Listing(c, after, d).Some? && e in Listing(c, after, d).value
      ensures e.inodeId in after && after[e.inodeId].kind == e.kind && e.inodeId != root
    {
      NamesFiles(c, before, after, root, parent, name, kind, id, d, e);
    }
    forall d1, n1, d2, n2, x | Links(c, after, d1, n1, x) && Links(c, after, d2, n2, x)
      ensures d1 == d2 && n1 == n2
    {
      LinkedOnce(c, before, after, root, parent, name, kind, id, d1, n1, d2, n2, x);
    }
    MakeTree(c, after, root);
  }

  lemma MakeTree(c: Codecs, files: Files, root: nat)
    requires root in files && files[root].kind == Directory
    requires forall d :: d in files && files[d].kind == Directory ==>
               Entries(c, files[d].content).Some? && Sorted(Entries(c, files[d].content).value)
    requires forall d, e :: Listing(c, files, d).Some? && e in Listing(c, files, d).value ==>
               e.inodeId in files && files[e.inodeId].kind == e.kind && e.inodeId != root
    requires forall d1, n1, d2, n2, id :: Links(c, files, d1, n1, id) && Links(c, files, d2, n2, id) ==>
               d1 == d2 && n1 == n2
    ensures IsTree(c, files, root)
  {
    hide Links, Listing, Entries, Sorted;
  }

  lemma AddedRoot(c: Codecs, before: Files, after: Files, root: nat, parent: nat, name: Str, kind: FileKind, id: nat)
    requires IsTree(c, before, root) && EntryAdded(c, before, after, parent, name, kind, id)
    ensures root in after && after[root].kind == Directory
  {
    hide SortByName, Overlaid;
  }

  lemma SortedAfter(c: Codecs, before: Files, after: Files, root: nat, parent: nat, name: Str, kind: FileKind, id: nat,
                    d: nat)
    requires c.Lawful() && IsTree(c, before, root) && EntryAdded(c, before, after, parent, name, kind, id)
    requires d in after && after[d].kind == Directory
    ensures Entries(c, after[d].content).Some? && Sorted(Entries(c, after[d].content).value)
  {
    hide SortByName, IsTree, Overlaid;
    TreeListing(c, before, root, parent);
    PushAndSort(Listing(c, before, parent).value, DirEntry(name, id, kind));
    ListingsAfter(c, before, after, parent, name, kind, id, d);
    if d != parent && d != id {
      TreeLists(c, before, root, d);
      TreeListing(c, before, root, d);
    }
  }

  lemma TreeLists(c: Codecs, files: Files, root: nat, d: nat)
    requires IsTree(c, files, root) && d in files && files[d].kind == Directory
    ensures Listing(c, files, d).Some?
  {
  }

  lemma NamesFiles(c: Codecs, before: Files, after: Files, root: nat, parent: nat, name: Str, kind: FileKind, id: nat,
                   d: nat, e: DirEntry)
    requires c.Lawful() && IsTree(c, before, root) && EntryAdded(c, before, after, parent, name, kind, id)
    requires Listing(c, after, d).Some? && e in Listing(c, after, d).value
    ensures e.inodeId in after && after[e.inodeId].kind == e.kind && e.inodeId != root
  {
    hide SortByName, Insert, Links, Overlaid;
    TreeListing(c, before, root, parent);
    PushAndSort(Listing(c, before, parent).value, DirEntry(name, id, kind));
    ListingsAfter(c, before, after, parent, name, kind, id, d);
    if d != id && e != DirEntry(name, id, kind) {
      TreeListing(c, before, root, d);
    }
  }

  lemma LinkedOnce(c: Codecs, before: Files, after: Files, root: nat, parent: nat, name: Str, kind: FileKind, id: nat,
                   d1: nat, n1: Str, d2: nat, n2: Str, x: nat)
    requires c.Lawful() && IsTree(c, before, root) && EntryAdded(c, before, after, parent, name, kind, id)
    requires Links(c, after, d1, n1, x) && Links(c, after, d2, n2, x)
    ensures d1 == d2 && n1 == n2
  {
    hide *;
    LinksAfter(c, before, after, root, parent, name, kind, id, d1, n1, x);
    LinksAfter(c, before, after, root, parent, name, kind, id, d2, n2, x);
    AddedFacts(c, before, after, parent, name, kind, id);
    if Links(c, before, d1, n1, x) {
      LinkInside(c, before, root, d1, n1, x);
    }
    if Links(c, before, d2, n2, x) {
      LinkInside(c, before, root, d2, n2, x);
    }
    if Links(c, before, d1, n1, x) && Links(c, before, d2, n2, x) {
      OneLink(c, before, root, d1, n1, d2, n2, x);
    }
  }

  lemma ChildAfter(c: Codecs, before: Files, after: Files, root: nat, parent: nat, name: Str, kind: FileKind, id: nat,
                   d: nat, n: Str)
    requires c.Lawful() && IsTree(c, before, root) && EntryAdded(c, before, after, parent, name, kind, id)
    ensures Child(c, after, d, n) ==
              if d == parent && n == name then Some(id) else if d == id then None else Child(c, before, d, n)
  {
    hide SortByName, Insert, IsTree;
    TreeListing(c, before, root, parent);
    ListingsAfter(c, before, after, parent, name, kind, id, d);
    if d == parent {
      var entries := Listing(c, before, parent).value;
      var e := DirEntry(name, id, kind);
      PushAndSort(entries, e);
      SameFinds(entries, SortByName(entries + [e]), e, n);
    }
  }

  lemma SameFinds(entries: seq<DirEntry>, more: seq<DirEntry>, e: DirEntry, n: Str)
    requires Sorted(entries) && Sorted(more) && forall x :: x in more <==> x in entries || x == e
    requires !Named(entries, e.name)
    ensures Find(more, n) == if n == e.name then Some(e) else Find(entries, n)
  {
    hide Find;
    if n == e.name {
      FindsTheOne(more, e);
    } else if Find(entries, n).Some? {
      FindsTheOne(more, Find(entries, n).value);
    }
  }

  /** The paths that the new entry is found under: one, since a directory has one path. */
  ghost predicate NewPath(c: Codecs, before: Files, root: nat, parent: nat, name: Str, parts: seq<Str>) {
    parts != [] && parts[|parts| - 1] == name && Resolve(c, before, root, parts[..|parts| - 1]) == Some(parent)
  }

  /** Adding an entry adds its path and leaves what every other path leads to unchanged. */
  lemma {:induction false} EntryAddsOnePath(c: Codecs, before: Files, after: Files, root: nat, parent: nat, name: Str,
                                            kind: FileKind, id: nat, parts: seq<Str>)
    requires c.Lawful() && IsTree(c, before, root) && EntryAdded(c, before, after, parent, name, kind, id)
    ensures Resolve(c, after, root, parts)
         == if NewPath(c, before, root, parent, name, parts) then Some(id) else Resolve(c, before, root, parts)
    decreases |parts|
  {
    hide *;
    if parts == [] {
      EmptyPath(c, before, after, root, parent, name);
    } else {
      var front, n := parts[..|parts| - 1], parts[|parts| - 1];
      assert front + [n] == parts;
      ResolveLast(c, before, root, front, n);
      ResolveLast(c, after, root, front, n);
      EntryAddsOnePath(c, before, after, root, parent, name, kind, id, front);
      TreeRoot(c, before, root);
      ResolvesInside(c, before, root, root, front);
      ChildAfter(c, before, after, root, parent, name, kind, id, id, n);
      AddedFacts(c, before, after, parent, name, kind, id);
      NewPathIs(c, before, root, parent, name, front);
      NewPathIs(c, before, root, parent, name, parts);
      if Resolve(c, before, root, front).Some? {
        ChildAfter(c, before, after, root, parent, name, kind, id, Resolve(c, before, root, front).value, n);
      }
    }
  }

  lemma EmptyPath(c: Codecs, before: Files, after: Files, root: nat, parent: nat, name: Str)
    ensures !NewPath(c, before, root, parent, name, [])
    ensures Resolve(c, before, root, []) == Some(root) == Resolve(c, after, root, [])
  {
  }

  lemma NewPathIs(c: Codecs, before: Files, root: nat, parent: nat, name: Str, parts: seq<Str>)
    requires Child(c, before, parent, name) == None
    ensures parts != [] ==>
              (NewPath(c, before, root, parent, name, parts)
               <==> parts[|parts| - 1] == name && Resolve(c, before, root, parts[..|parts| - 1]) == Some(parent))
    ensures NewPath(c, before, root, parent, name, parts) ==> Resolve(c, before, root, parts) == None
  {
    if NewPath(c, before, root, parent, name, parts) {
      assert parts[..|parts| - 1] + [name] == parts;
      ResolveLast(c, before, root, parts[..|parts| - 1], name);
    }
  }

  lemma TreeRoot(c: Codecs, files: Files, root: nat)
    requires IsTree(c, files, root)
    ensures root in files
  {
  }

  lemma AddedFacts(c: Codecs, before: Files, after: Files, parent: nat, name: Str, kind: FileKind, id: nat)
    requires EntryAdded(c, before, after, parent, name, kind, id)
    ensures id !in before && parent in before && Child(c, before, parent, name) == None
    ensures !exists x :: Links(c, before, parent, name, x)
    ensures forall n :: Child(c, before, id, n) == None
  {
    assert forall n :: Listing(c, before, id) == None ==> Child(c, before, id, n) == None;
  }

  lemma OneNewPath(c: Codecs, before: Files, root: nat, parent: nat, name: Str, p: seq<Str>, q: seq<Str>)
    requires IsTree(c, before, root)
    requires NewPath(c, before, root, parent, name, p) && NewPath(c, before, root, parent, name, q)
    ensures p == q
  {
    OnePath(c, before, root, p[..|p| - 1], q[..|q| - 1]);
    assert p[..|p| - 1] + [name] == p && q[..|q| - 1] + [name] == q;
  }

  /** Files that differ only outside directories, by attributes or as new files that are no directories. */
  ghost predicate SameDirectories(before: Files, after: Files) {
    && (forall id :: id in before ==>
          id in after && after[id].kind == before[id].kind
          && (before[id].kind == Directory ==> after[id].content == before[id].content))
    && (forall id :: id in after && id !in before ==> after[id].kind != Directory)
  }

  lemma TreeFrame(c: Codecs, before: Files, after: Files, root: nat)
    requires IsTree(c, before, root) && SameDirectories(before, after)
    ensures IsTree(c, after, root)
    ensures forall d :: Listing(c, after, d) == Listing(c, before, d)
  {
    assert forall d :: Listing(c, after, d) == Listing(c, before, d);
    forall d1, n1, d2, n2, x | Links(c, after, d1, n1, x) && Links(c, after, d2, n2, x)
      ensures d1 == d2 && n1 == n2
    {
      assert Links(c, before, d1, n1, x) && Links(c, before, d2, n2, x);
    }
  }

  lemma {:induction false} PathsFrame(c: Codecs, before: Files, after: Files, start: nat, parts: seq<Str>)
    requires forall d :: Listing(c, after, d) == Listing(c, before, d)
    ensures Resolve(c, after, start, parts) == Resolve(c, before, start, parts)
    decreases parts
  {
    if parts != [] && Child(c, before, start, parts[0]).Some? {
      PathsFrame(c, before, after, Child(c, before, start, parts[0]).value, parts[1..]);
    }
  }

  predicate HasName(c: Codecs, files: Files, parent: nat, name: Str) {
    Listing(c, files, parent).Some? && Named(Listing(c, files, parent).value, name)
  }

  /** The calls that are refused before anything is changed. */
  predicate Refuses(c: Codecs, files: Files, parent: nat, name: Str) {
    Listing(c, files, parent) == None || HasName(c, files, parent, name)
  }

  lemma NoListing(c: Codecs, files: Files, parent: nat, name: Str)
    ensures Listing(c, files, parent) == None ==> Refuses(c, files, parent, name) && !HasName(c, files, parent, name)
  {
  }

  lemma RefusesIf(c: Codecs, files: Files, parent: nat, entries: seq<DirEntry>, name: Str)
    requires Listing(c, files, parent) == Some(entries)
    ensures Refuses(c, files, parent, name) <==> exists i :: 0 <= i < |entries| && entries[i].name == name
    ensures HasName(c, files, parent, name) <==> exists i :: 0 <= i < |entries| && entries[i].name == name
  {
  }

  /** A new file, and then the directory rewritten with an entry for it. */
  lemma Entered(c: Codecs, before: Files, made: Files, after: Files, parent: nat, name: Str, kind: FileKind, id: nat,
                entries: seq<DirEntry>)
    requires Listing(c, before, parent) == Some(entries) && !Refuses(c, before, parent, name)
    requires OneFileAdded(before, made, id, NewFile(kind, map[]))
    requires OneFileWritten(made, after, parent, 0, c.entries.enc(SortByName(entries + [DirEntry(name, id, kind)])))
    ensures EntryAdded(c, before, after, parent, name, kind, id)
  {
    hide SortByName;
  }

  lemma AddEntryOpsAre(logged: seq<JournalOp>, parent: nat, id: nat)
    ensures logged + [BeginCreate(0, UNKNOWN), EndCreate(id)] + [BeginWrite(parent), EndWrite(parent)]
              == logged + AddEntryOps(parent, id)
  {
  }

  /** What adding an entry appends to the journal. */
  function AddEntryOps(parent: nat, id: nat): seq<JournalOp> {
    [BeginCreate(0, UNKNOWN), EndCreate(id), BeginWrite(parent), EndWrite(parent)]
  }

  // ----- paths as text

  const SLASH: Byte := 0x2F

  /** The pieces of a text between slashes. */
  function Split(path: Str): (pieces: seq<Str>)
    ensures pieces != []
  {
    if path == [] then [[]]
    else
      var rest := Split(path[1..]);
      if path[0] == SLASH then [[]] + rest else [[path[0]] + rest[0]] + rest[1..]
  }

  function NonEmpty(pieces: seq<Str>): seq<Str> {
    if pieces == [] then []
    else if pieces[0] == [] then NonEmpty(pieces[1..])
    else [pieces[0]] + NonEmpty(pieces[1..])
  }

  /** The names that a path is made of. */
  function PathParts(path: Str): seq<Str> { NonEmpty(Split(path)) }

  function TrimStart(path: Str): Str {
    if path != [] && path[0] == SLASH then TrimStart(path[1..]) else path
  }

  lemma {:induction false} TrimKeepsParts(path: Str)
    ensures PathParts(TrimStart(path)) == PathParts(path)
  {
    if path != [] && path[0] == SLASH {
      TrimKeepsParts(path[1..]);
      assert ([[]] + Split(path[1..]))[1..] == Split(path[1..]);
    }
  }

  /** A text with a slash before each name. */
  function Join(names: seq<Str>): Str {
    if names == [] then [] else [SLASH] + names[0] + Join(names[1..])
  }

  predicate IsName(name: Str) { name != [] && SLASH !in name }

  lemma {:induction false} SplitName(name: Str, rest: Str)
    requires SLASH !in name && (rest == [] || rest[0] == SLASH)
    ensures Split(name + rest) == [name] + Split(rest)[1..]
    ensures Split(rest)[0] == []
  {
    if name == [] {
      assert name + rest == rest;
      if rest != [] {
        assert Split(rest) == [[]] + Split(rest[1..]);
      }
    } else {
      assert (name + rest)[1..] == name[1..] + rest;
      SplitName(name[1..], rest);
      assert [name[0]] + name[1..] == name;
    }
  }

  /** Any names can be spelled as a path and are read back as they were. */
  lemma {:induction false} JoinRoundTrip(names: seq<Str>)
    requires forall i :: 0 <= i < |names| ==> IsName(names[i])
    ensures PathParts(Join(names)) == names
  {
    if names == [] {
      assert Split([]) == [[]];
    } else {
      var name, rest := names[0], Join(names[1..]);
      JoinRoundTrip(names[1..]);
      SplitName(name, rest);
      var pieces := Split(rest)[1..];
      assert ([SLASH] + name + rest)[1..] == name + rest;
      assert Split([SLASH] + name + rest) == [[]] + ([name] + pieces);
      assert Split(rest) == [[]] + pieces;
      NonEmptyCons([], [name] + pieces);
      NonEmptyCons(name, pieces);
      NonEmptyCons([], pieces);
      assert [names[0]] + names[1..] == names;
    }
  }

  lemma NonEmptyCons(piece: Str, pieces: seq<Str>)
    ensures NonEmpty([piece] + pieces) == if piece == [] then NonEmpty(pieces) else [piece] + NonEmpty(pieces)
  {
    assert ([piece] + pieces)[1..] == pieces;
  }

  lemma {:induction false} SplitAtSlash(a: Str, b: Str)
    ensures Split(a + [SLASH] + b) == Split(a) + Split(b)
  {
    if a == [] {
      assert ([SLASH] + b)[1..] == b;
      assert a + [SLASH] + b == [SLASH] + b;
    } else {
      assert (a + [SLASH] + b)[1..] == a[1..] + [SLASH] + b;
      SplitAtSlash(a[1..], b);
    }
  }

  lemma {:induction false} NonEmptyJoins(a: seq<Str>, b: seq<Str>)
    ensures NonEmpty(a + b) == NonEmpty(a) + NonEmpty(b)
  {
    if a == [] {
      assert a + b == b;
    } else {
      assert (a + b)[1..] == a[1..] + b;
      NonEmptyJoins(a[1..], b);
    }
  }

  /** The names of any path: a slash parts the names before it from those after it, and is part of none. */
  lemma PartsAre(a: Str, b: Str)
    ensures PathParts(a + [0x2F] + b) == PathParts(a) + PathParts(b)
    ensures 0x2F !in a ==> PathParts(a) == if a == [] then [] else [a]
  {
    SplitAtSlash(a, b);
    NonEmptyJoins(Split(a), Split(b));
    if SLASH !in a {
      SplitName(a, []);
      assert a + [] == a && NonEmpty([]) == [];
    }
  }

  lemma PathStarts(c: Codecs, files: Files, root: nat, path: Str)
    ensures PathParts(path) == NonEmpty(Split(TrimStart(path))[0..])
    ensures TrimStart(path) == [] ==> Resolve(c, files, root, PathParts(path)) == Some(root)
  {
    TrimKeepsParts(path);
    var pieces := Split(TrimStart(path));
    assert pieces[0..] == pieces;
    if TrimStart(path) == [] {
      assert pieces == [[]] && NonEmpty([[]]) == NonEmpty([]);
    }
  }

  /** One piece of a path: an empty one is skipped, a name goes to the child of that name. */
  lemma PathStep(c: Codecs, files: Files, root: nat, id: nat, pieces: seq<Str>, i: nat)
    requires IsTree(c, files, root) && id in files && i < |pieces|
    ensures pieces[i] == [] ==> NonEmpty(pieces[i..]) == NonEmpty(pieces[i + 1..])
    ensures pieces[i] != [] ==>
              match Listing(c, files, id)
              case None => Resolve(c, files, id, NonEmpty(pieces[i..])) == None
              case Some(entries) =>
                match Find(entries, pieces[i])
                case None => Resolve(c, files, id, NonEmpty(pieces[i..])) == None
                case Some(e) =>
                  && e.inodeId in files
                  && Resolve(c, files, id, NonEmpty(pieces[i..]))
                       == Resolve(c, files, e.inodeId, NonEmpty(pieces[i + 1..]))
  {
    assert pieces[i..] == [pieces[i]] + pieces[i + 1..];
    NonEmptyCons(pieces[i], pieces[i + 1..]);
    if pieces[i] != [] {
      var rest := NonEmpty(pieces[i + 1..]);
      assert ([pieces[i]] + rest)[1..] == rest;
      ChildLinks(c, files, root, id, pieces[i]);
    }
  }

  lemma PathEnds(c: Codecs, files: Files, id: nat, pieces: seq<Str>)
    ensures Resolve(c, files, id, NonEmpty(pieces[|pieces|..])) == Some(id)
  {
  }
}
