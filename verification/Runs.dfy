/** Whole runs of calls: what every state keeps, and the simple file system that a run amounts to. */
module Runs {
  import opened Storage
  import opened Types
  import opened Bitmap
  import opened Overlay
  import opened Image
  import opened Counter
  import opened Updates
  import opened Query
  import opened Directory
  import opened Layout
  import opened FileSystem
  import Journal

  /** A call that succeeded, with what it returned. */
  datatype Event =
    | Created(id: nat, attributes: map<Str, AttributeValue>)
    | Entered(parent: nat, name: Str, kind: FileKind, id: nat)
    | Wrote(id: nat, offset: nat, data: seq<Byte>)
    | AttributeSet(id: nat, key: Str, value: AttributeValue)
    | Remounted

  /** What the calls change: the files, the attributes indexed so far, and the log since the last mount. */
  datatype State = State(files: Files, root: nat, catalog: nat, indexed: set<(nat, Str)>, logged: seq<JournalOp>)

  /** The journal entries of one call. */
  function OpsOf(e: Event, catalog: nat): seq<JournalOp> {
    match e
    case Created(id, _) => [BeginCreate(0, UNKNOWN), EndCreate(id)]
    case Entered(parent, _, _, id) => AddEntryOps(parent, id)
    case Wrote(id, _, data) => if data == [] then [] else [BeginWrite(id), EndWrite(id)]
    case AttributeSet(id, key, _) => SetAttributeOps(id, key, catalog)
    case Remounted => []
  }

  function IndexedBy(e: Event): set<(nat, Str)> { if e.AttributeSet? then {(e.id, e.key)} else {} }

  /** The effect of each call, as the file system's methods promise it. */
  ghost predicate Effect(c: Codecs, h: Hashes, before: Files, after: Files, catalog: nat, e: Event) {
    match e
    case Created(id, attributes) => OneFileAdded(before, after, id, NewFile(File, attributes))
    case Entered(parent, name, kind, id) => EntryAdded(c, before, after, parent, name, kind, id)
    case Wrote(id, offset, data) =>
      if data == [] then after == before else OneFileWritten(before, after, id, offset, data)
    case AttributeSet(id, key, value) => AttributeIndexed(c, h, before, after, catalog, id, key, value)
    case Remounted => after == before
  }

  ghost predicate Occurs(c: Codecs, h: Hashes, s: State, e: Event, t: State) {
    && Effect(c, h, s.files, t.files, s.catalog, e)
    && t.root == s.root && t.catalog == s.catalog && t.indexed == s.indexed + IndexedBy(e)
    && t.logged == if e.Remounted? then [] else s.logged + OpsOf(e, s.catalog)
  }

  /** Callers write to files of their own, inside them or at their end, and not over directories or the catalog. */
  predicate IsOwnWrite(files: Files, e: Event) {
    e.Wrote? && e.data != [] ==>
      e.id in files && files[e.id].kind != Directory && files[e.id].kind != System && e.offset <= |files[e.id].content|
  }

  /** What holds in every state of a run. */
  ghost predicate Inv(c: Codecs, h: Hashes, s: State) {
    && IsTree(c, s.files, s.root)
    && s.catalog in s.files && s.files[s.catalog].kind == System
    && CatalogReads(c, s.files, s.catalog).Some?
    && Covers(h, CatalogReads(c, s.files, s.catalog).value, s.files, s.indexed)
    && Journal.FoldFrom(Journal.NOTHING_OPEN, s.logged) == Journal.NOTHING_OPEN
  }

  // ----- the simple file system

  /** Files with bytes and attributes, and names for them: no blocks, no extents, no encoded directories, no index. */
  datatype Model = Model(files: Files, names: map<(nat, Str), nat>)

  function Apply(m: Model, e: Event): Model {
    match e
    case Created(id, attributes) => m.(files := m.files[id := NewFile(File, attributes)])
    case Entered(parent, name, kind, id) =>
      Model(m.files[id := NewFile(kind, map[])], m.names[(parent, name) := id])
    case Wrote(id, offset, data) =>
      if data == [] || id !in m.files then m else m.(files := m.files[id := Written(m.files[id], offset, data)])
    case AttributeSet(id, key, value) =>
      if id !in m.files then m else m.(files := m.files[id := Attributed(m.files[id], key, value)])
    case Remounted => m
  }

  function ApplyAll(m: Model, events: seq<Event>): Model {
    if events == [] then m else Apply(ApplyAll(m, events[..|events| - 1]), events[|events| - 1])
  }

  /** A file without the bytes that encode a directory or the catalog. */
  function Plain(file: FileView): FileView {
    if file.kind == Directory || file.kind == System then file.(content := []) else file
  }

  ghost predicate Refines(c: Codecs, files: Files, m: Model) {
    && m.files.Keys == files.Keys
    && (forall id :: id in files ==> m.files[id] == Plain(files[id]))
    && (forall d: nat, n: Str :: Child(c, files, d, n) == if (d, n) in m.names then Some(m.names[(d, n)]) else None)
  }

  /** Where a path leads, by the names alone. */
  function Walk(names: map<(nat, Str), nat>, start: nat, parts: seq<Str>): Option<nat>
    decreases parts
  {
    if parts == [] then Some(start)
    else if (start, parts[0]) in names then Walk(names, names[(start, parts[0])], parts[1..])
    else None
  }

  lemma {:induction false} ResolvesByName(c: Codecs, files: Files, m: Model, start: nat, parts: seq<Str>)
    requires Refines(c, files, m)
    ensures Resolve(c, files, start, parts) == Walk(m.names, start, parts)
    decreases parts
  {
    if parts != [] && (start, parts[0]) in m.names {
      ResolvesByName(c, files, m, m.names[(start, parts[0])], parts[1..]);
    }
  }

  // ----- one step

  lemma CatalogWritten(c: Codecs, file: FileView, entries: seq<CatalogEntry>)
    requires c.Lawful()
    ensures var content := Written(file, 0, c.catalog.enc(entries)).content;
            content != [] && c.catalog.dec(content) == Some(entries)
  {
    var data := c.catalog.enc(entries);
    var longer := entries + [CatalogEntry(0, 0, 0)];
    assert |longer| != |entries|;
    c.catalog.EncodesToSomething(entries, longer);
    var content := Overlaid(file.content, 0, data);
    assert content == data + content[|data|..];
    assert c.catalog.dec(data + content[|data|..]) == Some(entries);
  }

  /** Calls other than the entering of a name leave every directory as it was. */
  lemma KeepsDirectories(c: Codecs, h: Hashes, s: State, e: Event, t: State)
    requires Inv(c, h, s) && IsOwnWrite(s.files, e) && Occurs(c, h, s, e, t) && !e.Entered?
    ensures SameDirectories(s.files, t.files)
  {
    hide IsTree, Covers, Overlaid, Journal.FoldFrom;
  }

  lemma KeepsTree(c: Codecs, h: Hashes, s: State, e: Event, t: State)
    requires c.Lawful() && Inv(c, h, s) && IsOwnWrite(s.files, e) && Occurs(c, h, s, e, t)
    ensures IsTree(c, t.files, t.root)
  {
    hide IsTree, Covers, Journal.FoldFrom, SameDirectories, EntryAdded;
    if e.Entered? {
      EntryKeepsTree(c, s.files, t.files, s.root, e.parent, e.name, e.kind, e.id);
    } else {
      KeepsDirectories(c, h, s, e, t);
      TreeFrame(c, s.files, t.files, s.root);
    }
  }

  /** Calls other than the setting of an attribute leave the catalog and all attributes as they were. */
  lemma KeepsAttributes(c: Codecs, h: Hashes, s: State, e: Event, t: State)
    requires Inv(c, h, s) && IsOwnWrite(s.files, e) && Occurs(c, h, s, e, t) && !e.AttributeSet?
    ensures s.catalog in t.files && t.files[s.catalog] == s.files[s.catalog]
    ensures forall id :: id in s.files ==> id in t.files && t.files[id].attrs == s.files[id].attrs
  {
    hide IsTree, Covers, Overlaid, Journal.FoldFrom, SortByName;
  }

  lemma KeepsCatalog(c: Codecs, h: Hashes, s: State, e: Event, t: State)
    requires c.Lawful() && Inv(c, h, s) && IsOwnWrite(s.files, e) && Occurs(c, h, s, e, t)
    ensures t.catalog in t.files && t.files[t.catalog].kind == System
    ensures CatalogReads(c, t.files, t.catalog).Some?
    ensures Covers(h, CatalogReads(c, t.files, t.catalog).value, t.files, t.indexed)
  {
    hide IsTree, Journal.FoldFrom, EntryAdded, OneFileAdded, OneFileWritten;
    var entries := CatalogReads(c, s.files, s.catalog).value;
    if e.AttributeSet? {
      var mid := s.files[e.id := Attributed(s.files[e.id], e.key, e.value)];
      CatalogWritten(c, mid[s.catalog], entries + [NewCatalogEntry(h, e.key, e.value, e.id)]);
      hide Overlaid;
      assert CatalogReads(c, mid, s.catalog) == Some(entries);
      CoverMore(h, entries, s.files, t.files, s.indexed, e.id, e.key, e.value);
    } else {
      KeepsAttributes(c, h, s, e, t);
      assert t.indexed == s.indexed;
    }
  }

  /** After any prefix of a call's journal entries the log is clean or not as `IsOpen` says. */
  predicate IsOpen(e: Event, done: nat) {
    match e
    case Entered(_, _, _, _) => done == 1 || done == 3
    case AttributeSet(_, _, _) => 0 < done < 4
    case Remounted => false
    case Wrote(_, _, data) => data != [] && done == 1
    case Created(_, _) => done == 1
  }

  /**
   * A crash between the first and the last journal entry of a call leaves a dirty log, except that
   * entering a name is two transactions: between them the log is clean, with the new inode in no directory.
   */
  lemma CutIsDirty(logged: seq<JournalOp>, e: Event, catalog: nat, done: nat)
    requires Journal.FoldFrom(Journal.NOTHING_OPEN, logged) == Journal.NOTHING_OPEN && done <= |OpsOf(e, catalog)|
    ensures Journal.Dirty(logged + OpsOf(e, catalog)[..done]) <==> IsOpen(e, done)
    ensures done == |OpsOf(e, catalog)| ==>
              Journal.FoldFrom(Journal.NOTHING_OPEN, logged + OpsOf(e, catalog)) == Journal.NOTHING_OPEN
  {
    var ops := OpsOf(e, catalog);
    Journal.FoldAppend(Journal.NOTHING_OPEN, logged, ops[..done]);
    FoldShort(ops[..done]);
    assert done == |ops| ==> ops[..done] == ops;
  }

  lemma FoldShort(ops: seq<JournalOp>)
    requires |ops| <= 4
    ensures Journal.FoldFrom(Journal.NOTHING_OPEN, ops)
         == if |ops| == 0 then Journal.NOTHING_OPEN
            else
              var o1 := Journal.Follow(Journal.NOTHING_OPEN, ops[0]);
              if |ops| == 1 then o1
              else
                var o2 := Journal.Follow(o1, ops[1]);
                if |ops| == 2 then o2
                else
                  var o3 := Journal.Follow(o2, ops[2]);
                  if |ops| == 3 then o3 else Journal.Follow(o3, ops[3])
  {
    hide Journal.Follow;
    if |ops| > 0 {
      var a := Journal.Follow(Journal.NOTHING_OPEN, ops[0]);
      FoldThree(a, ops[1..]);
    }
  }

  lemma FoldThree(o: Journal.Open, ops: seq<JournalOp>)
    requires |ops| <= 3
    ensures Journal.FoldFrom(o, ops)
         == if |ops| == 0 then o
            else
              var o1 := Journal.Follow(o, ops[0]);
              if |ops| == 1 then o1
              else
                var o2 := Journal.Follow(o1, ops[1]);
                if |ops| == 2 then o2 else Journal.Follow(o2, ops[2])
  {
    hide Journal.Follow;
    if |ops| > 1 {
      assert Journal.FoldFrom(Journal.Follow(o, ops[0]), ops[1..])
          == Journal.FoldFrom(Journal.Follow(Journal.Follow(o, ops[0]), ops[1]), ops[1..][1..]);
    }
  }

  /** Every call keeps the invariant. */
  lemma StepKeeps(c: Codecs, h: Hashes, s: State, e: Event, t: State)
    requires c.Lawful() && Inv(c, h, s) && IsOwnWrite(s.files, e) && Occurs(c, h, s, e, t)
    ensures Inv(c, h, t)
  {
    hide IsTree, Covers, Effect;
    KeepsTree(c, h, s, e, t);
    KeepsCatalog(c, h, s, e, t);
    CutIsDirty(s.logged, e, s.catalog, |OpsOf(e, s.catalog)|);
  }

  /** Every call does to the files what it does to the model. */
  lemma StepRefines(c: Codecs, h: Hashes, s: State, e: Event, t: State, m: Model)
    requires c.Lawful() && Inv(c, h, s) && IsOwnWrite(s.files, e) && Occurs(c, h, s, e, t) && Refines(c, s.files, m)
    ensures Refines(c, t.files, Apply(m, e))
  {
    hide IsTree, Covers, Journal.FoldFrom, SortByName, Child;
    StepChildren(c, h, s, e, t, m);
    StepFiles(c, h, s, e, t, m);
  }

  lemma StepFiles(c: Codecs, h: Hashes, s: State, e: Event, t: State, m: Model)
    requires Inv(c, h, s) && IsOwnWrite(s.files, e) && Occurs(c, h, s, e, t) && Refines(c, s.files, m)
    ensures Apply(m, e).files.Keys == t.files.Keys
    ensures forall id :: id in t.files ==> Apply(m, e).files[id] == Plain(t.files[id])
  {
    hide Inv, Occurs, Effect, IsOwnWrite, Child, Written, Attributed;
    if e.Entered? {
      EntryFiles(c, h, s, e, t);
    } else if e.AttributeSet? {
      AttributeFiles(c, h, s, e, t);
      AttributedKind(s.files[e.id], e.key, e.value);
    } else {
      OtherFiles(c, h, s, e, t);
    }
  }

  lemma AttributedKind(file: FileView, key: Str, value: AttributeValue)
    ensures Plain(Attributed(file, key, value)) == Attributed(Plain(file), key, value)
  {
  }

  lemma OtherFiles(c: Codecs, h: Hashes, s: State, e: Event, t: State)
    requires IsOwnWrite(s.files, e) && Occurs(c, h, s, e, t) && !e.Entered? && !e.AttributeSet?
    ensures e.Created? ==> t.files == s.files[e.id := NewFile(File, e.attributes)]
    ensures e.Wrote? && e.data != [] ==>
              && e.id in s.files && Plain(s.files[e.id]) == s.files[e.id]
              && t.files == s.files[e.id := Written(s.files[e.id], e.offset, e.data)]
              && Plain(t.files[e.id]) == t.files[e.id]
    ensures e.Remounted? || (e.Wrote? && e.data == []) ==> t.files == s.files
  {
    hide Overlaid;
  }

  lemma EntryFiles(c: Codecs, h: Hashes, s: State, e: Event, t: State)
    requires Occurs(c, h, s, e, t) && e.Entered?
    ensures e.id !in s.files && t.files.Keys == s.files.Keys + {e.id} && t.files[e.id] == NewFile(e.kind, map[])
    ensures forall id :: id in s.files ==> Plain(t.files[id]) == Plain(s.files[id])
  {
    hide SortByName, Overlaid, Entries;
  }

  lemma AttributeFiles(c: Codecs, h: Hashes, s: State, e: Event, t: State)
    requires Inv(c, h, s) && Occurs(c, h, s, e, t) && e.AttributeSet?
    ensures e.id in s.files && t.files.Keys == s.files.Keys
    ensures forall id :: id in s.files ==>
              Plain(t.files[id]) == if id == e.id then Plain(Attributed(s.files[id], e.key, e.value))
                  else Plain(s.files[id])
  {
    hide IsTree, Covers, Journal.FoldFrom, Overlaid, CatalogReads;
  }

  lemma StepChildren(c: Codecs, h: Hashes, s: State, e: Event, t: State, m: Model)
    requires c.Lawful() && Inv(c, h, s) && IsOwnWrite(s.files, e) && Occurs(c, h, s, e, t) && Refines(c, s.files, m)
    ensures forall d: nat, n: Str ::
              Child(c, t.files, d, n) == if (d, n) in Apply(m, e).names then Some(Apply(m, e).names[(d, n)]) else None
  {
    hide IsTree, Covers, Journal.FoldFrom, SortByName, EntryAdded, SameDirectories;
    if e.Entered? {
      forall d: nat, n: Str
        ensures Child(c, t.files, d, n) == if (d, n) in Apply(m, e).names then Some(Apply(m, e).names[(d, n)]) else None
      {
        ChildAfter(c, s.files, t.files, s.root, e.parent, e.name, e.kind, e.id, d, n);
        AddedFacts(c, s.files, t.files, e.parent, e.name, e.kind, e.id);
        hide Find;
        assert Child(c, s.files, e.id, n) == None;
      }
    } else {
      KeepsDirectories(c, h, s, e, t);
      TreeFrame(c, s.files, t.files, s.root);
      assert forall d: nat, n: Str :: Child(c, t.files, d, n) == Child(c, s.files, d, n);
    }
  }

  // ----- runs

  ghost predicate IsRun(c: Codecs, h: Hashes, states: seq<State>, events: seq<Event>) {
    && |states| == |events| + 1
    && forall i :: 0 <= i < |events| ==>
         IsOwnWrite(states[i].files, events[i]) && Occurs(c, h, states[i], events[i], states[i + 1])
  }

  /**
   * Every run keeps the tree of names, the index and a clean log, and refines the same events
   * applied to the simple file system.
   */
  lemma {:induction false} RunRefines(c: Codecs, h: Hashes, states: seq<State>, events: seq<Event>, m: Model)
    requires c.Lawful() && IsRun(c, h, states, events) && Inv(c, h, states[0]) && Refines(c, states[0].files, m)
    ensures Inv(c, h, states[|events|]) && Refines(c, states[|events|].files, ApplyAll(m, events))
  {
    if events != [] {
      hide Inv, Refines, Occurs, IsOwnWrite, Apply;
      var n := |events| - 1;
      RunRefines(c, h, states[..n + 1], events[..n], m);
      StepKeeps(c, h, states[n], events[n], states[n + 1]);
      StepRefines(c, h, states[n], events[n], states[n + 1], ApplyAll(m, events[..n]));
    }
  }

  /** Runs start from a freshly formatted file system. */
  lemma FreshInv(c: Codecs, h: Hashes, root: nat, catalog: nat)
    requires root != catalog
    ensures Inv(c, h, State(FreshFiles(root, catalog), root, catalog, {}, []))
    ensures Refines(c, FreshFiles(root, catalog), Model(FreshFiles(root, catalog), map[]))
  {
    var files := FreshFiles(root, catalog);
    assert forall d :: Listing(c, files, d) == if d == root then Some([]) else None;
  }

  // ----- what callers see

  function AttributeAt(files: Files, id: nat, key: Str): Option<AttributeValue> {
    if id in files && key in files[id].attrs then Some(files[id].attrs[key]) else None
  }

  function GivenBy(e: Event, id: nat, key: Str, was: Option<AttributeValue>): Option<AttributeValue> {
    match e
    case AttributeSet(i, k, v) => if i == id && k == key then Some(v) else was
    case Created(i, attributes) => if i == id && key in attributes then Some(attributes[key]) else was
    case _ => was
  }

  /** The value last given to an attribute, by the call that made the file or by one that set it. */
  function LastSet(events: seq<Event>, id: nat, key: Str): Option<AttributeValue> {
    if events == [] then None else GivenBy(events[|events| - 1], id, key, LastSet(events[..|events| - 1], id, key))
  }

  lemma AttributeStep(c: Codecs, h: Hashes, before: Files, after: Files, catalog: nat, e: Event, id: nat, key: Str)
    requires Effect(c, h, before, after, catalog, e)
    ensures AttributeAt(after, id, key) == GivenBy(e, id, key, AttributeAt(before, id, key))
  {
    hide Overlaid, SortByName, CatalogReads;
  }

  /**
   * In every run from a fresh file system, an attribute has the value it was last given, through
   * any changes between small and large values.
   */
  lemma {:induction false} AttributeIsLastSet(c: Codecs, h: Hashes, states: seq<State>, events: seq<Event>, id: nat,
                                              key: Str)
    requires IsRun(c, h, states, events) && states[0].files == FreshFiles(states[0].root, states[0].catalog)
    ensures AttributeAt(states[|events|].files, id, key) == LastSet(events, id, key)
  {
    hide Effect, GivenBy, IsOwnWrite;
    if events != [] {
      var n := |events| - 1;
      assert IsRun(c, h, states[..n + 1], events[..n]);
      AttributeIsLastSet(c, h, states[..n + 1], events[..n], id, key);
      AttributeStep(c, h, states[n].files, states[n + 1].files, states[n].catalog, events[n], id, key);
    }
  }

  /** In every state of a run, a query through the catalog finds all that a full scan finds among indexed attributes. */
  lemma QueriesAreComplete(c: Codecs, h: Hashes, cosine: Cosine, s: State, q: Query, results: seq<(Inode, nat)>)
    requires Inv(c, h, s) && (q.op.Eq? ==> !HasZero(q.value))
    requires forall id :: id in s.files && q.key in s.files[id].attrs ==> (id, q.key) in s.indexed
    requires AreResults(results, ThroughCatalog(h, cosine, CatalogReads(c, s.files, s.catalog).value, s.files, q),
                        cosine, s.files, q)
    ensures CatalogLive(c, s.files, s.catalog)
    ensures AreResults(results, FullScan(cosine, s.files, q), cosine, s.files, q)
  {
    hide AreResults, IsTree, Journal.FoldFrom;
    CatalogIsComplete(h, cosine, CatalogReads(c, s.files, s.catalog).value, s.files, s.indexed, q);
  }

  /** The catalog entries that a run makes: one for every attribute set, in order. */
  function EntriesOf(h: Hashes, events: seq<Event>): seq<CatalogEntry> {
    if events == [] then []
    else
      var e := events[|events| - 1];
      EntriesOf(h, events[..|events| - 1]) + if e.AttributeSet? then [NewCatalogEntry(h, e.key, e.value, e.id)] else []
  }

  lemma CatalogStep(c: Codecs, h: Hashes, s: State, e: Event, t: State)
    requires c.Lawful() && Inv(c, h, s) && IsOwnWrite(s.files, e) && Occurs(c, h, s, e, t)
    ensures CatalogReads(c, s.files, s.catalog).Some? && t.catalog == s.catalog
    ensures CatalogReads(c, t.files, t.catalog) ==
              Some(CatalogReads(c, s.files, s.catalog).value
                   + if e.AttributeSet? then [NewCatalogEntry(h, e.key, e.value, e.id)] else [])
  {
    hide IsTree, Journal.FoldFrom, EntryAdded, OneFileAdded, OneFileWritten, Covers;
    var entries := CatalogReads(c, s.files, s.catalog).value;
    if e.AttributeSet? {
      var mid := s.files[e.id := Attributed(s.files[e.id], e.key, e.value)];
      CatalogWritten(c, mid[s.catalog], entries + [NewCatalogEntry(h, e.key, e.value, e.id)]);
      hide Overlaid;
      assert CatalogReads(c, mid, s.catalog) == Some(entries);
    } else {
      KeepsAttributes(c, h, s, e, t);
      assert entries + [] == entries;
    }
  }

  /** In every run from a fresh file system the catalog reads as the entries of the attributes set, in order. */
  lemma {:induction false} CatalogIsHistory(c: Codecs, h: Hashes, states: seq<State>, events: seq<Event>)
    requires c.Lawful() && IsRun(c, h, states, events)
    requires states[0].root != states[0].catalog && states[0] == FreshState(states[0].root, states[0].catalog)
    ensures CatalogReads(c, states[|events|].files, states[|events|].catalog) == Some(EntriesOf(h, events))
  {
    if events != [] {
      hide Inv, Refines, Occurs, IsOwnWrite, CatalogReads, FreshState;
      var n := |events| - 1;
      assert IsRun(c, h, states[..n + 1], events[..n]);
      CatalogIsHistory(c, h, states[..n + 1], events[..n]);
      FreshStateIs(states[0].root, states[0].catalog);
      FreshInv(c, h, states[0].root, states[0].catalog);
      RunRefines(c, h, states[..n + 1], events[..n], Model(states[0].files, map[]));
      CatalogStep(c, h, states[n], events[n], states[n + 1]);
    }
  }

  /** A call of the run set an attribute of `id` with the hashes that the query looks for. */
  predicate WasIndexedFor(h: Hashes, events: seq<Event>, q: Query, id: nat) {
    exists i :: 0 <= i < |events| && Indexes(h, events[i], q, id)
  }

  predicate Indexes(h: Hashes, e: Event, q: Query, id: nat) {
    e.AttributeSet? && e.id == id && h.key(e.key) == h.key(q.key) && (q.op.Eq? ==> h.value(e.value) == h.value(q.value))
  }

  lemma {:induction false} HistoryMatches(h: Hashes, events: seq<Event>, q: Query, id: nat)
    ensures id in Candidates(h, EntriesOf(h, events), q) <==> WasIndexedFor(h, events, q, id)
  {
    if events != [] {
      hide Candidates;
      var n := |events| - 1;
      HistoryMatches(h, events[..n], q, id);
      MoreCandidates(h, EntriesOf(h, events[..n]), if events[n].AttributeSet? then
                       [NewCatalogEntry(h, events[n].key, events[n].value, events[n].id)] else [], q, id);
      if WasIndexedFor(h, events[..n], q, id) {
        var i :| 0 <= i < n && Indexes(h, events[..n][i], q, id);
        assert Indexes(h, events[i], q, id);
      }
      if WasIndexedFor(h, events, q, id) {
        var i :| 0 <= i < |events| && Indexes(h, events[i], q, id);
        assert i < n ==> Indexes(h, events[..n][i], q, id);
      }
    }
  }

  lemma MoreCandidates(h: Hashes, entries: seq<CatalogEntry>, more: seq<CatalogEntry>, q: Query, id: nat)
    requires |more| <= 1
    ensures id in Candidates(h, entries + more, q) <==>
              id in Candidates(h, entries, q) || (|more| == 1 && Matches(h, more[0], q) && more[0].inodeId == id)
  {
    hide Matches;
    var all := entries + more;
    if id in Candidates(h, entries, q) {
      var i :| 0 <= i < |entries| && Matches(h, entries[i], q) && entries[i].inodeId == id;
      assert all[i] == entries[i];
    }
    if |more| == 1 {
      assert all[|entries|] == more[0];
    }
  }

  /**
   * In every run a query through the catalog finds exactly those files of the full scan on which some
   * call set an attribute with the hashes that the query looks for: what a file was made with is not found.
   */
  lemma QueriesFindWhatWasSet(c: Codecs, h: Hashes, cosine: Cosine, states: seq<State>, events: seq<Event>, q: Query)
    requires c.Lawful() && IsRun(c, h, states, events)
    requires states[0].root != states[0].catalog && states[0] == FreshState(states[0].root, states[0].catalog)
    ensures var s := states[|events|];
            && CatalogReads(c, s.files, s.catalog).Some?
            && ThroughCatalog(h, cosine, CatalogReads(c, s.files, s.catalog).value, s.files, q)
               == set id | id in FullScan(cosine, s.files, q) && WasIndexedFor(h, events, q, id)
  {
    hide CatalogReads, Occurs, IsOwnWrite, FullScan, WasIndexedFor, Candidates, EntriesOf, FreshState;
    CatalogIsHistory(c, h, states, events);
    forall id: nat
      ensures id in Candidates(h, EntriesOf(h, events), q) <==> WasIndexedFor(h, events, q, id)
    {
      HistoryMatches(h, events, q, id);
    }
  }

  /** The names "type", "chat" and "embedding". */
  const TYPE: Str := [0x74, 0x79, 0x70, 0x65]
  const CHAT: Str := [0x63, 0x68, 0x61, 0x74]
  const EMBEDDING: Str := [0x65, 0x6D, 0x62, 0x65, 0x64, 0x64, 0x69, 0x6E, 0x67]

  function ChatQuery(): Query { Query(TYPE, Eq, Text(CHAT), []) }

  /** How a memory is saved: the type goes into the new inode, and only the embedding is set as an attribute. */
  function SaveMemory(id: nat, content: seq<Byte>, v: seq<nat>): seq<Event> {
    [Created(id, map[TYPE := Text(CHAT)]), Wrote(id, 0, content), AttributeSet(id, EMBEDDING, Vector(v))]
  }

  function MemoryFiles(c: Codecs, h: Hashes, root: nat, catalog: nat, id: nat, content: seq<Byte>, v: seq<nat>): Files {
    var f := FreshFiles(root, catalog);
    var memory := Attributed(Written(NewFile(File, map[TYPE := Text(CHAT)]), 0, content), EMBEDDING, Vector(v));
    var entry := NewCatalogEntry(h, EMBEDDING, Vector(v), id);
    map[root := NewFile(Directory, map[]), id := memory,
        catalog := Written(NewFile(System, map[]), 0, c.catalog.enc([] + [entry]))]
  }

  /** One memory saved in a fresh file system: a scan for its type finds it, the query for its type does not. */
  lemma SavedMemoryIsMissed(c: Codecs, h: Hashes, cosine: Cosine, root: nat, catalog: nat, id: nat, content: seq<Byte>,
                            v: seq<nat>)
    returns (states: seq<State>)
    requires c.Lawful() && root != catalog && id != root && id != catalog && content != []
    requires h.key(EMBEDDING) != h.key(TYPE)
    ensures IsRun(c, h, states, SaveMemory(id, content, v)) && states[0] == FreshState(root, catalog)
    ensures states[3].catalog == catalog && CatalogReads(c, states[3].files, catalog).Some?
    ensures FullScan(cosine, states[3].files, ChatQuery()) == {id}
    ensures ThroughCatalog(h, cosine, CatalogReads(c, states[3].files, catalog).value, states[3].files, ChatQuery())
              == {}
  {
    states := MemoryRun(c, h, root, catalog, id, content, v);
    hide Occurs, IsOwnWrite, FullScan, CatalogReads, Candidates, FreshState, MemoryFiles;
    var events := SaveMemory(id, content, v);
    FreshStateIs(root, catalog);
    MemoryFound(c, h, cosine, root, catalog, id, content, v);
    QueriesFindWhatWasSet(c, h, cosine, states, events, ChatQuery());
    assert forall x: nat, i :: 0 <= i < |events| ==> !Indexes(h, events[i], ChatQuery(), x);
  }

  lemma MemoryFound(c: Codecs, h: Hashes, cosine: Cosine, root: nat, catalog: nat, id: nat, content: seq<Byte>,
                    v: seq<nat>)
    requires root != catalog && id != root && id != catalog
    ensures FullScan(cosine, MemoryFiles(c, h, root, catalog, id, content, v), ChatQuery()) == {id}
  {
    hide Overlaid;
    assert TYPE != EMBEDDING;
  }

  lemma MemoryRun(c: Codecs, h: Hashes, root: nat, catalog: nat, id: nat, content: seq<Byte>, v: seq<nat>)
    returns (states: seq<State>)
    requires c.Lawful() && root != catalog && id != root && id != catalog && content != []
    ensures IsRun(c, h, states, SaveMemory(id, content, v)) && states[0] == FreshState(root, catalog)
    ensures states[3].catalog == catalog && states[3].files == MemoryFiles(c, h, root, catalog, id, content, v)
  {
    hide Overlaid;
    var events := SaveMemory(id, content, v);
    var s0 := FreshState(root, catalog);
    var f1 := s0.files[id := NewFile(File, map[TYPE := Text(CHAT)])];
    var s1 := State(f1, root, catalog, {}, s0.logged + OpsOf(events[0], catalog));
    var f2 := f1[id := Written(f1[id], 0, content)];
    var s2 := State(f2, root, catalog, {}, s1.logged + OpsOf(events[1], catalog));
    var f3 := MemoryFiles(c, h, root, catalog, id, content, v);
    var s3 := State(f3, root, catalog, {(id, EMBEDDING)}, s2.logged + OpsOf(events[2], catalog));
    var mid := f2[id := Attributed(f2[id], EMBEDDING, Vector(v))];
    assert CatalogReads(c, mid, catalog) == Some([]);
    assert f3
        == mid[catalog := Written(mid[catalog], 0, c.catalog.enc([] + [NewCatalogEntry(h, EMBEDDING, Vector(v), id)]))];
    assert Occurs(c, h, s0, events[0], s1);
    assert Occurs(c, h, s1, events[1], s2);
    assert Occurs(c, h, s2, events[2], s3);
    states := [s0, s1, s2, s3];
    hide Occurs, MemoryFiles;
    forall i | 0 <= i < 3
      ensures IsOwnWrite(states[i].files, events[i]) && Occurs(c, h, states[i], events[i], states[i + 1])
    {
    }
  }

  // ----- the real calls

  datatype Call =
    | CreateInode(attributes: map<Str, AttributeValue>)
    | AddEntry(parent: nat, name: Str, kind: FileKind)
    | WriteData(id: nat, offset: nat, data: seq<Byte>)
    | SetAttribute(id: nat, key: Str, value: AttributeValue)
    | Remount

  predicate IsAnswer(call: Call, e: Event) {
    match call
    case CreateInode(attributes) => e.Created? && e.attributes == attributes
    case AddEntry(parent, name, kind) => e.Entered? && e.parent == parent && e.name == name && e.kind == kind
    case WriteData(id, offset, data) => e == Wrote(id, offset, data)
    case SetAttribute(id, key, value) => e == AttributeSet(id, key, value)
    case Remount => e == Remounted
  }

  /**
   * The calls a run is made of: on files that exist, writing as `IsOwnWrite` says, with keys that the journal
   * can hold.
   */
  predicate MayCall(c: Codecs, files: Files, call: Call) {
    match call
    case CreateInode(_) => true
    case AddEntry(parent, _, _) => parent in files
    case WriteData(id, offset, data) =>
      id in files && offset <= |files[id].content| && IsOwnWrite(files, Wrote(id, offset, data))
    case SetAttribute(id, key, _) =>
      id in files && Journal.EntrySize(c.op, BeginOp(id, SET_ATTR + key)) <= BLOCK_SIZE
    case Remount => true
  }

  ghost function StateOf(fs: UnaFS, indexed: set<(nat, Str)>): State
    reads fs, fs.device, fs.journal
  {
    State(fs.Files(), fs.superblock.rootInode, fs.superblock.catalogInode, indexed, fs.journal.logged)
  }

  lemma StateIs(fs: UnaFS, indexed: set<(nat, Str)>)
    ensures StateOf(fs, indexed)
              == State(fs.Files(), fs.superblock.rootInode, fs.superblock.catalogInode, indexed, fs.journal.logged)
  {
  }

  lemma EffectIs(c: Codecs, h: Hashes, before: Files, after: Files, catalog: nat, e: Event)
    requires match e
             case Created(id, attributes) => OneFileAdded(before, after, id, NewFile(File, attributes))
             case Entered(parent, name, kind, id) => EntryAdded(c, before, after, parent, name, kind, id)
             case Wrote(id, offset, data) =>
               if data == [] then after == before else OneFileWritten(before, after, id, offset, data)
             case AttributeSet(id, key, value) => AttributeIndexed(c, h, before, after, catalog, id, key, value)
             case Remounted => after == before
    ensures Effect(c, h, before, after, catalog, e)
    ensures OpsOf(e, catalog) ==
            match e
            case Created(id, _) => [BeginCreate(0, UNKNOWN), EndCreate(id)]
            case Entered(parent, _, _, id) => AddEntryOps(parent, id)
            case Wrote(id, _, data) => if data == [] then [] else [BeginWrite(id), EndWrite(id)]
            case AttributeSet(id, key, _) => SetAttributeOps(id, key, catalog)
            case Remounted => []
  {
  }

  lemma IsStep(c: Codecs, h: Hashes, s: State, e: Event, t: State)
    requires Effect(c, h, s.files, t.files, s.catalog, e)
    requires t
               == s.(files := t.files, indexed := s.indexed + IndexedBy(e),
                     logged := if e.Remounted? then [] else s.logged + OpsOf(e, s.catalog))
    ensures Occurs(c, h, s, e, t)
  {
  }

  /** The blocks that a call gives back: those of the attribute that it replaces. */
  ghost function GoneBy(e: Event, inodes: Inodes): set<nat> {
    if e.AttributeSet? then BlocksOf(inodes, AttrOf(e.id, e.key)) else {}
  }

  /** Every block of the device is in use, and none by a file or an attribute. */
  ghost predicate Starved(fs: UnaFS)
    reads fs, fs.device
  {
    |fs.device.blocks| == |fs.owner| && forall b :: b in fs.owner ==> !fs.owner[b].Slot?
  }

  /** A call that gives no file a byte, sets no attribute and enters no name. */
  predicate IsIdle(e: Event) { e.Created? || e.Remounted? || (e.Wrote? && e.data == []) }

  lemma FreeFits(fs: UnaFS)
    requires fs.Good()
    ensures fs.superblock.freeBlocks <= fs.superblock.blockCount
  {
    hide *;
    fs.GoodImage();
    ConsistentParts(fs.codecs, fs.device.blocks, fs.superblock, fs.inodes, fs.owner);
  }

  lemma StarvedIs(fs: UnaFS)
    ensures Starved(fs) <==> |fs.device.blocks| == |fs.owner| && forall b :: b in fs.owner ==> !fs.owner[b].Slot?
  {
  }

  /** On such a device all files are empty, and no attribute has blocks of its own. */
  lemma StarvedFiles(fs: UnaFS)
    requires fs.Good() && Starved(fs)
    ensures forall id :: id in fs.Files() ==> fs.Files()[id].content == []
    ensures forall id :: id in fs.inodes ==> fs.inodes[id].size == 0
    ensures forall id :: ContentSize(fs.Files(), id) == 0
    ensures forall s :: BlocksOf(fs.inodes, s) == {}
  {
    hide *;
    fs.GoodImage();
    ConsistentParts(fs.codecs, fs.device.blocks, fs.superblock, fs.inodes, fs.owner);
    forall s
      ensures ListOf(fs.inodes, s) == []
    {
      StarvedIs(fs);
      StreamsPart(fs.superblock.blockCount, fs.inodes, fs.owner, s);
      NoSlotNoList(fs.inodes, fs.owner, s);
    }
    forall id | id in fs.inodes
      ensures fs.inodes[id].size == 0
    {
      fs.GoodInode(id);
      NoListNoSize(fs.inodes, id);
    }
    fs.FilesAre();
    ViewKeys(fs.codecs, fs.device.blocks, fs.inodes);
    forall id | id in fs.Files()
      ensures fs.Files()[id].content == []
    {
      OwnContent(fs.codecs, fs.device.blocks, fs.inodes, id);
    }
    NoSizes(fs.Files());
    forall s
      ensures BlocksOf(fs.inodes, s) == {}
    {
      NoBlocks(fs.inodes, s);
    }
  }

  lemma NoSizes(files: Files)
    requires forall id :: id in files ==> files[id].content == []
    ensures forall id :: ContentSize(files, id) == 0
  {
  }

  lemma NoBlocks(inodes: Inodes, s: Stream)
    requires ListOf(inodes, s) == []
    ensures BlocksOf(inodes, s) == {}
  {
  }

  /** Creating an inode adds one block to the device, and takes it. */
  lemma StarvedMore(owner0: Owners, owner: Owners, id: nat, length0: nat, length: nat)
    requires length0 == |owner0| && length == LengthFor(length0, |owner0| + 1) && owner == owner0[id := InodeAt(id)]
    requires |owner.Keys| == |owner0.Keys| + 1 && forall b :: b in owner0 ==> !owner0[b].Slot?
    ensures length == |owner| && forall b :: b in owner ==> !owner[b].Slot?
  {
    assert |owner.Keys| == |owner| && |owner0.Keys| == |owner0|;
  }

  /** A call that leaves a file with bytes that was empty needs a block that it does not make. */
  lemma NotStarved(used0: nat, length0: nat, spill: nat, was: nat, now: nat, used: nat, length: nat)
    requires used == used0 + spill + Growth(was, now) && length == LengthFor(length0, used0 + spill) && used <= length
    requires now > 0
    ensures length0 != used0 || was != 0
  {
  }

  lemma GoneIs(e: Event, inodes: Inodes)
    ensures GoneBy(e, inodes) == if e.AttributeSet? then BlocksOf(inodes, AttrOf(e.id, e.key)) else {}
    ensures IsIdle(e) <==> e.Created? || e.Remounted? || (e.Wrote? && e.data == [])
  {
  }

  method PerformCreate(fs: UnaFS, attributes: map<Str, AttributeValue>, ghost indexed: set<(nat, Str)>)
    returns (r: Result<Event>)
    requires fs.Valid()
    modifies fs, fs.device, fs.bitmap, fs.journal
    ensures r.Ok? ==>
              Accounts(old(fs.superblock), old(fs.owner).Keys, GoneBy(r.value, old(fs.inodes)), fs.superblock,
                       fs.owner.Keys)
    ensures r.Ok? && old(Starved(fs)) ==> Starved(fs) && IsIdle(r.value)
    ensures r.Ok? ==>
              && fs.Valid() && r.value.Created? && r.value.attributes == attributes
              && Occurs(fs.codecs, fs.hashes, old(StateOf(fs, indexed)), r.value,
                        StateOf(fs, indexed + IndexedBy(r.value)))
  {
    hide *;
    fs.ValidParts();
    fs.GoodImage();
    fs.GoodFits();
    StarvedIs(fs);
    if Starved(fs) {
      StarvedFiles(fs);
    }
    FreeFits(fs);
    StateIs(fs, indexed);
    ghost var s := StateOf(fs, indexed);
    var made := fs.CreateInodeInternal(File, attributes);
    if made.Err? {
      return Err(made.error);
    }
    r := Ok(Created(made.value, attributes));
    TookKeeps(old(fs.superblock), old(fs.owner).Keys, fs.superblock, fs.owner.Keys, 1);
    TookAccounts(old(fs.superblock), old(fs.owner).Keys, fs.superblock, fs.owner.Keys, 1);
    GoneIs(r.value, old(fs.inodes));
    fs.GoodFits();
    if old(Starved(fs)) {
      StarvedMore(old(fs.owner), fs.owner, made.value, old(|fs.device.blocks|), |fs.device.blocks|);
    }
    StarvedIs(fs);
    fs.MakeValid();
    StateIs(fs, indexed + IndexedBy(r.value));
    EffectIs(fs.codecs, fs.hashes, s.files, fs.Files(), s.catalog, r.value);
    IsStep(fs.codecs, fs.hashes, s, r.value, StateOf(fs, indexed + IndexedBy(r.value)));
  }

  method PerformEntry(fs: UnaFS, parent: nat, name: Str, kind: FileKind, ghost indexed: set<(nat, Str)>)
    returns (r: Result<Event>)
    requires fs.Valid() && parent in fs.Files()
    modifies fs, fs.device, fs.bitmap, fs.journal
    ensures r.Ok? ==>
              Accounts(old(fs.superblock), old(fs.owner).Keys, GoneBy(r.value, old(fs.inodes)), fs.superblock,
                       fs.owner.Keys)
    ensures r.Ok? && old(Starved(fs)) ==> Starved(fs) && IsIdle(r.value)
    ensures r.Ok? ==>
              && fs.Valid() && r.value.Entered? && r.value == Entered(parent, name, kind, r.value.id)
              && Occurs(fs.codecs, fs.hashes, old(StateOf(fs, indexed)), r.value,
                        StateOf(fs, indexed + IndexedBy(r.value)))
  {
    hide *;
    fs.ValidParts();
    fs.GoodImage();
    fs.GoodFits();
    StarvedIs(fs);
    if Starved(fs) {
      StarvedFiles(fs);
    }
    FreeFits(fs);
    fs.FileThere(parent);
    StateIs(fs, indexed);
    ghost var s := StateOf(fs, indexed);
    var made := fs.AddEntry(parent, name, kind);
    if made.Err? {
      return Err(made.error);
    }
    r := Ok(Entered(parent, name, kind, made.value));
    ghost var was, now := ContentSize(s.files, parent), ContentSize(fs.Files(), parent);
    TookAccounts(old(fs.superblock), old(fs.owner).Keys, fs.superblock, fs.owner.Keys, 1 + Growth(was, now));
    GoneIs(r.value, old(fs.inodes));
    fs.GoodFits();
    NotStarved(old(|fs.owner|), old(|fs.device.blocks|), 1, was, now, |fs.owner|, |fs.device.blocks|);
    fs.MakeValid();
    StateIs(fs, indexed + IndexedBy(r.value));
    EffectIs(fs.codecs, fs.hashes, s.files, fs.Files(), s.catalog, r.value);
    IsStep(fs.codecs, fs.hashes, s, r.value, StateOf(fs, indexed + IndexedBy(r.value)));
  }

  method PerformWrite(fs: UnaFS, id: nat, offset: nat, data: seq<Byte>, ghost indexed: set<(nat, Str)>)
    returns (r: Result<Event>)
    requires fs.Valid() && id in fs.Files() && offset <= |fs.Files()[id].content|
    modifies fs, fs.device, fs.bitmap, fs.journal
    ensures r.Ok? ==>
              Accounts(old(fs.superblock), old(fs.owner).Keys, GoneBy(r.value, old(fs.inodes)), fs.superblock,
                       fs.owner.Keys)
    ensures r.Ok? && old(Starved(fs)) ==> Starved(fs) && IsIdle(r.value)
    ensures r.Ok? ==>
              && fs.Valid() && r.value == Wrote(id, offset, data)
              && Occurs(fs.codecs, fs.hashes, old(StateOf(fs, indexed)), r.value,
                        StateOf(fs, indexed + IndexedBy(r.value)))
  {
    hide *;
    fs.ValidParts();
    fs.GoodImage();
    fs.GoodFits();
    StarvedIs(fs);
    if Starved(fs) {
      StarvedFiles(fs);
    }
    FreeFits(fs);
    fs.FileThere(id);
    fs.WholeContent(id);
    StateIs(fs, indexed);
    ghost var s := StateOf(fs, indexed);
    var w := fs.WriteData(id, offset, data);
    if w.Err? {
      return Err(w.error);
    }
    r := Ok(Wrote(id, offset, data));
    GoneIs(r.value, old(fs.inodes));
    if data != [] {
      TookKeeps(old(fs.superblock), old(fs.owner).Keys, fs.superblock, fs.owner.Keys,
                BlocksLacking(old(fs.inodes)[id].size, offset, |data|));
      TookAccounts(old(fs.superblock), old(fs.owner).Keys, fs.superblock, fs.owner.Keys,
                   BlocksLacking(old(fs.inodes)[id].size, offset, |data|));
      SomeLacking(old(fs.inodes)[id].size, offset, |data|);
    } else {
      TookNone(fs.superblock, fs.owner.Keys);
      TookAccounts(fs.superblock, fs.owner.Keys, fs.superblock, fs.owner.Keys, 0);
    }
    StarvedIs(fs);
    fs.MakeValid();
    StateIs(fs, indexed + IndexedBy(r.value));
    EffectIs(fs.codecs, fs.hashes, s.files, fs.Files(), s.catalog, r.value);
    IsStep(fs.codecs, fs.hashes, s, r.value, StateOf(fs, indexed + IndexedBy(r.value)));
  }

  lemma SetIsStep(c: Codecs, h: Hashes, s: State, t: State, id: nat, key: Str, value: AttributeValue)
    requires AttributeIndexed(c, h, s.files, t.files, s.catalog, id, key, value)
    requires t.root == s.root && t.catalog == s.catalog
    requires t.indexed == s.indexed + IndexedBy(AttributeSet(id, key, value))
    requires t.logged == s.logged + SetAttributeOps(id, key, s.catalog)
    ensures Occurs(c, h, s, AttributeSet(id, key, value), t)
  {
    hide Occurs, AttributeIndexed, SetAttributeOps, Effect;
    EffectIs(c, h, s.files, t.files, s.catalog, AttributeSet(id, key, value));
    IsStep(c, h, s, AttributeSet(id, key, value), t);
  }

  lemma SetAccounts(sb0: Superblock, used0: set<nat>, gone: set<nat>, sb: Superblock, used: set<nat>, spill: nat,
                    was: nat, now: nat, length0: nat, length: nat)
    requires Exchanged(sb0, used0, gone, sb, used, spill + Growth(was, now))
    requires length == LengthFor(length0, |used0 - gone| + spill) && |used| <= length && now > 0
    ensures Accounts(sb0, used0, gone, sb, used)
    ensures gone == {} && length0 == |used0| ==> was != 0
  {
    hide Exchanged, Accounts, Growth, LengthFor;
    MakeAccounts(sb0, used0, gone, sb, used, spill + Growth(was, now));
    NotStarved(|used0 - gone|, length0, spill, was, now, |used|, length);
    assert used0 - {} == used0;
  }

  lemma StarvedFor(fs: UnaFS, id: nat, key: Str)
    requires fs.Good() && Starved(fs)
    ensures BlocksOf(fs.inodes, AttrOf(id, key)) == {} && |fs.device.blocks| == |fs.owner.Keys|
    ensures ContentSize(fs.Files(), fs.superblock.catalogInode) == 0
  {
    hide *;
    StarvedIs(fs);
    StarvedFiles(fs);
    fs.GoodFits();
  }

  method PerformSet(fs: UnaFS, id: nat, key: Str, value: AttributeValue, ghost indexed: set<(nat, Str)>)
    returns (r: Result<Event>)
    requires fs.Valid() && id in fs.Files()
    requires Journal.EntrySize(fs.codecs.op, BeginOp(id, SET_ATTR + key)) <= BLOCK_SIZE
    modifies fs, fs.device, fs.bitmap, fs.journal
    ensures r.Ok? ==>
              Accounts(old(fs.superblock), old(fs.owner).Keys, GoneBy(r.value, old(fs.inodes)), fs.superblock,
                       fs.owner.Keys)
    ensures r.Ok? && old(Starved(fs)) ==> Starved(fs) && IsIdle(r.value)
    ensures r.Ok? ==>
              && fs.Valid() && r.value == AttributeSet(id, key, value)
              && Occurs(fs.codecs, fs.hashes, old(StateOf(fs, indexed)), r.value,
                        StateOf(fs, indexed + IndexedBy(r.value)))
  {
    hide *;
    fs.ValidParts();
    fs.GoodImage();
    fs.GoodFits();
    if Starved(fs) {
      StarvedFor(fs, id, key);
    }
    FreeFits(fs);
    fs.FileThere(id);
    StateIs(fs, indexed);
    ghost var s := StateOf(fs, indexed);
    ghost var sb0, used0, length0, inodes0 := fs.superblock, fs.owner.Keys, |fs.device.blocks|, fs.inodes;
    ghost var gone, spill := BlocksOf(fs.inodes, AttrOf(id, key)), SpillCount(fs.codecs, value);
    ghost var starved := Starved(fs);
    var w := fs.SetAttribute(id, key, value);
    if w.Err? {
      return Err(w.error);
    }
    r := Ok(AttributeSet(id, key, value));
    ghost var after := fs.Files();
    assert Exchanged(sb0, used0, gone, fs.superblock, fs.owner.Keys,
                     spill + Growth(ContentSize(s.files, s.catalog), ContentSize(after, s.catalog)));
    assert |fs.device.blocks| == LengthFor(length0, |used0 - gone| + spill);
    fs.GoodFits();
    SetAccounts(sb0, used0, gone, fs.superblock, fs.owner.Keys, spill, ContentSize(s.files, s.catalog),
                ContentSize(after, s.catalog), length0, |fs.device.blocks|);
    assert !starved;
    GoneIs(r.value, inodes0);
    fs.MakeValid();
    StateIs(fs, indexed + IndexedBy(r.value));
    SetIsStep(fs.codecs, fs.hashes, s, StateOf(fs, indexed + IndexedBy(r.value)), id, key, value);
  }

  method PerformRemount(fs: UnaFS, ghost indexed: set<(nat, Str)>) returns (later: UnaFS, r: Result<Event>)
    requires fs.Valid()
    ensures later.device == fs.device && later.codecs == fs.codecs && later.hashes == fs.hashes
    ensures later.cosine == fs.cosine
    ensures r.Err? ==> later == fs
    ensures r.Ok? ==>
              && fresh(later) && fresh(later.bitmap) && fresh(later.journal)
              && later.Valid()
              && r.value == Remounted
              && later.bitmap.Used() == fs.bitmap.Used()
              && later.superblock == fs.superblock
              && later.owner == fs.owner
              && later.bitmap.blockCount == fs.superblock.bitmapBlocks * BLOCK_SIZE * 8
              && Occurs(fs.codecs, fs.hashes, StateOf(fs, indexed), r.value,
                        StateOf(later, indexed + IndexedBy(r.value)))
    ensures fs.device.reliable ==> r.Ok?
  {
    hide *;
    fs.ValidParts();
    fs.SyncedImage();
    fs.GoodParts();
    fs.GoodImage();
    fs.SyncedSuperblock();
    fs.FilesAre();
    StateIs(fs, indexed);
    later := fs;
    var m := UnaFS.Mount(fs.codecs, fs.hashes, fs.cosine, fs.device, fs.inodes, fs.owner, fs.bitmap.bits);
    if m.Err? {
      return fs, Err(m.error);
    }
    later := m.value.0;
    r := Ok(Remounted);
    later.ValidParts();
    later.GoodImage();
    StateIs(later, indexed + IndexedBy(r.value));
    EffectIs(fs.codecs, fs.hashes, fs.Files(), later.Files(), fs.superblock.catalogInode, r.value);
    IsStep(fs.codecs, fs.hashes, StateOf(fs, indexed), r.value, StateOf(later, indexed + IndexedBy(r.value)));
  }

  lemma RemountAccounts(sb: Superblock, used: set<nat>)
    requires sb.freeBlocks <= sb.blockCount
    ensures Accounts(sb, used, {}, sb, used)
  {
    TookNone(sb, used);
    TookAccounts(sb, used, sb, used, 0);
  }

  /** A system block is in use and is not given back. */
  lemma SystemStays(fs: UnaFS, e: Event)
    requires fs.Good()
    ensures exists x :: x in fs.owner.Keys && x !in GoneBy(e, fs.inodes) && x < fs.superblock.blockCount
  {
    hide *;
    fs.GoodParts();
    fs.GoodImage();
    ConsistentParts(fs.codecs, fs.device.blocks, fs.superblock, fs.inodes, fs.owner);
    GoneIs(e, fs.inodes);
    if e.AttributeSet? {
      StreamsPart(fs.superblock.blockCount, fs.inodes, fs.owner, AttrOf(e.id, e.key));
      FirstStays(fs.superblock.blockCount, fs.inodes, fs.owner, AttrOf(e.id, e.key));
    } else {
      FirstStays(fs.superblock.blockCount, fs.inodes, fs.owner, DataOf(0));
    }
    CountPositive(fs.superblock);
    assert 0 in fs.owner.Keys && 0 !in GoneBy(e, fs.inodes) && 0 < fs.superblock.blockCount;
  }

  lemma FirstStays(blockCount: nat, inodes: Inodes, owner: Owners, s: Stream)
    requires Owned(blockCount, inodes, owner)
    ensures 0 in owner.Keys && 0 !in BlocksOf(inodes, s)
  {
    hide ListOf;
    assert 0 in owner && owner[0] == Reserved;
  }

  lemma CountPositive(sb: Superblock)
    requires LaidOut(sb)
    ensures sb.blockCount > 0
  {
  }

  /**
   * What a call leaves of a right counter: it is right again exactly if the blocks taken past the block
   * count make up for those given back there.
   */
  ghost predicate CounterFollows(used: set<nat>, gone: set<nat>, later: UnaFS)
    reads later, later.bitmap
  {
    |used - gone| <= |later.bitmap.Used()| &&
    (later.Counted() <==>
       CountSurvives(later.superblock.blockCount, used, gone, |later.bitmap.Used()| - |used - gone|))
  }

  lemma FollowsIs(used: set<nat>, gone: set<nat>, later: UnaFS)
    ensures CounterFollows(used, gone, later) <==>
              |used - gone| <= |later.bitmap.Used()| &&
              (later.Counted() <==>
                 CountSurvives(later.superblock.blockCount, used, gone, |later.bitmap.Used()| - |used - gone|))
  {
  }

  /** One call: what it is as a step of a run, and what it does to the counter and the used blocks. */
  method Dispatch(fs: UnaFS, call: Call, ghost indexed: set<(nat, Str)>) returns (later: UnaFS, r: Result<Event>)
    requires fs.Valid() && MayCall(fs.codecs, fs.Files(), call)
    modifies fs, fs.device, fs.bitmap, fs.journal
    ensures later.device == fs.device && later.codecs == fs.codecs && later.hashes == fs.hashes
    ensures later.cosine == fs.cosine
    ensures if call.Remount? && r.Ok? then fresh(later) && fresh(later.bitmap) && fresh(later.journal) else later == fs
    ensures r.Ok? ==>
              && later.Valid() && IsAnswer(call, r.value) && IsOwnWrite(old(fs.Files()), r.value)
              && Occurs(fs.codecs, fs.hashes, old(StateOf(fs, indexed)), r.value,
                        StateOf(later, indexed + IndexedBy(r.value)))
    ensures r.Ok? && call.Remount? ==> later.bitmap.blockCount == later.superblock.bitmapBlocks * BLOCK_SIZE * 8
    ensures r.Ok? ==>
              Accounts(old(fs.superblock), old(fs.owner).Keys, GoneBy(r.value, old(fs.inodes)), later.superblock,
                       later.owner.Keys)
    ensures r.Ok? && old(Starved(fs)) ==> Starved(later) && IsIdle(r.value)
  {
    hide *;
    MayCallIs(fs.codecs, fs.Files(), call);
    ghost var files0 := fs.Files();
    later := fs;
    match call {
      case CreateInode(attributes) => r := PerformCreate(fs, attributes, indexed);
      case AddEntry(parent, name, kind) => r := PerformEntry(fs, parent, name, kind, indexed);
      case WriteData(id, offset, data) => r := PerformWrite(fs, id, offset, data, indexed);
      case SetAttribute(id, key, value) => r := PerformSet(fs, id, key, value, indexed);
      case Remount =>
        fs.ValidParts();
        FreeFits(fs);
        StarvedIs(fs);
        ghost var inodes0 := fs.inodes;
        RemountAccounts(fs.superblock, fs.owner.Keys);
        later, r := PerformRemount(fs, indexed);
        if r.Ok? {
          GoneIs(r.value, inodes0);
          StarvedIs(later);
        }
    }
    if r.Ok? {
      AnswerIs(call, r.value, fs.codecs, files0);
    }
  }

  /** A call that succeeds is a step of a run, and leaves everything in step again. */
  method Perform(fs: UnaFS, call: Call, ghost indexed: set<(nat, Str)>) returns (later: UnaFS, r: Result<Event>)
    requires fs.Valid() && MayCall(fs.codecs, fs.Files(), call)
    modifies fs, fs.device, fs.bitmap, fs.journal
    ensures later.device == fs.device && later.codecs == fs.codecs && later.hashes == fs.hashes
    ensures later.cosine == fs.cosine
    ensures if call.Remount? && r.Ok? then fresh(later) && fresh(later.bitmap) && fresh(later.journal) else later == fs
    ensures r.Ok? ==>
              && later.Valid() && IsAnswer(call, r.value) && IsOwnWrite(old(fs.Files()), r.value)
              && Occurs(fs.codecs, fs.hashes, old(StateOf(fs, indexed)), r.value,
                        StateOf(later, indexed + IndexedBy(r.value)))
              && later.superblock.blockCount == old(fs.superblock).blockCount
    ensures r.Ok? && call.Remount? ==> later.bitmap.blockCount == later.superblock.bitmapBlocks * BLOCK_SIZE * 8
    ensures r.Ok? && old(fs.Counted()) ==>
              CounterFollows(old(fs.bitmap.Used()), GoneBy(r.value, old(fs.inodes)), later)
    ensures r.Ok? && old(fs.Counted() && Below(fs.bitmap.Used(), fs.superblock.blockCount)) ==> later.Counted()
    ensures r.Ok? && old(Below(fs.bitmap.Used(), fs.superblock.blockCount)) ==>
              (Below(later.bitmap.Used(), later.superblock.blockCount) <==>
                 |later.bitmap.Used()| <= later.superblock.blockCount)
    ensures r.Ok? && old(Starved(fs)) ==> Starved(later) && IsIdle(r.value)
  {
    hide *;
    fs.ValidParts();
    fs.GoodImage();
    fs.SpaceIs();
    ghost var sb0, used0, inodes0 := fs.superblock, fs.owner.Keys, fs.inodes;
    forall e: Event
      ensures exists x :: x in used0 && x !in GoneBy(e, inodes0) && x < sb0.blockCount
    {
      SystemStays(fs, e);
    }
    later, r := Dispatch(fs, call, indexed);
    if r.Ok? {
      AccountsFor(sb0, used0, GoneBy(r.value, inodes0), later.superblock, later.owner.Keys);
      later.ValidParts();
      later.GoodImage();
      later.SpaceIs();
      FollowsIs(used0, GoneBy(r.value, inodes0), later);
    }
  }

  lemma MayCallIs(c: Codecs, files: Files, call: Call)
    requires MayCall(c, files, call)
    ensures call.AddEntry? ==> call.parent in files
    ensures call.WriteData? ==> call.id in files && call.offset <= |files[call.id].content|
    ensures call.SetAttribute? ==>
              call.id in files && Journal.EntrySize(c.op, BeginOp(call.id, SET_ATTR + call.key)) <= BLOCK_SIZE
  {
  }

  lemma AnswerIs(call: Call, e: Event, c: Codecs, files: Files)
    requires MayCall(c, files, call)
    requires match call
             case CreateInode(attributes) => e.Created? && e.attributes == attributes
             case AddEntry(parent, name, kind) => e.Entered? && e == Entered(parent, name, kind, e.id)
             case WriteData(id, offset, data) => e == Wrote(id, offset, data)
             case SetAttribute(id, key, value) => e == AttributeSet(id, key, value)
             case Remount => e == Remounted
    ensures IsAnswer(call, e) && IsOwnWrite(files, e)
  {
  }

  // ----- whole runs of the real calls

  /**
   * How a run began: the journal bytes that were zero, the block count, and whether the device was empty and
   * made to grow.
   */
  datatype Origin = Origin(clean: nat, blockCount: nat, starved: bool)

  predicate NoRemount(events: seq<Event>) { forall i :: 0 <= i < |events| ==> !events[i].Remounted? }

  predicate AllIdle(events: seq<Event>) { forall i :: 0 <= i < |events| ==> IsIdle(events[i]) }

  /** Mounting never changes the limit of the allocator: there is no mount, or the count fills whole bitmap blocks. */
  predicate LimitStays(events: seq<Event>, blockCount: nat) { NoRemount(events) || blockCount % (BLOCK_SIZE * 8) == 0 }

  /**
   * The run so far: one state a call, the first one fresh, the last one that of `fs`. While mounting does not
   * change the limit, the counter is right and no block past the block count can be taken; while it is not mounted
   * again, the journal is the first one.
   */
  ghost predicate Reached(fs: UnaFS, states: seq<State>, events: seq<Event>, origin: Origin)
    reads fs, fs.device, fs.bitmap, fs.journal
  {
    && fs.Valid() && IsRun(fs.codecs, fs.hashes, states, events)
    && states[0].root != states[0].catalog && states[0] == FreshState(states[0].root, states[0].catalog)
    && states[|events|] == StateOf(fs, states[|events|].indexed)
    && HasOrigin(fs, events, origin)
  }

  ghost predicate HasOrigin(fs: UnaFS, events: seq<Event>, origin: Origin)
    reads fs, fs.device, fs.bitmap
  {
    && fs.superblock.blockCount == origin.blockCount
    && (LimitStays(events, origin.blockCount) ==> fs.Counted() && fs.bitmap.blockCount == origin.blockCount)
    && (NoRemount(events) ==> fs.journal.clean == origin.clean)
    && (origin.starved ==> Starved(fs) && AllIdle(events))
  }

  lemma OriginIs(fs: UnaFS, events: seq<Event>, origin: Origin)
    ensures HasOrigin(fs, events, origin) <==>
              && fs.superblock.blockCount == origin.blockCount
              && (LimitStays(events, origin.blockCount) ==> fs.Counted() && fs.bitmap.blockCount == origin.blockCount)
              && (NoRemount(events) ==> fs.journal.clean == origin.clean)
              && (origin.starved ==> Starved(fs) && AllIdle(events))
  {
  }

  lemma LimitIs(events: seq<Event>, n: nat)
    ensures LimitStays(events, n) <==> NoRemount(events) || n % (BLOCK_SIZE * 8) == 0
  {
  }

  lemma MoreEvents(events: seq<Event>, e: Event, n: nat)
    ensures LimitStays(events + [e], n) <==> LimitStays(events, n) && (e.Remounted? ==> n % (BLOCK_SIZE * 8) == 0)
    ensures LimitStays([], n)
    ensures NoRemount(events + [e]) <==> NoRemount(events) && !e.Remounted?
    ensures AllIdle(events + [e]) <==> AllIdle(events) && IsIdle(e)
    ensures NoRemount([]) && AllIdle([])
  {
    hide IsIdle;
    var more := events + [e];
    assert more[|events|] == e && forall i :: 0 <= i < |events| ==> more[i] == events[i];
  }

  ghost function FreshState(root: nat, catalog: nat): State { State(FreshFiles(root, catalog), root, catalog, {}, []) }

  /** Block `b` is the `i`-th of stream `s`. */
  ghost predicate Has(inodes: Inodes, s: Stream, i: nat, b: nat) {
    i < |ListOf(inodes, s)| && ListOf(inodes, s)[i] == b
  }

  /** No block belongs to two streams, or twice to one, and none that a stream has is an inode or a system block. */
  ghost predicate NothingShared(fs: UnaFS)
    reads fs
  {
    && (forall s, i: nat, t, j: nat, b: nat :: Has(fs.inodes, s, i, b) && Has(fs.inodes, t, j, b) ==> s == t && i == j)
    && (forall s, i: nat, b: nat :: Has(fs.inodes, s, i, b) ==>
          b !in fs.inodes && SystemEnd(fs.superblock.blockCount) <= b)
  }

  /** The used blocks are exactly the system blocks, the inodes and the blocks of the streams. */
  ghost predicate NothingLost(fs: UnaFS)
    reads fs, fs.bitmap
  {
    forall b: nat :: b in fs.bitmap.Used() <==>
      || b < SystemEnd(fs.superblock.blockCount)
      || b in fs.inodes
      || exists s, i: nat :: Has(fs.inodes, s, i, b)
  }

  lemma BlocksAccounted(fs: UnaFS)
    requires fs.Good()
    ensures NothingShared(fs) && NothingLost(fs)
  {
    hide *;
    fs.GoodImage();
    ConsistentParts(fs.codecs, fs.device.blocks, fs.superblock, fs.inodes, fs.owner);
    SharedParts(fs);
    LostParts(fs);
  }

  lemma SharedParts(fs: UnaFS)
    requires Owned(fs.superblock.blockCount, fs.inodes, fs.owner)
    ensures NothingShared(fs)
  {
    hide ListOf, Owned, SystemEnd;
    forall s, i: nat, b: nat | Has(fs.inodes, s, i, b)
      ensures b !in fs.inodes && SystemEnd(fs.superblock.blockCount) <= b
    {
      NoBlockTwice(fs.superblock.blockCount, fs.inodes, fs.owner, s, i, s, i);
    }
    forall s, i: nat, t, j: nat, b: nat | Has(fs.inodes, s, i, b) && Has(fs.inodes, t, j, b)
      ensures s == t && i == j
    {
      NoBlockTwice(fs.superblock.blockCount, fs.inodes, fs.owner, s, i, t, j);
    }
  }

  lemma LostParts(fs: UnaFS)
    requires Owned(fs.superblock.blockCount, fs.inodes, fs.owner) && fs.bitmap.Used() == fs.owner.Keys
    ensures NothingLost(fs)
  {
    hide ListOf, SystemEnd, SpaceMap.Used;
    forall b: nat | b in fs.owner
      ensures b < SystemEnd(fs.superblock.blockCount) || b in fs.inodes || exists s, i: nat :: Has(fs.inodes, s, i, b)
    {
      match fs.owner[b]
      case Reserved =>
      case InodeAt(_) =>
      case Slot(s, i) => assert Has(fs.inodes, s, i, b);
    }
  }

  /** A run starts with formatting. */
  method Begin(codecs: Codecs, hashes: Hashes, cosine: Cosine, device: Device, sizeMb: nat)
    returns (r: Result<UnaFS>, ghost states: seq<State>, ghost origin: Origin)
    requires codecs.Lawful() && codecs.FitsBlocks() && device.Valid()
    modifies device
    ensures origin == Origin(if Journal.Blank(old(device.blocks)) then Journal.JOURNAL_BYTES else BLOCK_SIZE,
                             CountFor(old(device.blocks), sizeMb), old(|device.blocks|) == 0)
    ensures r.Ok? ==>
              && fresh(r.value) && fresh(r.value.bitmap) && fresh(r.value.journal) && r.value.device == device
              && Reached(r.value, states, [], origin)
    ensures r.Err? && device.reliable ==>
              !FormatFits(codecs, CountFor(old(device.blocks), sizeMb)) || (old(|device.blocks|) == 0 && !device.grows)
  {
    hide *;
    states := [];
    ghost var n := CountFor(device.blocks, sizeMb);
    origin := Origin(if Journal.Blank(device.blocks) then Journal.JOURNAL_BYTES else BLOCK_SIZE, n,
                     |device.blocks| == 0);
    r := UnaFS.Format(codecs, hashes, cosine, device, sizeMb);
    if r.Ok? {
      var fs := r.value;
      FreshIds(codecs, n);
      StateIs(fs, {});
      states := [FreshState(fs.superblock.rootInode, fs.superblock.catalogInode)];
      FreshStateIs(fs.superblock.rootInode, fs.superblock.catalogInode);
      FreshStarved(fs, n);
      MoreEvents([], Remounted, n);
      OriginIs(fs, [], origin);
      Starts(fs, states, origin);
    }
  }

  /** Formatting an empty device makes it end after the two inodes: all its blocks are in use. */
  lemma FreshStarved(fs: UnaFS, n: nat)
    requires fs.owner == FreshOwner(n)
    ensures |fs.device.blocks| == SystemEnd(n) + 2 ==> Starved(fs)
  {
    hide *;
    FreshSize(n);
    FreshOwnerAt(n);
    StarvedIs(fs);
  }

  lemma FreshIds(c: Codecs, n: nat)
    requires FormatFits(c, n)
    ensures FreshSuperblock(n).rootInode != FreshSuperblock(n).catalogInode && FreshSuperblock(n).blockCount == n
  {
  }

  lemma FreshStateIs(root: nat, catalog: nat)
    ensures FreshState(root, catalog) == State(FreshFiles(root, catalog), root, catalog, {}, [])
  {
  }

  lemma Starts(fs: UnaFS, states: seq<State>, origin: Origin)
    requires HasOrigin(fs, [], origin)
    requires fs.Valid() && |states| == 1 && states[0] == StateOf(fs, {}) && states[0].root != states[0].catalog
    requires states[0] == FreshState(states[0].root, states[0].catalog)
    ensures Reached(fs, states, [], origin)
  {
    hide *;
    ReachedIs(fs, states, [], origin);
    EmptyRun(fs.codecs, fs.hashes, states);
    StateIs(fs, {});
    FreshStateIs(states[0].root, states[0].catalog);
  }

  lemma EmptyRun(c: Codecs, h: Hashes, states: seq<State>)
    requires |states| == 1
    ensures IsRun(c, h, states, [])
  {
  }

  lemma ReachedIs(fs: UnaFS, states: seq<State>, events: seq<Event>, origin: Origin)
    ensures IsRun(fs.codecs, fs.hashes, states, events) ==> |states| == |events| + 1
    ensures Reached(fs, states, events, origin) <==>
              && fs.Valid() && IsRun(fs.codecs, fs.hashes, states, events)
              && states[0].root != states[0].catalog && states[0] == FreshState(states[0].root, states[0].catalog)
              && states[|events|] == StateOf(fs, states[|events|].indexed)
              && HasOrigin(fs, events, origin)
  {
    hide UnaFS.Valid, StateOf, FreshState, Occurs, IsOwnWrite, HasOrigin;
  }

  lemma RunMore(c: Codecs, h: Hashes, states: seq<State>, events: seq<Event>, e: Event, t: State)
    requires IsRun(c, h, states, events) && IsOwnWrite(states[|events|].files, e)
    requires Occurs(c, h, states[|events|], e, t)
    ensures IsRun(c, h, states + [t], events + [e])
  {
    hide Occurs, IsOwnWrite;
    var s2, e2 := states + [t], events + [e];
    forall i | 0 <= i < |e2|
      ensures IsOwnWrite(s2[i].files, e2[i]) && Occurs(c, h, s2[i], e2[i], s2[i + 1])
    {
    }
  }

  /**
   * One more call of a run that started with formatting. If it succeeds, the run is one call longer,
   * the files refine the simple file system after all its calls, no block is used twice or lost, and,
   * unless a mount has changed the limit, the counter is the number of clear bits.
   */
  method Extend(fs: UnaFS, call: Call, ghost states: seq<State>, ghost events: seq<Event>, ghost origin: Origin)
    returns (later: UnaFS, r: Result<Event>, ghost states1: seq<State>, ghost events1: seq<Event>)
    requires Reached(fs, states, events, origin) && MayCall(fs.codecs, fs.Files(), call)
    modifies fs, fs.device, fs.bitmap, fs.journal
    ensures later.device == fs.device && later.codecs == fs.codecs && later.hashes == fs.hashes
    ensures later.cosine == fs.cosine
    ensures if call.Remount? && r.Ok? then fresh(later) && fresh(later.bitmap) && fresh(later.journal) else later == fs
    ensures r.Ok? ==>
              && later.Valid() && IsAnswer(call, r.value) && events1 == events + [r.value] && states <= states1
              && Reached(later, states1, events1, origin)
              && Inv(later.codecs, later.hashes, states1[|events1|])
              && Refines(later.codecs, later.Files(), ApplyAll(Model(states1[0].files, map[]), events1))
              && NothingShared(later) && NothingLost(later)
    ensures r.Ok? && old(fs.Counted()) ==>
              CounterFollows(old(fs.bitmap.Used()), GoneBy(r.value, old(fs.inodes)), later)
    ensures r.Ok? && LimitStays(events1, origin.blockCount) ==>
              later.superblock.freeBlocks == |Range(later.superblock.blockCount) - later.bitmap.Used()|
  {
    hide *;
    ReachedIs(fs, states, events, origin);
    OriginIs(fs, events, origin);
    AllCounted(fs);
    states1, events1 := states, events;
    ghost var indexed := states[|events|].indexed;
    StateIs(fs, indexed);
    later, r := Perform(fs, call, indexed);
    if r.Ok? {
      ghost var t := StateOf(later, indexed + IndexedBy(r.value));
      RunMore(fs.codecs, fs.hashes, states, events, r.value, t);
      states1, events1 := states + [t], events + [r.value];
      StateIs(later, indexed + IndexedBy(r.value));
      MoreEvents(events, r.value, origin.blockCount);
      MountLimit(later);
      RemountAnswers(call, r.value);
      OriginIs(later, events1, origin);
      ReachedIs(later, states1, events1, origin);
      ReachedRefines(later, states1, events1, origin);
      later.ValidParts();
      BlocksAccounted(later);
      CountedIs(later);
    }
  }

  /** While the allocator's limit is the block count, all used blocks are counted. */
  lemma AllCounted(fs: UnaFS)
    requires fs.Valid()
    ensures fs.bitmap.blockCount == fs.superblock.blockCount ==> Below(fs.bitmap.Used(), fs.superblock.blockCount)
  {
    hide *;
    fs.ValidParts();
    fs.GoodParts();
    fs.SizedIs();
  }

  /** A count that fills whole bitmap blocks is the limit that a mount finds. */
  lemma MountLimit(fs: UnaFS)
    requires fs.Valid()
    ensures fs.superblock.blockCount % (BLOCK_SIZE * 8) == 0 ==>
              fs.superblock.bitmapBlocks * BLOCK_SIZE * 8 == fs.superblock.blockCount
  {
    hide *;
    fs.ValidParts();
    fs.GoodImage();
    ConsistentParts(fs.codecs, fs.device.blocks, fs.superblock, fs.inodes, fs.owner);
    WholeBitmap(fs.superblock);
  }

  lemma WholeBitmap(sb: Superblock)
    requires LaidOut(sb)
    ensures sb.blockCount % (BLOCK_SIZE * 8) == 0 ==> sb.bitmapBlocks * BLOCK_SIZE * 8 == sb.blockCount
  {
  }

  lemma RemountAnswers(call: Call, e: Event)
    requires IsAnswer(call, e)
    ensures call.Remount? <==> e.Remounted?
  {
  }

  lemma CountedIs(fs: UnaFS)
    ensures fs.Counted() <==> fs.superblock.freeBlocks == |Range(fs.superblock.blockCount) - fs.bitmap.Used()|
  {
    hide SpaceMap.Used;
  }

  /**
   * In every run without a mount, and in every run on a device whose block count fills whole bitmap blocks, the
   * counter is the number of clear bits, and no used block lies past the count.
   */
  lemma RunCounts(fs: UnaFS, states: seq<State>, events: seq<Event>, origin: Origin)
    requires Reached(fs, states, events, origin)
    requires NoRemount(events) || fs.superblock.blockCount % (BLOCK_SIZE * 8) == 0
    ensures fs.superblock.freeBlocks == |Range(fs.superblock.blockCount) - fs.bitmap.Used()|
    ensures Below(fs.bitmap.Used(), fs.superblock.blockCount)
    ensures fs.superblock.freeBlocks + |fs.bitmap.Used()| == fs.superblock.blockCount
  {
    hide *;
    ReachedIs(fs, states, events, origin);
    OriginIs(fs, events, origin);
    LimitIs(events, origin.blockCount);
    AllCounted(fs);
    fs.SpaceIs();
    CountedIs(fs);
    FreeIsRest(fs.superblock, fs.bitmap.Used());
  }

  /**
   * On a device that was empty when it was formatted, and grows, no call of a run gives a file a byte, sets an
   * attribute or enters a name: every inode created takes the one block that it adds.
   */
  lemma NothingIsStored(fs: UnaFS, states: seq<State>, events: seq<Event>, origin: Origin)
    requires Reached(fs, states, events, origin) && origin.starved
    ensures forall i :: 0 <= i < |events| ==>
              events[i].Created? || events[i].Remounted? || (events[i].Wrote? && events[i].data == [])
    ensures forall id :: id in fs.Files() ==> fs.Files()[id].content == []
    ensures |fs.device.blocks| == |fs.bitmap.Used()|
  {
    hide *;
    ReachedIs(fs, states, events, origin);
    OriginIs(fs, events, origin);
    IdleEvents(events);
    fs.ValidParts();
    fs.GoodFits();
    StarvedIs(fs);
    StarvedFiles(fs);
  }

  lemma IdleEvents(events: seq<Event>)
    requires AllIdle(events)
    ensures forall i :: 0 <= i < |events| ==>
              events[i].Created? || events[i].Remounted? || (events[i].Wrote? && events[i].data == [])
  {
  }

  /** What holds of every file system that a run reaches. */
  lemma ReachedRefines(fs: UnaFS, states: seq<State>, events: seq<Event>, origin: Origin)
    requires Reached(fs, states, events, origin)
    ensures |states| == |events| + 1
    ensures Inv(fs.codecs, fs.hashes, states[|events|])
    ensures Refines(fs.codecs, fs.Files(), ApplyAll(Model(states[0].files, map[]), events))
  {
    hide *;
    ReachedIs(fs, states, events, origin);
    fs.ValidParts();
    FreshStateIs(states[0].root, states[0].catalog);
    FreshInv(fs.codecs, fs.hashes, states[0].root, states[0].catalog);
    RunRefines(fs.codecs, fs.hashes, states, events, Model(states[0].files, map[]));
    StateIs(fs, states[|events|].indexed);
  }

  /** In every run every directory can be listed, in byte order of the names. */
  lemma ListsInOrder(fs: UnaFS, states: seq<State>, events: seq<Event>, origin: Origin, d: nat)
    requires Reached(fs, states, events, origin) && d in fs.Files() && fs.Files()[d].kind == Directory
    ensures Listing(fs.codecs, fs.Files(), d).Some?
    ensures var entries := Listing(fs.codecs, fs.Files(), d).value;
            forall i, j :: 0 <= i < j < |entries| ==> Precedes(entries[i].name, entries[j].name)
  {
    hide *;
    ReachedIs(fs, states, events, origin);
    ReachedRefines(fs, states, events, origin);
    StateIs(fs, states[|events|].indexed);
    InvTree(fs.codecs, fs.hashes, states[|events|]);
    TreeLists(fs.codecs, fs.Files(), states[|events|].root, d);
    TreeListing(fs.codecs, fs.Files(), states[|events|].root, d);
    SortedIs(Listing(fs.codecs, fs.Files(), d).value);
  }

  lemma InvTree(c: Codecs, h: Hashes, s: State)
    requires Inv(c, h, s)
    ensures IsTree(c, s.files, s.root)
  {
  }

  /**
   * What mounting reports after a run of successful calls on a journal that was zero when the run began, until the
   * log wraps: the entries before the first gap, clean or not. Without a gap these are all, and clean; the
   * journal of a file system that was mounted may hold older entries, and then nothing is promised.
   */
  lemma MountReports(fs: UnaFS, states: seq<State>, events: seq<Event>, origin: Origin)
    requires Reached(fs, states, events, origin) && NoRemount(events) && origin.clean >= Journal.JOURNAL_BYTES
    requires Journal.AllFit(fs.codecs.op, fs.journal.logged) && Journal.BeforeWrap(fs.codecs.op, fs.journal.logged)
    ensures WholeBlocks(fs.device.blocks) && JOURNAL_END <= |fs.device.blocks|
    ensures var c, logged := fs.codecs.op, fs.journal.logged;
            var read := Journal.Scan(c, Journal.Region(fs.device.blocks), 0);
            && read == logged[..Journal.BeforeGap(c, logged)]
            && (read == logged <==> forall i :: 0 <= i < |logged| ==> Journal.FollowsOn(c, logged, i))
            && (read == logged ==> !Journal.Dirty(read))
  {
    hide *;
    ReachedIs(fs, states, events, origin);
    OriginIs(fs, events, origin);
    ReachedRefines(fs, states, events, origin);
    fs.ValidParts();
    fs.GoodParts();
    fs.JournalWhole();
    fs.journal.ScanStopsAtGap(fs.device.blocks);
    StateIs(fs, states[|events|].indexed);
    CleanLog(fs.codecs, fs.hashes, states[|events|]);
  }

  /**
   * While the log fits its first block, mounting after such a run reports a clean journal, whatever was there
   * before.
   */
  lemma MountsClean(fs: UnaFS, states: seq<State>, events: seq<Event>, origin: Origin)
    requires Reached(fs, states, events, origin) && NoRemount(events) && origin.clean >= BLOCK_SIZE
    requires Journal.LogSize(fs.codecs.op, fs.journal.logged) + Journal.PREFIX <= BLOCK_SIZE
    ensures WholeBlocks(fs.device.blocks) && JOURNAL_END <= |fs.device.blocks|
    ensures Journal.Scan(fs.codecs.op, Journal.Region(fs.device.blocks), 0) == fs.journal.logged
    ensures !Journal.Dirty(Journal.Scan(fs.codecs.op, Journal.Region(fs.device.blocks), 0))
  {
    hide *;
    ReachedIs(fs, states, events, origin);
    OriginIs(fs, events, origin);
    ReachedRefines(fs, states, events, origin);
    fs.ValidParts();
    fs.GoodParts();
    fs.JournalWhole();
    fs.journal.ScanIsLog(fs.device.blocks);
    StateIs(fs, states[|events|].indexed);
    CleanLog(fs.codecs, fs.hashes, states[|events|]);
  }

  lemma CleanLog(c: Codecs, h: Hashes, s: State)
    requires Inv(c, h, s)
    ensures !Journal.Dirty(s.logged)
  {
  }
}
