/** Attribute comparisons, the catalog that indexes attributes, and what a query should return. */
module Query {
  import opened Storage
  import opened Types
  import opened Floats
  import opened Image

  // ----- comparisons

  function IntOrder(a: int, b: int): Ordering { if a < b then Less else if a > b then Greater else Equal }

  /** Strings compare byte by byte. */
  function StrOrder(a: Str, b: Str): Ordering
    decreases a
  {
    if a == [] && b == [] then Equal
    else if a == [] then Less
    else if b == [] then Greater
    else if a[0] < b[0] then Less
    else if a[0] > b[0] then Greater
    else StrOrder(a[1..], b[1..])
  }

  // ----- values

  /** Equality of values: that of the floats for floats, identity otherwise. */
  predicate ValueEq(a: AttributeValue, b: AttributeValue) {
    match (a, b)
    case (Int(x), Int(y)) => x == y
    case (Float(x), Float(y)) => FloatEq(x, y, HALF64, INFINITY64)
    case (Text(x), Text(y)) => x == y
    case (Blob(x), Blob(y)) => x == y
    case (Vector(x), Vector(y)) => |x| == |y| && forall i :: 0 <= i < |x| ==> FloatEq(x[i], y[i], HALF32, INFINITY32)
    case _ => false
  }

  function ValueOrder(a: AttributeValue, b: AttributeValue): Option<Ordering> {
    match (a, b)
    case (Int(x), Int(y)) => Some(IntOrder(x, y))
    case (Float(x), Float(y)) => FloatOrder(x, y, HALF64, INFINITY64)
    case (Text(x), Text(y)) => Some(StrOrder(x, y))
    case _ => None
  }

  datatype QueryOp = Eq | Neq | Gt | Lt | SimilarityGt(threshold: nat)

  datatype Query = Query(key: Str, op: QueryOp, value: AttributeValue, secondary: seq<(Str, Str)>)

  /** The score of two vectors; its arithmetic does not matter here. */
  type Cosine = (seq<nat>, seq<nat>) -> nat

  /** The score with which a value meets a condition, if it does. */
  function CheckCondition(cosine: Cosine, val: AttributeValue, op: QueryOp, target: AttributeValue): Option<nat> {
    match op
    case Eq => if ValueEq(val, target) then Some(ONE32) else None
    case Neq => if !ValueEq(val, target) then Some(ONE32) else None
    case Gt => if ValueOrder(val, target) == Some(Greater) then Some(ONE32) else None
    case Lt => if ValueOrder(val, target) == Some(Less) then Some(ONE32) else None
    case SimilarityGt(threshold) =>
      if val.Vector? && target.Vector? then
        var score := cosine(val.v, target.v);
        if FloatOrder(score, threshold, HALF32, INFINITY32) == Some(Greater) then Some(score) else None
      else None
  }

  /** A secondary filter sees only strings kept in the inode. */
  predicate PassesFilter(file: FileView, filter: (Str, Str)) {
    filter.0 in file.inline && filter.0 in file.attrs && file.attrs[filter.0] == Text(filter.1)
  }

  /** The score with which a file answers a query, if it does: the meaning of a query, without any index. */
  function Answers(cosine: Cosine, file: FileView, q: Query): Option<nat> {
    if q.key in file.attrs && (forall i :: 0 <= i < |q.secondary| ==> PassesFilter(file, q.secondary[i]))
    then CheckCondition(cosine, file.attrs[q.key], q.op, q.value)
    else None
  }

  function FullScan(cosine: Cosine, files: Files, q: Query): set<nat> {
    set id | id in files && Answers(cosine, files[id], q).Some?
  }

  // ----- what the conditions mean

  /** The first `k` bytes are the same, and then `a` ends or has the smaller byte. */
  ghost predicate SmallerAt(a: Str, b: Str, k: nat) {
    && k <= |a| && k <= |b| && a[..k] == b[..k]
    && ((k == |a| && |a| < |b|) || (k < |a| && k < |b| && a[k] < b[k]))
  }

  /** Byte strings in lexicographic order. */
  ghost predicate Precedes(a: Str, b: Str) { exists k: nat :: SmallerAt(a, b, k) }

  lemma SmallerLater(x: Byte, a: Str, b: Str, k: nat)
    ensures SmallerAt([x] + a, [x] + b, k + 1) <==> SmallerAt(a, b, k)
    ensures !SmallerAt([x] + a, [x] + b, 0)
  {
    var c, d := [x] + a, [x] + b;
    if k <= |a| && k <= |b| {
      assert c[..k + 1] == [x] + a[..k] && d[..k + 1] == [x] + b[..k];
      assert a[..k] == c[..k + 1][1..] && b[..k] == d[..k + 1][1..];
    }
  }

  lemma PrecedesMore(x: Byte, a: Str, b: Str)
    ensures Precedes([x] + a, [x] + b) <==> Precedes(a, b)
  {
    hide SmallerAt;
    SmallerLater(x, a, b, 0);
    if k: nat :| SmallerAt(a, b, k) {
      SmallerLater(x, a, b, k);
    }
    if k: nat :| SmallerAt([x] + a, [x] + b, k) && k > 0 {
      SmallerLater(x, a, b, k - 1);
    }
  }

  lemma PrecedesFirst(a: Str, b: Str)
    ensures a == [] ==> (Precedes(a, b) <==> b != [])
    ensures b == [] ==> !Precedes(a, b)
    ensures a != [] && b != [] && a[0] < b[0] ==> Precedes(a, b)
    ensures a != [] && b != [] && a[0] > b[0] ==> !Precedes(a, b)
  {
    if b != [] && (a == [] || a[0] < b[0]) {
      assert a[..0] == b[..0];
      assert SmallerAt(a, b, 0);
    }
    if a != [] && b != [] && a[0] > b[0] {
      assert forall k: nat :: 0 < k <= |a| && k <= |b| ==> a[..k][0] != b[..k][0];
    }
  }

  /** The order of strings is the lexicographic one of their bytes. */
  lemma {:induction false} StringsCompareBytes(a: Str, b: Str)
    ensures StrOrder(a, b) == Less <==> Precedes(a, b)
    ensures StrOrder(a, b) == Greater <==> Precedes(b, a)
    ensures StrOrder(a, b) == Equal <==> a == b
    decreases a
  {
    hide Precedes;
    PrecedesFirst(a, b);
    PrecedesFirst(b, a);
    if a != [] && b != [] && a[0] == b[0] {
      assert a == [a[0]] + a[1..] && b == [a[0]] + b[1..];
      PrecedesMore(a[0], a[1..], b[1..]);
      PrecedesMore(a[0], b[1..], a[1..]);
      StringsCompareBytes(a[1..], b[1..]);
    }
  }

  /** The files that have the key, and under each key of a filter its string, kept in the inode. */
  ghost predicate Considered(files: Files, q: Query, id: nat) {
    && id in files && q.key in files[id].attrs
    && forall filter :: filter in q.secondary ==>
         && filter.0 in files[id].inline && filter.0 in files[id].attrs
         && files[id].attrs[filter.0] == Text(filter.1)
  }

  lemma ScanChecks(cosine: Cosine, files: Files, q: Query, id: nat)
    ensures id in FullScan(cosine, files, q) <==>
              Considered(files, q, id) && CheckCondition(cosine, files[id].attrs[q.key], q.op, q.value).Some?
    ensures id in FullScan(cosine, files, q) ==>
              Answers(cosine, files[id], q) == CheckCondition(cosine, files[id].attrs[q.key], q.op, q.value)
  {
    hide CheckCondition;
  }

  /** What a comparison with a whole number finds, and with which score. */
  lemma IntScan(cosine: Cosine, files: Files, q: Query, id: nat, y: int)
    requires q.value == Int(y)
    ensures q.op.Gt? ==>
              (id in FullScan(cosine, files, q) <==>
                 Considered(files, q, id) && exists x :: files[id].attrs[q.key] == Int(x) && x > y)
    ensures q.op.Lt? ==>
              (id in FullScan(cosine, files, q) <==>
                 Considered(files, q, id) && exists x :: files[id].attrs[q.key] == Int(x) && x < y)
    ensures q.op.Eq? ==>
              (id in FullScan(cosine, files, q) <==> Considered(files, q, id) && files[id].attrs[q.key] == Int(y))
  {
    ScanChecks(cosine, files, q, id);
  }

  /** What a comparison with a float finds: floats compare as numbers, and NaN with nothing. */
  lemma FloatScan(cosine: Cosine, files: Files, q: Query, id: nat, y: nat)
    requires q.value == Float(y)
    ensures q.op.Gt? ==>
              (id in FullScan(cosine, files, q) <==>
                 && Considered(files, q, id) && !IsNaN(y, HALF64, INFINITY64)
                 && exists x :: files[id].attrs[q.key] == Float(x) && !IsNaN(x, HALF64, INFINITY64)
                      && Number(x, HALF64, UNIT64) > Number(y, HALF64, UNIT64))
    ensures q.op.Lt? ==>
              (id in FullScan(cosine, files, q) <==>
                 && Considered(files, q, id) && !IsNaN(y, HALF64, INFINITY64)
                 && exists x :: files[id].attrs[q.key] == Float(x) && !IsNaN(x, HALF64, INFINITY64)
                      && Number(x, HALF64, UNIT64) < Number(y, HALF64, UNIT64))
    ensures q.op.Eq? ==>
              (id in FullScan(cosine, files, q) <==>
                 && Considered(files, q, id) && !IsNaN(y, HALF64, INFINITY64)
                 && exists x :: files[id].attrs[q.key] == Float(x) && !IsNaN(x, HALF64, INFINITY64)
                      && Number(x, HALF64, UNIT64) == Number(y, HALF64, UNIT64))
  {
    hide Number, IsNaN, FloatEq, FloatOrder, Considered;
    ScanChecks(cosine, files, q, id);
    if Considered(files, q, id) {
      HasKey(files, q, id);
      if files[id].attrs[q.key].Float? {
        FloatsAreNumbers(files[id].attrs[q.key].bits, y);
      }
    }
  }

  lemma HasKey(files: Files, q: Query, id: nat)
    requires Considered(files, q, id)
    ensures id in files && q.key in files[id].attrs
  {
  }

  /** What a comparison with a string finds: strings compare by their bytes. */
  lemma TextScan(cosine: Cosine, files: Files, q: Query, id: nat, y: Str)
    requires q.value == Text(y)
    ensures q.op.Gt? ==>
              (id in FullScan(cosine, files, q) <==>
                 Considered(files, q, id) && exists x :: files[id].attrs[q.key] == Text(x) && Precedes(y, x))
    ensures q.op.Lt? ==>
              (id in FullScan(cosine, files, q) <==>
                 Considered(files, q, id) && exists x :: files[id].attrs[q.key] == Text(x) && Precedes(x, y))
    ensures q.op.Eq? ==>
              (id in FullScan(cosine, files, q) <==> Considered(files, q, id) && files[id].attrs[q.key] == Text(y))
  {
    hide Considered, Precedes, StrOrder;
    ScanChecks(cosine, files, q, id);
    if Considered(files, q, id) {
      HasKey(files, q, id);
      if files[id].attrs[q.key].Text? {
        StringsCompareBytes(files[id].attrs[q.key].s, y);
      }
    }
  }

  /** Bytes and vectors are equal or not, the numbers of a vector as floats; they have no order. */
  lemma BulkScan(cosine: Cosine, files: Files, q: Query, id: nat)
    requires q.value.Blob? || q.value.Vector?
    ensures q.op.Gt? || q.op.Lt? ==> id !in FullScan(cosine, files, q)
    ensures q.op.Eq? && q.value.Blob? ==>
              (id in FullScan(cosine, files, q) <==> Considered(files, q, id) && files[id].attrs[q.key] == q.value)
    ensures q.op.Eq? && q.value.Vector? ==>
              (id in FullScan(cosine, files, q) <==>
                 && Considered(files, q, id) && files[id].attrs[q.key].Vector?
                 && var (v, w) := (files[id].attrs[q.key].v, q.value.v);
                    && |v| == |w|
                    && forall i :: 0 <= i < |v| ==>
                         && !IsNaN(v[i], HALF32, INFINITY32) && !IsNaN(w[i], HALF32, INFINITY32)
                         && Number(v[i], HALF32, UNIT32) == Number(w[i], HALF32, UNIT32))
  {
    hide Number, IsNaN, FloatEq, Considered;
    ScanChecks(cosine, files, q, id);
    if Considered(files, q, id) {
      HasKey(files, q, id);
      if files[id].attrs[q.key].Vector? && q.value.Vector? && |files[id].attrs[q.key].v| == |q.value.v| {
        forall i | 0 <= i < |q.value.v|
          ensures var (x, y) := (files[id].attrs[q.key].v[i], q.value.v[i]);
                  FloatEq(x, y, HALF32, INFINITY32) <==>
                    && !IsNaN(x, HALF32, INFINITY32) && !IsNaN(y, HALF32, INFINITY32)
                    && Number(x, HALF32, UNIT32) == Number(y, HALF32, UNIT32)
        {
          FloatsAreNumbers(files[id].attrs[q.key].v[i], q.value.v[i]);
        }
      }
    }
  }

  /** `!=` finds those of the files with the key that `==` does not. */
  lemma NeqIsRest(cosine: Cosine, files: Files, key: Str, value: AttributeValue, filters: seq<(Str, Str)>, id: nat)
    ensures id in FullScan(cosine, files, Query(key, Neq, value, filters)) <==>
              && Considered(files, Query(key, Eq, value, filters), id)
              && id !in FullScan(cosine, files, Query(key, Eq, value, filters))
  {
    hide ValueEq;
    ScanChecks(cosine, files, Query(key, Neq, value, filters), id);
    ScanChecks(cosine, files, Query(key, Eq, value, filters), id);
  }

  /** Similarity finds the vectors whose score is a number above the threshold, and reports that score. */
  lemma SimilarityScan(cosine: Cosine, files: Files, q: Query, id: nat, threshold: nat)
    requires q.op == SimilarityGt(threshold)
    ensures id in FullScan(cosine, files, q) <==>
              && Considered(files, q, id) && files[id].attrs[q.key].Vector? && q.value.Vector?
              && var score := cosine(files[id].attrs[q.key].v, q.value.v);
                 && !IsNaN(score, HALF32, INFINITY32) && !IsNaN(threshold, HALF32, INFINITY32)
                 && Number(score, HALF32, UNIT32) > Number(threshold, HALF32, UNIT32)
    ensures id in FullScan(cosine, files, q) ==>
              Answers(cosine, files[id], q) == Some(cosine(files[id].attrs[q.key].v, q.value.v))
  {
    hide Number, IsNaN, FloatOrder, Considered;
    ScanChecks(cosine, files, q, id);
    if Considered(files, q, id) {
      HasKey(files, q, id);
      if files[id].attrs[q.key].Vector? && q.value.Vector? {
        FloatsAreNumbers(cosine(files[id].attrs[q.key].v, q.value.v), threshold);
      }
    }
  }

  /** Every other condition is met with score one. */
  lemma ScoreIsOne(cosine: Cosine, files: Files, q: Query, id: nat)
    requires !q.op.SimilarityGt? && id in FullScan(cosine, files, q)
    ensures var score := Answers(cosine, files[id], q);
            score.Some? && Number(score.value, HALF32, UNIT32) == Power2(149)
  {
    hide Number, Power2, ValueEq, ValueOrder;
    ScanChecks(cosine, files, q, id);
    OneIsOne();
  }

  // ----- the catalog

  predicate Matches(h: Hashes, e: CatalogEntry, q: Query) {
    e.keyHash == h.key(q.key) && (q.op.Eq? ==> e.valHash == h.value(q.value))
  }

  function Candidates(h: Hashes, entries: seq<CatalogEntry>, q: Query): set<nat> {
    set i | 0 <= i < |entries| && Matches(h, entries[i], q) :: entries[i].inodeId
  }

  /** What a query through the catalog returns. */
  function ThroughCatalog(h: Hashes, cosine: Cosine, entries: seq<CatalogEntry>, files: Files, q: Query): set<nat> {
    Candidates(h, entries, q) * FullScan(cosine, files, q)
  }

  /** Every attribute in `indexed`, that is, set with `set_attribute`, has an entry for its present value. */
  ghost predicate Covers(h: Hashes, entries: seq<CatalogEntry>, files: Files, indexed: set<(nat, Str)>) {
    && (forall id, k :: (id, k) in indexed ==>
          id in files && k in files[id].attrs && NewCatalogEntry(h, k, files[id].attrs[k], id) in entries)
    && (forall i :: 0 <= i < |entries| ==> entries[i].inodeId in files)
  }

  predicate HasZero(v: AttributeValue) {
    match v
    case Float(x) => IsZero(x, HALF64)
    case Vector(e) => exists i :: 0 <= i < |e| && IsZero(e[i], HALF32)
    case _ => false
  }

  lemma ValueEqIdentity(a: AttributeValue, b: AttributeValue)
    requires ValueEq(a, b) && !HasZero(b)
    ensures a == b
  {
    if a.Vector? {
      forall i | 0 <= i < |a.v|
        ensures a.v[i] == b.v[i]
      {
        FloatEqIdentity(a.v[i], b.v[i], HALF32, INFINITY32);
      }
      assert a.v == b.v;
    }
  }

  /**
   * For attributes set with `set_attribute`, the catalog loses nothing, whatever the hashes and
   * however many stale entries it has; only `==` on a float zero may. Nor does it add anything.
   */
  lemma CatalogIsComplete(h: Hashes, cosine: Cosine, entries: seq<CatalogEntry>, files: Files, indexed: set<(nat, Str)>,
                          q: Query)
    requires Covers(h, entries, files, indexed)
    requires q.op.Eq? ==> !HasZero(q.value)
    ensures ThroughCatalog(h, cosine, entries, files, q) <= FullScan(cosine, files, q)
    ensures forall id :: id in FullScan(cosine, files, q) && (id, q.key) in indexed ==>
              id in ThroughCatalog(h, cosine, entries, files, q)
    ensures (forall id :: id in files && q.key in files[id].attrs ==> (id, q.key) in indexed) ==>
              ThroughCatalog(h, cosine, entries, files, q) == FullScan(cosine, files, q)
  {
    forall id | id in FullScan(cosine, files, q) && (id, q.key) in indexed
      ensures id in Candidates(h, entries, q)
    {
      var val := files[id].attrs[q.key];
      var e := NewCatalogEntry(h, q.key, val, id);
      var i :| 0 <= i < |entries| && entries[i] == e;
      if q.op.Eq? {
        ValueEqIdentity(val, q.value);
      }
      assert Matches(h, entries[i], q);
    }
  }

  /** A query for `key == v` loses no indexed attribute, under any hashes and on any files. */
  ghost predicate EqNeverMisses(key: Str, v: AttributeValue) {
    forall h: Hashes, entries: seq<CatalogEntry>, files: Files, indexed: set<(nat, Str)>, id: nat ::
      Covers(h, entries, files, indexed) && (id, key) in indexed && ValueEq(files[id].attrs[key], v) ==>
        id in Candidates(h, entries, Query(key, Eq, v, []))
  }

  function FlipSign(bits: nat, half: nat): nat { if bits < half then bits + half else bits - half }

  /** A value equal to `v` but with other bits: one of its zeros has the other sign. */
  lemma OtherZero(v: AttributeValue) returns (w: AttributeValue)
    requires HasZero(v) && ValueEq(v, v)
    ensures ValueEq(w, v) && w != v
  {
    match v {
      case Float(x) =>
        w := Float(FlipSign(x, HALF64));
      case Vector(e) =>
        var i :| 0 <= i < |e| && IsZero(e[i], HALF32);
        w := Vector(e[i := FlipSign(e[i], HALF32)]);
        assert w.v[i] != e[i];
    }
  }

  /**
   * The exact condition: `==` through the catalog is complete unless it asks for a float zero (that is not
   * beside a NaN).
   */
  lemma EqNeverMissesIff(key: Str, v: AttributeValue)
    ensures EqNeverMisses(key, v) <==> !(HasZero(v) && ValueEq(v, v))
  {
    if HasZero(v) && ValueEq(v, v) {
      var w := OtherZero(v);
      var h := Hashes((k: Str) => 0, (x: AttributeValue) => if x == v then 0 else 1);
      var files: Files := map[0 := FileView(File, [], map[key := w], {})];
      var entries := [NewCatalogEntry(h, key, w, 0)];
      assert Covers(h, entries, files, {(0, key)}) && ValueEq(files[0].attrs[key], v);
      assert 0 !in Candidates(h, entries, Query(key, Eq, v, []));
    } else {
      forall h: Hashes, entries: seq<CatalogEntry>, files: Files, indexed: set<(nat, Str)>, id: nat
        | Covers(h, entries, files, indexed) && (id, key) in indexed && ValueEq(files[id].attrs[key], v)
        ensures id in Candidates(h, entries, Query(key, Eq, v, []))
      {
        var val := files[id].attrs[key];
        if HasZero(v) {
          SelfEqual(val, v);
        }
        ValueEqIdentity(val, v);
        var i :| 0 <= i < |entries| && entries[i] == NewCatalogEntry(h, key, val, id);
        assert Matches(h, entries[i], Query(key, Eq, v, []));
      }
    }
  }

  lemma SelfEqual(a: AttributeValue, b: AttributeValue)
    requires ValueEq(a, b)
    ensures ValueEq(b, b)
  {
  }

  /** A later entry for a key makes the catalog cover it; earlier entries may be stale. */
  lemma CoverMore(h: Hashes, entries: seq<CatalogEntry>, before: Files, after: Files, indexed: set<(nat, Str)>,
                  id: nat, key: Str, value: AttributeValue)
    requires Covers(h, entries, before, indexed) && id in after && after.Keys >= before.Keys
    requires forall j :: j in before && j != id ==> after[j].attrs == before[j].attrs
    requires after[id].attrs == (if id in before then before[id].attrs else map[])[key := value]
    ensures Covers(h, entries + [NewCatalogEntry(h, key, value, id)], after, indexed + {(id, key)})
  {
    var e := NewCatalogEntry(h, key, value, id);
    assert (entries + [e])[|entries|] == e;
    forall j, k | (j, k) in indexed + {(id, key)}
      ensures j in after && k in after[j].attrs && NewCatalogEntry(h, k, after[j].attrs[k], j) in entries + [e]
    {
      if (j, k) != (id, key) {
        assert NewCatalogEntry(h, k, before[j].attrs[k], j) in entries;
      }
    }
  }

  // ----- the order of the results

  ghost predicate Ascending(ids: seq<nat>) {
    forall i, j :: 0 <= i < j < |ids| ==> ids[i] <= ids[j]
  }

  ghost predicate StrictlyAscending(ids: seq<nat>) {
    forall i, j :: 0 <= i < j < |ids| ==> ids[i] < ids[j]
  }

  function InsertId(ids: seq<nat>, id: nat): (r: seq<nat>)
    ensures multiset(r) == multiset(ids) + multiset{id}
  {
    if ids == [] || id < ids[0] then
      [id] + ids
    else
      assert ids == [ids[0]] + ids[1..];
      [ids[0]] + InsertId(ids[1..], id)
  }

  function SortIds(ids: seq<nat>): (r: seq<nat>)
    ensures multiset(r) == multiset(ids)
  {
    if ids == [] then []
    else
      assert ids == ids[..|ids| - 1] + [ids[|ids| - 1]];
      InsertId(SortIds(ids[..|ids| - 1]), ids[|ids| - 1])
  }

  /** Drops every element equal to the one before it. */
  function Dedup(ids: seq<nat>): seq<nat> {
    if |ids| < 2 then ids
    else if ids[0] == ids[1] then Dedup(ids[1..])
    else [ids[0]] + Dedup(ids[1..])
  }

  lemma {:induction false} InsertIdAscends(ids: seq<nat>, id: nat)
    requires Ascending(ids)
    ensures Ascending(InsertId(ids, id))
  {
    if ids != [] && id >= ids[0] {
      InsertIdAscends(ids[1..], id);
      var r := InsertId(ids[1..], id);
      forall k | 0 <= k < |r|
        ensures ids[0] <= r[k]
      {
        assert r[k] in multiset(r);
        assert r[k] == id || r[k] in ids[1..];
      }
    }
  }

  lemma {:induction false} SortIdsAscends(ids: seq<nat>)
    ensures Ascending(SortIds(ids))
  {
    if ids != [] {
      SortIdsAscends(ids[..|ids| - 1]);
      InsertIdAscends(SortIds(ids[..|ids| - 1]), ids[|ids| - 1]);
    }
  }

  lemma {:induction false} DedupAscends(ids: seq<nat>)
    requires Ascending(ids)
    ensures StrictlyAscending(Dedup(ids))
    ensures forall x :: x in Dedup(ids) <==> x in ids
    ensures ids != [] ==> Dedup(ids) != [] && Dedup(ids)[0] == ids[0]
  {
    if |ids| >= 2 {
      DedupAscends(ids[1..]);
      assert ids == [ids[0]] + ids[1..];
    }
  }

  /** Sorting and dropping repetitions: each candidate once, in ascending order. */
  lemma SortDedup(ids: seq<nat>)
    ensures StrictlyAscending(Dedup(SortIds(ids)))
    ensures forall x :: x in Dedup(SortIds(ids)) <==> x in ids
  {
    SortIdsAscends(ids);
    DedupAscends(SortIds(ids));
    forall x: nat
      ensures x in SortIds(ids) <==> x in ids
    {
      assert x in SortIds(ids) <==> x in multiset(SortIds(ids));
      assert x in ids <==> x in multiset(ids);
    }
  }

  /** Results for exactly the files in `ids`, once each, in ascending order, with their scores. */
  ghost predicate AreResults(results: seq<(Inode, nat)>, ids: set<nat>, cosine: Cosine, files: Files, q: Query) {
    && (forall i, j :: 0 <= i < j < |results| ==> results[i].0.id < results[j].0.id)
    && (forall i :: 0 <= i < |results| ==>
          results[i].0.id in ids && results[i].0.id in files && Answers(cosine, files[results[i].0.id], q)
              == Some(results[i].1))
    && (forall id :: id in ids ==> exists i :: 0 <= i < |results| && results[i].0.id == id)
  }

  function IdsOf(ids: seq<nat>): set<nat> { set x | x in ids }

  lemma MoreResults(results: seq<(Inode, nat)>, ids: seq<nat>, k: nat, cosine: Cosine, files: Files, q: Query,
                    inode: Inode)
    requires StrictlyAscending(ids) && k < |ids| && inode.id == ids[k] && ids[k] in files
    requires AreResults(results, IdsOf(ids[..k]) * FullScan(cosine, files, q), cosine, files, q)
    ensures var answer := Answers(cosine, files[ids[k]], q);
            AreResults(if answer.Some? then results + [(inode, answer.value)] else results,
                       IdsOf(ids[..k + 1]) * FullScan(cosine, files, q), cosine, files, q)
  {
    hide *;
    OneMoreId(ids, k);
    var id := ids[k];
    var known := IdsOf(ids[..k]) * FullScan(cosine, files, q);
    ScanAt(cosine, files, q, id, IdsOf(ids[..k]));
    forall i | 0 <= i < |results|
      ensures results[i].0.id < inode.id
    {
      ResultsIn(results, known, cosine, files, q, i);
    }
    if Answers(cosine, files[id], q).Some? {
      OneMoreResult(results, known, cosine, files, q, inode, Answers(cosine, files[id], q).value);
    }
  }

  lemma OneMoreId(ids: seq<nat>, k: nat)
    requires StrictlyAscending(ids) && k < |ids|
    ensures IdsOf(ids[..k + 1]) == IdsOf(ids[..k]) + {ids[k]}
    ensures forall x :: x in IdsOf(ids[..k]) ==> x < ids[k]
  {
    assert ids[..k + 1] == ids[..k] + [ids[k]];
  }

  lemma ScanAt(cosine: Cosine, files: Files, q: Query, id: nat, known: set<nat>)
    requires id in files
    ensures var found := known * FullScan(cosine, files, q);
            (known + {id}) * FullScan(cosine, files, q) == if Answers(cosine, files[id], q).Some? then found + {id}
                else found
  {
  }

  lemma ResultsIn(results: seq<(Inode, nat)>, ids: set<nat>, cosine: Cosine, files: Files, q: Query, i: nat)
    requires AreResults(results, ids, cosine, files, q) && i < |results|
    ensures results[i].0.id in ids
  {
  }

  lemma OneMoreResult(results: seq<(Inode, nat)>, ids: set<nat>, cosine: Cosine, files: Files, q: Query, inode: Inode,
                      score: nat)
    requires AreResults(results, ids, cosine, files, q) && inode.id in files
    requires Answers(cosine, files[inode.id], q) == Some(score)
    requires forall i :: 0 <= i < |results| ==> results[i].0.id < inode.id
    ensures AreResults(results + [(inode, score)], ids + {inode.id}, cosine, files, q)
  {
    hide Answers;
    var more := results + [(inode, score)];
    forall id | id in ids + {inode.id}
      ensures exists i :: 0 <= i < |more| && more[i].0.id == id
    {
      if id == inode.id {
        assert more[|results|].0.id == id;
      } else {
        var i :| 0 <= i < |results| && results[i].0.id == id;
        assert more[i].0.id == id;
      }
    }
  }

  /** The entries that the catalog file holds. */
  function CatalogReads(c: Codecs, files: Files, catalog: nat): Option<seq<CatalogEntry>> {
    if catalog in files then (if files[catalog].content == [] then Some([]) else c.catalog.dec(files[catalog].content))
        else None
  }

  lemma CatalogReadsIs(c: Codecs, files: Files, catalog: nat)
    requires catalog in files
    ensures CatalogReads(c, files, catalog)
         == if files[catalog].content == [] then Some([]) else c.catalog.dec(files[catalog].content)
  {
  }

  /** Every entry of the catalog names a file. */
  ghost predicate CatalogLive(c: Codecs, files: Files, catalog: nat) {
    CatalogReads(c, files, catalog).Some? ==>
      forall i :: 0 <= i < |CatalogReads(c, files, catalog).value| ==>
          CatalogReads(c, files, catalog).value[i].inodeId in files
  }

  lemma CandidateLive(c: Codecs, files: Files, catalog: nat, h: Hashes, entries: seq<CatalogEntry>, q: Query, id: nat)
    requires CatalogLive(c, files, catalog) && CatalogReads(c, files, catalog) == Some(entries)
    requires id in Candidates(h, entries, q)
    ensures id in files
  {
  }

  lemma NoResults(ids: seq<nat>, cosine: Cosine, files: Files, q: Query)
    ensures AreResults([], IdsOf(ids[..0]) * FullScan(cosine, files, q), cosine, files, q)
  {
  }

  lemma AllCandidates(ids: seq<nat>, h: Hashes, cosine: Cosine, entries: seq<CatalogEntry>, files: Files, q: Query)
    requires forall x :: x in ids <==> x in Candidates(h, entries, q)
    ensures IdsOf(ids[..|ids|]) * FullScan(cosine, files, q) == ThroughCatalog(h, cosine, entries, files, q)
  {
    assert ids[..|ids|] == ids;
  }

  lemma AnswersIs(cosine: Cosine, file: FileView, q: Query)
    ensures Answers(cosine, file, q) ==
              if q.key in file.attrs && (forall i :: 0 <= i < |q.secondary| ==> PassesFilter(file, q.secondary[i]))
              then CheckCondition(cosine, file.attrs[q.key], q.op, q.value) else None
  {
  }
}
