/** The text of queries: the parser of UnaFS, and the one query that Vein prints for it. */
module QueryText {
  import opened Storage
  import opened Types
  import opened Floats
  import opened Query

  /** Text as bytes. Only ASCII white space is trimmed here. */
  predicate IsSpace(b: Byte) { b == 0x20 || 0x09 <= b <= 0x0D }

  function TrimLeft(s: Str): Str { if s != [] && IsSpace(s[0]) then TrimLeft(s[1..]) else s }

  function TrimRight(s: Str): Str { if s != [] && IsSpace(s[|s| - 1]) then TrimRight(s[..|s| - 1]) else s }

  function Trim(s: Str): Str { TrimRight(TrimLeft(s)) }

  predicate StartsAt(s: Str, pattern: Str, i: nat) { i + |pattern| <= |s| && s[i..i + |pattern|] == pattern }

  /** The first place at or after `from` where the pattern starts. */
  function FindFrom(s: Str, pattern: Str, from: nat): (r: Option<nat>)
    ensures r.Some? ==> from <= r.value && StartsAt(s, pattern, r.value)
    ensures r.Some? ==> forall i :: from <= i < r.value ==> !StartsAt(s, pattern, i)
    ensures r.None? ==> forall i :: from <= i ==> !StartsAt(s, pattern, i)
    decreases |s| - from
  {
    if from > |s| then None else if StartsAt(s, pattern, from) then Some(from) else FindFrom(s, pattern, from + 1)
  }

  function Find(s: Str, pattern: Str): Option<nat> { FindFrom(s, pattern, 0) }

  /** The pieces of a text between the places where the pattern is found, from left to right. */
  function Split(s: Str, pattern: Str): (pieces: seq<Str>)
    requires pattern != []
    ensures pieces != []
    decreases |s|
  {
    match Find(s, pattern)
    case None => [s]
    case Some(i) => [s[..i]] + Split(s[i + |pattern|..], pattern)
  }

  const AND: Str := [0x20, 0x41, 0x4E, 0x44, 0x20]
  const EQ: Str := [0x3D, 0x3D]
  const NE: Str := [0x21, 0x3D]
  const GT: Str := [0x3E]
  const LT: Str := [0x3C]
  const COMMA: Str := [0x2C]
  const QUOTE: Byte := 0x22
  /** The text "similarity(". */
  const SIMILARITY: Str := [0x73, 0x69, 0x6D, 0x69, 0x6C, 0x61, 0x72, 0x69, 0x74, 0x79, 0x28]

  // ----- numbers

  /** Printing and reading of numbers, which is not modelled: any that fits the laws below. */
  datatype Numbers = Numbers(show: nat -> Str, read: Str -> Option<nat>, readInt: Str -> Option<int>,
                             widen: nat -> nat) {
    /** Digits, signs and small letters; "NaN". */
    static predicate IsTokenByte(b: Byte) {
      0x30 <= b <= 0x39 || b == 0x2D || b == 0x2E || 0x61 <= b <= 0x7A || b == 0x4E
    }

    static predicate IsToken(s: Str) { s != [] && forall i :: 0 <= i < |s| ==> IsTokenByte(s[i]) }

    ghost predicate Lawful() {
      && (forall x: nat :: IsToken(show(x)))
      && (forall x: nat :: !IsNaN(x, HALF32, INFINITY32) ==> read(show(x)) == Some(x))
      && read([]) == None
    }
  }

  /** What parsing comes to; a lone quotation mark makes it take a slice that ends before it starts. */
  datatype Outcome<+T> = Done(value: T) | Refused | Panics

  // ----- the parser

  function ReadAll(n: Numbers, pieces: seq<Str>): Option<seq<nat>> {
    if pieces == [] then Some([])
    else
      match n.read(Trim(pieces[0]))
      case None => None
      case Some(x) =>
        match ReadAll(n, pieces[1..])
        case None => None
        case Some(rest) => Some([x] + rest)
  }

  predicate IsBetween(s: Str, first: Byte, last: Byte) { s != [] && s[0] == first && s[|s| - 1] == last }

  function Value(n: Numbers, input: Str): Outcome<AttributeValue> {
    var s := Trim(input);
    if IsBetween(s, QUOTE, QUOTE) then
      if |s| < 2 then Panics else Done(Text(s[1..|s| - 1]))
    else if IsBetween(s, 0x5B, 0x5D) then
      match ReadAll(n, Split(s[1..|s| - 1], COMMA))
      case None => Refused
      case Some(v) => Done(Vector(v))
    else
      match n.readInt(s)
      case Some(i) => Done(Int(i))
      case None =>
        match n.read(s)
        case Some(f) => Done(Float(n.widen(f)))
        case None => Done(Text(s))
  }

  function Similarity(n: Numbers, input: Str): Outcome<Query> {
    var parts := Split(input, GT);
    if |parts| != 2 then Refused
    else
      var lhs, rhs := Trim(parts[0]), Trim(parts[1]);
      match n.read(rhs)
      case None => Refused
      case Some(threshold) =>
        if lhs == [] || lhs[|lhs| - 1] != 0x29 then Refused
        else if |lhs| - 1 < |SIMILARITY| then Panics
        else
          var args := lhs[|SIMILARITY|..|lhs| - 1];
          match Find(args, COMMA)
          case None => Refused
          case Some(i) =>
            match Value(n, Trim(args[i + 1..]))
            case Panics => Panics
            case Refused => Refused
            case Done(v) => if v.Vector? then Done(Query(Trim(args[..i]), SimilarityGt(threshold), v, [])) else Refused
  }

  /** A comparison, by the first of the operators in their order that is found anywhere. */
  function Comparison(n: Numbers, input: Str): Outcome<Query> {
    if Find(input, EQ).Some? then ComparisonAt(n, input, Find(input, EQ).value, 2, Eq)
    else if Find(input, NE).Some? then ComparisonAt(n, input, Find(input, NE).value, 2, Neq)
    else if Find(input, GT).Some? then ComparisonAt(n, input, Find(input, GT).value, 1, Gt)
    else if Find(input, LT).Some? then ComparisonAt(n, input, Find(input, LT).value, 1, Lt)
    else Refused
  }

  function ComparisonAt(n: Numbers, input: Str, at: nat, width: nat, op: QueryOp): Outcome<Query>
    requires at + width <= |input|
  {
    match Value(n, Trim(input[at + width..]))
    case Panics => Panics
    case Refused => Refused
    case Done(v) => Done(Query(Trim(input[..at]), op, v, []))
  }

  function Primary(n: Numbers, input: Str): Outcome<Query> {
    if StartsAt(input, SIMILARITY, 0) then Similarity(n, input) else Comparison(n, input)
  }

  function Filter(input: Str): Outcome<(Str, Str)> {
    var s := Trim(input);
    match Find(s, EQ)
    case None => Refused
    case Some(i) =>
      var v := Trim(s[i + 2..]);
      if !IsBetween(v, QUOTE, QUOTE) then Done((Trim(s[..i]), v))
      else if |v| < 2 then Panics
      else Done((Trim(s[..i]), v[1..|v| - 1]))
  }

  function Filters(parts: seq<Str>): Outcome<seq<(Str, Str)>> {
    if parts == [] then Done([])
    else
      match Filter(parts[0])
      case Panics => Panics
      case Refused => Refused
      case Done(f) =>
        match Filters(parts[1..])
        case Panics => Panics
        case Refused => Refused
        case Done(rest) => Done([f] + rest)
  }

  function Parsed(n: Numbers, input: Str): Outcome<Query> {
    var parts := Split(Trim(input), AND);
    match Primary(n, Trim(parts[0]))
    case Panics => Panics
    case Refused => Refused
    case Done(q) =>
      match Filters(parts[1..])
      case Panics => Panics
      case Refused => Refused
      case Done(filters) => Done(q.(secondary := filters))
  }

  /** What parsing comes to when some filters have been read already. */
  function Prepended(filters: seq<(Str, Str)>, rest: Outcome<seq<(Str, Str)>>): Outcome<seq<(Str, Str)>> {
    match rest
    case Panics => Panics
    case Refused => Refused
    case Done(more) => Done(filters + more)
  }

  lemma PrependedMore(filters: seq<(Str, Str)>, parts: seq<Str>, i: nat)
    requires i < |parts|
    ensures Prepended(filters, Filters(parts[i..]))
         == match Filter(parts[i])
            case Panics => Panics
            case Refused => Refused
            case Done(f) => Prepended(filters + [f], Filters(parts[i + 1..]))
  {
    hide Filter;
    assert parts[i..][0] == parts[i] && parts[i..][1..] == parts[i + 1..];
    if Filter(parts[i]).Done? && Filters(parts[i + 1..]).Done? {
      var f, more := Filter(parts[i]).value, Filters(parts[i + 1..]).value;
      assert filters + ([f] + more) == (filters + [f]) + more;
    }
  }

  lemma PrependedEnds(filters: seq<(Str, Str)>, parts: seq<Str>)
    ensures Prepended(filters, Filters(parts[|parts|..])) == Done(filters)
    ensures Prepended([], Filters(parts)) == Filters(parts)
  {
    assert parts[|parts|..] == [] && filters + [] == filters;
    if Filters(parts).Done? {
      assert [] + Filters(parts).value == Filters(parts).value;
    }
  }

  /** The parser, with its loop over the secondary filters. */
  method Parse(n: Numbers, input: Str) returns (r: Outcome<Query>)
    ensures r == Parsed(n, input)
  {
    hide Split, Primary, Filter, Filters, Trim, Prepended;
    var parts := Split(Trim(input), AND);
    var base := Primary(n, Trim(parts[0]));
    if !base.Done? {
      return base;
    }
    var filters: seq<(Str, Str)> := [];
    PrependedEnds([], parts[1..]);
    for i := 1 to |parts|
      invariant Filters(parts[1..]) == Prepended(filters, Filters(parts[i..]))
    {
      PrependedMore(filters, parts, i);
      var f := Filter(parts[i]);
      if f.Panics? {
        return Panics;
      }
      if f.Refused? {
        return Refused;
      }
      filters := filters + [f.value];
    }
    PrependedEnds(filters, parts);
    r := Done(base.value.(secondary := filters));
  }

  // ----- the printer

  function Joined(n: Numbers, e: seq<nat>): Str {
    if e == [] then [] else if |e| == 1 then n.show(e[0]) else n.show(e[0]) + COMMA + Joined(n, e[1..])
  }

  /** The text "embedding". */
  const EMBEDDING: Str := [0x65, 0x6D, 0x62, 0x65, 0x64, 0x64, 0x69, 0x6E, 0x67]
  /** The text "type". */
  const TYPE: Str := [0x74, 0x79, 0x70, 0x65]

  /** The text before the numbers, "similarity(embedding, ". */
  const HEAD: Str := SIMILARITY + EMBEDDING + COMMA + [0x20]
  /** The text of the filter up to its value, `type == "`. */
  const TAIL: Str := TYPE + [0x20] + EQ + [0x20, QUOTE]

  function PrintedVector(n: Numbers, e: seq<nat>): Str { [0x5B] + Joined(n, e) + [0x5D] }

  function PrintedPrimary(n: Numbers, e: seq<nat>, threshold: nat): Str {
    HEAD + PrintedVector(n, e) + [0x29, 0x20] + GT + [0x20] + n.show(threshold)
  }

  function PrintedFilter(kind: Str): Str { TAIL + kind + [QUOTE] }

  /** The query that Vein prints to search its memories. */
  function Printed(n: Numbers, e: seq<nat>, threshold: nat, kind: Str): Str {
    PrintedPrimary(n, e, threshold) + AND + PrintedFilter(kind)
  }

  function Meant(e: seq<nat>, threshold: nat, kind: Str): Query {
    Query(EMBEDDING, SimilarityGt(threshold), Vector(e), [(TYPE, kind)])
  }

  predicate Contains(s: Str, pattern: Str) { Find(s, pattern).Some? }

  // ----- pieces of text

  lemma {:induction false} FindsAt(s: Str, pattern: Str, from: nat, i: nat)
    requires from <= i && StartsAt(s, pattern, i) && forall j :: from <= j < i ==> !StartsAt(s, pattern, j)
    ensures FindFrom(s, pattern, from) == Some(i)
    decreases i - from
  {
    if from < i {
      FindsAt(s, pattern, from + 1, i);
    }
  }

  lemma SplitsAt(s: Str, pattern: Str, i: nat)
    requires pattern != [] && Find(s, pattern) == Some(i)
    ensures Split(s, pattern) == [s[..i]] + Split(s[i + |pattern|..], pattern)
  {
  }

  lemma SplitWhole(s: Str, pattern: Str)
    requires pattern != []
    ensures Find(s, pattern) == None ==> Split(s, pattern) == [s]
    ensures Find(s, pattern).Some? ==> |Split(s, pattern)| >= 2
  {
  }

  /** A byte that a text does not hold is not found in it. */
  predicate Lacks(s: Str, b: Byte) { forall i :: 0 <= i < |s| ==> s[i] != b }

  lemma FindByte(a: Str, b: Byte, rest: Str)
    requires Lacks(a, b)
    ensures Find(a + [b] + rest, [b]) == Some(|a|) && Find(a, [b]) == None
  {
    var s := a + [b] + rest;
    forall j | 0 <= j < |a|
      ensures !StartsAt(s, [b], j)
    {
      assert s[j..j + 1] == [a[j]];
    }
    assert s[|a|..|a| + 1] == [b];
    FindsAt(s, [b], 0, |a|);
    forall j | 0 <= j < |a|
      ensures !StartsAt(a, [b], j)
    {
      assert a[j..j + 1] == [a[j]];
    }
  }

  lemma SplitByte(a: Str, b: Byte, rest: Str)
    requires Lacks(a, b)
    ensures Split(a + [b] + rest, [b]) == [a] + Split(rest, [b]) && Split(a, [b]) == [a]
  {
    FindByte(a, b, rest);
    var s := a + [b] + rest;
    SplitsAt(s, [b], |a|);
    assert s[..|a|] == a && s[|a| + 1..] == rest;
    SplitWhole(a, [b]);
  }

  /** A text that neither starts nor ends with white space. */
  predicate IsTight(s: Str) { s == [] || (!IsSpace(s[0]) && !IsSpace(s[|s| - 1])) }

  lemma TightTrims(s: Str)
    requires IsTight(s)
    ensures Trim(s) == s && Trim([0x20] + s) == s && Trim(s + [0x20]) == s
  {
    assert ([0x20] + s)[1..] == s;
    assert (s + [0x20])[..|s|] == s;
    if s == [] {
      assert TrimLeft([0x20]) == TrimLeft([0x20][1..]);
    } else {
      assert TrimLeft([0x20] + s) == TrimLeft(s) == s;
      assert TrimLeft(s + [0x20]) == s + [0x20];
    }
  }

  lemma TokenIs(s: Str, b: Byte)
    requires Numbers.IsToken(s) && !Numbers.IsTokenByte(b)
    ensures Lacks(s, b) && IsTight(s)
  {
  }

  // ----- the vector

  lemma {:induction false} JoinedSplits(n: Numbers, e: seq<nat>)
    requires n.Lawful() && e != [] && forall i :: 0 <= i < |e| ==> !IsNaN(e[i], HALF32, INFINITY32)
    ensures ReadAll(n, Split(Joined(n, e), COMMA)) == Some(e)
    decreases |e|
  {
    hide Split, Trim;
    var first := n.show(e[0]);
    TokenIs(first, 0x2C);
    TightTrims(first);
    if |e| == 1 {
      SplitByte(first, 0x2C, []);
      assert [first][1..] == [] && ReadAll(n, []) == Some([]);
      assert [e[0]] + [] == e;
    } else {
      var rest := Joined(n, e[1..]);
      JoinedSplits(n, e[1..]);
      SplitByte(first, 0x2C, rest);
      assert ([first] + Split(rest, COMMA))[1..] == Split(rest, COMMA);
      assert [e[0]] + e[1..] == e;
    }
  }

  /** An empty list of numbers is printed as "[]", which is refused: its one piece is not a number. */
  lemma VectorReads(n: Numbers, e: seq<nat>)
    requires n.Lawful() && forall i :: 0 <= i < |e| ==> !IsNaN(e[i], HALF32, INFINITY32)
    ensures Value(n, PrintedVector(n, e)) == if e == [] then Refused else Done(Vector(e))
  {
    hide Split, Trim, ReadAll;
    var s := PrintedVector(n, e);
    TightTrims(s);
    assert s[1..|s| - 1] == Joined(n, e);
    if e == [] {
      EmptyRefused(n);
    } else {
      JoinedSplits(n, e);
    }
  }

  lemma EmptyRefused(n: Numbers)
    requires n.Lawful()
    ensures ReadAll(n, Split([], COMMA)) == None
  {
    SplitByte([], 0x2C, []);
    TightTrims([]);
  }

  // ----- the primary condition

  lemma VectorIs(n: Numbers, e: seq<nat>)
    requires n.Lawful()
    ensures Lacks(PrintedVector(n, e), 0x3E) && IsTight(PrintedVector(n, e)) && SpacesSafe(PrintedVector(n, e))
  {
    JoinedIs(n, e);
  }

  lemma {:induction false} JoinedIs(n: Numbers, e: seq<nat>)
    requires n.Lawful()
    ensures forall i :: 0 <= i < |Joined(n, e)| ==> Numbers.IsTokenByte(Joined(n, e)[i]) || Joined(n, e)[i] == 0x2C
    decreases |e|
  {
    if |e| > 1 {
      JoinedIs(n, e[1..]);
    }
  }

  /** No space is last, or followed by an "A". */
  ghost predicate SpacesSafe(s: Str) {
    forall i :: 0 <= i < |s| && s[i] == 0x20 ==> i + 1 < |s| && s[i + 1] != 0x41
  }

  /** The text up to the closing parenthesis. */
  function Called(n: Numbers, e: seq<nat>): Str { HEAD + PrintedVector(n, e) + [0x29] }

  lemma PrimarySplits(n: Numbers, e: seq<nat>, threshold: nat)
    requires n.Lawful()
    ensures Split(PrintedPrimary(n, e, threshold), GT) == [Called(n, e) + [0x20], [0x20] + n.show(threshold)]
    ensures Trim([0x20] + n.show(threshold)) == n.show(threshold) && Trim(Called(n, e) + [0x20]) == Called(n, e)
  {
    hide Split, Trim, PrintedVector;
    var lhs, rhs := Called(n, e) + [0x20], [0x20] + n.show(threshold);
    VectorIs(n, e);
    TokenIs(n.show(threshold), 0x3E);
    TightTrims(n.show(threshold));
    TightTrims(Called(n, e));
    SplitByte(rhs, 0x3E, []);
    SplitByte(lhs, 0x3E, rhs);
    assert PrintedPrimary(n, e, threshold) == lhs + [0x3E] + rhs;
  }

  lemma CalledArguments(n: Numbers, e: seq<nat>)
    requires n.Lawful()
    ensures var lhs := Called(n, e);
            && |lhs| - 1 >= |SIMILARITY| && lhs[|lhs| - 1] == 0x29
            && var args := lhs[|SIMILARITY|..|lhs| - 1];
               Find(args, COMMA) == Some(9) && |args| >= 10
               && Trim(args[..9]) == EMBEDDING && Trim(args[10..]) == PrintedVector(n, e)
  {
    hide Find, Trim, PrintedVector;
    VectorIs(n, e);
    var lhs := Called(n, e);
    var args := lhs[|SIMILARITY|..|lhs| - 1];
    assert args == EMBEDDING + [0x2C] + ([0x20] + PrintedVector(n, e));
    FindByte(EMBEDDING, 0x2C, [0x20] + PrintedVector(n, e));
    TightTrims(EMBEDDING);
    TightTrims(PrintedVector(n, e));
    assert args[..9] == EMBEDDING && args[10..] == [0x20] + PrintedVector(n, e);
  }

  lemma SimilarityReads(n: Numbers, e: seq<nat>, threshold: nat)
    requires n.Lawful() && !IsNaN(threshold, HALF32, INFINITY32)
    requires forall i :: 0 <= i < |e| ==> !IsNaN(e[i], HALF32, INFINITY32)
    ensures Similarity(n, PrintedPrimary(n, e, threshold))
         == if e == [] then Refused else Done(Query(EMBEDDING, SimilarityGt(threshold), Vector(e), []))
  {
    hide Split, Trim, Value, PrintedVector, PrintedPrimary, Called, Find, IsNaN;
    PrimarySplits(n, e, threshold);
    CalledArguments(n, e);
    VectorReads(n, e);
    assert n.read(n.show(threshold)) == Some(threshold);
  }

  // ----- the filter

  lemma FilterReads(kind: Str)
    ensures Filter(PrintedFilter(kind)) == Done((TYPE, kind))
  {
    hide Trim;
    var s, quoted := PrintedFilter(kind), [QUOTE] + kind + [QUOTE];
    TightTrims(s);
    assert s == TYPE + [0x20] + EQ + [0x20] + quoted;
    assert s[5..7] == EQ;
    forall j | 0 <= j < 5
      ensures !StartsAt(s, EQ, j)
    {
      assert s[j..j + 2][0] == s[j];
    }
    FindsAt(s, EQ, 0, 5);
    assert s[..5] == TYPE + [0x20] && s[7..] == [0x20] + quoted;
    TightTrims(TYPE);
    TightTrims(quoted);
    assert quoted[1..|quoted| - 1] == kind;
  }

  // ----- the word between them

  lemma AndAt(s: Str, i: nat)
    requires StartsAt(s, AND, i)
    ensures i + 4 < |s| && s[i] == 0x20 && s[i + 1] == 0x41 && s[i + 4] == 0x20
  {
    assert s[i..i + 5][0] == s[i] && s[i..i + 5][1] == s[i + 1] && s[i..i + 5][4] == s[i + 4];
  }

  /** A text whose spaces are safe is passed over. */
  lemma AndAfter(a: Str, rest: Str)
    requires SpacesSafe(a)
    ensures forall i :: 0 <= i < |a| ==> !StartsAt(a + rest, AND, i)
  {
    forall i | 0 <= i < |a|
      ensures !StartsAt(a + rest, AND, i)
    {
      if StartsAt(a + rest, AND, i) {
        AndAt(a + rest, i);
      }
    }
  }

  /** The printed filter holds the word exactly when the kind does. */
  lemma AndInFilter(kind: Str)
    ensures Contains(PrintedFilter(kind), AND) <==> Contains(kind, AND)
  {
    var s := PrintedFilter(kind);
    AndAfter(TAIL, kind + [QUOTE]);
    assert s == TAIL + (kind + [QUOTE]);
    if Contains(kind, AND) {
      var i := Find(kind, AND).value;
      assert s[|TAIL| + i..|TAIL| + i + 5] == kind[i..i + 5];
      assert StartsAt(s, AND, |TAIL| + i);
    }
    if Contains(s, AND) {
      var i := Find(s, AND).value;
      AndAt(s, i);
      assert kind[i - |TAIL|..i - |TAIL| + 5] == s[i..i + 5];
      assert StartsAt(kind, AND, i - |TAIL|);
    }
  }

  lemma PrimarySafe(n: Numbers, e: seq<nat>, threshold: nat)
    requires n.Lawful()
    ensures SpacesSafe(PrintedPrimary(n, e, threshold)) && IsTight(PrintedPrimary(n, e, threshold))
    ensures StartsAt(PrintedPrimary(n, e, threshold), SIMILARITY, 0)
  {
    var token := n.show(threshold);
    TokenIs(token, 0x20);
    assert Numbers.IsTokenByte(token[0]);
    JoinedIs(n, e);
    var a, b, c, d := HEAD + [0x5B], Joined(n, e) + [0x5D, 0x29], [0x20, 0x3E], [0x20] + token;
    var s := PrintedPrimary(n, e, threshold);
    assert s == a + b + c + d;
    assert SpacesSafe(a) && SpacesSafe(b) && SpacesSafe(c) && SpacesSafe(d);
    SafeJoin(a, b);
    SafeJoin(a + b, c);
    SafeJoin(a + b + c, d);
    assert s[0..|SIMILARITY|] == SIMILARITY;
    assert s[0] == 0x73 && s[|s| - 1] == token[|token| - 1];
  }

  lemma SafeJoin(a: Str, b: Str)
    requires SpacesSafe(a) && SpacesSafe(b)
    ensures SpacesSafe(a + b)
  {
  }

  lemma PrintedSplits(n: Numbers, e: seq<nat>, threshold: nat, kind: Str)
    requires n.Lawful()
    ensures Trim(Printed(n, e, threshold, kind)) == Printed(n, e, threshold, kind)
    ensures Split(Printed(n, e, threshold, kind), AND)
              == [PrintedPrimary(n, e, threshold)] + Split(PrintedFilter(kind), AND)
  {
    hide PrintedPrimary, Split, Trim;
    var a, b, s := PrintedPrimary(n, e, threshold), PrintedFilter(kind), Printed(n, e, threshold, kind);
    PrimarySafe(n, e, threshold);
    assert s == a + (AND + b);
    AndAfter(a, AND + b);
    assert s[|a|..|a| + 5] == AND;
    FindsAt(s, AND, 0, |a|);
    SplitsAt(s, AND, |a|);
    assert s[..|a|] == a && s[|a| + 5..] == b;
    assert s[|s| - 1] == QUOTE && s[0] == a[0];
    TightTrims(s);
  }

  /** More pieces make more filters, or none at all. */
  lemma {:induction false} FiltersCount(parts: seq<Str>)
    ensures Filters(parts).Done? ==> |Filters(parts).value| == |parts|
    decreases parts
  {
    if parts != [] {
      FiltersCount(parts[1..]);
    }
  }

  lemma OneFilter(part: Str)
    ensures Filter(part).Done? ==> Filters([part]) == Done([Filter(part).value])
    ensures Filters([part]).Done? ==> Filter(part).Done?
  {
    hide Filter;
    assert [part][1..] == [] && Filters([]) == Done([]);
    assert Filter(part).Done? ==> [Filter(part).value] + [] == [Filter(part).value];
  }

  /**
   * The printed query is read as it was meant exactly when the vector is not empty and the kind
   * does not hold the word that separates conditions.
   */
  lemma PrintedIsReadIff(n: Numbers, e: seq<nat>, threshold: nat, kind: Str)
    requires n.Lawful() && !IsNaN(threshold, HALF32, INFINITY32)
    requires forall i :: 0 <= i < |e| ==> !IsNaN(e[i], HALF32, INFINITY32)
    ensures Parsed(n, Printed(n, e, threshold, kind)) == Done(Meant(e, threshold, kind))
       <==> e != [] && !Contains(kind, AND)
  {
    hide Split, Trim, Similarity, Filter, Filters, PrintedPrimary, PrintedFilter, Printed, Find;
    var a, b := PrintedPrimary(n, e, threshold), PrintedFilter(kind);
    var parts := [a] + Split(b, AND);
    PrintedSplits(n, e, threshold, kind);
    PrimarySafe(n, e, threshold);
    TightTrims(a);
    SimilarityReads(n, e, threshold);
    assert parts[1..] == Split(b, AND);
    SplitWhole(b, AND);
    AndInFilter(kind);
    OneFilter(b);
    FilterReads(kind);
    FiltersCount(Split(b, AND));
  }

  // ----- what is read

  /** White space as bytes: tab, line feed, vertical tab, form feed, carriage return and space. */
  const SPACES: set<Byte> := {0x09, 0x0A, 0x0B, 0x0C, 0x0D, 0x20}

  /** Trimming cuts off the white space at both ends, and nothing else. */
  lemma TrimMeans(s: Str) returns (a: nat, b: nat)
    ensures a <= b <= |s| && Trim(s) == s[a..b]
    ensures forall i :: 0 <= i < |s| && (i < a || i >= b) ==> s[i] in SPACES
    ensures a < b ==> s[a] !in SPACES && s[b - 1] !in SPACES
  {
    a := LeftMeans(s);
    b := RightMeans(s[a..]);
    TrimLeftTight(s);
    TrimRightTight(TrimLeft(s));
    b := a + b;
    assert s[a..][..b - a] == s[a..b];
    if a < b {
      assert Trim(s)[0] == s[a] && Trim(s)[|Trim(s)| - 1] == s[b - 1];
      assert TrimLeft(s)[0] == s[a];
    }
  }

  lemma {:induction false} LeftMeans(s: Str) returns (a: nat)
    ensures a <= |s| && TrimLeft(s) == s[a..] && forall i :: 0 <= i < a ==> s[i] in SPACES
  {
    a := 0;
    if s != [] && IsSpace(s[0]) {
      var rest := LeftMeans(s[1..]);
      a := rest + 1;
      assert forall i :: 0 < i < a ==> s[i] == s[1..][i - 1];
    }
  }

  lemma {:induction false} RightMeans(s: Str) returns (b: nat)
    ensures b <= |s| && TrimRight(s) == s[..b] && forall i :: b <= i < |s| ==> s[i] in SPACES
    decreases |s|
  {
    b := |s|;
    if s != [] && IsSpace(s[|s| - 1]) {
      b := RightMeans(s[..|s| - 1]);
      assert forall i :: b <= i < |s| - 1 ==> s[i] == s[..|s| - 1][i];
    }
  }

  /** The `n` bytes at a place, as far as there are any. */
  function Slice(s: Str, i: nat, n: nat): Str { if i > |s| then [] else if i + n > |s| then s[i..] else s[i..i + n] }

  /** The first place where a pattern starts. */
  ghost predicate FirstAt(s: Str, pattern: Str, at: nat) {
    && at + |pattern| <= |s| && s[at..at + |pattern|] == pattern
    && forall i: nat :: i < at ==> Slice(s, i, |pattern|) != pattern
  }

  ghost predicate Nowhere(s: Str, pattern: Str) {
    forall i: nat :: i <= |s| ==> Slice(s, i, |pattern|) != pattern
  }

  lemma FindMeans(s: Str, pattern: Str)
    requires pattern != []
    ensures Find(s, pattern).Some? ==> FirstAt(s, pattern, Find(s, pattern).value)
    ensures Find(s, pattern).None? ==> Nowhere(s, pattern)
  {
    var r := Find(s, pattern);
    forall i: nat | i <= |s| && !StartsAt(s, pattern, i)
      ensures Slice(s, i, |pattern|) != pattern
    {
    }
  }

  /**
   * Which comparison is read: `==` if it is found anywhere, else `!=`, else `>`, else `<`, each where it is found
   * first; the key stands before it and the value after it.
   */
  lemma ComparisonMeans(n: Numbers, input: Str) returns (at: nat)
    requires Comparison(n, input).Done?
    ensures var q := Comparison(n, input).value;
            && at <= |input| && q.key == Trim(input[..at]) && q.secondary == []
            && match q.op
               case Eq => FirstAt(input, [0x3D, 0x3D], at) && Value(n, Trim(input[at + 2..])) == Done(q.value)
               case Neq =>
                 && FirstAt(input, [0x21, 0x3D], at) && Value(n, Trim(input[at + 2..])) == Done(q.value)
                 && Nowhere(input, [0x3D, 0x3D])
               case Gt =>
                 && FirstAt(input, [0x3E], at) && Value(n, Trim(input[at + 1..])) == Done(q.value)
                 && Nowhere(input, [0x3D, 0x3D]) && Nowhere(input, [0x21, 0x3D])
               case Lt =>
                 && FirstAt(input, [0x3C], at) && Value(n, Trim(input[at + 1..])) == Done(q.value)
                 && Nowhere(input, [0x3D, 0x3D]) && Nowhere(input, [0x21, 0x3D]) && Nowhere(input, [0x3E])
               case SimilarityGt(_) => false
  {
    hide Value, Trim, FirstAt, Nowhere, Find;
    FindMeans(input, EQ);
    FindMeans(input, NE);
    FindMeans(input, GT);
    FindMeans(input, LT);
    at := if Find(input, EQ).Some? then Find(input, EQ).value
          else if Find(input, NE).Some? then Find(input, NE).value
          else if Find(input, GT).Some? then Find(input, GT).value else Find(input, LT).value;
  }

  /** A call of `similarity`: its key, its vector, and the threshold after the only `>`. */
  lemma SimilarityMeans(n: Numbers, input: Str) returns (at: nat, comma: nat)
    requires StartsAt(input, SIMILARITY, 0) && Similarity(n, input).Done?
    ensures var q := Similarity(n, input).value;
            && FirstAt(input, [0x3E], at) && Nowhere(input[at + 1..], [0x3E])
            && var (call, threshold) := (Trim(input[..at]), n.read(Trim(input[at + 1..])));
               && |call| > 11 && call[|call| - 1] == 0x29
               && var args := call[11..|call| - 1];
                  && FirstAt(args, [0x2C], comma) && q.key == Trim(args[..comma]) && q.secondary == []
                  && q.value.Vector? && Value(n, Trim(args[comma + 1..])) == Done(q.value)
                  && threshold.Some? && q.op == SimilarityGt(threshold.value)
  {
    hide Value, Trim, FirstAt, Nowhere, Find;
    OneSplit(input);
    FindMeans(input, GT);
    CallStays(input);
    at := Find(input, GT).value;
    FindMeans(input[at + 1..], GT);
    var call := Trim(input[..at]);
    assert call[10] == call[..|SIMILARITY|][10];
    var args := call[|SIMILARITY|..|call| - 1];
    FindMeans(args, COMMA);
    comma := Find(args, COMMA).value;
  }

  /** Two pieces are what is before and after the only place of the pattern. */
  lemma OneSplit(input: Str)
    ensures |Split(input, GT)| == 2 ==>
              && Find(input, GT).Some? && Find(input, GT).value < |input|
              && Split(input, GT) == [input[..Find(input, GT).value], input[Find(input, GT).value + 1..]]
              && Find(input[Find(input, GT).value + 1..], GT).None?
  {
    SplitWhole(input, GT);
    if Find(input, GT).Some? {
      SplitsAt(input, GT, Find(input, GT).value);
      SplitWhole(input[Find(input, GT).value + 1..], GT);
    }
  }

  /** A filter is its key before the first `==`, and what is after it, without the quotation marks around it. */
  lemma FilterMeans(input: Str) returns (at: nat)
    requires Filter(input).Done?
    ensures var (s, f) := (Trim(input), Filter(input).value);
            && FirstAt(s, [0x3D, 0x3D], at) && f.0 == Trim(s[..at])
            && (Trim(s[at + 2..]) == [0x22] + f.1 + [0x22]
                || (f.1 == Trim(s[at + 2..]) && forall t :: f.1 != [0x22] + t + [0x22]))
  {
    hide Trim, FirstAt, Find;
    var s := Trim(input);
    FindMeans(s, EQ);
    at := Find(s, EQ).value;
    var v := Trim(s[at + 2..]);
    if IsBetween(v, QUOTE, QUOTE) {
      assert v == [QUOTE] + v[1..|v| - 1] + [QUOTE];
    } else {
      forall t
        ensures v != [QUOTE] + t + [QUOTE]
      {
        var w := [QUOTE] + t + [QUOTE];
        assert w[0] == QUOTE && w[|w| - 1] == QUOTE;
      }
    }
  }

  /** A value in quotation marks is the string between them, whatever it holds. */
  lemma QuotedReads(n: Numbers, text: Str)
    ensures Value(n, [0x22] + text + [0x22]) == Done(Text(text))
  {
    var s := [QUOTE] + text + [QUOTE];
    TightTrims(s);
    assert s[1..|s| - 1] == text;
  }

  /** A value without quotation marks or brackets is a whole number, a float or a string, the first that it can be. */
  lemma PlainReads(n: Numbers, text: Str)
    requires text == [] || (text[0] !in SPACES && text[|text| - 1] !in SPACES)
    requires text == [] || (text[0] != 0x22 && text[0] != 0x5B)
    ensures n.readInt(text).Some? ==> Value(n, text) == Done(Int(n.readInt(text).value))
    ensures n.readInt(text).None? && n.read(text).Some? ==> Value(n, text) == Done(Float(n.widen(n.read(text).value)))
    ensures n.readInt(text).None? && n.read(text).None? ==> Value(n, text) == Done(Text(text))
  {
    if text != [] {
      TightTrims(text);
    }
  }

  /** A list in brackets is the vector of its numbers, in order. */
  lemma ListReads(n: Numbers, text: Str)
    requires Value(n, [0x5B] + text + [0x5D]).Done?
    ensures var (r, pieces) := (Value(n, [0x5B] + text + [0x5D]).value, Split(text, [0x2C]));
            && r.Vector? && |r.v| == |pieces|
            && forall i :: 0 <= i < |pieces| ==> n.read(Trim(pieces[i])) == Some(r.v[i])
  {
    hide Split, ReadAll;
    var s := [0x5B] + text + [0x5D];
    TightTrims(s);
    assert s[1..|s| - 1] == text;
    AllRead(n, Split(text, COMMA));
  }

  lemma {:induction false} AllRead(n: Numbers, pieces: seq<Str>)
    requires ReadAll(n, pieces).Some?
    ensures |ReadAll(n, pieces).value| == |pieces|
    ensures forall i :: 0 <= i < |pieces| ==> n.read(Trim(pieces[i])) == Some(ReadAll(n, pieces).value[i])
  {
    hide Trim;
    if pieces != [] {
      AllRead(n, pieces[1..]);
    }
  }

  /** The query read from a text: its first condition, and its filters in their order. */
  lemma ReadMeans(n: Numbers, input: Str)
    requires Parsed(n, input).Done?
    ensures var (q, parts) := (Parsed(n, input).value, Split(Trim(input), [0x20, 0x41, 0x4E, 0x44, 0x20]));
            && |q.secondary| == |parts| - 1
            && (forall i :: 0 <= i < |q.secondary| ==> Filter(parts[i + 1]) == Done(q.secondary[i]))
            && Primary(n, Trim(parts[0])).Done? && q == Primary(n, Trim(parts[0])).value.(secondary := q.secondary)
  {
    hide Split, Trim, Primary, Filter;
    FiltersMean(Split(Trim(input), AND)[1..]);
  }

  lemma {:induction false} FiltersMean(parts: seq<Str>)
    requires Filters(parts).Done?
    ensures |Filters(parts).value| == |parts|
    ensures forall i :: 0 <= i < |parts| ==> Filter(parts[i]) == Done(Filters(parts).value[i])
    decreases parts
  {
    hide Filter;
    if parts != [] {
      FiltersMean(parts[1..]);
    }
  }

  // ----- when the parser panics

  /** The text that a condition gives for its value, if the checks before it pass. */
  function ValueText(n: Numbers, input: Str): Option<Str> {
    if StartsAt(input, SIMILARITY, 0) then
      var parts := Split(input, GT);
      if |parts| != 2 || n.read(Trim(parts[1])).None? then None
      else
        var lhs := Trim(parts[0]);
        if lhs == [] || lhs[|lhs| - 1] != 0x29 || |lhs| <= |SIMILARITY| then None
        else
          var args := lhs[|SIMILARITY|..|lhs| - 1];
          if Find(args, COMMA).None? then None else Some(Trim(args[Find(args, COMMA).value + 1..]))
    else if Find(input, EQ).Some? then Some(Trim(input[Find(input, EQ).value + 2..]))
    else if Find(input, NE).Some? then Some(Trim(input[Find(input, NE).value + 2..]))
    else if Find(input, GT).Some? then Some(Trim(input[Find(input, GT).value + 1..]))
    else if Find(input, LT).Some? then Some(Trim(input[Find(input, LT).value + 1..]))
    else None
  }

  /** The text that a secondary filter gives for its value. */
  function FilterText(input: Str): Option<Str> {
    var s := Trim(input);
    if Find(s, EQ).None? then None else Some(Trim(s[Find(s, EQ).value + 2..]))
  }

  lemma {:induction false} TrimRightKeeps(s: Str, k: nat)
    ensures TrimRight(s) <= s
    ensures k < |s| && !IsSpace(s[k]) ==> k < |TrimRight(s)|
    decreases |s|
  {
    if s != [] && IsSpace(s[|s| - 1]) {
      TrimRightKeeps(s[..|s| - 1], k);
    }
  }

  lemma {:induction false} TrimLeftTight(s: Str)
    ensures TrimLeft(s) == [] || !IsSpace(TrimLeft(s)[0])
  {
    if s != [] && IsSpace(s[0]) {
      TrimLeftTight(s[1..]);
    }
  }

  lemma {:induction false} TrimRightTight(s: Str)
    ensures TrimRight(s) == [] || !IsSpace(TrimRight(s)[|TrimRight(s)| - 1])
    decreases |s|
  {
    if s != [] && IsSpace(s[|s| - 1]) {
      TrimRightTight(s[..|s| - 1]);
    }
  }

  /** Trimming twice is trimming once. */
  lemma TrimTwice(s: Str)
    ensures Trim(Trim(s)) == Trim(s)
  {
    TrimLeftTight(s);
    TrimRightTight(TrimLeft(s));
    TrimRightKeeps(TrimLeft(s), 0);
    TightTrims(Trim(s));
  }

  /** What is cut off before the first ">" starts with "similarity(" if the text does. */
  lemma CallStays(input: Str)
    requires StartsAt(input, SIMILARITY, 0) && |Split(input, GT)| == 2
    ensures var lhs := Trim(Split(input, GT)[0]);
            |lhs| >= |SIMILARITY| && lhs[..|SIMILARITY|] == SIMILARITY
  {
    hide Trim;
    SplitWhole(input, GT);
    var i := Find(input, GT).value;
    SplitsAt(input, GT, i);
    assert input[i..i + 1][0] == 0x3E;
    assert forall k :: 0 <= k < |SIMILARITY| ==>
        input[k] == input[0..|SIMILARITY|][k] == SIMILARITY[k] && SIMILARITY[k] != 0x3E;
    CallTrims(input[..i]);
  }

  lemma CallTrims(s: Str)
    requires |s| >= |SIMILARITY| && s[..|SIMILARITY|] == SIMILARITY
    ensures |Trim(s)| >= |SIMILARITY| && Trim(s)[..|SIMILARITY|] == SIMILARITY
  {
    assert s[0] == SIMILARITY[0] && s[10] == SIMILARITY[10];
    TrimRightKeeps(s, 10);
    hide TrimRight;
    assert TrimLeft(s) == s && |TrimRight(s)| >= 11;
    assert TrimRight(s)[..11] == s[..11];
  }

  lemma ValuePanicsIff(n: Numbers, text: Str)
    ensures Value(n, text).Panics? <==> Trim(text) == [QUOTE]
  {
    hide Trim, Split, ReadAll;
  }

  /** A call that ends with a parenthesis is longer than "similarity(", so the slice between them is one. */
  lemma SimilarityPanicsIff(n: Numbers, input: Str)
    requires StartsAt(input, SIMILARITY, 0)
    ensures Similarity(n, input).Panics? <==> ValueText(n, input) == Some([QUOTE])
  {
    hide Trim, Split, Value;
    if |Split(input, GT)| == 2 {
      CallStays(input);
      var lhs := Trim(Split(input, GT)[0]);
      assert |lhs| == |SIMILARITY| ==> lhs[10] == lhs[..|SIMILARITY|][10] == 0x28;
      if |lhs| > |SIMILARITY| {
        var args := lhs[|SIMILARITY|..|lhs| - 1];
        if Find(args, COMMA).Some? {
          var text := args[Find(args, COMMA).value + 1..];
          ValuePanicsIff(n, Trim(text));
          TrimTwice(text);
        }
      }
    }
  }

  lemma ComparisonPanicsIff(n: Numbers, input: Str)
    requires !StartsAt(input, SIMILARITY, 0)
    ensures Comparison(n, input).Panics? <==> ValueText(n, input) == Some([QUOTE])
  {
    hide Trim, Value;
    forall at: nat, width: nat, op: QueryOp | at + width <= |input|
      ensures ComparisonAt(n, input, at, width, op).Panics? <==> Trim(input[at + width..]) == [QUOTE]
    {
      ValuePanicsIff(n, Trim(input[at + width..]));
      TrimTwice(input[at + width..]);
    }
  }

  lemma FilterPanicsIff(input: Str)
    ensures Filter(input).Panics? <==> FilterText(input) == Some([QUOTE])
  {
    hide Trim;
    var s := Trim(input);
    if Find(s, EQ).Some? {
      var v := Trim(s[Find(s, EQ).value + 2..]);
      assert IsBetween(v, QUOTE, QUOTE) && |v| < 2 <==> v == [QUOTE];
    }
  }

  /** A filter that holds "==", with a value that is not a lone quotation mark. */
  predicate IsFilter(input: Str) { FilterText(input).Some? && FilterText(input) != Some([QUOTE]) }

  lemma FilterDoneIff(input: Str)
    ensures Filter(input).Done? <==> IsFilter(input)
  {
    hide Trim;
    FilterPanicsIff(input);
  }

  /** The value of filter `i` is a lone quotation mark, and all before it are filters. */
  predicate StopsAt(parts: seq<Str>, i: nat) {
    i < |parts| && FilterText(parts[i]) == Some([QUOTE]) && forall j :: 0 <= j < i ==> IsFilter(parts[j])
  }

  lemma {:induction false} FiltersPanicIff(parts: seq<Str>)
    ensures Filters(parts).Panics? <==> exists i: nat :: StopsAt(parts, i)
    decreases parts
  {
    hide Filter, FilterText, IsFilter;
    if parts != [] {
      FilterPanicsIff(parts[0]);
      FilterDoneIff(parts[0]);
      FiltersPanicIff(parts[1..]);
      if exists i: nat :: StopsAt(parts[1..], i) && IsFilter(parts[0]) {
        var i: nat :| StopsAt(parts[1..], i);
        forall j | 0 <= j < i + 1
          ensures IsFilter(parts[j])
        {
          assert j > 0 ==> parts[j] == parts[1..][j - 1];
        }
        assert StopsAt(parts, i + 1);
      }
      if exists i: nat :: StopsAt(parts, i) {
        var i: nat :| StopsAt(parts, i);
        if i > 0 {
          forall j | 0 <= j < i - 1
            ensures IsFilter(parts[1..][j])
          {
            assert parts[1..][j] == parts[j + 1];
          }
          assert StopsAt(parts[1..], i - 1);
        }
      } else if FilterText(parts[0]) == Some([QUOTE]) {
        assert StopsAt(parts, 0);
      }
    }
  }

  /** A list in brackets. */
  predicate IsList(s: Str) { IsBetween(s, 0x5B, 0x5D) }

  /** What is between the brackets of a list are numbers, with commas between them. */
  predicate HoldsNumbers(n: Numbers, s: Str)
    requires IsList(s)
  {
    forall piece :: piece in Split(s[1..|s| - 1], COMMA) ==> n.read(Trim(piece)).Some?
  }

  lemma {:induction false} ReadAllIff(n: Numbers, pieces: seq<Str>)
    ensures ReadAll(n, pieces).Some? <==> forall piece :: piece in pieces ==> n.read(Trim(piece)).Some?
  {
    hide Trim;
    if pieces != [] {
      ReadAllIff(n, pieces[1..]);
      assert pieces == [pieces[0]] + pieces[1..];
    }
  }

  /**
   * A condition whose value is not a lone quotation mark, and holds numbers if it is a list; that of a call of
   * `similarity` is one.
   */
  predicate IsCondition(n: Numbers, input: Str) {
    match ValueText(n, input)
    case None => false
    case Some(text) =>
      && text != [QUOTE]
      && (IsList(text) ==> HoldsNumbers(n, text))
      && (StartsAt(input, SIMILARITY, 0) ==> IsList(text))
  }

  lemma ValueDoneIff(n: Numbers, text: Str)
    requires Trim(text) == text
    ensures Value(n, text).Done? <==> text != [QUOTE] && (IsList(text) ==> HoldsNumbers(n, text))
    ensures Value(n, text).Done? ==> (Value(n, text).value.Vector? <==> IsList(text))
  {
    hide Trim, Split, ReadAll;
    if IsList(text) {
      ReadAllIff(n, Split(text[1..|text| - 1], COMMA));
    }
  }

  lemma SimilarityDoneIff(n: Numbers, input: Str)
    requires StartsAt(input, SIMILARITY, 0)
    ensures Similarity(n, input).Done? <==> IsCondition(n, input)
  {
    hide Trim, Split, Value, HoldsNumbers, IsList;
    if |Split(input, GT)| == 2 {
      CallStays(input);
      var lhs := Trim(Split(input, GT)[0]);
      assert |lhs| == |SIMILARITY| ==> lhs[10] == lhs[..|SIMILARITY|][10] == 0x28;
      if |lhs| > |SIMILARITY| {
        var args := lhs[|SIMILARITY|..|lhs| - 1];
        if Find(args, COMMA).Some? {
          var text := args[Find(args, COMMA).value + 1..];
          TrimTwice(text);
          ValueDoneIff(n, Trim(text));
        }
      }
    }
  }

  lemma ComparisonDoneIff(n: Numbers, input: Str)
    requires !StartsAt(input, SIMILARITY, 0)
    ensures Comparison(n, input).Done? <==> IsCondition(n, input)
  {
    hide Trim, Value, HoldsNumbers, IsList;
    forall at: nat, width: nat, op: QueryOp | at + width <= |input|
      ensures var text := Trim(input[at + width..]);
              ComparisonAt(n, input, at, width, op).Done? <==>
                text != [QUOTE] && (IsList(text) ==> HoldsNumbers(n, text))
    {
      TrimTwice(input[at + width..]);
      ValueDoneIff(n, Trim(input[at + width..]));
    }
  }

  /**
   * The parser panics exactly when the value of the first condition is a lone quotation mark, or when that
   * condition is one that it reads and the value of a filter is one, after filters that it reads.
   */
  lemma PanicsIff(n: Numbers, input: Str)
    ensures var parts := Split(Trim(input), AND);
            Parsed(n, input).Panics? <==>
              || ValueText(n, Trim(parts[0])) == Some([QUOTE])
              || (IsCondition(n, Trim(parts[0])) && exists i: nat :: StopsAt(parts[1..], i))
  {
    hide Split, Trim, Similarity, Comparison, Filters, ValueText, StopsAt, IsCondition;
    var parts := Split(Trim(input), AND);
    var first := Trim(parts[0]);
    if StartsAt(first, SIMILARITY, 0) {
      SimilarityPanicsIff(n, first);
      SimilarityDoneIff(n, first);
    } else {
      ComparisonPanicsIff(n, first);
      ComparisonDoneIff(n, first);
    }
    FiltersPanicIff(parts[1..]);
  }

  lemma {:induction false} FiltersDoneIff(parts: seq<Str>)
    ensures Filters(parts).Done? <==> forall part :: part in parts ==> IsFilter(part)
    decreases parts
  {
    hide Filter, IsFilter;
    if parts != [] {
      FilterDoneIff(parts[0]);
      FiltersDoneIff(parts[1..]);
      assert parts == [parts[0]] + parts[1..];
    }
  }

  /** The parser reads exactly a condition followed by filters; whatever else does not make it panic is refused. */
  lemma ReadIff(n: Numbers, input: Str)
    ensures var parts := Split(Trim(input), AND);
            Parsed(n, input).Done? <==>
              IsCondition(n, Trim(parts[0])) && forall part :: part in parts[1..] ==> IsFilter(part)
  {
    hide Split, Trim, Similarity, Comparison, Filters, IsFilter, IsCondition;
    var parts := Split(Trim(input), AND);
    var first := Trim(parts[0]);
    if StartsAt(first, SIMILARITY, 0) {
      SimilarityDoneIff(n, first);
    } else {
      ComparisonDoneIff(n, first);
    }
    FiltersDoneIff(parts[1..]);
  }

  /** A value that is one quotation mark makes the parser panic. */
  lemma LoneQuotePanics(n: Numbers)
    ensures Parsed(n, TYPE + EQ + [QUOTE]) == Panics
  {
    var s := TYPE + EQ + [QUOTE];
    assert s == [0x74, 0x79, 0x70, 0x65, 0x3D, 0x3D, 0x22];
    TightTrims(s);
    AndAfter(s, []);
    assert s + [] == s;
    SplitWhole(s, AND);
    assert s[4..6] == EQ;
    forall j | 0 <= j < 4
      ensures !StartsAt(s, EQ, j)
    {
      assert s[j..j + 2][0] == s[j];
    }
    FindsAt(s, EQ, 0, 4);
    TightTrims([QUOTE]);
    assert s[6..] == [QUOTE];
  }
}
