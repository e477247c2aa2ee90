/** src/storage/index.ts: `stableStringify`, the deterministic JSON text of
    the brain. The replacer gives every non-array object its keys in
    ascending order, and `JSON.stringify` writes the result with an indent
    of two spaces. The save and load functions around it only do file I/O. */
module Storage {
  import opened Seqs
  import opened Strings
  import opened Sorting

  /** A JSON value; an object lists its members in insertion order. */
  datatype Json =
    | JNull
    | JBool(b: bool)
    | JNum(n: int)
    | JStr(s: string)
    | JArr(items: seq<Json>)
    | JObj(fields: seq<(string, Json)>)

  /** A JavaScript object never has the same key twice. */
  predicate DistinctKeys(fields: seq<(string, Json)>) {
    forall i, j :: 0 <= i < j < |fields| ==> fields[i].0 != fields[j].0
  }

  predicate IsDigits(s: string) {
    forall i :: 0 <= i < |s| ==> IsDigit(s[i])
  }

  /** A key JavaScript treats as an array index: the canonical decimal form
      of a number below 2^32 - 1. */
  predicate IsArrayIndex(k: string) {
    IsDigits(k) && NatToString(ParseNat(k)) == k && ParseNat(k) < 4294967295
  }

  /** The order in which the rebuilt object lists its members. The replacer
      inserts the keys in the order of `Array.prototype.sort()` (code unit
      by code unit, which `StrLe` matches for characters of the Basic
      Multilingual Plane), and an object lists its own keys with the array-index
      keys first, in numeric order, then the others in insertion order. */
  predicate KeyLe(a: (string, Json), b: (string, Json)) {
    var ia, ib := IsArrayIndex(a.0), IsArrayIndex(b.0);
    if ia && ib then ParseNat(a.0) <= ParseNat(b.0)
    else if ia then true
    else if ib then false
    else StrLe(a.0, b.0)
  }

  // ---- the replacer ----------------------------------------------------------

  /** What `JSON.stringify` writes once the replacer has run at every depth:
      objects rebuilt with their keys sorted, arrays kept in order, and every
      other value, `null` included, unchanged. The rebuilt object keeps the
      members the `reduce` makes own properties of the `{}` accumulator. */
  function SortKeys(j: Json): Json
    decreases j
  {
    match j
    case JArr(items) => JArr(seq(|items|, i requires 0 <= i < |items| => SortKeys(items[i])))
    case JObj(fields) =>
      JObj(Filter(SortBy(seq(|fields|, i requires 0 <= i < |fields| => (fields[i].0, SortKeys(fields[i].1))), KeyLe), OwnMember))
    case _ => j
  }

  /** `sorted[k] = value[k]` makes an own property for every key except
      `__proto__`, whose assignment runs the setter `{}` inherits from
      `Object.prototype` instead. */
  predicate OwnMember(p: (string, Json)) {
    p.0 != "__proto__"
  }

  /** A member with its value processed. */
  function SortMember(p: (string, Json)): (string, Json) {
    (p.0, SortKeys(p.1))
  }

  // ---- the writer ------------------------------------------------------------

  /** The indentation of a given depth: two spaces per level. */
  function Indent(depth: nat): (r: string)
    ensures |r| == 2 * depth && forall i :: 0 <= i < |r| ==> r[i] == ' '
  {
    seq(2 * depth, _ => ' ')
  }

  /** `parts.join(sep)`. */
  function Join(parts: seq<string>, sep: string): string {
    if parts == [] then ""
    else if |parts| == 1 then parts[0]
    else parts[0] + sep + Join(parts[1..], sep)
  }

  /** The escaped form of one character inside a JSON string. */
  function EscapeChar(c: char): string {
    if c == '"' then "\\\""
    else if c == '\\' then "\\\\"
    else if c == '\n' then "\\n"
    else if c == '\r' then "\\r"
    else if c == '\t' then "\\t"
    else if c == '\U{0008}' then "\\b"
    else if c == '\U{000C}' then "\\f"
    else [c]
  }

  /** The body of a JSON string literal: no raw line feed survives. */
  function Escape(s: string): (r: string)
    ensures '\n' !in r
  {
    if s == [] then "" else EscapeChar(s[0]) + Escape(s[1..])
  }

  /** A JSON string literal. */
  function Quote(s: string): string {
    "\"" + Escape(s) + "\""
  }

  /** How `JSON.parse` reads the body of a string literal back: a backslash
      and the character after it stand for one character. */
  function Unescape(e: string): string
    decreases |e|
  {
    if e == [] then ""
    else if e[0] == '\\' && |e| >= 2 then [EscapedChar(e[1])] + Unescape(e[2..])
    else [e[0]] + Unescape(e[1..])
  }

  /** The character a one-letter escape stands for. */
  function EscapedChar(c: char): char {
    if c == 'n' then '\n'
    else if c == 'r' then '\r'
    else if c == 't' then '\t'
    else if c == 'b' then '\U{0008}'
    else if c == 'f' then '\U{000C}'
    else c
  }

  /** `JSON.stringify(value, null, 2)` at a given depth. */
  function Render(j: Json, depth: nat): string
    decreases j
  {
    match j
    case JNull => "null"
    case JBool(b) => if b then "true" else "false"
    case JNum(n) => IntToString(n)
    case JStr(s) => Quote(s)
    case JArr(items) =>
      if items == [] then "[]"
      else
        "[\n"
        + Join(seq(|items|, i requires 0 <= i < |items| => Indent(depth + 1) + Render(items[i], depth + 1)), ",\n")
        + "\n" + Indent(depth) + "]"
    case JObj(fields) =>
      if fields == [] then "{}"
      else
        "{\n"
        + Join(seq(|fields|, i requires 0 <= i < |fields| =>
            Indent(depth + 1) + Quote(fields[i].0) + ": " + Render(fields[i].1, depth + 1)), ",\n")
        + "\n" + Indent(depth) + "}"
  }

  /** `stableStringify`. */
  function StableStringify(j: Json): string {
    Render(SortKeys(j), 0)
  }

  // ---- properties ------------------------------------------------------------

  /** Every object, at every depth, lists its keys in ascending order. */
  ghost predicate KeysSorted(j: Json)
    decreases j
  {
    match j
    case JArr(items) => forall i :: 0 <= i < |items| ==> KeysSorted(items[i])
    case JObj(fields) => Sorted(fields, KeyLe) && forall i :: 0 <= i < |fields| ==> KeysSorted(fields[i].1)
    case _ => true
  }

  lemma KeyLeTotalPreorder()
    ensures TotalPreorder(KeyLe)
  {
    forall a: (string, Json), b: (string, Json) ensures KeyLe(a, b) || KeyLe(b, a) {
      StrLeTotal(a.0, b.0);
    }
    forall a: (string, Json), b: (string, Json), c: (string, Json) | KeyLe(a, b) && KeyLe(b, c)
      ensures KeyLe(a, c)
    {
      if !IsArrayIndex(a.0) && !IsArrayIndex(b.0) && !IsArrayIndex(c.0) {
        StrLeTransitive(a.0, b.0, c.0);
      }
    }
  }

  /** Two members the order cannot tell apart have the same key. */
  lemma KeyLeAntisymmetric(a: (string, Json), b: (string, Json))
    requires KeyLe(a, b) && KeyLe(b, a)
    ensures a.0 == b.0
  {
    if !IsArrayIndex(a.0) {
      StrLeAntisymmetric(a.0, b.0);
    }
  }

  /** The members the replacer puts in an object are the original ones with
      their values processed, sorted, less any `__proto__` member. */
  lemma SortedMembers(fields: seq<(string, Json)>)
    ensures SortKeys(JObj(fields)) == JObj(Filter(SortBy(Map(fields, SortMember), KeyLe), OwnMember))
  {
    var m := seq(|fields|, i requires 0 <= i < |fields| => (fields[i].0, SortKeys(fields[i].1)));
    MembersMapped(fields, m);
  }

  lemma MembersMapped(fields: seq<(string, Json)>, m: seq<(string, Json)>)
    requires |m| == |fields| && forall i :: 0 <= i < |fields| ==> m[i] == (fields[i].0, SortKeys(fields[i].1))
    ensures m == Map(fields, SortMember)
  {
    forall i | 0 <= i < |fields| ensures m[i] == Map(fields, SortMember)[i] {
      MapAt(fields, SortMember, i);
    }
  }

  /** Sorting the processed members neither drops nor adds one. */
  lemma SortedMembersIn(fields: seq<(string, Json)>, q: (string, Json))
    ensures q in SortBy(Map(fields, SortMember), KeyLe) <==> exists p :: p in fields && q == SortMember(p)
    ensures |SortBy(Map(fields, SortMember), KeyLe)| == |fields|
  {
    var m := Map(fields, SortMember);
    var r := SortBy(m, KeyLe);
    assert q in r <==> q in m by {
      assert q in r <==> q in multiset(r);
      assert q in m <==> q in multiset(m);
    }
    MapMembers(fields, SortMember, q);
    assert |r| == |multiset(r)| == |multiset(m)| == |m|;
  }

  /** The output object has exactly the input's members whose key is not
      `__proto__`, each value processed in turn: nothing else is dropped,
      `null` members included, and nothing is added. */
  lemma MembersKept(fields: seq<(string, Json)>, q: (string, Json))
    ensures q in SortKeys(JObj(fields)).fields <==>
      exists p :: p in fields && p.0 != "__proto__" && q == SortMember(p)
    ensures (forall p :: p in fields ==> p.0 != "__proto__") ==> |SortKeys(JObj(fields)).fields| == |fields|
  {
    SortedMembers(fields);
    var r := SortBy(Map(fields, SortMember), KeyLe);
    SortedMembersIn(fields, q);
    if q in Filter(r, OwnMember) {
      FilterMembers(r, OwnMember, q);
    }
    if q in r && OwnMember(q) {
      FilterKeeps(r, OwnMember, q);
    }
    if forall p :: p in fields ==> p.0 != "__proto__" {
      forall x | x in r ensures OwnMember(x) {
        SortedMembersIn(fields, x);
      }
      FilterAll(r, OwnMember);
    }
  }

  /** Filtering a list that keeps every element leaves it as it is. */
  lemma {:induction false} FilterAll<T>(s: seq<T>, keep: T -> bool)
    requires forall x :: x in s ==> keep(x)
    ensures Filter(s, keep) == s
  {
    if s != [] {
      assert s == s[..|s| - 1] + [s[|s| - 1]];
      FilterAll(s[..|s| - 1], keep);
    }
  }

  /** Filtering a sorted list leaves it sorted. */
  lemma {:induction false} FilterSorted<T>(s: seq<T>, le: (T, T) -> bool, keep: T -> bool)
    requires Sorted(s, le)
    ensures Sorted(Filter(s, keep), le)
  {
    if s != [] {
      var init, last := s[..|s| - 1], s[|s| - 1];
      FilterSorted(init, le, keep);
      var fi := Filter(init, keep);
      forall i | 0 <= i < |fi| ensures le(fi[i], last) {
        FilterMembers(init, keep, fi[i]);
      }
    }
  }

  /** Arrays keep their length and order; each element is processed in
      place. Only objects are reordered. */
  lemma ArraysKeepOrder(items: seq<Json>, i: nat)
    requires i < |items|
    ensures |SortKeys(JArr(items)).items| == |items|
    ensures SortKeys(JArr(items)).items[i] == SortKeys(items[i])
  {
  }

  /** `null`, booleans, numbers and strings pass through the replacer. */
  lemma ScalarsPass(j: Json)
    requires !j.JArr? && !j.JObj?
    ensures SortKeys(j) == j
  {
  }

  /** `null` is written as `null`. */
  lemma NullWritten()
    ensures StableStringify(JNull) == "null"
  {
  }

  /** The keys "9" and "10" are array indices, so the rebuilt object lists
      "9" first, although `sort()` puts "10" before "9". */
  lemma NumericKeysNotInSortOrder()
    ensures StrLe("10", "9") && !StrLe("9", "10")
    ensures KeyLe(("9", JNull), ("10", JNull)) && !KeyLe(("10", JNull), ("9", JNull))
  {
  }

  /** After the replacer every object, at every depth, is sorted by key. */
  lemma {:induction false} SortKeysSorted(j: Json)
    ensures KeysSorted(SortKeys(j))
    decreases j
  {
    match j
    case JArr(items) =>
      forall i | 0 <= i < |items| ensures KeysSorted(SortKeys(j).items[i]) {
        SortKeysSorted(items[i]);
      }
    case JObj(fields) =>
      SortedMembers(fields);
      KeyLeTotalPreorder();
      SortBySorted(Map(fields, SortMember), KeyLe);
      FilterSorted(SortBy(Map(fields, SortMember), KeyLe), KeyLe, OwnMember);
      var r := SortKeys(j).fields;
      forall i | 0 <= i < |r| ensures KeysSorted(r[i].1) {
        MembersKept(fields, r[i]);
        var p :| p in fields && r[i] == SortMember(p);
        SortKeysSorted(p.1);
      }
    case _ =>
  }

  /** The members of an object as written: the array-index keys first, in
      increasing numeric order, then every other key in increasing
      code-unit order. Without array-index keys this is the plain sorted
      order. */
  lemma ObjectKeyOrder(fields: seq<(string, Json)>, i: nat, k: nat)
    requires i < k < |SortKeys(JObj(fields)).fields|
    ensures var r := SortKeys(JObj(fields)).fields;
      (IsArrayIndex(r[k].0) ==> IsArrayIndex(r[i].0) && ParseNat(r[i].0) <= ParseNat(r[k].0))
      && (!IsArrayIndex(r[i].0) ==> !IsArrayIndex(r[k].0) && StrLe(r[i].0, r[k].0))
  {
    var r := SortKeys(JObj(fields)).fields;
    SortKeysSorted(JObj(fields));
    assert KeyLe(r[i], r[k]);
  }

  /** An insertion sort leaves a sorted list as it is. */
  lemma {:induction false} SortByOfSorted<T>(s: seq<T>, le: (T, T) -> bool)
    requires Sorted(s, le)
    ensures SortBy(s, le) == s
  {
    if s != [] {
      assert Sorted(s[1..], le);
      SortByOfSorted(s[1..], le);
      if |s| > 1 {
        assert le(s[0], s[1]);
      }
    }
  }

  /** Running the replacer again changes nothing. */
  lemma {:induction false} SortKeysIdempotent(j: Json)
    ensures SortKeys(SortKeys(j)) == SortKeys(j)
    decreases j
  {
    match j
    case JArr(items) =>
      var r := SortKeys(j).items;
      forall i | 0 <= i < |items| ensures SortKeys(r[i]) == r[i] {
        SortKeysIdempotent(items[i]);
      }
    case JObj(fields) =>
      var r := SortKeys(j).fields;
      forall i | 0 <= i < |r| ensures SortMember(r[i]) == r[i] && OwnMember(r[i]) {
        MembersKept(fields, r[i]);
        var p :| p in fields && p.0 != "__proto__" && r[i] == SortMember(p);
        SortKeysIdempotent(p.1);
      }
      assert Map(r, SortMember) == r by {
        forall i | 0 <= i < |r| ensures Map(r, SortMember)[i] == r[i] {
          MapAt(r, SortMember, i);
        }
      }
      SortKeysSorted(j);
      SortByOfSorted(r, KeyLe);
      FilterAll(r, OwnMember);
      SortedMembers(r);
    case _ =>
  }

  /** Objects with the same members in a different insertion order are
      written as the same text. */
  lemma InsertionOrderIrrelevant(f1: seq<(string, Json)>, f2: seq<(string, Json)>)
    requires DistinctKeys(f1)
    requires multiset(f1) == multiset(f2)
    ensures StableStringify(JObj(f1)) == StableStringify(JObj(f2))
  {
    SortedMembers(f1);
    SortedMembers(f2);
    var m1, m2 := Map(f1, SortMember), Map(f2, SortMember);
    MapPermutation(f1, f2, SortMember);
    var r1, r2 := SortBy(m1, KeyLe), SortBy(m2, KeyLe);
    KeyLeTotalPreorder();
    SortBySorted(m1, KeyLe);
    SortBySorted(m2, KeyLe);
    forall x, y | x in r1 && y in r1 && KeyLe(x, y) && KeyLe(y, x) ensures x == y {
      KeyLeAntisymmetric(x, y);
      SortedMembersIn(f1, x);
      SortedMembersIn(f1, y);
      var px :| px in f1 && x == SortMember(px);
      var py :| py in f1 && y == SortMember(py);
      var i :| 0 <= i < |f1| && f1[i] == px;
      var j :| 0 <= j < |f1| && f1[j] == py;
      assert i == j;
    }
    SortedUnique(r1, r2, KeyLe);
  }

  // ---- the layout ------------------------------------------------------------

  /** The lines of a non-empty object whose values are `null`, booleans,
      numbers or strings, at any depth: `{`, then one line per member holding
      the indentation of the next level (two spaces more), the quoted key,
      `": "`, the value and a comma after every member but the last, then the
      indentation of the object's own level and `}`. */
  lemma FlatObjectLayout(fields: seq<(string, Json)>, depth: nat)
    requires fields != []
    requires forall i :: 0 <= i < |fields| ==> !fields[i].1.JArr? && !fields[i].1.JObj?
    ensures var lines := Lines(Render(JObj(fields), depth));
      && |lines| == |fields| + 2
      && lines[0] == "{"
      && lines[|fields| + 1] == Indent(depth) + "}"
      && forall i :: 0 <= i < |fields| ==>
        lines[i + 1] == Indent(depth + 1) + Quote(fields[i].0) + ": " + Render(fields[i].1, depth + 1)
          + (if i + 1 < |fields| then "," else "")
  {
    var parts := seq(|fields|, i requires 0 <= i < |fields| =>
      Indent(depth + 1) + Quote(fields[i].0) + ": " + Render(fields[i].1, depth + 1));
    RenderAsLines(fields, depth, parts);
    PartsOnOneLine(fields, depth, parts);
    OpenAndCloseOnOneLine(depth);
    FramedLines(parts, Indent(depth) + "}");
    var lines := Lines(Render(JObj(fields), depth));
    forall i | 0 <= i < |fields|
      ensures lines[i + 1] == Indent(depth + 1) + Quote(fields[i].0) + ": " + Render(fields[i].1, depth + 1)
        + (if i + 1 < |fields| then "," else "")
    {
      assert lines[i + 1] == parts[i] + (if i + 1 < |parts| then "," else "");
    }
  }

  /** Lines framed by `{` and a closing line, commas after all but the last
      middle line, read back as the same lines. */
  lemma FramedLines(parts: seq<string>, close: string)
    requires parts != []
    requires forall i :: 0 <= i < |parts| ==> '\n' !in parts[i]
    requires '\n' !in close
    ensures var lines := Lines(JoinLines(["{"] + Separated(parts) + [close]));
      && |lines| == |parts| + 2
      && lines[0] == "{"
      && lines[|parts| + 1] == close
      && forall i :: 0 <= i < |parts| ==> lines[i + 1] == parts[i] + (if i + 1 < |parts| then "," else "")
  {
    var all := ["{"] + Separated(parts) + [close];
    SeparatedOnOneLine(parts);
    assert forall i :: 0 <= i < |all| ==> '\n' !in all[i];
    LinesOfJoinLines(all);
  }

  /** The text of a non-empty object is its lines joined by line feeds. */
  lemma RenderAsLines(fields: seq<(string, Json)>, depth: nat, parts: seq<string>)
    requires fields != []
    requires parts == seq(|fields|, i requires 0 <= i < |fields| =>
      Indent(depth + 1) + Quote(fields[i].0) + ": " + Render(fields[i].1, depth + 1))
    ensures Render(JObj(fields), depth) == JoinLines(["{"] + Separated(parts) + [Indent(depth) + "}"])
  {
    var body := Join(parts, ",\n");
    assert Render(JObj(fields), depth) == "{\n" + body + "\n" + Indent(depth) + "}";
    JoinAsLines(parts);
    JoinLinesAround("{", Separated(parts), Indent(depth) + "}");
    assert "{\n" == "{" + "\n";
    ConcatAssoc("{\n" + body + "\n", Indent(depth), "}");
  }

  lemma PartsOnOneLine(fields: seq<(string, Json)>, depth: nat, parts: seq<string>)
    requires forall i :: 0 <= i < |fields| ==> !fields[i].1.JArr? && !fields[i].1.JObj?
    requires parts == seq(|fields|, i requires 0 <= i < |fields| =>
      Indent(depth + 1) + Quote(fields[i].0) + ": " + Render(fields[i].1, depth + 1))
    ensures forall i :: 0 <= i < |parts| ==> '\n' !in parts[i]
  {
    forall i | 0 <= i < |parts| ensures '\n' !in parts[i] {
      ScalarNoLineFeed(fields[i].1, depth + 1);
    }
  }

  lemma SeparatedOnOneLine(parts: seq<string>)
    requires forall i :: 0 <= i < |parts| ==> '\n' !in parts[i]
    ensures forall i :: 0 <= i < |parts| ==> '\n' !in Separated(parts)[i]
  {
  }

  lemma OpenAndCloseOnOneLine(depth: nat)
    ensures '\n' !in "{" && '\n' !in Indent(depth) + "}"
  {
  }

  /** Each part followed by a comma, except the last. */
  function Separated(parts: seq<string>): (r: seq<string>)
    ensures |r| == |parts|
  {
    seq(|parts|, i requires 0 <= i < |parts| => parts[i] + (if i < |parts| - 1 then "," else ""))
  }

  /** `join(",\n")` writes each part on its own line, commas at line ends. */
  lemma {:induction false} JoinAsLines(parts: seq<string>)
    requires |parts| >= 1
    ensures Join(parts, ",\n") == JoinLines(Separated(parts))
    decreases |parts|
  {
    if |parts| > 1 {
      JoinAsLines(parts[1..]);
      var sep := Separated(parts);
      assert sep[1..] == Separated(parts[1..]);
      assert parts[0] + ",\n" + Join(parts[1..], ",\n") == (parts[0] + ",") + "\n" + JoinLines(sep[1..]);
    } else {
      assert Separated(parts)[0] == parts[0] + "" == parts[0];
      assert Separated(parts) == [parts[0]];
    }
  }

  lemma JoinLinesAround(first: string, middle: seq<string>, last: string)
    requires |middle| >= 1
    ensures JoinLines([first] + middle + [last]) == first + "\n" + JoinLines(middle) + "\n" + last
  {
    var tail := middle + [last];
    assert [first] + middle + [last] == [first] + tail;
    JoinLinesCons(first, tail);
    JoinLinesSnoc(middle, last);
    var jm := JoinLines(middle);
    ConcatAssoc(first + "\n", jm + "\n", last);
    ConcatAssoc(first + "\n", jm, "\n");
  }

  lemma ConcatAssoc<T>(a: seq<T>, b: seq<T>, c: seq<T>)
    ensures a + (b + c) == a + b + c
  {
  }

  lemma JoinLinesCons(first: string, tail: seq<string>)
    requires |tail| >= 1
    ensures JoinLines([first] + tail) == first + "\n" + JoinLines(tail)
  {
    assert ([first] + tail)[1..] == tail;
  }

  lemma JoinLinesSnoc(init: seq<string>, last: string)
    requires |init| >= 1
    ensures JoinLines(init + [last]) == JoinLines(init) + "\n" + last
  {
    JoinLinesAppend(init, [last]);
  }

  /** A scalar is written on one line. */
  lemma ScalarNoLineFeed(v: Json, depth: nat)
    requires !v.JArr? && !v.JObj?
    ensures '\n' !in Render(v, depth)
  {
    if v.JNum? {
      IntToStringNoLineFeed(v.n);
    }
  }

  lemma IntToStringNoLineFeed(n: int)
    ensures '\n' !in IntToString(n)
  {
    var r := IntToString(n);
    forall i | 0 <= i < |r| ensures r[i] != '\n' {
      if n < 0 && i > 0 {
        assert r[i] == NatToString(-n)[i - 1];
      }
    }
  }

  /** Reading the escapes back gives the original string: the writer keeps
      every character of a string. */
  lemma {:induction false} EscapeRoundTrip(s: string)
    ensures Unescape(Escape(s)) == s
    decreases |s|
  {
    if s != [] {
      UnescapeStep(s[0], Escape(s[1..]));
      EscapeRoundTrip(s[1..]);
      assert s == [s[0]] + s[1..];
    }
  }

  lemma UnescapeStep(c: char, rest: string)
    ensures Unescape(EscapeChar(c) + rest) == [c] + Unescape(rest)
  {
    var e := EscapeChar(c) + rest;
    if |EscapeChar(c)| == 2 {
      assert e[0] == '\\' && e[1] == EscapeChar(c)[1] && e[2..] == rest;
    } else {
      assert e[0] == c && e[1..] == rest;
    }
  }
}
