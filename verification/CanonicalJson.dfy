/** JSON values as Python holds them (dicts remember insertion order) and the canonical text under every
    hash of the system: sorted keys, compact separators, non-ASCII text left as it is, strings escaped as
    in section 7 of RFC 8259. */
module CanonicalJson {
  import opened Basics
  import opened Numerals

  datatype Json =
    | JNull
    | JBool(b: bool)
    | JInt(n: int)
    | JString(s: string)
    | JList(items: seq<Json>)
    | JObject(fields: seq<(string, Json)>)

  ghost predicate KeysDistinct(fields: seq<(string, Json)>) {
    forall i, j :: 0 <= i < j < |fields| ==> fields[i].0 != fields[j].0
  }

  /** Every dict inside has distinct keys. */
  ghost predicate WellFormed(j: Json) {
    match j
    case JList(items) => forall i :: 0 <= i < |items| ==> WellFormed(items[i])
    case JObject(fields) => KeysDistinct(fields) && forall i :: 0 <= i < |fields| ==> WellFormed(fields[i].1)
    case _ => true
  }

  /** The same JSON value: dicts are compared as finite maps, whatever their insertion order. Finer than
      Python's `==`, which also identifies `True` with `1` although their JSON texts differ. */
  ghost predicate Same(a: Json, b: Json) {
    match a
    case JList(items) =>
      b.JList? && |items| == |b.items| && forall i :: 0 <= i < |items| ==> Same(items[i], b.items[i])
    case JObject(fields) =>
      b.JObject? && |fields| == |b.fields|
      && forall i :: 0 <= i < |fields| ==> exists k :: 0 <= k < |b.fields| && b.fields[k].0 == fields[i].0 && Same(fields[i].1, b.fields[k].1)
    case _ => a == b
  }

  // ---------------------------------------------------------------- strings

  const HEX := "0123456789abcdef"
  const QUOTE: char := '\U{22}'
  const OPEN_BRACE: char := '\U{7B}'
  const CLOSE_BRACE: char := '\U{7D}'

  function EscapeChar(c: char): string {
    if c == QUOTE then "\\\""
    else if c == '\\' then "\\\\"
    else if c == '\n' then "\\n"
    else if c == '\r' then "\\r"
    else if c == '\t' then "\\t"
    else if c == '\U{C}' then "\\f"
    else if c == '\U{8}' then "\\b"
    else if c < ' ' then "\\u00" + [HEX[c as int / 16], HEX[c as int % 16]]
    else [c]
  }

  function Escape(s: string): string {
    if s == "" then "" else EscapeChar(s[0]) + Escape(s[1..])
  }

  function Quoted(s: string): string { "\"" + Escape(s) + "\"" }

  lemma HexDigits(i: nat, k: nat)
    requires i < 16 && k < 16 && HEX[i] == HEX[k]
    ensures i == k
  {
    assert HEX == ['0', '1', '2', '3', '4', '5', '6', '7', '8', '9', 'a', 'b', 'c', 'd', 'e', 'f'];
  }

  /** No escape sequence is a proper prefix of another one. */
  lemma EscapeCharPrefixFree(c: char, d: char, x: string, y: string)
    requires EscapeChar(c) + x == EscapeChar(d) + y
    ensures c == d && x == y
  {
    var l, r := EscapeChar(c) + x, EscapeChar(d) + y;
    assert l[0] == EscapeChar(c)[0] && r[0] == EscapeChar(d)[0];
    if l[0] == '\\' {
      assert l[1] == EscapeChar(c)[1] && r[1] == EscapeChar(d)[1];
      if l[1] == 'u' {
        assert l[4] == EscapeChar(c)[4] && r[4] == EscapeChar(d)[4];
        assert l[5] == EscapeChar(c)[5] && r[5] == EscapeChar(d)[5];
        HexDigits(c as int / 16, d as int / 16);
        HexDigits(c as int % 16, d as int % 16);
      }
    }
    assert c == d;
    assert x == l[|EscapeChar(c)|..] && y == r[|EscapeChar(d)|..];
  }

  lemma EscapeCharStart(c: char)
    ensures EscapeChar(c) != "" && EscapeChar(c)[0] != QUOTE
  {}

  lemma JoinStart(first: string, rest: string, end: string, x: string)
    requires first != ""
    ensures (first + rest) + end + x == first + (rest + end + x)
    ensures ((first + rest) + end + x)[0] == first[0]
  {}

  lemma EscapeStart(s: string, x: string)
    ensures var text := Escape(s) + "\"" + x;
            && text != "" && (text[0] == QUOTE <==> s == "")
            && (s == "" ==> text[1..] == x)
            && (s != "" ==> text == EscapeChar(s[0]) + (Escape(s[1..]) + "\"" + x))
  {
    if s != "" {
      var first := EscapeChar(s[0]);
      EscapeCharStart(s[0]);
      JoinStart(first, Escape(s[1..]), "\"", x);
      assert Escape(s) == first + Escape(s[1..]);
    } else {
      assert Escape(s) + "\"" + x == "\"" + x;
    }
  }

  /** An escaped string followed by its closing quote can be read back in one way only. */
  lemma {:induction false} EscapePrefix(a: string, b: string, x: string, y: string)
    requires Escape(a) + "\"" + x == Escape(b) + "\"" + y
    ensures a == b && x == y
    decreases |a|
  {
    EscapeStart(a, x);
    EscapeStart(b, y);
    if a != "" {
      EscapeCharPrefixFree(a[0], b[0], Escape(a[1..]) + "\"" + x, Escape(b[1..]) + "\"" + y);
      EscapePrefix(a[1..], b[1..], x, y);
      assert a == [a[0]] + a[1..] && b == [b[0]] + b[1..];
    }
  }

  lemma QuotedPrefix(a: string, b: string, x: string, y: string)
    requires Quoted(a) + x == Quoted(b) + y
    ensures a == b && x == y
  {
    hide Escape;
    Inside("\"", Escape(a), "\"", x);
    Inside("\"", Escape(b), "\"", y);
    EscapePrefix(a, b, x, y);
  }

  // ---------------------------------------------------------------- numbers

  function Number(n: int): string {
    if n < 0 then "-" + Decimal(-n) else Decimal(n)
  }

  /** A text that may follow a value: nothing, or a separator or closing bracket. */
  predicate Delimits(x: string) { x == "" || x[0] == ',' || x[0] == ']' || x[0] == CLOSE_BRACE }

  /** A run of digits ends where the first non-digit stands. */
  lemma DigitRunEnd(s: string, x: string)
    requires AllDigits(s) && Delimits(x)
    ensures forall i :: 0 <= i < |s| ==> IsDigit((s + x)[i])
    ensures |s| < |s + x| ==> !IsDigit((s + x)[|s|])
  {}

  lemma DecimalPrefix(n: nat, m: nat, x: string, y: string)
    requires Decimal(n) + x == Decimal(m) + y && Delimits(x) && Delimits(y)
    ensures n == m && x == y
  {
    var l, s, t := Decimal(n) + x, Decimal(n), Decimal(m);
    DecimalReadsBack(n);
    DecimalReadsBack(m);
    DigitRunEnd(s, x);
    DigitRunEnd(t, y);
    assert |s| == |t|;
    assert s == l[..|s|] && t == l[..|s|];
    assert x == l[|s|..] && y == l[|s|..];
    DecimalInjective(n, m);
  }

  lemma NumberStart(n: int, x: string)
    ensures Number(n) != "" && (n < 0 <==> (Number(n) + x)[0] == '-')
    ensures n < 0 ==> (Number(n) + x)[1..] == Decimal(-n) + x
  {
    if n >= 0 { DecimalReadsBack(n); }
  }

  lemma NumberPrefix(n: int, m: int, x: string, y: string)
    requires Number(n) + x == Number(m) + y && Delimits(x) && Delimits(y)
    ensures n == m && x == y
  {
    NumberStart(n, x);
    NumberStart(m, y);
    if n < 0 { DecimalPrefix(-n, -m, x, y); } else { DecimalPrefix(n, m, x, y); }
  }

  // ---------------------------------------------------------------- sorted fields

  function Insert(f: (string, Json), fields: seq<(string, Json)>): (r: seq<(string, Json)>)
    ensures |r| == |fields| + 1
    ensures forall x :: x in r <==> x == f || x in fields
  {
    if fields == [] then [f]
    else if AtMost(f.0, fields[0].0) then [f] + fields
    else
      var rest := Insert(f, fields[1..]);
      assert forall x :: x in fields <==> x == fields[0] || x in fields[1..];
      [fields[0]] + rest
  }

  function SortFields(fields: seq<(string, Json)>): (r: seq<(string, Json)>)
    ensures |r| == |fields|
    ensures forall x :: x in r <==> x in fields
  {
    if fields == [] then []
    else
      assert forall x :: x in fields <==> x == fields[0] || x in fields[1..];
      Insert(fields[0], SortFields(fields[1..]))
  }

  ghost predicate FieldsAscending(fields: seq<(string, Json)>) {
    forall i, j :: 0 <= i < j < |fields| ==> Before(fields[i].0, fields[j].0)
  }

  lemma {:induction false} InsertAscending(f: (string, Json), fields: seq<(string, Json)>)
    requires FieldsAscending(fields) && forall i :: 0 <= i < |fields| ==> fields[i].0 != f.0
    ensures FieldsAscending(Insert(f, fields))
  {
    if fields != [] {
      if AtMost(f.0, fields[0].0) {
        forall i | 0 <= i < |fields| ensures Before(f.0, fields[i].0) {
          if i > 0 { BeforeTransitive(f.0, fields[0].0, fields[i].0); }
        }
      } else {
        BeforeTotal(f.0, fields[0].0);
        InsertAscending(f, fields[1..]);
        var rest := Insert(f, fields[1..]);
        forall i | 0 <= i < |rest| ensures Before(fields[0].0, rest[i].0) {
          assert rest[i] in rest;
          if rest[i] != f {
            assert rest[i] in fields[1..];
            var k :| 0 <= k < |fields[1..]| && fields[1..][k] == rest[i];
            assert fields[k + 1] == rest[i];
          }
        }
      }
    }
  }

  lemma {:induction false} SortAscending(fields: seq<(string, Json)>)
    requires KeysDistinct(fields)
    ensures FieldsAscending(SortFields(fields))
  {
    if fields != [] {
      SortAscending(fields[1..]);
      var rest := SortFields(fields[1..]);
      forall i | 0 <= i < |rest| ensures rest[i].0 != fields[0].0 {
        assert rest[i] in rest;
        var k :| 0 <= k < |fields[1..]| && fields[1..][k] == rest[i];
        assert fields[k + 1] == rest[i];
      }
      InsertAscending(fields[0], rest);
    }
  }

  // ---------------------------------------------------------------- the canonical text

  function Encode(j: Json): string
    decreases j, 1, 0
  {
    match j
    case JNull => "null"
    case JBool(b) => if b then "true" else "false"
    case JInt(n) => Number(n)
    case JString(s) => Quoted(s)
    case JList(items) => "[" + EncodeItems(j, items) + "]"
    case JObject(fields) => 
      var sorted := SortFields(fields);
      assert forall k :: 0 <= k < |sorted| ==> sorted[k] in fields;
      "{" + EncodeFields(j, sorted) + "}"
  }

  function EncodeItems(whole: Json, items: seq<Json>): string
    requires forall k :: 0 <= k < |items| ==> items[k] < whole
    decreases whole, 0, |items|
  {
    if items == [] then ""
    else if |items| == 1 then Encode(items[0])
    else Encode(items[0]) + "," + EncodeItems(whole, items[1..])
  }

  function EncodeFields(whole: Json, fields: seq<(string, Json)>): string
    requires forall k :: 0 <= k < |fields| ==> fields[k].1 < whole
    decreases whole, 0, |fields|
  {
    if fields == [] then ""
    else if |fields| == 1 then Quoted(fields[0].0) + ":" + Encode(fields[0].1)
    else Quoted(fields[0].0) + ":" + Encode(fields[0].1) + "," + EncodeFields(whole, fields[1..])
  }

  // ---------------------------------------------------------------- reading a canonical text back

  /** The first character of a value tells its kind. */
  lemma EncodeStart(j: Json)
    ensures Encode(j) != ""
    ensures var c := Encode(j)[0];
            match j
            case JNull => c == 'n'
            case JBool(b) => c == if b then 't' else 'f'
            case JInt(n) => c == '-' || IsDigit(c)
            case JString(_) => c == QUOTE
            case JList(_) => c == '['
            case JObject(_) => c == OPEN_BRACE
  {
    match j
    case JInt(n) => NumberStart(n, ""); assert Number(n) + "" == Number(n); if n >= 0 { DecimalReadsBack(n); }
    case _ =>
  }

  /** Fields that agree pairwise, in order. */
  ghost predicate SameFields(a: seq<(string, Json)>, b: seq<(string, Json)>) {
    |a| == |b| && forall i :: 0 <= i < |a| ==> a[i].0 == b[i].0 && Same(a[i].1, b[i].1)
  }

  ghost predicate SameItems(a: seq<Json>, b: seq<Json>) {
    |a| == |b| && forall i :: 0 <= i < |a| ==> Same(a[i], b[i])
  }

  lemma SameStartSameKind(a: Json, b: Json, x: string, y: string)
    requires Encode(a) + x == Encode(b) + y
    ensures a.JNull? <==> b.JNull?
    ensures a.JBool? <==> b.JBool?
    ensures a.JBool? ==> a == b
    ensures a.JInt? <==> b.JInt?
    ensures a.JString? <==> b.JString?
    ensures a.JList? <==> b.JList?
    ensures a.JObject? <==> b.JObject?
  {
    var l := Encode(a) + x;
    EncodeStart(a);
    EncodeStart(b);
    assert l[0] == Encode(a)[0] && l[0] == Encode(b)[0];
  }

  lemma RestEqual(s: string, x: string, y: string)
    requires s + x == s + y
    ensures x == y
  {
    assert x == (s + x)[|s|..] && y == (s + y)[|s|..];
  }

  lemma Inside(open: string, body: string, close: string, x: string)
    requires |open| == 1
    ensures (open + body + close + x)[1..] == body + close + x
  {}

  /** Canonical texts are uniquely readable: if two values followed by a delimiter print alike, they are
      the same value and what follows is the same. */
  lemma {:induction false} EncodePrefix(a: Json, b: Json, x: string, y: string)
    requires Encode(a) + x == Encode(b) + y && Delimits(x) && Delimits(y)
    ensures Same(a, b) && x == y
    decreases a, 1, 0
  {
    SameStartSameKind(a, b, x, y);
    match a
    case JNull => RestEqual("null", x, y);
    case JBool(v) => RestEqual(Encode(a), x, y);
    case JInt(n) => NumberPrefix(n, b.n, x, y);
    case JString(s) => QuotedPrefix(s, b.s, x, y);
    case JList(items) =>
      Inside("[", EncodeItems(a, items), "]", x);
      Inside("[", EncodeItems(b, b.items), "]", y);
      ItemsPrefix(a, items, b, b.items, x, y);
    case JObject(fields) => ObjectPrefix(a, b, x, y);
  }

  lemma {:induction false} ObjectPrefix(a: Json, b: Json, x: string, y: string)
    requires a.JObject? && b.JObject? && Encode(a) + x == Encode(b) + y
    ensures Same(a, b) && x == y
    decreases a, 0, |a.fields| + 1
  {
    var fa, fb := SortFields(a.fields), SortFields(b.fields);
    assert forall k :: 0 <= k < |fa| ==> fa[k] in a.fields;
    assert forall k :: 0 <= k < |fb| ==> fb[k] in b.fields;
    Inside("{", EncodeFields(a, fa), "}", x);
    Inside("{", EncodeFields(b, fb), "}", y);
    FieldsPrefix(a, fa, b, fb, x, y);
    SortedSameIsSame(a, b);
  }

  lemma FirstAndRest(first: string, tail: string, single: bool, close: string, x: string)
    requires first != "" && close != ""
    ensures var text := (if single then first else first + "," + tail) + close + x;
            && text == first + (if single then close + x else "," + (tail + close + x))
            && text[0] == first[0]
  {
    var text := (if single then first else first + "," + tail) + close + x;
    assert text == first + (if single then close + x else "," + (tail + close + x));
  }

  lemma ItemsStart(whole: Json, items: seq<Json>, x: string)
    requires items != [] && forall k :: 0 <= k < |items| ==> items[k] < whole
    ensures var text := EncodeItems(whole, items) + "]" + x;
            text == Encode(items[0]) + ItemsRest(whole, items, x) && text[0] == Encode(items[0])[0] && text[0] != ']'
  {
    EncodeStart(items[0]);
    FirstAndRest(Encode(items[0]), if |items| == 1 then "" else EncodeItems(whole, items[1..]), |items| == 1, "]", x);
  }

  lemma NoItems(whole: Json, close: string, x: string)
    requires |close| == 1
    ensures EncodeItems(whole, []) + close + x == close + x
    ensures EncodeFields(whole, []) + close + x == close + x
    ensures (close + x)[0] == close[0] && (close + x)[1..] == x
  {}

  /** What follows the first item of a list. */
  function ItemsRest(whole: Json, items: seq<Json>, x: string): string
    requires items != [] && forall k :: 0 <= k < |items| ==> items[k] < whole
  {
    if |items| == 1 then "]" + x else "," + (EncodeItems(whole, items[1..]) + "]" + x)
  }

  lemma {:induction false} ItemsPrefix(wholeA: Json, a: seq<Json>, wholeB: Json, b: seq<Json>, x: string, y: string)
    requires forall k :: 0 <= k < |a| ==> a[k] < wholeA
    requires forall k :: 0 <= k < |b| ==> b[k] < wholeB
    requires EncodeItems(wholeA, a) + "]" + x == EncodeItems(wholeB, b) + "]" + y
    ensures SameItems(a, b) && x == y
    decreases wholeA, 0, |a|
  {
    hide Encode, Same, EncodeItems;
    if a == [] { NoItems(wholeA, "]", x); } else { ItemsStart(wholeA, a, x); }
    if b == [] { NoItems(wholeB, "]", y); } else { ItemsStart(wholeB, b, y); }
    if a != [] {
      var restA, restB := ItemsRest(wholeA, a, x), ItemsRest(wholeB, b, y);
      EncodePrefix(a[0], b[0], restA, restB);
      assert restA[0] == restB[0];
      if |a| == 1 {
        assert x == restA[1..] && y == restB[1..];
      } else {
        assert restA[1..] == EncodeItems(wholeA, a[1..]) + "]" + x;
        assert restB[1..] == EncodeItems(wholeB, b[1..]) + "]" + y;
        ItemsPrefix(wholeA, a[1..], wholeB, b[1..], x, y);
        forall i | 0 <= i < |a| ensures Same(a[i], b[i]) {
          if i > 0 { assert a[i] == a[1..][i - 1] && b[i] == b[1..][i - 1]; }
        }
      }
    }
  }

  function FieldsRest(whole: Json, fields: seq<(string, Json)>, x: string): string
    requires fields != [] && forall k :: 0 <= k < |fields| ==> fields[k].1 < whole
  {
    if |fields| == 1 then "}" + x else "," + (EncodeFields(whole, fields[1..]) + "}" + x)
  }

  lemma FieldsStart(whole: Json, fields: seq<(string, Json)>, x: string)
    requires fields != [] && forall k :: 0 <= k < |fields| ==> fields[k].1 < whole
    ensures var text := EncodeFields(whole, fields) + "}" + x;
            && text == Quoted(fields[0].0) + (":" + (Encode(fields[0].1) + FieldsRest(whole, fields, x)))
            && text[0] == QUOTE
  {
    var key, value := Quoted(fields[0].0), Encode(fields[0].1);
    FirstAndRest(key + ":" + value, if |fields| == 1 then "" else EncodeFields(whole, fields[1..]), |fields| == 1, "}", x);
    KeyAndValue(key, value, FieldsRest(whole, fields, x));
  }

  lemma KeyAndValue(key: string, value: string, rest: string)
    ensures key + ":" + value + rest == key + (":" + (value + rest))
  {}

  lemma {:induction false} FieldsPrefix(wholeA: Json, a: seq<(string, Json)>, wholeB: Json, b: seq<(string, Json)>,
                                        x: string, y: string)
    requires forall k :: 0 <= k < |a| ==> a[k].1 < wholeA
    requires forall k :: 0 <= k < |b| ==> b[k].1 < wholeB
    requires EncodeFields(wholeA, a) + "}" + x == EncodeFields(wholeB, b) + "}" + y
    ensures SameFields(a, b) && x == y
    decreases wholeA, 0, |a|
  {
    hide Encode, Quoted, Same, EncodeFields;
    if a == [] { NoItems(wholeA, "}", x); } else { FieldsStart(wholeA, a, x); }
    if b == [] { NoItems(wholeB, "}", y); } else { FieldsStart(wholeB, b, y); }
    if a != [] {
      var restA, restB := FieldsRest(wholeA, a, x), FieldsRest(wholeB, b, y);
      var tailA, tailB := Encode(a[0].1) + restA, Encode(b[0].1) + restB;
      QuotedPrefix(a[0].0, b[0].0, ":" + tailA, ":" + tailB);
      assert tailA == (":" + tailA)[1..] && tailB == (":" + tailB)[1..];
      EncodePrefix(a[0].1, b[0].1, restA, restB);
      assert restA[0] == restB[0];
      if |a| == 1 {
        assert x == restA[1..] && y == restB[1..];
      } else {
        assert restA[1..] == EncodeFields(wholeA, a[1..]) + "}" + x;
        assert restB[1..] == EncodeFields(wholeB, b[1..]) + "}" + y;
        FieldsPrefix(wholeA, a[1..], wholeB, b[1..], x, y);
        forall i | 0 <= i < |a| ensures a[i].0 == b[i].0 && Same(a[i].1, b[i].1) {
          if i > 0 { assert a[i] == a[1..][i - 1] && b[i] == b[1..][i - 1]; }
        }
      }
    }
  }

  lemma SortedSameIsSame(a: Json, b: Json)
    requires a.JObject? && b.JObject? && SameFields(SortFields(a.fields), SortFields(b.fields))
    ensures Same(a, b)
  {
    var fa, fb := SortFields(a.fields), SortFields(b.fields);
    forall i | 0 <= i < |a.fields|
      ensures exists k :: 0 <= k < |b.fields| && b.fields[k].0 == a.fields[i].0 && Same(a.fields[i].1, b.fields[k].1)
    {
      assert a.fields[i] in fa;
      var m :| 0 <= m < |fa| && fa[m] == a.fields[i];
      assert fb[m] in b.fields;
      var k :| 0 <= k < |b.fields| && b.fields[k] == fb[m];
    }
  }

  // ---------------------------------------------------------------- insertion order does not matter

  function KeySet(fields: seq<(string, Json)>): set<string> {
    if fields == [] then {} else {fields[0].0} + KeySet(fields[1..])
  }

  lemma {:induction false} KeySetMembers(fields: seq<(string, Json)>, k: string)
    ensures k in KeySet(fields) <==> exists i :: 0 <= i < |fields| && fields[i].0 == k
  {
    if fields != [] {
      KeySetMembers(fields[1..], k);
      if i :| 0 <= i < |fields[1..]| && fields[1..][i].0 == k { assert fields[i + 1].0 == k; }
      if i :| 0 < i < |fields| && fields[i].0 == k { assert fields[1..][i - 1].0 == k; }
    }
  }


  lemma SortedKeyListing(fields: seq<(string, Json)>)
    requires KeysDistinct(fields)
    ensures var sorted := SortFields(fields);
            SortedListing(seq(|sorted|, i requires 0 <= i < |sorted| => sorted[i].0), KeySet(fields))
  {
    SortAscending(fields);
    var sorted := SortFields(fields);
    var keys := seq(|sorted|, i requires 0 <= i < |sorted| => sorted[i].0);
    forall k ensures k in keys <==> k in KeySet(fields) {
      KeySetMembers(fields, k);
      if k in keys {
        var i :| 0 <= i < |keys| && keys[i] == k;
        assert sorted[i] in fields;
        var m :| 0 <= m < |fields| && fields[m] == sorted[i];
      }
      if m :| 0 <= m < |fields| && fields[m].0 == k {
        assert fields[m] in sorted;
        var i :| 0 <= i < |sorted| && sorted[i] == fields[m];
        assert keys[i] == k;
      }
    }
  }

  lemma SameHasSameKeys(a: Json, b: Json)
    requires WellFormed(a) && WellFormed(b) && a.JObject? && Same(a, b)
    ensures KeySet(a.fields) == KeySet(b.fields)
  {
    var ka, kb := KeySet(a.fields), KeySet(b.fields);
    forall k | k in ka ensures k in kb {
      KeySetMembers(a.fields, k);
      KeySetMembers(b.fields, k);
      var i :| 0 <= i < |a.fields| && a.fields[i].0 == k;
      var m :| 0 <= m < |b.fields| && b.fields[m].0 == a.fields[i].0;
    }
    KeySetSize(a.fields);
    KeySetSize(b.fields);
    SubsetOfEqualSize(ka, kb);
  }

  lemma {:induction false} KeySetSize(fields: seq<(string, Json)>)
    requires KeysDistinct(fields)
    ensures |KeySet(fields)| == |fields|
  {
    if fields != [] {
      assert forall i, j :: 0 <= i < j < |fields[1..]| ==> fields[1..][i].0 != fields[1..][j].0;
      KeySetSize(fields[1..]);
      KeySetMembers(fields[1..], fields[0].0);
    }
  }

  lemma SubsetOfEqualSize(a: set<string>, b: set<string>)
    requires a <= b && |a| == |b|
    ensures a == b
  {
    assert b == a + (b - a);
    assert |b| == |a| + |b - a|;
  }

  /** Dicts that are equal list the same keys in the same sorted order, with equal values. */
  lemma SameSortsAlike(a: Json, b: Json)
    requires WellFormed(a) && WellFormed(b) && a.JObject? && Same(a, b)
    ensures SameFields(SortFields(a.fields), SortFields(b.fields))
  {
    var fa, fb := SortFields(a.fields), SortFields(b.fields);
    SameHasSameKeys(a, b);
    SortedKeyListing(a.fields);
    SortedKeyListing(b.fields);
    var ka := seq(|fa|, i requires 0 <= i < |fa| => fa[i].0);
    var kb := seq(|fb|, i requires 0 <= i < |fb| => fb[i].0);
    SortedListingUnique(ka, kb, KeySet(a.fields));
    forall i | 0 <= i < |fa| ensures fa[i].0 == fb[i].0 && Same(fa[i].1, fb[i].1) {
      assert ka[i] == kb[i];
      assert fa[i] in a.fields && fb[i] in b.fields;
      var m :| 0 <= m < |a.fields| && a.fields[m] == fa[i];
      var k :| 0 <= k < |b.fields| && b.fields[k].0 == a.fields[m].0 && Same(a.fields[m].1, b.fields[k].1);
      var n :| 0 <= n < |b.fields| && b.fields[n] == fb[i];
      assert k == n;
    }
  }

  lemma SortedWellFormed(j: Json)
    requires WellFormed(j) && j.JObject?
    ensures forall i :: 0 <= i < |SortFields(j.fields)| ==> SortFields(j.fields)[i].1 < j && WellFormed(SortFields(j.fields)[i].1)
  {
    var sorted := SortFields(j.fields);
    forall i | 0 <= i < |sorted| ensures sorted[i].1 < j && WellFormed(sorted[i].1) {
      assert sorted[i] in j.fields;
    }
  }

  lemma {:induction false} SameEncodesAlike(a: Json, b: Json)
    requires WellFormed(a) && WellFormed(b) && Same(a, b)
    ensures Encode(a) == Encode(b)
    decreases a, 1, 0
  {
    match a
    case JList(items) => ItemsEncodeAlike(a, items, b, b.items);
    case JObject(fields) =>
      SameSortsAlike(a, b);
      SortedWellFormed(a);
      SortedWellFormed(b);
      FieldsEncodeAlike(a, SortFields(fields), b, SortFields(b.fields));
    case _ =>
  }

  lemma {:induction false} ItemsEncodeAlike(wholeA: Json, a: seq<Json>, wholeB: Json, b: seq<Json>)
    requires forall k :: 0 <= k < |a| ==> a[k] < wholeA && WellFormed(a[k])
    requires forall k :: 0 <= k < |b| ==> b[k] < wholeB && WellFormed(b[k])
    requires SameItems(a, b)
    ensures EncodeItems(wholeA, a) == EncodeItems(wholeB, b)
    decreases wholeA, 0, |a|
  {
    if a != [] {
      SameEncodesAlike(a[0], b[0]);
      ItemsEncodeAlike(wholeA, a[1..], wholeB, b[1..]);
    }
  }

  lemma {:induction false} FieldsEncodeAlike(wholeA: Json, a: seq<(string, Json)>, wholeB: Json, b: seq<(string, Json)>)
    requires forall k :: 0 <= k < |a| ==> a[k].1 < wholeA && WellFormed(a[k].1)
    requires forall k :: 0 <= k < |b| ==> b[k].1 < wholeB && WellFormed(b[k].1)
    requires SameFields(a, b)
    ensures EncodeFields(wholeA, a) == EncodeFields(wholeB, b)
    decreases wholeA, 0, |a|
  {
    if a != [] {
      SameEncodesAlike(a[0].1, b[0].1);
      FieldsEncodeAlike(wholeA, a[1..], wholeB, b[1..]);
    }
  }

  /** The canonical text is faithful: two values print alike exactly when they are the same JSON value,
      in whatever order their keys were inserted. */
  lemma CanonicalTextIsFaithful(a: Json, b: Json)
    requires WellFormed(a) && WellFormed(b)
    ensures Encode(a) == Encode(b) <==> Same(a, b)
  {
    if Encode(a) == Encode(b) { EncodePrefix(a, b, "", ""); }
    if Same(a, b) { SameEncodesAlike(a, b); }
  }

  // ---------------------------------------------------------------- hashes of string maps

  /** The dict of a string map, its keys listed in some order. */
  ghost function MapJson(m: map<string, string>): (j: Json)
    ensures j.JObject? && WellFormed(j)
    ensures ListsMap(j, m)
  {
    var keys := SortedKeys(m.Keys);
    assert forall i :: 0 <= i < |keys| ==> keys[i] in keys;
    AscendingDistinct(keys);
    JObject(seq(|keys|, i requires 0 <= i < |keys| => (keys[i], JString(m[keys[i]]))))
  }

  lemma AscendingDistinct(s: seq<string>)
    requires Ascending(s)
    ensures Distinct(s)
  {
    forall i, j | 0 <= i < j < |s| ensures s[i] != s[j] { BeforeIrreflexive(s[i]); }
  }

  /** `j` is the dict `m`, with its entries inserted in any order. */
  ghost predicate ListsMap(j: Json, m: map<string, string>) {
    && j.JObject? && |j.fields| == |m| && KeysDistinct(j.fields)
    && forall i :: 0 <= i < |j.fields| ==> j.fields[i].0 in m && j.fields[i].1 == JString(m[j.fields[i].0])
  }

  lemma ListingsCoverMap(j: Json, m: map<string, string>, k: string)
    requires ListsMap(j, m) && k in m
    ensures exists i :: 0 <= i < |j.fields| && j.fields[i].0 == k
  {
    KeySetSize(j.fields);
    var keys := KeySet(j.fields);
    forall x | x in keys ensures x in m.Keys { KeySetMembers(j.fields, x); }
    SubsetOfEqualSize(keys, m.Keys);
    KeySetMembers(j.fields, k);
  }

  lemma KeysAreListed(j: Json, m: map<string, string>, k: string)
    requires ListsMap(j, m)
    ensures k in m <==> k in KeySet(j.fields)
  {
    KeySetMembers(j.fields, k);
    if k in m { ListingsCoverMap(j, m, k); }
  }

  /** Two listings of maps are equal dicts exactly when the maps are equal. */
  lemma ListingsOfMaps(a: Json, m: map<string, string>, b: Json, n: map<string, string>)
    requires ListsMap(a, m) && ListsMap(b, n)
    ensures Same(a, b) <==> m == n
  {
    if m == n {
      forall i | 0 <= i < |a.fields|
        ensures exists k :: 0 <= k < |b.fields| && b.fields[k].0 == a.fields[i].0 && Same(a.fields[i].1, b.fields[k].1)
      {
        ListingsCoverMap(b, n, a.fields[i].0);
      }
    }
    if Same(a, b) {
      SameHasSameKeys(a, b);
      forall k ensures k in m <==> k in n {
        KeysAreListed(a, m, k);
        KeysAreListed(b, n, k);
      }
      forall k | k in m ensures m[k] == n[k] {
        ListingsCoverMap(a, m, k);
        var i :| 0 <= i < |a.fields| && a.fields[i].0 == k;
        var l :| 0 <= l < |b.fields| && b.fields[l].0 == k && Same(a.fields[i].1, b.fields[l].1);
      }
    }
  }

  /** Equal dicts whose keys stand in the same order agree field by field. */
  lemma SameAligned(a: Json, b: Json)
    requires a.JObject? && b.JObject? && KeysDistinct(b.fields) && Same(a, b)
    requires forall i :: 0 <= i < |a.fields| && i < |b.fields| ==> a.fields[i].0 == b.fields[i].0
    ensures SameFields(a.fields, b.fields)
  {
    forall i | 0 <= i < |a.fields| ensures Same(a.fields[i].1, b.fields[i].1) {
      var k :| 0 <= k < |b.fields| && b.fields[k].0 == a.fields[i].0 && Same(a.fields[i].1, b.fields[k].1);
      assert k == i;
    }
  }

  /** SHA-256 as far as this model needs it. */
  ghost predicate CollisionFree(hash: string -> string) {
    forall x, y :: hash(x) == hash(y) ==> x == y
  }

  /** `compute_parameter_hash`, for one insertion order of the parameters. */
  function HashListing(hash: string -> string, listing: Json): string {
    "sha256:" + hash(Encode(listing))
  }

  ghost function ParameterHash(hash: string -> string, parameters: map<string, string>): string {
    HashListing(hash, MapJson(parameters))
  }

  /** Equal hashes mean equal parameters, and the hash does not depend on the order in which the
      parameters were put into the dict. */
  lemma ParameterHashFaithful(hash: string -> string, a: Json, m: map<string, string>, b: Json, n: map<string, string>)
    requires CollisionFree(hash) && ListsMap(a, m) && ListsMap(b, n)
    ensures HashListing(hash, a) == HashListing(hash, b) <==> m == n
  {
    CanonicalTextIsFaithful(a, b);
    ListingsOfMaps(a, m, b, n);
    assert HashListing(hash, a)[7..] == hash(Encode(a)) && HashListing(hash, b)[7..] == hash(Encode(b));
  }

  // ---------------------------------------------------------------- the layout

  /** Fields stand in the order of their keys, whichever was inserted first, and without white space. */
  lemma TwoFields(k: string, v: Json, l: string, w: Json)
    requires !AtMost(k, l)
    ensures Encode(JObject([(k, v), (l, w)])) == "{" + (Quoted(l) + ":" + Encode(w) + "," + (Quoted(k) + ":" + Encode(v))) + "}"
  {
    var j, sorted := JObject([(k, v), (l, w)]), [(l, w), (k, v)];
    TwoSorted((k, v), (l, w));
    assert sorted[1..] == [(k, v)];
    hide Quoted, AtMost;
    assert EncodeFields(j, sorted[1..]) == Quoted(k) + ":" + Encode(v);
    assert EncodeFields(j, sorted) == Quoted(l) + ":" + Encode(w) + "," + EncodeFields(j, sorted[1..]);
  }

  lemma TwoSorted(a: (string, Json), b: (string, Json))
    requires !AtMost(a.0, b.0)
    ensures SortFields([a, b]) == [b, a]
  {
    assert [a, b][1..] == [b] && [b][1..] == [];
    assert SortFields([b]) == [b];
    assert Insert(a, [b]) == [b] + Insert(a, []);
  }

  lemma TwoItems(v: Json, w: Json)
    ensures Encode(JList([v, w])) == "[" + (Encode(v) + "," + Encode(w)) + "]"
  {
    var j := JList([v, w]);
    assert [v, w][1..] == [w];
    assert EncodeItems(j, [w]) == Encode(w);
  }

  /** Characters are written as they are, but for quotes, backslashes and control characters. */
  lemma EscapedExactly(c: char, s: string)
    ensures Escape([c] + s) == (if c == QUOTE || c == '\\' then ['\\', c] else if c < ' ' then EscapeChar(c) else [c]) + Escape(s)
    ensures EscapeChar('\n') == "\\n" && EscapeChar('\r') == "\\r" && EscapeChar('\t') == "\\t"
    ensures EscapeChar('\U{8}') == "\\b" && EscapeChar('\U{C}') == "\\f" && EscapeChar('\U{1F}') == "\\u001f" && Escape("") == ""
  {
    assert ([c] + s)[1..] == s;
  }
}
