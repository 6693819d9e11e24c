/** The printer that sorts object keys at every level, and why equal prints mean
    equal values. */
module CanonicalJson {
  import opened CanonicalText

  /** A finite JSON value. An object is a map: its key order is exactly what the printer must not
      depend on. A number is the numeral the language prints for it. */
  datatype Json =
    | JNull
    | JBool(b: bool)
    | JNumber(numeral: string)
    | JString(s: string)
    | JArray(items: seq<Json>)
    | JObject(fields: map<string, Json>)

  predicate IsNumeralChar(c: char) { '0' <= c <= '9' || c == '-' || c == '+' || c == '.' || c == 'e' }

  /** What a finite number prints as. */
  predicate IsNumeral(s: string) {
    s != "" && ('0' <= s[0] <= '9' || s[0] == '-') && forall i :: 0 <= i < |s| ==> IsNumeralChar(s[i])
  }

  ghost predicate Finite(v: Json) {
    match v
    case JNumber(n) => IsNumeral(n)
    case JArray(items) => forall i :: 0 <= i < |items| ==> Finite(items[i])
    case JObject(fields) => forall k :: k in fields ==> Finite(fields[k])
    case _ => true
  }

  // ---- sorting ----

  /** How a language compares texts: character by character, as Go's order of bytes does, or by the 16-bit
      units of UTF-16, as JavaScript does. */
  datatype Order = Characters | CodeUnits

  /** In UTF-16 a character above U+FFFF starts with a unit from D800 to DBFF, below those of U+E000 and up. */
  function Rank(o: Order, c: char): int {
    var n := c as int;
    if o == Characters || n < 0xD800 then n else if n >= 0x1_0000 then n - 0x1_0000 + 0xD800 else n + 0x11_0000
  }

  predicate Before(o: Order, a: string, b: string) {
    a == "" || (b != "" && (Rank(o, a[0]) < Rank(o, b[0]) || (a[0] == b[0] && Before(o, a[1..], b[1..]))))
  }

  /** Keys in order: each is put in front of the first one it precedes. */
  function Insert(o: Order, k: string, keys: seq<string>): (r: seq<string>)
    ensures forall x :: x in r <==> x == k || x in keys
  {
    if keys == [] || Before(o, k, keys[0]) then [k] + keys
    else
      var rest := Insert(o, k, keys[1..]);
      assert keys == [keys[0]] + keys[1..];
      [keys[0]] + rest
  }

  predicate InOrder(o: Order, keys: seq<string>) {
    forall i, j :: 0 <= i < j < |keys| ==> Before(o, keys[i], keys[j])
  }

  ghost function Sorted(o: Order, s: set<string>): (r: seq<string>)
    ensures forall k :: k in r <==> k in s
    decreases |s|
  {
    if s == {} then []
    else
      var k :| k in s;
      Insert(o, k, Sorted(o, s - {k}))
  }

  lemma RankInjective(o: Order, c: char, d: char)
    ensures Rank(o, c) == Rank(o, d) <==> c == d
  {
  }

  lemma {:induction false} BeforeTotal(o: Order, a: string, b: string)
    ensures Before(o, a, b) || Before(o, b, a)
    decreases |a|
  {
    if a != "" && b != "" {
      RankInjective(o, a[0], b[0]);
      if a[0] == b[0] { BeforeTotal(o, a[1..], b[1..]); }
    }
  }

  lemma {:induction false} BeforeTransitive(o: Order, a: string, b: string, c: string)
    requires Before(o, a, b) && Before(o, b, c)
    ensures Before(o, a, c)
    decreases |a|
  {
    hide Rank;
    if a != "" && a[0] == b[0] == c[0] { BeforeTransitive(o, a[1..], b[1..], c[1..]); }
  }

  lemma {:induction false} InsertInOrder(o: Order, k: string, keys: seq<string>)
    requires InOrder(o, keys)
    ensures InOrder(o, Insert(o, k, keys))
  {
    hide Before;
    var r := Insert(o, k, keys);
    if keys == [] {
    } else if Before(o, k, keys[0]) {
      forall i, j | 0 <= i < j < |r| ensures Before(o, r[i], r[j]) {
        if i == 0 && j > 1 { BeforeTransitive(o, k, keys[0], keys[j - 1]); }
      }
    } else {
      BeforeTotal(o, k, keys[0]);
      InsertInOrder(o, k, keys[1..]);
      var rest := Insert(o, k, keys[1..]);
      forall i, j | 0 <= i < j < |r| ensures Before(o, r[i], r[j]) {
        if i == 0 { assert rest[j - 1] in rest; } else { assert r[i] == rest[i - 1] && r[j] == rest[j - 1]; }
      }
    }
  }

  lemma {:induction false} SortedInOrder(o: Order, s: set<string>)
    ensures InOrder(o, Sorted(o, s))
    decreases |s|
  {
    hide InOrder, Insert;
    if s == {} {
      NothingInOrder(o);
    } else {
      var k :| k in s && Sorted(o, s) == Insert(o, k, Sorted(o, s - {k}));
      SortedInOrder(o, s - {k});
      InsertInOrder(o, k, Sorted(o, s - {k}));
    }
  }

  lemma NothingInOrder(o: Order)
    ensures InOrder(o, [])
  {
  }

  // ---- the units of UTF-16 ----

  /** Section 2 of RFC 2781. */
  function UnitsOf(c: char): seq<nat> {
    var n := c as int;
    if n < 0x1_0000 then [n] else [0xD800 + (n - 0x1_0000) / 0x400, 0xDC00 + (n - 0x1_0000) % 0x400]
  }

  function Units(s: string): seq<nat> { if s == "" then [] else UnitsOf(s[0]) + Units(s[1..]) }

  predicate UnitsBefore(x: seq<nat>, y: seq<nat>) {
    x == [] || (y != [] && (x[0] < y[0] || (x[0] == y[0] && UnitsBefore(x[1..], y[1..]))))
  }

  lemma {:induction false} SharedUnits(p: seq<nat>, x: seq<nat>, y: seq<nat>)
    ensures UnitsBefore(p + x, p + y) <==> UnitsBefore(x, y)
  {
    if p == [] {
      assert p + x == x && p + y == y;
    } else {
      SharedUnits(p[1..], x, y);
      assert (p + x)[1..] == p[1..] + x && (p + y)[1..] == p[1..] + y;
    }
  }

  /** Different characters differ in a unit, and the first one that differs is ordered as their ranks. */
  lemma UnitsApart(c: char, d: char, x: seq<nat>, y: seq<nat>)
    requires c != d
    ensures UnitsBefore(UnitsOf(c) + x, UnitsOf(d) + y) <==> Rank(CodeUnits, c) < Rank(CodeUnits, d)
  {
    var p, q := UnitsOf(c), UnitsOf(d);
    assert (p + x)[0] == p[0] && (q + y)[0] == q[0];
    if |p| == 2 && |q| == 2 && p[0] == q[0] {
      SharedUnits([p[0]], [p[1]] + x, [q[1]] + y);
      assert [p[0]] + ([p[1]] + x) == p + x && [p[0]] + ([q[1]] + y) == q + y;
      assert p[1] != q[1];
    }
  }

  /** Comparing by `Rank` is comparing the texts unit by unit. */
  lemma {:induction false} UnitsOrder(a: string, b: string)
    ensures UnitsBefore(Units(a), Units(b)) <==> Before(CodeUnits, a, b)
    decreases |a|
  {
    hide Rank, UnitsOf;
    if a != "" && b != "" {
      if a[0] == b[0] {
        UnitsOrder(a[1..], b[1..]);
        SharedUnits(UnitsOf(a[0]), Units(a[1..]), Units(b[1..]));
      } else {
        UnitsApart(a[0], b[0], Units(a[1..]), Units(b[1..]));
      }
    } else if a != "" {
      SomeUnits(a[0]);
    }
  }

  lemma SomeUnits(c: char)
    ensures UnitsOf(c) != []
  {
  }

  // ---- printing ----

  ghost function Print(v: Json): string
    decreases v, 1, 0
  {
    match v
    case JNull => "null"
    case JBool(b) => if b then "true" else "false"
    case JNumber(n) => n
    case JString(s) => Quoted(JsonEscape, s)
    case JArray(items) => "[" + PrintItems(v, 0)
    case JObject(fields) => "{" + PrintFields(v, Sorted(CodeUnits, fields.Keys), true)
  }

  ghost function PrintItems(v: Json, i: nat): string
    requires v.JArray? && i <= |v.items|
    decreases v, 0, |v.items| - i
  {
    if i == |v.items| then "]"
    else (if i == 0 then "" else ",") + Print(v.items[i]) + PrintItems(v, i + 1)
  }

  ghost function PrintFields(v: Json, keys: seq<string>, first: bool): string
    requires v.JObject? && forall k :: k in keys ==> k in v.fields
    decreases v, 0, |keys|
  {
    if keys == [] then "}"
    else
      (if first then "" else ",") + Quoted(JsonEscape, keys[0]) + ":" + Print(v.fields[keys[0]])
      + PrintFields(v, keys[1..], false)
  }

  // ---- reading back ----

  /** What may follow a value: anything that does not continue a numeral. */
  predicate Follows(x: string) { x == "" || !IsNumeralChar(x[0]) }

  lemma NumeralStart(m: string, x: string)
    requires (forall i :: 0 <= i < |m| ==> IsNumeralChar(m[i])) && Follows(x)
    ensures m == "" <==> Follows(m + x)
  {
    if m == "" { assert m + x == x; }
  }

  lemma {:induction false} NumeralEnds(m: string, n: string, x: string, y: string)
    requires (forall i :: 0 <= i < |m| ==> IsNumeralChar(m[i])) && (forall i :: 0 <= i < |n| ==> IsNumeralChar(n[i]))
    requires Follows(x) && Follows(y) && m + x == n + y
    ensures m == n && x == y
  {
    NumeralStart(m, x);
    NumeralStart(n, y);
    if m == "" {
      assert m + x == x && n + y == y;
    } else {
      assert (m + x)[0] == m[0] && (n + y)[0] == n[0];
      assert (m + x)[1..] == m[1..] + x && (n + y)[1..] == n[1..] + y;
      NumeralEnds(m[1..], n[1..], x, y);
      assert m == [m[0]] + m[1..] && n == [n[0]] + n[1..];
    }
  }

  /** The first character of a print tells the kind of value. */
  function Kind(c: char): nat {
    if c == 'n' then 0 else if c == 't' then 1 else if c == 'f' then 2 else if c == '"' then 3
    else if c == '[' then 4 else if c == '{' then 5 else 6
  }

  function KindOf(v: Json): nat {
    match v
    case JNull => 0
    case JBool(b) => if b then 1 else 2
    case JString(_) => 3
    case JArray(_) => 4
    case JObject(_) => 5
    case JNumber(_) => 6
  }

  lemma PrintStarts(v: Json, x: string)
    requires Finite(v)
    ensures var t := Print(v) + x; t != "" && Kind(t[0]) == KindOf(v) && t[0] != ']' && t[0] != '}' && t[0] != ','
  {
    hide PrintItems, PrintFields, Written;
  }

  /** A print in front of anything that may follow it determines the value and what follows. */
  lemma {:induction false} PrintPrefixFree(v: Json, w: Json, x: string, y: string)
    requires Finite(v) && Finite(w) && Follows(x) && Follows(y) && Print(v) + x == Print(w) + y
    ensures v == w && x == y
    decreases v, 1, 0
  {
    hide PrintItems, PrintFields, Quoted, IsNumeralChar, Follows;
    PrintStarts(v, x);
    PrintStarts(w, y);
    match v
    case JNull => Cancel("null", x, y);
    case JBool(b) => Cancel(if b then "true" else "false", x, y);
    case JNumber(n) => NumeralEnds(n, w.numeral, x, y);
    case JString(s) => JsonIsCode(); QuotedPrefixFree(JsonEscape, s, w.s, x, y);
    case JArray(items) =>
      Bracket("[", PrintItems(v, 0), PrintItems(w, 0), x, y);
      ItemsPrefixFree(v, w, 0, x, y);
    case JObject(fields) =>
      var k1, k2 := Sorted(CodeUnits, fields.Keys), Sorted(CodeUnits, w.fields.Keys);
      Bracket("{", PrintFields(v, k1, true), PrintFields(w, k2, true), x, y);
      FieldsPrefixFree(v, w, k1, k2, true, x, y);
      SameFields(fields, w.fields, k1, k2);
  }

  lemma Bracket(open: string, a: string, b: string, x: string, y: string)
    requires open + a + x == open + b + y
    ensures a + x == b + y
  {
    assert open + a + x == open + (a + x) && open + b + y == open + (b + y);
    Cancel(open, a + x, b + y);
  }

  lemma SameFields(m: map<string, Json>, n: map<string, Json>, k1: seq<string>, k2: seq<string>)
    requires k1 == Sorted(CodeUnits, m.Keys) && k2 == Sorted(CodeUnits, n.Keys) && k1 == k2
    requires forall k :: k in k1 ==> k in m && k in n && m[k] == n[k]
    ensures m == n
  {
    hide Sorted;
    assert m.Keys == n.Keys;
  }

  lemma Separated(sep: string, a: string, rest: string, x: string)
    ensures sep + a + rest + x == sep + (a + (rest + x))
  {
    assert sep + a + rest + x == sep + (a + (rest + x));
  }

  lemma ItemsStart(v: Json, i: nat, x: string)
    requires v.JArray? && Finite(v) && 0 < i <= |v.items|
    ensures var t := PrintItems(v, i) + x;
            && t != "" && Follows(t) && (t[0] == ']' <==> i == |v.items|) && (t[0] == ',' <==> i < |v.items|)
  {
    hide Print;
  }

  lemma {:induction false} ItemsPrefixFree(v: Json, w: Json, i: nat, x: string, y: string)
    requires v.JArray? && w.JArray? && Finite(v) && Finite(w) && Follows(x) && Follows(y)
    requires i <= |v.items| && i <= |w.items| && v.items[..i] == w.items[..i]
    requires PrintItems(v, i) + x == PrintItems(w, i) + y
    ensures v == w && x == y
    decreases v, 0, |v.items| - i
  {
    hide Print, Follows;
    ItemsKind(v, w, i, x, y);
    if i == |v.items| {
      Cancel("]", x, y);
      assert v.items == w.items[..i];
    } else {
      var sep := if i == 0 then "" else ",";
      var r1, r2 := PrintItems(v, i + 1), PrintItems(w, i + 1);
      Separated(sep, Print(v.items[i]), r1, x);
      Separated(sep, Print(w.items[i]), r2, y);
      Cancel(sep, Print(v.items[i]) + (r1 + x), Print(w.items[i]) + (r2 + y));
      ItemsStart(v, i + 1, x);
      ItemsStart(w, i + 1, y);
      PrintPrefixFree(v.items[i], w.items[i], r1 + x, r2 + y);
      assert v.items[..i + 1] == v.items[..i] + [v.items[i]] && w.items[..i + 1] == w.items[..i] + [w.items[i]];
      ItemsPrefixFree(v, w, i + 1, x, y);
    }
  }

  /** Equal texts: both lists end here, or neither does. */
  lemma ItemsKind(v: Json, w: Json, i: nat, x: string, y: string)
    requires v.JArray? && w.JArray? && Finite(v) && Finite(w) && i <= |v.items| && i <= |w.items|
    requires PrintItems(v, i) + x == PrintItems(w, i) + y
    ensures i == |v.items| <==> i == |w.items|
  {
    ItemsFirst(v, i, x);
    ItemsFirst(w, i, y);
  }

  lemma ItemsFirst(v: Json, i: nat, x: string)
    requires v.JArray? && Finite(v) && i <= |v.items|
    ensures var t := PrintItems(v, i) + x; t != "" && (t[0] == ']' <==> i == |v.items|)
  {
    hide Print;
    if i < |v.items| {
      var rest := PrintItems(v, i + 1);
      PrintStarts(v.items[i], rest + x);
      Separated(if i == 0 then "" else ",", Print(v.items[i]), rest, x);
    }
  }

  lemma FieldsFirst(v: Json, keys: seq<string>, first: bool, x: string)
    requires v.JObject? && forall k :: k in keys ==> k in v.fields
    ensures var t := PrintFields(v, keys, first) + x;
            && t != "" && (t[0] == '}' <==> keys == []) && (!first ==> Follows(t))
  {
    hide Print, Written;
  }

  /** One field: separator, quoted key, colon, value, the rest. */
  lemma FieldText(v: Json, keys: seq<string>, first: bool, x: string)
    requires v.JObject? && keys != [] && forall k :: k in keys ==> k in v.fields
    ensures PrintFields(v, keys, first) + x ==
            (if first then "" else ",")
            + (Quoted(JsonEscape, keys[0]) + (":" + (Print(v.fields[keys[0]]) + (PrintFields(v, keys[1..], false) + x))))
  {
    hide Print, Quoted;
  }

  lemma {:induction false} FieldsPrefixFree(v: Json, w: Json, k1: seq<string>, k2: seq<string>, first: bool,
                                            x: string, y: string)
    requires v.JObject? && w.JObject? && Finite(v) && Finite(w) && Follows(x) && Follows(y)
    requires (forall k :: k in k1 ==> k in v.fields) && (forall k :: k in k2 ==> k in w.fields)
    requires PrintFields(v, k1, first) + x == PrintFields(w, k2, first) + y
    ensures k1 == k2 && x == y && forall k :: k in k1 ==> v.fields[k] == w.fields[k]
    decreases v, 0, |k1|
  {
    hide Print, Follows, Quoted;
    FieldsFirst(v, k1, first, x);
    FieldsFirst(w, k2, first, y);
    if k1 == [] {
      Cancel("}", x, y);
    } else {
      FieldText(v, k1, first, x);
      FieldText(w, k2, first, y);
      hide PrintFields;
      var r1, r2 := PrintFields(v, k1[1..], false) + x, PrintFields(w, k2[1..], false) + y;
      var t1, t2 := Print(v.fields[k1[0]]) + r1, Print(w.fields[k2[0]]) + r2;
      Cancel(if first then "" else ",", Quoted(JsonEscape, k1[0]) + (":" + t1), Quoted(JsonEscape, k2[0]) + (":" + t2));
      JsonIsCode();
      QuotedPrefixFree(JsonEscape, k1[0], k2[0], ":" + t1, ":" + t2);
      Cancel(":", t1, t2);
      FieldsFirst(v, k1[1..], false, x);
      FieldsFirst(w, k2[1..], false, y);
      PrintPrefixFree(v.fields[k1[0]], w.fields[k2[0]], r1, r2);
      FieldsPrefixFree(v, w, k1[1..], k2[1..], false, x, y);
      assert k1 == [k1[0]] + k1[1..] && k2 == [k2[0]] + k2[1..];
    }
  }

  /** Two finite values print alike exactly when they are equal, whatever order their keys were in. */
  lemma PrintInjective(v: Json, w: Json)
    requires Finite(v) && Finite(w)
    ensures Print(v) == Print(w) <==> v == w
  {
    if Print(v) == Print(w) {
      assert Print(v) + "" == Print(w) + "";
      PrintPrefixFree(v, w, "", "");
    }
  }
}
