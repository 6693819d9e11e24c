/** Quoting and hexadecimal: the escapes of JSON strings (section 7 of RFC 8259) and of
    Go's quoted strings, both shown to be prefix codes. */
module CanonicalText {
  function HexDigit(n: nat): char
    requires n < 16
  {
    if n < 10 then ('0' as int + n) as char else ('a' as int + (n - 10)) as char
  }

  /** The last `k` hexadecimal digits of `n`. */
  function Hex(n: nat, k: nat): (r: string)
    ensures |r| == k
  {
    if k == 0 then "" else Hex(n / 16, k - 1) + [HexDigit(n % 16)]
  }

  function Pow16(k: nat): nat { if k == 0 then 1 else 16 * Pow16(k - 1) }

  lemma {:induction false} HexInjective(m: nat, n: nat, k: nat)
    requires m < Pow16(k) && n < Pow16(k) && Hex(m, k) == Hex(n, k)
    ensures m == n
  {
    if k > 0 {
      var a, b := Hex(m, k), Hex(n, k);
      assert a[k - 1] == HexDigit(m % 16) && b[k - 1] == HexDigit(n % 16);
      assert a[..k - 1] == Hex(m / 16, k - 1) && b[..k - 1] == Hex(n / 16, k - 1);
      HexInjective(m / 16, n / 16, k - 1);
    }
  }

  /** `e` writes characters so that a text of written characters can be read back from the left,
      and none of them looks like a closing quote. */
  ghost predicate PrefixCode(e: char -> string) {
    && (forall c :: e(c) != "" && e(c)[0] != '"')
    && (forall c, d, x, y :: e(c) + x == e(d) + y ==> c == d)
  }

  function Written(e: char -> string, s: string): string {
    if s == "" then "" else e(s[0]) + Written(e, s[1..])
  }

  function Quoted(e: char -> string, s: string): string { "\"" + Written(e, s) + "\"" }

  lemma Cancel(a: string, x: string, y: string)
    requires a + x == a + y
    ensures x == y
  {
    assert (a + x)[|a|..] == x && (a + y)[|a|..] == y;
  }

  lemma Regroup(a: string, b: string, c: string)
    ensures a + (b + c) == a + b + c && "" + a == a && a + "" == a
  {
  }

  lemma CodeStep(e: char -> string, c: char, d: char, x: string, y: string)
    requires PrefixCode(e) && e(c) + x == e(d) + y
    ensures c == d && x == y
  {
    Cancel(e(c), x, y);
  }

  lemma QuoteEnds(e: char -> string, c: char, x: string, y: string)
    requires PrefixCode(e)
    ensures e(c) + x != "\"" + y
  {
    assert (e(c) + x)[0] == e(c)[0];
  }

  lemma {:induction false} WrittenPrefixFree(e: char -> string, s: string, t: string, x: string, y: string)
    requires PrefixCode(e) && Written(e, s) + ("\"" + x) == Written(e, t) + ("\"" + y)
    ensures s == t && x == y
  {
    hide PrefixCode;
    if s == "" && t == "" {
      assert "" + ("\"" + x) == "\"" + x && "" + ("\"" + y) == "\"" + y;
      Cancel("\"", x, y);
    } else if s == "" {
      var rest := Written(e, t[1..]) + ("\"" + y);
      assert Written(e, t) + ("\"" + y) == e(t[0]) + rest;
      QuoteEnds(e, t[0], rest, x);
      assert false;
    } else if t == "" {
      var rest := Written(e, s[1..]) + ("\"" + x);
      assert Written(e, s) + ("\"" + x) == e(s[0]) + rest;
      QuoteEnds(e, s[0], rest, y);
      assert false;
    } else {
      var r1, r2 := Written(e, s[1..]) + ("\"" + x), Written(e, t[1..]) + ("\"" + y);
      assert Written(e, s) + ("\"" + x) == e(s[0]) + r1 && Written(e, t) + ("\"" + y) == e(t[0]) + r2;
      CodeStep(e, s[0], t[0], r1, r2);
      WrittenPrefixFree(e, s[1..], t[1..], x, y);
      assert s == [s[0]] + s[1..] && t == [t[0]] + t[1..];
    }
  }

  /** A quoted text in front of anything determines the text and what follows. */
  lemma QuotedPrefixFree(e: char -> string, s: string, t: string, x: string, y: string)
    requires PrefixCode(e) && Quoted(e, s) + x == Quoted(e, t) + y
    ensures s == t && x == y
  {
    hide PrefixCode;
    var r1, r2 := Written(e, s) + ("\"" + x), Written(e, t) + ("\"" + y);
    assert Quoted(e, s) + x == "\"" + r1 && Quoted(e, t) + y == "\"" + r2;
    Cancel("\"", r1, r2);
    WrittenPrefixFree(e, s, t, x, y);
  }

  // ---- JSON ----

  /** The letter after the backslash, for characters that have a short escape. */
  function JsonLetter(c: char): (r: char)
    requires c in "\"\\\U{08}\U{0C}\n\r\t"
  {
    match c
    case '"' => '"'
    case '\\' => '\\'
    case '\U{08}' => 'b'
    case '\U{0C}' => 'f'
    case '\n' => 'n'
    case '\r' => 'r'
    case _ => 't'
  }

  function JsonEscape(c: char): string {
    if c in "\"\\\U{08}\U{0C}\n\r\t" then ['\\', JsonLetter(c)]
    else if c < ' ' then "\\u" + Hex(c as int, 4)
    else [c]
  }

  /** A long escape: a backslash, a letter of its own, a fixed number of digits. */
  lemma LongEscape(letter: char, m: nat, n: nat, k: nat, x: string, y: string)
    requires m < Pow16(k) && n < Pow16(k) && (['\\', letter] + Hex(m, k)) + x == (['\\', letter] + Hex(n, k)) + y
    ensures m == n
  {
    var a, b := (['\\', letter] + Hex(m, k)) + x, (['\\', letter] + Hex(n, k)) + y;
    assert a[2..k + 2] == Hex(m, k) && b[2..k + 2] == Hex(n, k);
    HexInjective(m, n, k);
  }

  lemma JsonShape(c: char, x: string)
    ensures var t := JsonEscape(c) + x;
            && t != ""
            && (t[0] == '\\' <==> c in "\"\\\U{08}\U{0C}\n\r\t" || c < ' ')
            && (t[0] != '\\' ==> t[0] == c)
            && (t[0] == '\\' ==> |t| > 1 && (t[1] == 'u' <==> c !in "\"\\\U{08}\U{0C}\n\r\t"))
            && (c in "\"\\\U{08}\U{0C}\n\r\t" ==> t[1] == JsonLetter(c))
            && t[0] != '"'
  {
    hide Hex;
  }

  lemma JsonLetterInjective(c: char, d: char)
    requires c in "\"\\\U{08}\U{0C}\n\r\t" && d in "\"\\\U{08}\U{0C}\n\r\t" && JsonLetter(c) == JsonLetter(d)
    ensures c == d
  {
  }

  lemma JsonStep(c: char, d: char, x: string, y: string)
    requires JsonEscape(c) + x == JsonEscape(d) + y
    ensures c == d
  {
    hide JsonLetter, Hex, Pow16;
    JsonShape(c, x);
    JsonShape(d, y);
    var t := JsonEscape(c) + x;
    if t[0] == '\\' {
      if t[1] == 'u' {
        SmallCode(c, d);
        LongEscape('u', c as int, d as int, 4, x, y);
      } else {
        JsonLetterInjective(c, d);
      }
    }
  }

  lemma SmallCode(c: char, d: char)
    requires c < ' ' && d < ' '
    ensures c as int < Pow16(4) && d as int < Pow16(4)
  {
  }

  lemma JsonIsCode()
    ensures PrefixCode(JsonEscape)
  {
    hide JsonEscape;
    forall c ensures JsonEscape(c) != "" && JsonEscape(c)[0] != '"' {
      JsonShape(c, "");
      assert JsonEscape(c) + "" == JsonEscape(c);
    }
    forall c, d, x, y | JsonEscape(c) + x == JsonEscape(d) + y ensures c == d { JsonStep(c, d, x, y); }
  }

  // ---- Go's strconv.Quote ----

  const GO_SHORT := "\U{07}\U{08}\U{0C}\n\r\t\U{0B}"

  function GoLetter(c: char): char
    requires c in GO_SHORT
  {
    match c
    case '\U{07}' => 'a'
    case '\U{08}' => 'b'
    case '\U{0C}' => 'f'
    case '\n' => 'n'
    case '\r' => 'r'
    case '\t' => 't'
    case _ => 'v'
  }

  /** `printable` is the Unicode table the standard library consults. */
  function GoEscape(printable: char -> bool, c: char): string {
    if c == '"' || c == '\\' then ['\\', c]
    else if printable(c) then [c]
    else if c in GO_SHORT then ['\\', GoLetter(c)]
    else if c < ' ' || c == '\U{7f}' then "\\x" + Hex(c as int, 2)
    else if c as int < 0x10000 then "\\u" + Hex(c as int, 4)
    else "\\U" + Hex(c as int, 8)
  }

  /** Which escape form a character gets, read off the letter after the backslash. */
  datatype Form = Plain | Short(letter: char) | Long(letter: char, digits: nat)

  function GoForm(printable: char -> bool, c: char): (f: Form)
    ensures f.Short? ==> f.letter !in "xuU"
    ensures f.Long? ==> f.letter in "xuU" && f.digits == (if f.letter == 'x' then 2 else if f.letter == 'u' then 4 else 8)
    ensures f.Long? ==> c as int < Pow16(f.digits)
  {
    if c == '"' || c == '\\' then Short(c)
    else if printable(c) then Plain
    else if c in GO_SHORT then Short(GoLetter(c))
    else if c < ' ' || c == '\U{7f}' then CodeFits(c); Long('x', 2)
    else if c as int < 0x10000 then CodeFits(c); Long('u', 4)
    else CodeFits(c); Long('U', 8)
  }

  lemma CodeFits(c: char)
    ensures c as int < 128 ==> c as int < Pow16(2)
    ensures c as int < 0x10000 ==> c as int < Pow16(4)
    ensures c as int < Pow16(8)
  {
    assert Pow16(2) == 256;
    assert Pow16(4) == 256 * Pow16(2);
    assert Pow16(6) == 256 * Pow16(4);
    assert Pow16(8) == 256 * Pow16(6);
  }

  lemma GoShape(printable: char -> bool, c: char, x: string)
    ensures var t, f := GoEscape(printable, c) + x, GoForm(printable, c);
            && t != "" && t[0] != '"'
            && (f.Plain? ==> t[0] == c && c != '\\')
            && (!f.Plain? ==> |t| > 1 && t[0] == '\\' && t[1] == f.letter)
            && (f.Long? ==> GoEscape(printable, c) == ['\\', f.letter] + Hex(c as int, f.digits))
  {
    hide Hex, GoLetter;
  }

  lemma GoShortInjective(printable: char -> bool, c: char, d: char)
    requires GoForm(printable, c).Short? && GoForm(printable, d) == GoForm(printable, c)
    ensures c == d
  {
    hide Pow16;
  }

  lemma GoStep(printable: char -> bool, c: char, d: char, x: string, y: string)
    requires GoEscape(printable, c) + x == GoEscape(printable, d) + y
    ensures c == d
  {
    hide GoEscape, GoForm, Hex, Pow16;
    GoShape(printable, c, x);
    GoShape(printable, d, y);
    var f := GoForm(printable, c);
    match f
    case Plain =>
    case Short(_) => GoShortInjective(printable, c, d);
    case Long(letter, digits) => LongEscape(letter, c as int, d as int, digits, x, y);
  }

  lemma GoIsCode(printable: char -> bool)
    ensures PrefixCode(c => GoEscape(printable, c))
  {
    hide GoEscape, GoForm;
    var e := c => GoEscape(printable, c);
    forall c ensures e(c) != "" && e(c)[0] != '"' {
      GoShape(printable, c, "");
      assert e(c) + "" == e(c);
    }
    forall c, d, x, y | e(c) + x == e(d) + y ensures c == d { GoStep(printable, c, d, x, y); }
  }
}
