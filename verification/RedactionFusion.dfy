/** The four passes as one left-to-right reading of the text: what each place of
    the input becomes, without the texts in between. */
module RedactionFusion {
  import opened Optional
  import opened Redaction
  import opened RedactionNeedles
  import opened RedactionMasks
  import opened RedactionTwice

  // ---- passes 1 and 2 ----

  /** Passes 1 and 2 in one reading. */
  function FirstTwo(s: string): string {
    if s == "" then ""
    else
      match Find(Bearer, s)
      case Some(h) => Masked(Bearer, s, h) + FirstTwo(s[h.end..])
      case None =>
        match Find(UrlUserinfo, s)
        case Some(h) => Masked(UrlUserinfo, s, h) + FirstTwo(s[h.end..])
        case None => [s[0]] + FirstTwo(s[1..])
  }

  lemma FirstTwoStep(s: string)
    ensures s == "" ==> FirstTwo(s) == ""
    ensures Find(Bearer, s).Some? ==>
              var h := Find(Bearer, s).value;
              FirstTwo(s) == s[..h.keep] + (PLACEHOLDER + FirstTwo(s[h.end..]))
    ensures Find(Bearer, s).None? && Find(UrlUserinfo, s).Some? ==>
              var h := Find(UrlUserinfo, s).value;
              FirstTwo(s) == s[..h.keep] + (PLACEHOLDER + "@" + FirstTwo(s[h.end..]))
    ensures s != "" && Find(Bearer, s).None? && Find(UrlUserinfo, s).None? ==>
              FirstTwo(s) == [s[0]] + FirstTwo(s[1..])
  {
    hide Find, FirstTwo, Masked;
    FirstTwoUnfolds(s);
    if s != "" {
      if Find(Bearer, s).Some? {
        var h := Find(Bearer, s).value;
        BearerWritten(s, h, FirstTwo(s[h.end..]));
      } else if Find(UrlUserinfo, s).Some? {
        var h := Find(UrlUserinfo, s).value;
        UrlWritten(s, h, FirstTwo(s[h.end..]));
      }
    }
  }

  lemma FirstTwoUnfolds(s: string)
    ensures s == "" ==> FirstTwo(s) == ""
    ensures s != "" ==>
              FirstTwo(s) ==
              match Find(Bearer, s)
              case Some(h) => Masked(Bearer, s, h) + FirstTwo(s[h.end..])
              case None =>
                match Find(UrlUserinfo, s)
                case Some(h) => Masked(UrlUserinfo, s, h) + FirstTwo(s[h.end..])
                case None => [s[0]] + FirstTwo(s[1..])
  {
    hide Find, Masked;
  }

  lemma BearerWritten(s: string, h: Hit, more: string)
    requires h.keep <= |s|
    ensures Masked(Bearer, s, h) + more == s[..h.keep] + (PLACEHOLDER + more)
  {
    hide Masked;
    MaskedParts(Bearer, s, h, more);
    assert "" + more == more;
  }

  lemma UrlWritten(s: string, h: Hit, more: string)
    requires h.keep <= |s|
    ensures Masked(UrlUserinfo, s, h) + more == s[..h.keep] + (PLACEHOLDER + "@" + more)
  {
    hide Masked;
    MaskedParts(UrlUserinfo, s, h, more);
    assert PLACEHOLDER + ("@" + more) == PLACEHOLDER + "@" + more;
  }

  /** `Bearer`, whitespace and a token: what a match of pass 1 looks like. */
  lemma BearerShape(s: string, h: Hit)
    requires Find(Bearer, s) == Some(h)
    ensures h.keep > 6 && (forall k :: 0 <= k < 6 ==> s[k] == "Bearer"[k])
    ensures forall k :: 6 <= k < h.keep ==> IsSpace(s[k])
  {
    hide RunLen, IsSpace;
    assert s[..6] == "Bearer";
    forall k | 6 <= k < h.keep ensures IsSpace(s[k]) {
      assert In(Space, s[6..][k - 6]);
    }
  }

  lemma NoUrlStart(w: string, t: string)
    requires (forall k :: 0 <= k < |w| ==> w[k] != '/') && t != "" && t[0] == '['
    ensures forall k :: 0 <= k < |w| ==> Find(UrlUserinfo, w[k..] + t).None?
  {
    hide Find;
    var u := w + t;
    forall k | 0 <= k < |w| ensures Find(UrlUserinfo, w[k..] + t).None? {
      NoUrlBefore(u, |w|, k);
      assert u[k..] == w[k..] + t;
    }
  }

  /** Pass 2 leaves masked bearer tokens alone. */
  lemma UrlBehindBearer(s: string, h: Hit, r: string)
    requires Find(Bearer, s) == Some(h)
    ensures Replace(UrlUserinfo, s[..h.keep] + (PLACEHOLDER + r)) == s[..h.keep] + (PLACEHOLDER + Replace(UrlUserinfo, r))
  {
    hide Find, Replace;
    BearerShape(s, h);
    NoUrlStart(s[..h.keep], PLACEHOLDER + r);
    ReplaceBehind(UrlUserinfo, s[..h.keep], PLACEHOLDER + r);
    forall k | 0 <= k < |PLACEHOLDER| ensures Find(UrlUserinfo, PLACEHOLDER[k..] + r).None? {
      NoUrlInPlaceholder(k, r);
    }
    ReplaceBehind(UrlUserinfo, PLACEHOLDER, r);
  }

  /** Pass 1 copies a URL whose userinfo pass 2 masks. */
  lemma BearerBehindUrl(s: string, h: Hit)
    requires Find(UrlUserinfo, s) == Some(h)
    ensures Replace(Bearer, s) == s[..h.end] + Replace(Bearer, s[h.end..])
  {
    hide Find, Replace;
    forall k | 0 <= k < h.end ensures Find(Bearer, s[k..]).None? { NoBearerInUrl(s, h, k); }
    ReplaceCopied(Bearer, s, h.end);
  }

  /** No ASCII whitespace stands in a match of pass 2, and it ends with `@`. */
  lemma UrlHitChars(s: string, h: Hit)
    requires Find(UrlUserinfo, s) == Some(h)
    ensures s[h.end - 1] == '@' && forall k :: 0 <= k < h.end ==> !IsSpace(s[k])
  {
    hide RunLen, UrlHead;
    SchemeShape(s, h.keep);
    forall k | 0 <= k < h.end ensures !IsSpace(s[k]) {
      if k < h.keep - 3 {
        assert In(SchemeChar, s[k]);
      } else if h.keep <= k < h.end - 1 {
        assert In(UserinfoChar, s[h.keep..][k - h.keep]);
      }
    }
  }

  /** One character is enough to tell that no bearer token starts here. */
  lemma NotBearer(t: string, j: nat)
    requires j < |t| && if j < 6 then t[j] == '@' || t[j] == '/' else j == 6 && !IsSpace(t[j])
    ensures Find(Bearer, t).None?
  {
    hide Find, IsSpace;
    if Find(Bearer, t).Some? {
      BearerShape(t, Find(Bearer, t).value);
    }
  }

  lemma NoBearerInUrl(s: string, h: Hit, k: nat)
    requires Find(UrlUserinfo, s) == Some(h) && k < h.end
    ensures Find(Bearer, s[k..]).None?
  {
    hide Find, IsSpace;
    UrlHitChars(s, h);
    var j := if k + 6 < h.end then 6 else h.end - 1 - k;
    assert s[k..][j] == s[k + j];
    NotBearer(s[k..], j);
  }

  /** The userinfo run of a text, and the character after it, survive pass 1. */
  lemma {:induction false} BearerKeepsUserinfo(v: string)
    ensures var m := RunLen(UserinfoChar, v);
            if m == |v| then Replace(Bearer, v) == v
            else m < |Replace(Bearer, v)| && Replace(Bearer, v)[..m + 1] == v[..m + 1]
  {
    hide Find, Replace, Masked;
    ReplaceStep(Bearer, v);
    if v != "" {
      var m := RunLen(UserinfoChar, v);
      match Find(Bearer, v)
      case Some(h) =>
        BearerRun(v, h);
        MaskedParts(Bearer, v, h, Replace(Bearer, v[h.end..]));
        TakeOfConcat(v, h.keep, PLACEHOLDER + ("" + Replace(Bearer, v[h.end..])));
      case None =>
        if m > 0 {
          BearerKeepsUserinfo(v[1..]);
          if m < |v| {
            assert v[..m + 1] == [v[0]] + v[1..][..m];
          } else {
            assert v == [v[0]] + v[1..];
          }
        }
    }
  }

  lemma BearerRun(v: string, h: Hit)
    requires Find(Bearer, v) == Some(h)
    ensures RunLen(UserinfoChar, v) == 6 && RunLen(ValueChar, v) == 6 && h.keep > 6
  {
    hide RunLen, Find;
    BearerShape(v, h);
    RunLenIs(UserinfoChar, v, 6);
    RunLenIs(ValueChar, v, 6);
  }

  /** Pass 1 completes no match of pass 2. */
  lemma NoUrlFromBearer(s: string)
    requires s != "" && Find(Bearer, s).None? && Find(UrlUserinfo, s).None?
    ensures Find(UrlUserinfo, Replace(Bearer, s)).None?
  {
    hide Replace, RunLen, UrlHead, In;
    var out := Replace(Bearer, s);
    if Find(UrlUserinfo, out).Some? {
      var n := Find(UrlUserinfo, out).value.keep;
      SchemeNoBracket(out, n);
      PassLead(Bearer, s, n);
      UrlHeadLocal(s, out, n);
      BearerBehindHead(s, n);
      var v := s[n..];
      assert out[n..] == Replace(Bearer, v);
      BearerKeepsUserinfo(v);
      SameUserinfo(v, out[n..]);
    }
  }

  lemma BearerBehindHead(s: string, n: nat)
    requires UrlHead(s) == Some(n)
    ensures n <= |s| && Replace(Bearer, s) == s[..n] + Replace(Bearer, s[n..])
  {
    hide Replace, UrlHead, Find;
    NoBearerInScheme(s, n);
    ReplaceCopied(Bearer, s, n);
  }

  lemma NoBearerInScheme(s: string, n: nat)
    requires UrlHead(s) == Some(n)
    ensures n <= |s| && forall k :: 0 <= k < n ==> Find(Bearer, s[k..]).None?
  {
    hide Find, UrlHead;
    SchemeShape(s, n);
    forall k | 0 <= k < n ensures Find(Bearer, s[k..]).None? {
      var j := if k + 6 < n then 6 else n - 1 - k;
      assert s[k..][j] == s[k + j];
      if k + j < n - 3 { assert In(SchemeChar, s[k + j]); }
      NotBearer(s[k..], j);
    }
  }

  /** Pass 2 after pass 1 is one reading of the text. */
  lemma {:induction false} TwoPasses(s: string)
    ensures Replace(UrlUserinfo, Replace(Bearer, s)) == FirstTwo(s)
  {
    hide Find, Replace, Masked, FirstTwo;
    FirstTwoStep(s);
    ReplaceStep(Bearer, s);
    if s == "" {
      ReplaceStep(UrlUserinfo, s);
    } else if Find(Bearer, s).Some? {
      var h := Find(Bearer, s).value;
      var more := Replace(Bearer, s[h.end..]);
      TwoPasses(s[h.end..]);
      MaskedParts(Bearer, s, h, more);
      assert "" + more == more;
      UrlBehindBearer(s, h, more);
    } else if Find(UrlUserinfo, s).Some? {
      var h := Find(UrlUserinfo, s).value;
      TwoPasses(s[h.end..]);
      BearerBehindUrl(s, h);
      var out := Replace(Bearer, s);
      TakePrefixOf(s[..h.end], Replace(Bearer, s[h.end..]), h.keep);
      UrlFindLocal(out, s, h);
      MaskedUrlText(out, h);
      assert s[..h.end][..h.keep] == s[..h.keep];
    } else {
      TwoPasses(s[1..]);
      NoUrlFromBearer(s);
      var out := Replace(Bearer, s);
      ReplaceStep(UrlUserinfo, out);
      assert out[0] == s[0] && out[1..] == Replace(Bearer, s[1..]);
    }
  }

  lemma TakePrefixOf(a: string, b: string, n: nat)
    requires n <= |a|
    ensures (a + b)[..|a|] == a && (a + b)[|a|..] == b && (a + b)[..n] == a[..n]
  {
  }

  // ---- pass 3 ----

  /** What a value at the start of a text covers: `len` characters, behind which passes 1 and 2
      have written `after`. */
  datatype Value = Value(len: nat, after: string)

  /** The value that pass 3 finds where `s` starts. It takes masked URLs along, stops in a masked
      bearer token behind the word `Bearer`, and otherwise at the first character that ends values. */
  function ValueOf(s: string): (v: Value)
    ensures v.len <= |s|
  {
    if s == "" then Value(0, "")
    else
      match Find(Bearer, s)
      case Some(h) => assert h.keep > 6 by { BearerShape(s, h); } Value(h.end, s[6..h.keep] + PLACEHOLDER)
      case None =>
        match Find(UrlUserinfo, s)
        case Some(h) => var rest := ValueOf(s[h.end..]); Value(h.end + rest.len, rest.after)
        case None =>
          if In(ValueChar, s[0]) then var rest := ValueOf(s[1..]); Value(1 + rest.len, rest.after)
          else Value(0, "")
  }

  /** A place of the text that passes 1 to 3 rewrite: `keep` characters stay, then come the
      placeholder and `after`, and reading goes on behind `end` characters. */
  datatype Cover = Cover(keep: nat, after: string, end: nat)

  /** The assignment that pass 3 finds where `s` starts. In `FIREWEAVE_KEY://u@h` the name ends in
      the scheme of a URL that pass 2 has masked. */
  function Assigned(s: string): (r: Option<Cover>)
    ensures r.Some? ==> 0 < r.value.keep < r.value.end <= |s|
  {
    match FirstWord(ASSIGNMENT_NAMES, s)
    case None => None
    case Some(name) =>
      assert |name| > 9 by { NameUnderscore(name); }
      var k := |name| - 3;
      var h := Find(UrlUserinfo, s[k..]);
      if h.Some? && h.value.keep == 6 then
        var at := k + h.value.end;
        var v := ValueOf(s[at..]);
        Some(Cover(|name| + 1, v.after, at + v.len))
      else
        match NameTail(s[|name|..])
        case None => None
        case Some(t) =>
          var at := |name| + t;
          var v := ValueOf(s[at..]);
          if v.len == 0 then None else Some(Cover(at, v.after, at + v.len))
  }

  /** What passes 1 to 3 rewrite where `s` starts. */
  function CoverAt(s: string): (r: Option<Cover>)
    ensures r.Some? ==> 0 < r.value.keep < r.value.end <= |s|
  {
    if Assigned(s).Some? then Assigned(s)
    else
      match Find(Bearer, s)
      case Some(h) => Some(Cover(h.keep, "", h.end))
      case None =>
        match Find(UrlUserinfo, s)
        case Some(h) => Some(Cover(h.keep, "@", h.end))
        case None => None
  }

  /** Passes 1 to 3 in one reading. */
  function FirstThree(s: string): string {
    if s == "" then ""
    else
      match CoverAt(s)
      case Some(c) => s[..c.keep] + (PLACEHOLDER + (c.after + FirstThree(s[c.end..])))
      case None => [s[0]] + FirstThree(s[1..])
  }

  /** Passes 1 and 2 keep the first character. */
  lemma FirstTwoFirst(s: string)
    ensures s == "" <==> FirstTwo(s) == ""
    ensures s != "" ==> FirstTwo(s)[0] == s[0]
  {
    hide Find, HeadLen;
    FirstTwoStep(s);
  }

  lemma FirstTwoCopiesOne(s: string, k: nat)
    requires k < |s| && Find(Bearer, s[k..]).None? && Find(UrlUserinfo, s[k..]).None?
    ensures FirstTwo(s[k..]) == [s[k]] + FirstTwo(s[k + 1..])
  {
    hide Find, FirstTwo;
    FirstTwoStep(s[k..]);
    assert s[k..][1..] == s[k + 1..];
  }

  /** Passes 1 and 2 copy the first `n` characters when no match of either starts there. */
  lemma {:induction false} FirstTwoCopied(s: string, n: nat)
    requires n <= |s| && forall k :: 0 <= k < n ==> Find(Bearer, s[k..]).None? && Find(UrlUserinfo, s[k..]).None?
    ensures FirstTwo(s) == s[..n] + FirstTwo(s[n..])
  {
    hide Find, FirstTwo;
    if n == 0 {
      assert s[0..] == s;
    } else {
      FirstTwoCopied(s, n - 1);
      FirstTwoCopiesOne(s, n - 1);
      assert s[..n] == s[..n - 1] + [s[n - 1]];
    }
  }

  /** The text before the first `[` is the same before and after passes 1 and 2. */
  lemma FirstTwoLead(s: string, n: nat)
    requires n <= |FirstTwo(s)| && '[' !in FirstTwo(s)[..n]
    ensures n <= |s| && s[..n] == FirstTwo(s)[..n]
  {
    hide Replace, FirstTwo;
    TwoPasses(s);
    PassLead(UrlUserinfo, Replace(Bearer, s), n);
    PassLead(Bearer, s, n);
  }

  lemma {:induction false} RunOver(cls: CharClass, a: string, t: string)
    requires forall k :: 0 <= k < |a| ==> In(cls, a[k])
    ensures var r := RunLen(cls, t); RunLen(cls, a + t) == |a| + r && (a + t)[|a| + r..] == t[r..]
  {
    hide In;
    if a == "" {
      assert a + t == t;
    } else {
      RunOver(cls, a[1..], t);
      assert (a + t)[1..] == a[1..] + t;
    }
  }

  lemma ValueStep(s: string)
    ensures s == "" ==> ValueOf(s) == Value(0, "")
    ensures Find(Bearer, s).Some? ==>
              var h := Find(Bearer, s).value; h.keep > 6 && ValueOf(s) == Value(h.end, s[6..h.keep] + PLACEHOLDER)
    ensures Find(Bearer, s).None? && Find(UrlUserinfo, s).Some? ==>
              var h := Find(UrlUserinfo, s).value; var rest := ValueOf(s[h.end..]);
              ValueOf(s) == Value(h.end + rest.len, rest.after)
    ensures s != "" && Find(Bearer, s).None? && Find(UrlUserinfo, s).None? ==>
              var rest := ValueOf(s[1..]);
              ValueOf(s) == if In(ValueChar, s[0]) then Value(1 + rest.len, rest.after) else Value(0, "")
  {
    hide Find, In;
    if s != "" && Find(Bearer, s).Some? {
      BearerShape(s, Find(Bearer, s).value);
    }
  }

  /** `out` starts with a run of value characters, and behind it comes what `v` says and then `rest`. */
  predicate ReadsAs(out: string, v: Value, rest: string) {
    var r := RunLen(ValueChar, out);
    out[r..] == v.after + rest && (v.len == 0 <==> r == 0)
  }

  /** The value read from `t` is the run of value characters in the text of passes 1 and 2. */
  predicate ValueReads(t: string) {
    ReadsAs(FirstTwo(t), ValueOf(t), FirstTwo(t[ValueOf(t).len..]))
  }

  /** The value that pass 3 sees is the one `ValueOf` reads from the text itself. */
  lemma {:induction false} ValueRun(t: string)
    ensures ValueReads(t)
  {
    hide Find, FirstTwo, RunLen, In, ValueOf, ValueReads;
    if t == "" {
      NoValue(t);
    } else if Find(Bearer, t).Some? {
      ValueAtBearer(t, Find(Bearer, t).value);
    } else if Find(UrlUserinfo, t).Some? {
      var h := Find(UrlUserinfo, t).value;
      ValueRun(t[h.end..]);
      ValueStep(t);
      FirstTwoStep(t);
      UrlValueChars(t, h);
      ValueBehind(t, h.end, t[..h.keep] + PLACEHOLDER + "@");
    } else if In(ValueChar, t[0]) {
      ValueRun(t[1..]);
      ValueStep(t);
      FirstTwoStep(t);
      ValueBehind(t, 1, [t[0]]);
    } else {
      NoValue(t);
    }
  }

  lemma NoValue(t: string)
    requires t == "" || (Find(Bearer, t).None? && Find(UrlUserinfo, t).None? && !In(ValueChar, t[0]))
    ensures ValueReads(t)
  {
    hide Find, FirstTwo, RunLen, In, ValueOf;
    ValueStep(t);
    FirstTwoFirst(t);
    RunLenIs(ValueChar, FirstTwo(t), 0);
    assert t[0..] == t && FirstTwo(t)[0..] == FirstTwo(t);
  }

  lemma ReadsBehind(a: string, n: nat, out: string, v: Value, rest: string)
    requires ReadsAs(out, v, rest) && a != "" && n > 0 && forall k :: 0 <= k < |a| ==> In(ValueChar, a[k])
    ensures ReadsAs(a + out, Value(n + v.len, v.after), rest)
  {
    hide RunLen, In;
    RunOver(ValueChar, a, out);
  }

  /** `n` characters that become `a`, all of the value, and then the rest of the value. */
  lemma ValueBehind(t: string, n: nat, a: string)
    requires 0 < n <= |t| && ValueReads(t[n..]) && a != "" && forall k :: 0 <= k < |a| ==> In(ValueChar, a[k])
    requires FirstTwo(t) == a + FirstTwo(t[n..])
    requires ValueOf(t) == Value(n + ValueOf(t[n..]).len, ValueOf(t[n..]).after)
    ensures ValueReads(t)
  {
    hide FirstTwo, In, ValueOf, ReadsAs;
    var v := ValueOf(t[n..]);
    DropTwice(t, n, v.len);
    ReadsBehind(a, n, FirstTwo(t[n..]), v, FirstTwo(t[n + v.len..]));
  }

  lemma DropTwice(t: string, n: nat, m: nat)
    requires n + m <= |t|
    ensures t[n..][m..] == t[n + m..]
  {
  }

  lemma ValueAtBearer(t: string, h: Hit)
    requires Find(Bearer, t) == Some(h)
    ensures ValueReads(t)
  {
    hide Find, FirstTwo, RunLen, ValueOf;
    FirstTwoStep(t);
    ValueStep(t);
    BearerShape(t, h);
    var more := FirstTwo(t[h.end..]);
    var out := t[..h.keep] + (PLACEHOLDER + more);
    RunLenIs(ValueChar, out, 6);
    assert out[6..] == t[6..h.keep] + PLACEHOLDER + more;
  }

  lemma UrlValueChars(t: string, h: Hit)
    requires Find(UrlUserinfo, t) == Some(h)
    ensures var a := t[..h.keep] + PLACEHOLDER + "@"; forall k :: 0 <= k < |a| ==> In(ValueChar, a[k])
  {
    hide RunLen, UrlHead;
    SchemeShape(t, h.keep);
    PlaceholderValueChars();
    forall k | 0 <= k < h.keep - 3 ensures In(ValueChar, t[k]) {
      assert In(SchemeChar, t[k]);
    }
  }

  lemma PlaceholderValueChars()
    ensures forall k :: 0 <= k < |PLACEHOLDER| ==> In(ValueChar, PLACEHOLDER[k])
  {
  }

  // ---- names of assignments ----

  lemma WordChars(s: string, w: string)
    requires StartsWith(s, w)
    ensures |w| <= |s| && forall j :: 0 <= j < |w| ==> s[j] == w[j]
  {
    forall j | 0 <= j < |w| ensures s[j] == w[j] {
      assert s[..|w|][j] == s[j];
    }
  }

  lemma NameEnd(w: string)
    requires w in ASSIGNMENT_NAMES
    ensures |w| > 9 && w[|w| - 4] == '_' && w[|w| - 3] == 'K' && w[|w| - 2] == 'E' && w[|w| - 1] == 'Y'
  {
  }

  /** `s` starts with the name `w`, whose last three letters are not the scheme of a URL that pass 2 masks. */
  predicate PlainName(s: string, w: string) {
    && w in ASSIGNMENT_NAMES && StartsWith(s, w)
    && |w| > 3
    && (var h := Find(UrlUserinfo, s[|w| - 3..]); h.Some? ==> h.value.keep != 6)
  }

  lemma NoBearerInName(s: string, w: string, k: nat)
    requires w in ASSIGNMENT_NAMES && StartsWith(s, w) && k < |w|
    ensures Find(Bearer, s[k..]).None?
  {
    hide Find, StartsWith;
    WordChars(s, w);
    NameUnderscore(w);
    NameEnd(w);
    var t := s[k..];
    assert t[0] == w[k] && (k + 1 < |w| ==> t[1] == w[k + 1]);
    if Find(Bearer, t).Some? {
      BearerShape(t, Find(Bearer, t).value);
    }
  }

  /** A URL that starts in a name starts in its last three letters. */
  lemma NoUrlInName(s: string, w: string, k: nat)
    requires w in ASSIGNMENT_NAMES && StartsWith(s, w) && k < |w|
    requires k + 3 >= |w| ==> PlainName(s, w) && |w| < |s| && !In(SchemeChar, s[|w|])
    ensures Find(UrlUserinfo, s[k..]).None?
  {
    hide Find, StartsWith, In;
    WordChars(s, w);
    NameUnderscore(w);
    NameEnd(w);
    var t := s[k..];
    if Find(UrlUserinfo, t).Some? {
      HeadOfHit(t);
      var n := UrlHead(t).value;
      SchemeShape(t, n);
      var c := n - 3;
      assert s[k + c] == t[c];
      var i := if k + 3 < |w| then |w| - 4 - k else |w| - k;
      assert i < c ==> t[i] == s[k + i];
      NotInScheme();
      KeyScheme(s, w, k, n);
    }
  }

  lemma NotInScheme()
    ensures !In(SchemeChar, '_') && !In(SchemeChar, ':')
  {
  }

  lemma KeyHeadIs(u: string)
    requires |u| >= 6 && u[0] == 'K' && u[1] == 'E' && u[2] == 'Y' && u[3] == ':' && u[4] == '/' && u[5] == '/'
    ensures UrlHead(u) == Some(6)
  {
    hide RunLen;
    RunLenIs(SchemeChar, u, 3);
    assert u[3..][..3] == "://";
  }

  /** A URL whose scheme is a part of `KEY` at the end of a name is there with the scheme `KEY` too. */
  lemma KeyScheme(s: string, w: string, k: nat, n: nat)
    requires w in ASSIGNMENT_NAMES && StartsWith(s, w) && |w| > 3 && |w| - 3 <= k < |w| < |s|
    requires Find(UrlUserinfo, s[k..]).Some? && UrlHead(s[k..]) == Some(n) && k + n - 3 == |w|
    ensures var h := Find(UrlUserinfo, s[|w| - 3..]); h.Some? && h.value.keep == 6
  {
    hide RunLen, StartsWith, UrlHead, Find;
    WordChars(s, w);
    NameEnd(w);
    var t, u := s[k..], s[|w| - 3..];
    SchemeShape(t, n);
    assert u[3] == t[n - 3] && u[4] == t[n - 2] && u[5] == t[n - 1];
    KeyHeadIs(u);
    assert u[6..] == t[n..];
    SameUserinfoFound(t, n, u, 6);
  }

  /** Two URLs with the same text behind their heads are both masked or neither. */
  lemma SameUserinfoFound(t: string, n: nat, u: string, m: nat)
    requires UrlHead(t) == Some(n) && UrlHead(u) == Some(m) && t[n..] == u[m..] && Find(UrlUserinfo, t).Some?
    ensures Find(UrlUserinfo, u).Some? && Find(UrlUserinfo, u).value.keep == m
  {
    hide RunLen, UrlHead;
    var r := RunLen(UserinfoChar, t[n..]);
    assert t[n..][r] == t[n + r] && u[m..][r] == u[m + r];
  }

  /** `s` starts with the name `w` and then, up to `n`, whitespace, markers and quotes. */
  predicate HeadText(s: string, w: string, n: nat) {
    && PlainName(s, w) && |w| < n <= |s|
    && forall k :: |w| <= k < n ==> IsSpace(s[k]) || In(Marker, s[k]) || In(Quote, s[k])
  }

  lemma TailChar(c: char)
    requires IsSpace(c) || In(Marker, c) || In(Quote, c)
    ensures !In(SchemeChar, c) && forall p: Pass :: !CanStartHit(p, c)
  {
  }

  /** Passes 1 and 2 copy the head of an assignment. */
  lemma HeadCopied(s: string, w: string, n: nat)
    requires HeadText(s, w, n)
    ensures FirstTwo(s) == s[..n] + FirstTwo(s[n..])
  {
    hide Find, FirstTwo, In, CanStartHit, IsSpace, PlainName;
    assert w in ASSIGNMENT_NAMES && StartsWith(s, w) by { PlainNameIs(s, w); }
    forall k | 0 <= k < n ensures Find(Bearer, s[k..]).None? && Find(UrlUserinfo, s[k..]).None? {
      if k < |w| {
        TailChar(s[|w|]);
        NoBearerInName(s, w, k);
        NoUrlInName(s, w, k);
      } else {
        TailChar(s[k]);
        NoHitAt(Bearer, s, k);
        NoHitAt(UrlUserinfo, s, k);
      }
    }
    FirstTwoCopied(s, n);
  }

  lemma PlainNameIs(s: string, w: string)
    requires PlainName(s, w)
    ensures w in ASSIGNMENT_NAMES && StartsWith(s, w)
  {
  }

  /** A name whose last three letters are the scheme of a URL that pass 2 masks. */
  predicate KeyUrl(s: string, w: string, h: Hit) {
    w in ASSIGNMENT_NAMES && StartsWith(s, w) && |w| > 3 && Find(UrlUserinfo, s[|w| - 3..]) == Some(h) && h.keep == 6
  }

  lemma KeyUrlHead(s: string, w: string, h: Hit)
    requires KeyUrl(s, w, h)
    ensures |w| + 3 < |s| && s[|w|] == ':' && s[|w| + 1] == '/' && s[|w| + 2] == '/'
    ensures AssignmentHead(s) == Some(|w| + 1)
  {
    hide RunLen, Find, FirstWord, NameTail;
    var u := s[|w| - 3..];
    HeadOfHit(u);
    SchemeShape(u, 6);
    assert s[|w|] == u[3] && s[|w| + 1] == u[4] && s[|w| + 2] == u[5];
    NamesPrefixFree();
    FirstWordIs(s, w);
    ColonTail(s[|w|..]);
  }

  lemma FirstWordIs(s: string, w: string)
    requires w in ASSIGNMENT_NAMES && StartsWith(s, w)
    ensures FirstWord(ASSIGNMENT_NAMES, s) == Some(w)
  {
    hide FirstWord;
    NamesPrefixFree();
    var v := FirstWord(ASSIGNMENT_NAMES, s).value;
    PrefixesCompare(s, v, w);
    var a :| 0 <= a < |ASSIGNMENT_NAMES| && ASSIGNMENT_NAMES[a] == v;
    var b :| 0 <= b < |ASSIGNMENT_NAMES| && ASSIGNMENT_NAMES[b] == w;
    assert a < b || b < a || a == b;
  }

  lemma ColonTail(t: string)
    requires |t| > 1 && t[0] == ':' && t[1] == '/'
    ensures NameTail(t) == Some(1)
  {
    hide RunLen;
    RunLenIs(Space, t, 0);
    RunLenIs(Space, t[1..], 0);
  }

  /** `s` starts with the name `w`. */
  predicate Named(s: string, w: string) { w in ASSIGNMENT_NAMES && StartsWith(s, w) && 3 < |w| <= |s| }

  lemma NameQuietAt(s: string, w: string, j: nat)
    requires Named(s, w) && j + 3 < |w|
    ensures Find(Bearer, s[j..]).None? && Find(UrlUserinfo, s[j..]).None?
  {
    hide Find, StartsWith;
    NoBearerInName(s, w, j);
    NoUrlInName(s, w, j);
  }

  /** Passes 1 and 2 copy a name up to its last three letters. */
  lemma NameCopied(s: string, w: string, k: nat)
    requires Named(s, w) && k + 3 == |w| && k <= |s|
    ensures FirstTwo(s) == s[..k] + FirstTwo(s[k..])
  {
    hide *;
    forall j | 0 <= j < k ensures Find(Bearer, s[j..]).None? && Find(UrlUserinfo, s[j..]).None? {
      NameQuietAt(s, w, j);
    }
    FirstTwoCopied(s, k);
  }

  lemma KeyUrlStep(s: string, k: nat, h: Hit)
    requires k <= |s| && Find(UrlUserinfo, s[k..]) == Some(h) && Find(Bearer, s[k..]).None? && h.keep == 6
    ensures k + h.end <= |s| && FirstTwo(s[k..]) == s[k..][..6] + (PLACEHOLDER + "@" + FirstTwo(s[k + h.end..]))
  {
    hide Find, FirstTwo;
    FirstTwoStep(s[k..]);
    DropTwice(s, k, h.end);
  }

  lemma KeyUrlNamed(s: string, w: string, h: Hit)
    requires KeyUrl(s, w, h)
    ensures Named(s, w) && 3 < |w| <= |s| && h.end > 6 && |w| - 3 + h.end <= |s|
  {
    hide Find;
  }

  lemma KeyUrlMasked(s: string, w: string, h: Hit)
    requires KeyUrl(s, w, h)
    ensures FirstTwo(s[|w| - 3..]) == s[|w| - 3..][..6] + (PLACEHOLDER + "@" + FirstTwo(s[|w| - 3 + h.end..]))
  {
    hide Find, FirstTwo;
    NoBearerInName(s, w, |w| - 3);
    KeyUrlStep(s, |w| - 3, h);
  }

  lemma KeyUrlText(s: string, w: string, h: Hit)
    requires KeyUrl(s, w, h)
    ensures var at := |w| - 3 + h.end;
            |w| + 3 < at <= |s| && FirstTwo(s) == s[..|w| + 1] + ("//" + PLACEHOLDER + "@" + FirstTwo(s[at..]))
  {
    hide *;
    KeyUrlHead(s, w, h);
    KeyUrlNamed(s, w, h);
    NameCopied(s, w, |w| - 3);
    KeyUrlMasked(s, w, h);
    JoinParts(s, |w| - 3, FirstTwo(s), FirstTwo(s[|w| - 3..]), FirstTwo(s[|w| - 3 + h.end..]));
  }

  lemma JoinParts(s: string, k: nat, f: string, g: string, more: string)
    requires k + 6 <= |s| && s[k + 4] == '/' && s[k + 5] == '/'
    requires f == s[..k] + g && g == s[k..][..6] + (PLACEHOLDER + "@" + more)
    ensures f == s[..k + 4] + ("//" + PLACEHOLDER + "@" + more)
  {
    assert s[..k + 4] + "//" == s[..k] + s[k..][..6];
  }

  // ---- assignments ----

  /** The text of passes 1 and 2 at an assignment: the head, and behind it the value and then what follows it. */
  predicate AssignedReads(s: string, c: Cover, u: string) {
    && c.keep < c.end <= |s| && AssignmentHead(s) == Some(c.keep)
    && FirstTwo(s) == s[..c.keep] + u
    && (var r := RunLen(ValueChar, u); r > 0 && u[r..] == c.after + FirstTwo(s[c.end..]))
  }

  lemma AssignedText(s: string, c: Cover) returns (u: string)
    requires Assigned(s) == Some(c)
    ensures AssignedReads(s, c, u)
  {
    hide Find, FirstTwo, RunLen, In, FirstWord, NameTail, ValueOf, StartsWith;
    var w := FirstWord(ASSIGNMENT_NAMES, s).value;
    NameUnderscore(w);
    var h := Find(UrlUserinfo, s[|w| - 3..]);
    if h.Some? && h.value.keep == 6 {
      u := AssignedAtUrl(s, w, h.value);
    } else {
      u := AssignedAtTail(s, w, NameTail(s[|w|..]).value);
    }
  }

  lemma AssignedAtUrl(s: string, w: string, h: Hit) returns (u: string)
    requires KeyUrl(s, w, h)
    ensures |w| - 3 + h.end <= |s|
    ensures var at := |w| - 3 + h.end; var v := ValueOf(s[at..]);
            AssignedReads(s, Cover(|w| + 1, v.after, at + v.len), u)
  {
    hide Find, FirstTwo, RunLen, In, AssignmentHead, ValueOf, KeyUrl;
    KeyUrlText(s, w, h);
    KeyUrlHead(s, w, h);
    var at := |w| - 3 + h.end;
    ValueRun(s[at..]);
    var a := "//" + PLACEHOLDER + "@";
    UrlTailValueChars();
    u := a + FirstTwo(s[at..]);
    RunOver(ValueChar, a, FirstTwo(s[at..]));
    var v := ValueOf(s[at..]);
    assert s[at..][v.len..] == s[at + v.len..];
  }

  lemma UrlTailValueChars()
    ensures var a := "//" + PLACEHOLDER + "@"; forall k :: 0 <= k < |a| ==> In(ValueChar, a[k])
  {
  }

  lemma AssignedAtTail(s: string, w: string, t: nat) returns (u: string)
    requires PlainName(s, w) && NameTail(s[|w|..]) == Some(t) && ValueOf(s[|w| + t..]).len > 0
    ensures var at := |w| + t; var v := ValueOf(s[at..]);
            AssignedReads(s, Cover(at, v.after, at + v.len), u)
  {
    hide Find, FirstTwo, RunLen, In, NameTail, ValueOf, FirstWord, PlainName;
    PlainNameIs(s, w);
    FirstWordIs(s, w);
    var at := |w| + t;
    TailText(s, w, t);
    HeadCopied(s, w, at);
    u := FirstTwo(s[at..]);
    ValueRun(s[at..]);
    var v := ValueOf(s[at..]);
    assert s[at..][v.len..] == s[at + v.len..];
  }

  lemma TailText(s: string, w: string, t: nat)
    requires PlainName(s, w) && NameTail(s[|w|..]) == Some(t)
    ensures HeadText(s, w, |w| + t)
  {
    hide NameTail, In, PlainName, IsSpace;
    PlainNameIs(s, w);
    NameTailChars(s[|w|..], t);
    forall k | |w| <= k < |w| + t ensures IsSpace(s[k]) || In(Marker, s[k]) || In(Quote, s[k]) {
      assert s[|w|..][k - |w|] == s[k];
    }
  }

  /** What passes 1 and 2 write behind a value: nothing, or whitespace and a placeholder. */
  lemma {:induction false} AfterChars(t: string)
    ensures var a := ValueOf(t).after; forall k :: 0 <= k < |a| ==> IsSpace(a[k]) || a[k] in PLACEHOLDER
    ensures var a := ValueOf(t).after; a != "" ==> IsSpace(a[0])
    ensures var v := ValueOf(t); v.after == "" && v.len < |t| ==> !In(ValueChar, t[v.len]) && CoverFree(t[v.len..])
  {
    hide Find, ValueOf, In, IsSpace;
    ValueStep(t);
    if t == "" {
    } else if Find(Bearer, t).Some? {
      BearerShape(t, Find(Bearer, t).value);
    } else if Find(UrlUserinfo, t).Some? {
      var h := Find(UrlUserinfo, t).value;
      AfterChars(t[h.end..]);
      assert t[h.end..][ValueOf(t[h.end..]).len..] == t[ValueOf(t).len..];
    } else if In(ValueChar, t[0]) {
      AfterChars(t[1..]);
      assert t[1..][ValueOf(t[1..]).len..] == t[ValueOf(t).len..];
    } else {
      assert t[0..] == t;
    }
  }

  predicate CoverFree(t: string) { Find(Bearer, t).None? && Find(UrlUserinfo, t).None? }

  /** Pass 3 copies what stands behind a value. */
  lemma AfterCopied(p: Pass, t: string, u: string)
    requires p == Assignment || p == KeyValue
    ensures Replace(p, ValueOf(t).after + u) == ValueOf(t).after + Replace(p, u)
  {
    hide Find, Replace, ValueOf, IsSpace;
    var a := ValueOf(t).after;
    AfterChars(t);
    forall k | 0 <= k < |a| ensures Find(p, a[k..] + u).None? {
      var z := a[k..] + u;
      assert z[0] == a[k];
      NoStartAfter(a[k]);
      if Find(p, z).Some? { HitStart(p, z); }
    }
    ReplaceBehind(p, a, u);
  }

  lemma NoStartAfter(c: char)
    requires IsSpace(c) || c in PLACEHOLDER || c == '@'
    ensures !CanStartHit(Assignment, c) && !CanStartHit(KeyValue, c)
  {
  }

  /** Pass 3 masks the value of an assignment and nothing else of it. */
  lemma AssignedPass(s: string, c: Cover)
    requires Assigned(s) == Some(c)
    ensures Replace(Assignment, FirstTwo(s))
         == s[..c.keep] + (PLACEHOLDER + (c.after + Replace(Assignment, FirstTwo(s[c.end..]))))
  {
    hide Find, FirstTwo, RunLen, Replace, AssignmentHead, ValueOf, Assigned, AssignedReads;
    var u := AssignedText(s, c);
    var out := FirstTwo(s);
    AssignedHit(s, c, u);
    var r := RunLen(ValueChar, u);
    ReplaceStep(Assignment, out);
    assert out[c.keep + r..] == u[r..];
    var more := Replace(Assignment, out[c.keep + r..]);
    MaskedParts(Assignment, out, Hit(c.keep, c.keep + r), more);
    assert "" + more == more;
    AssignedAfter(s, c, FirstTwo(s[c.end..]));
  }

  lemma AssignedHit(s: string, c: Cover, u: string)
    requires AssignedReads(s, c, u)
    ensures var out, r := FirstTwo(s), RunLen(ValueChar, u);
            Find(Assignment, out) == Some(Hit(c.keep, c.keep + r)) && c.keep + r <= |out|
            && out[..c.keep] == s[..c.keep] && out[c.keep..] == u && out[c.keep + r..] == u[r..]
            && FirstTwo(s) == s[..c.keep] + u && u[r..] == c.after + FirstTwo(s[c.end..])
  {
    hide FirstTwo, RunLen, AssignmentHead;
    var out, r := FirstTwo(s), RunLen(ValueChar, u);
    assert out[c.keep..] == u && out[c.keep] == u[0] && In(ValueChar, u[0]);
    AssignmentHeadLocal(out, s, c.keep);
  }

  lemma AssignedAfter(s: string, c: Cover, u: string)
    requires Assigned(s) == Some(c)
    ensures Replace(Assignment, c.after + u) == c.after + Replace(Assignment, u)
    ensures Replace(KeyValue, c.after + u) == c.after + Replace(KeyValue, u)
  {
    hide Find, Replace, ValueOf, RunLen, FirstWord, NameTail;
    var w := FirstWord(ASSIGNMENT_NAMES, s).value;
    NameUnderscore(w);
    var h := Find(UrlUserinfo, s[|w| - 3..]);
    var at := if h.Some? && h.value.keep == 6 then |w| - 3 + h.value.end else |w| + NameTail(s[|w|..]).value;
    AfterCopied(Assignment, s[at..], u);
    AfterCopied(KeyValue, s[at..], u);
  }

  lemma BearerUnassigned(s: string, h: Hit, more: string)
    requires Find(Bearer, s) == Some(h)
    ensures Replace(Assignment, s[..h.keep] + (PLACEHOLDER + more)) == s[..h.keep] + (PLACEHOLDER + Replace(Assignment, more))
  {
    hide Find, Replace, CanStartHit;
    BearerShape(s, h);
    var w := s[..h.keep] + PLACEHOLDER;
    forall k | 0 <= k < |w| ensures !CanStartHit(Assignment, w[k]) { NoNameChar(w[k]); }
    UnstartedCopied(Assignment, w, more);
    assert w + more == s[..h.keep] + (PLACEHOLDER + more);
  }

  lemma NoNameChar(c: char)
    requires c in "Bearer" || IsSpace(c) || c in PLACEHOLDER
    ensures !CanStartHit(Assignment, c)
  {
  }

  lemma UrlUnassigned(s: string, h: Hit, more: string)
    requires Find(UrlUserinfo, s) == Some(h)
    ensures Replace(Assignment, s[..h.keep] + (PLACEHOLDER + "@" + more))
         == s[..h.keep] + (PLACEHOLDER + "@" + Replace(Assignment, more))
  {
    hide Find, Replace, CanStartHit, UrlHead;
    HeadOfHit(s);
    var n := h.keep;
    assert UrlHead(s) == Some(n) by { UrlHitShape(s, h); }
    var t := PLACEHOLDER + "@" + more;
    forall k | 0 <= k < n ensures Find(Assignment, s[..n][k..] + t).None? {
      assert s[..n][k..] == s[k..n];
      NoNameAt(s, n, k, s[k..n] + t);
      NoNameNoHit(s[k..n] + t);
    }
    ReplaceBehind(Assignment, s[..n], t);
    var w := PLACEHOLDER + "@";
    forall k | 0 <= k < |w| ensures !CanStartHit(Assignment, w[k]) { NoStartAfter(w[k]); }
    UnstartedCopied(Assignment, w, more);
  }

  lemma NoNameNoHit(t: string)
    requires FirstWord(ASSIGNMENT_NAMES, t).None?
    ensures Find(Assignment, t).None?
  {
    hide FirstWord;
  }

  /** Where no assignment is read, pass 3 finds none in the text of passes 1 and 2. */
  lemma NothingAssigned(s: string)
    requires s != "" && Assigned(s).None?
    ensures Find(Assignment, FirstTwo(s)).None?
  {
    hide Find, FirstTwo, RunLen, AssignmentHead, Assigned;
    if Find(Assignment, FirstTwo(s)).Some? {
      var n := ValueAt(FirstTwo(s));
      AssignmentBack(s, n);
    }
  }

  lemma AssignmentBack(s: string, n: nat)
    requires AssignmentHead(FirstTwo(s)) == Some(n) && n < |FirstTwo(s)| && In(ValueChar, FirstTwo(s)[n])
    ensures Assigned(s).Some?
  {
    hide Find, FirstTwo, RunLen, In, ValueOf, NameTail, FirstWord;
    var out := FirstTwo(s);
    var w := FirstWord(ASSIGNMENT_NAMES, out).value;
    AssignmentHeadChars(out, n);
    FirstTwoLead(s, n);
    TakePrefix(s, out, n, |w|);
    FirstWordIs(s, w);
    NameUnderscore(w);
    var h := Find(UrlUserinfo, s[|w| - 3..]);
    if !(h.Some? && h.value.keep == 6) {
      TailBack(s, w, n);
    }
  }

  lemma TailBack(s: string, w: string, n: nat)
    requires PlainName(s, w) && AssignmentHead(FirstTwo(s)) == Some(n) && FirstWord(ASSIGNMENT_NAMES, FirstTwo(s)) == Some(w)
    requires n <= |s| && s[..n] == FirstTwo(s)[..n]
    requires n < |FirstTwo(s)| && In(ValueChar, FirstTwo(s)[n])
    ensures |w| < n && NameTail(s[|w|..]) == Some(n - |w|) && ValueOf(s[n..]).len > 0
  {
    hide Find, FirstTwo, RunLen, In, ValueOf, NameTail, FirstWord, IsSpace, PlainName;
    PlainNameIs(s, w);
    var out := FirstTwo(s);
    var t := out[|w|..];
    NameTailChars(t, n - |w|);
    forall k | |w| <= k < n ensures IsSpace(s[k]) || In(Marker, s[k]) || In(Quote, s[k]) {
      SameAt(s, out, n, k);
      assert t[k - |w|] == out[k];
    }
    HeadCopied(s, w, n);
    FirstTwoFirst(s[n..]);
    assert out[n..] == FirstTwo(s[n..]);
    assert out[n..][0] == out[n] && s[n..][0] == s[n];
    ValueNotTail(s[n]);
    TailPrefix(s, out, n, |w|);
    assert s[|w|..][n - |w|] == s[n];
    NameTailLocal(s[|w|..], t, n - |w|);
    ValueRun(s[n..]);
    RunAtLeastOne(ValueChar, out[n..]);
  }

  lemma ValueNotTail(c: char)
    requires In(ValueChar, c)
    ensures !IsSpace(c) && !In(Quote, c)
  {
  }

  lemma RunAtLeastOne(cls: CharClass, t: string)
    ensures RunLen(cls, t) > 0 <==> t != "" && In(cls, t[0])
  {
  }

  lemma FirstThreeStep(s: string)
    ensures s == "" ==> FirstThree(s) == ""
    ensures s != "" && CoverAt(s).Some? ==>
              var c := CoverAt(s).value;
              FirstThree(s) == s[..c.keep] + (PLACEHOLDER + (c.after + FirstThree(s[c.end..])))
    ensures s != "" && CoverAt(s).None? ==> FirstThree(s) == [s[0]] + FirstThree(s[1..])
  {
    hide CoverAt;
  }

  /** Pass 3 after passes 1 and 2 is one reading of the text. */
  lemma {:induction false} ThreePasses(s: string)
    ensures Replace(Assignment, FirstTwo(s)) == FirstThree(s)
  {
    hide Find, Replace, FirstTwo, FirstThree, Assigned;
    FirstThreeStep(s);
    FirstTwoStep(s);
    if s == "" {
      ReplaceStep(Assignment, s);
    } else if Assigned(s).Some? {
      var c := Assigned(s).value;
      AssignedPass(s, c);
      ThreePasses(s[c.end..]);
    } else if Find(Bearer, s).Some? {
      var h := Find(Bearer, s).value;
      ThreePasses(s[h.end..]);
      BearerUnassigned(s, h, FirstTwo(s[h.end..]));
      assert "" + FirstThree(s[h.end..]) == FirstThree(s[h.end..]);
    } else if Find(UrlUserinfo, s).Some? {
      var h := Find(UrlUserinfo, s).value;
      ThreePasses(s[h.end..]);
      UrlUnassigned(s, h, FirstTwo(s[h.end..]));
      assert PLACEHOLDER + ("@" + FirstThree(s[h.end..])) == PLACEHOLDER + "@" + FirstThree(s[h.end..]);
    } else {
      ThreePasses(s[1..]);
      NothingAssigned(s);
      ReplaceStep(Assignment, FirstTwo(s));
      assert FirstTwo(s)[1..] == FirstTwo(s[1..]);
    }
  }
}
