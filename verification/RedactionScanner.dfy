/** The hand-written scanner itself: one loop over the text, four matchers, and
    the whitespace collapse, each proved to compute what `Redaction` says. */
module RedactionScanner {
  import opened Optional
  import opened Redaction
  import opened RedactionRegex

  // ---- pass 2, anchored at the separator ----

  /** `before` ends in a scheme: scheme characters, back to a letter. */
  predicate SchemeEnds(before: string) {
    before != "" && (
      var c := before[|before| - 1];
      In(SchemeChar, c) && (In(Letter, c) || SchemeEnds(before[..|before| - 1])))
  }

  /** `://userinfo@` at the start of `rest`. */
  function UserinfoAt(rest: string): (r: Option<nat>)
    ensures r.Some? ==> 0 < r.value <= |rest|
  {
    if !StartsWith(rest, "://") then None
    else
      var n := RunLen(UserinfoChar, rest[3..]);
      if n > 0 && 3 + n < |rest| && rest[3 + n] == '@' then Some(4 + n) else None
  }

  function AnchoredHit(before: string, rest: string): (r: Option<nat>)
    ensures r.Some? ==> 0 < r.value <= |rest|
  {
    if SchemeEnds(before) then UserinfoAt(rest) else None
  }

  /** What a matcher answers: how much it consumes and what it writes instead. */
  function Answer(p: Pass, before: string, rest: string): (r: Option<(nat, string)>)
    ensures r.Some? ==> 0 < r.value.0 <= |rest|
  {
    if p == UrlUserinfo then
      match AnchoredHit(before, rest)
      case None => None
      case Some(len) => Some((len, "://" + PLACEHOLDER + "@"))
    else
      match Find(p, rest)
      case None => None
      case Some(h) => Some((h.end, Masked(p, rest, h)))
  }

  function ScanFrom(p: Pass, text: string, i: nat): string
    requires i <= |text|
    decreases |text| - i
  {
    if i == |text| then ""
    else
      match Answer(p, text[..i], text[i..])
      case Some((len, replacement)) => replacement + ScanFrom(p, text, i + len)
      case None => [text[i]] + ScanFrom(p, text, i + 1)
  }

  lemma ScanStep(p: Pass, text: string, i: nat)
    requires i < |text|
    ensures ScanFrom(p, text, i) ==
            match Answer(p, text[..i], text[i..])
            case Some((len, replacement)) => replacement + ScanFrom(p, text, i + len)
            case None => [text[i]] + ScanFrom(p, text, i + 1)
  {
  }

  // ---- the anchored search equals the forward one ----

  /** The scheme running through position `i` is followed by no userinfo. */
  predicate Dead(text: string, i: nat)
    requires i <= |text|
  {
    UserinfoAt(text[i + RunLen(SchemeChar, text[i..])..]).None?
  }

  /** At a letter the forward pass looks at the userinfo behind the scheme run. */
  lemma FindByUserinfo(s: string)
    requires s != ""
    ensures !In(Letter, s[0]) ==> Find(UrlUserinfo, s).None?
    ensures In(Letter, s[0]) ==>
              var m := RunLen(SchemeChar, s);
              match UserinfoAt(s[m..])
              case None => Find(UrlUserinfo, s).None?
              case Some(len) => Find(UrlUserinfo, s) == Some(Hit(m + 3, m + len))
  {
    hide RunLen;
    var m := RunLen(SchemeChar, s);
    if StartsWith(s[m..], "://") {
      assert s[m..][3..] == s[m + 3..];
    }
  }

  lemma SchemeEndsStep(text: string, i: nat)
    requires i < |text|
    ensures SchemeEnds(text[..i + 1]) <==>
            In(SchemeChar, text[i]) && (In(Letter, text[i]) || SchemeEnds(text[..i]))
  {
    assert text[..i + 1][..i] == text[..i];
  }

  lemma DeadStep(text: string, i: nat)
    requires i < |text| && In(SchemeChar, text[i])
    ensures Dead(text, i + 1) == Dead(text, i)
  {
    hide UserinfoAt, In, RunLen;
    RunStep(SchemeChar, text, i);
  }

  lemma CopyOne(text: string, k: nat)
    requires k < |text| && In(SchemeChar, text[k])
    ensures ScanFrom(UrlUserinfo, text, k) == [text[k]] + ScanFrom(UrlUserinfo, text, k + 1)
  {
    hide ScanFrom, UserinfoAt, In;
    NotSeparator(text[k..]);
    ScanStep(UrlUserinfo, text, k);
  }

  /** A scheme is copied whole: no separator starts inside it. */
  lemma {:induction false} CopyScheme(text: string, i: nat, m: nat)
    requires i + m <= |text| && forall k :: i <= k < i + m ==> In(SchemeChar, text[k])
    ensures ScanFrom(UrlUserinfo, text, i) == text[i..i + m] + ScanFrom(UrlUserinfo, text, i + m)
    ensures m > 0 && In(Letter, text[i]) ==> SchemeEnds(text[..i + m])
    decreases m
  {
    hide *;
    if m > 0 {
      var k := i + m - 1;
      CopyScheme(text, i, m - 1);
      CopyOne(text, k);
      SchemeEndsStep(text, k);
      assert text[i..i + m] == text[i..k] + [text[k]];
    }
  }

  lemma ScanSeparator(text: string, k: nat)
    requires k < |text| && SchemeEnds(text[..k]) && UserinfoAt(text[k..]).Some?
    ensures var e := k + UserinfoAt(text[k..]).value;
            && e <= |text| && !SchemeEnds(text[..e])
            && ScanFrom(UrlUserinfo, text, k) == "://" + PLACEHOLDER + "@" + ScanFrom(UrlUserinfo, text, e)
  {
    hide ScanFrom, UserinfoAt, SchemeEnds;
    ScanStep(UrlUserinfo, text, k);
    var e := k + UserinfoAt(text[k..]).value;
    UserinfoEnds(text[k..]);
    SchemeEndsStep(text, e - 1);
  }

  lemma UserinfoEnds(rest: string)
    requires UserinfoAt(rest).Some?
    ensures rest[UserinfoAt(rest).value - 1] == '@'
  {
    hide RunLen, StartsWith;
  }

  lemma ScanUrlHit(text: string, i: nat)
    requires i < |text| && Find(UrlUserinfo, text[i..]).Some?
    ensures var h := Find(UrlUserinfo, text[i..]).value;
            && !SchemeEnds(text[..i + h.end])
            && ScanFrom(UrlUserinfo, text, i)
               == Masked(UrlUserinfo, text[i..], h) + ScanFrom(UrlUserinfo, text, i + h.end)
  {
    hide ScanFrom, RunLen, Find, UserinfoAt, SchemeEnds;
    FindByUserinfo(text[i..]);
    var h := Find(UrlUserinfo, text[i..]).value;
    var m := RunLen(SchemeChar, text[i..]);
    forall k | i <= k < i + m ensures In(SchemeChar, text[k]) {
      assert text[i..][k - i] == text[k];
    }
    assert m > 0;
    CopyScheme(text, i, m);
    assert text[i..][m..] == text[i + m..];
    ScanSeparator(text, i + m);
    SeparatorAt(text, i + m);
    assert text[i..][..h.keep] == text[i..i + m] + "://";
  }

  lemma SeparatorAt(text: string, k: nat)
    requires k <= |text| && UserinfoAt(text[k..]).Some?
    ensures k + 3 <= |text| && text[k..k + 3] == "://"
  {
    hide RunLen;
    assert text[k..][..3] == text[k..k + 3];
  }

  /** Anchored at `://` and reading the scheme backwards, pass 2 makes the same replacements
      as the forward search. */
  lemma {:induction false} AnchoredIsReplace(text: string, i: nat)
    requires i <= |text|
    requires SchemeEnds(text[..i]) ==> Dead(text, i)
    ensures ScanFrom(UrlUserinfo, text, i) == Replace(UrlUserinfo, text[i..])
    decreases |text| - i
  {
    hide ScanFrom, Replace, Find, UserinfoAt, SchemeEnds, RunLen;
    ReplaceStep(UrlUserinfo, text[i..]);
    if i == |text| {
      ScanDone(UrlUserinfo, text);
    } else if Find(UrlUserinfo, text[i..]).Some? && !SchemeEnds(text[..i]) {
      var e := i + Find(UrlUserinfo, text[i..]).value.end;
      ScanUrlHit(text, i);
      AnchoredIsReplace(text, e);
      assert text[i..][e - i..] == text[e..];
    } else {
      NoAnswer(text, i);
      ScanStep(UrlUserinfo, text, i);
      AnchoredIsReplace(text, i + 1);
      assert text[i..][1..] == text[i + 1..];
    }
  }

  lemma ScanDone(p: Pass, text: string)
    ensures ScanFrom(p, text, |text|) == ""
  {
  }

  lemma NoAnswer(text: string, i: nat)
    requires i < |text|
    requires SchemeEnds(text[..i]) ==> Dead(text, i)
    requires SchemeEnds(text[..i]) || Find(UrlUserinfo, text[i..]).None?
    ensures Find(UrlUserinfo, text[i..]).None? && AnchoredHit(text[..i], text[i..]).None?
    ensures SchemeEnds(text[..i + 1]) ==> Dead(text, i + 1)
  {
    hide Find, UserinfoAt, SchemeEnds, RunLen;
    var s := text[i..];
    FindByUserinfo(s);
    SchemeEndsStep(text, i);
    var m := RunLen(SchemeChar, s);
    assert s[m..] == text[i + m..];
    if In(SchemeChar, text[i]) {
      DeadStep(text, i);
      NotSeparator(s);
    } else {
      assert m == 0;
    }
  }

  lemma NotSeparator(s: string)
    requires s != "" && In(SchemeChar, s[0])
    ensures UserinfoAt(s).None?
  {
    assert s[0] != "://"[0];
  }

  lemma ScanHit(p: Pass, text: string, i: nat)
    requires i < |text| && p != UrlUserinfo
    ensures match Find(p, text[i..])
            case None => ScanFrom(p, text, i) == [text[i]] + ScanFrom(p, text, i + 1)
            case Some(h) => ScanFrom(p, text, i) == Masked(p, text[i..], h) + ScanFrom(p, text, i + h.end)
  {
    hide ScanFrom, Find, Masked;
    ScanStep(p, text, i);
  }

  lemma {:induction false} FindIsReplace(p: Pass, text: string, i: nat)
    requires i <= |text| && p != UrlUserinfo
    ensures ScanFrom(p, text, i) == Replace(p, text[i..])
    decreases |text| - i
  {
    hide *;
    if i == |text| {
      ReplaceStep(p, text[i..]);
      ScanDone(p, text);
    } else {
      PassStep(p, text, i);
      ScanHit(p, text, i);
      match Find(p, text[i..])
      case None => FindIsReplace(p, text, i + 1);
      case Some(h) => FindIsReplace(p, text, i + h.end);
    }
  }

  /** One scan is the declarative replace-all of its pass. */
  lemma ScanIsReplace(p: Pass, text: string)
    ensures ScanFrom(p, text, 0) == Replace(p, text)
  {
    hide ScanFrom, Replace;
    assert text[0..] == text;
    if p == UrlUserinfo {
      AnchoredIsReplace(text, 0);
    } else {
      FindIsReplace(p, text, 0);
    }
  }

  // ---- the loops ----

  method ConsumeWhile(s: string, cls: CharClass) returns (n: nat)
    ensures n == RunLen(cls, s)
  {
    n := 0;
    while n < |s|
      invariant n <= |s| && forall k :: 0 <= k < n ==> In(cls, s[k])
    {
      if !In(cls, s[n]) { break; }
      n := n + 1;
    }
    RunLenIs(cls, s, n);
  }

  method MatchBearer(rest: string) returns (r: Option<(nat, string)>)
    ensures r == Answer(Bearer, "", rest)
  {
    hide RunLen;
    if !StartsWith(rest, "Bearer") { return None; }
    var ws := ConsumeWhile(rest[6..], Space);
    if ws == 0 { return None; }
    var head := 6 + ws;
    var token := ConsumeWhile(rest[head..], TokenChar);
    if token == 0 { return None; }
    assert rest[..head] + PLACEHOLDER + "" == rest[..head] + PLACEHOLDER;
    r := Some((head + token, rest[..head] + PLACEHOLDER));
  }

  lemma {:induction false} SchemeEndsAt(before: string, start: nat)
    requires start <= |before| && forall k :: start <= k < |before| ==> In(SchemeChar, before[k])
    requires start == 0 || !In(SchemeChar, before[start - 1])
    ensures SchemeEnds(before) <==> exists k :: start <= k < |before| && In(Letter, before[k])
  {
    if start < |before| {
      var front := before[..|before| - 1];
      SchemeEndsAt(front, start);
      assert forall k :: start <= k < |front| ==> front[k] == before[k];
    }
  }

  method MatchUrlUserinfo(before: string, rest: string) returns (r: Option<(nat, string)>)
    ensures r == Answer(UrlUserinfo, before, rest)
  {
    hide RunLen, SchemeEnds;
    if !StartsWith(rest, "://") { return None; }
    var start: nat := |before|;
    while start > 0 && In(SchemeChar, before[start - 1])
      invariant start <= |before| && forall k :: start <= k < |before| ==> In(SchemeChar, before[k])
    {
      start := start - 1;
    }
    SchemeEndsAt(before, start);
    if start == |before| { return None; }
    var k: nat := start;
    while k < |before| && !In(Letter, before[k])
      invariant start <= k <= |before| && forall j :: start <= j < k ==> !In(Letter, before[j])
    {
      k := k + 1;
    }
    if k == |before| { return None; }
    var userinfo := ConsumeWhile(rest[3..], UserinfoChar);
    if userinfo == 0 || 3 + userinfo == |rest| || rest[3 + userinfo] != '@' { return None; }
    r := Some((3 + userinfo + 1, "://" + PLACEHOLDER + "@"));
  }

  /** `\s*[=:]\s*["']?` behind a name. */
  method SkipMarker(tail: string) returns (r: Option<nat>)
    ensures r == NameTail(tail)
  {
    hide RunLen;
    var idx := ConsumeWhile(tail, Space);
    if idx == |tail| || (tail[idx] != '=' && tail[idx] != ':') { return None; }
    idx := idx + 1;
    var ws := ConsumeWhile(tail[idx..], Space);
    idx := idx + ws;
    if idx < |tail| && (tail[idx] == '"' || tail[idx] == '\'') { idx := idx + 1; }
    r := Some(idx);
  }

  method MatchAssignment(rest: string) returns (r: Option<(nat, string)>)
    ensures r == Answer(Assignment, "", rest)
  {
    hide RunLen, FirstWord, NameTail;
    var name := FirstWord(ASSIGNMENT_NAMES, rest);
    if name.None? { return None; }
    var tail := SkipMarker(rest[|name.value|..]);
    if tail.None? { return None; }
    var head := |name.value| + tail.value;
    var value := ConsumeWhile(rest[head..], ValueChar);
    if value == 0 { return None; }
    assert rest[..head] + PLACEHOLDER + "" == rest[..head] + PLACEHOLDER;
    r := Some((head + value, rest[..head] + PLACEHOLDER));
  }

  method MatchKeyValue(rest: string) returns (r: Option<(nat, string)>)
    ensures r == Answer(KeyValue, "", rest)
  {
    hide RunLen, FirstWord;
    var prefix := FirstWord(VALUE_PREFIXES, rest);
    if prefix.None? { return None; }
    var token := ConsumeWhile(rest[|prefix.value|..], KeyChar);
    if token == 0 { return None; }
    assert rest[..0] + PLACEHOLDER + "" == PLACEHOLDER;
    r := Some((|prefix.value| + token, PLACEHOLDER));
  }

  method Match(p: Pass, before: string, rest: string) returns (r: Option<(nat, string)>)
    ensures r == Answer(p, before, rest)
  {
    hide Find, AnchoredHit;
    match p
    case Bearer => r := MatchBearer(rest);
    case UrlUserinfo => r := MatchUrlUserinfo(before, rest);
    case Assignment => r := MatchAssignment(rest);
    case KeyValue => r := MatchKeyValue(rest);
  }

  /** What is written at `i`, behind what is written already. */
  lemma ScanMore(p: Pass, text: string, i: nat, out: string)
    requires i < |text|
    ensures out + ScanFrom(p, text, i) ==
            match Answer(p, text[..i], text[i..])
            case Some((len, replacement)) => out + replacement + ScanFrom(p, text, i + len)
            case None => out + [text[i]] + ScanFrom(p, text, i + 1)
  {
    hide *;
    ScanStep(p, text, i);
    match Answer(p, text[..i], text[i..])
    case Some((len, replacement)) => JoinFirst(out, replacement, ScanFrom(p, text, i + len));
    case None => JoinFirst(out, [text[i]], ScanFrom(p, text, i + 1));
  }

  lemma JoinFirst(a: string, b: string, c: string)
    ensures a + (b + c) == a + b + c
  {
  }

  lemma ScanIsRule(p: Pass, text: string)
    ensures Replace(p, text) == ReplaceAll(RuleOf(p), text, 0)
  {
    hide *;
    PassIsReplaceAll(p, text, 0);
    assert text[0..] == text;
  }

  method Scan(text: string, p: Pass) returns (out: string)
    ensures out == ReplaceAll(RuleOf(p), text, 0) == Replace(p, text)
  {
    hide *;
    out := "";
    var i := 0;
    while i < |text|
      invariant i <= |text|
      invariant out + ScanFrom(p, text, i) == ScanFrom(p, text, 0)
    {
      ScanMore(p, text, i, out);
      var answer := Match(p, text[..i], text[i..]);
      match answer {
        case Some((len, replacement)) =>
          out := out + replacement;
          i := i + len;
        case None =>
          out := out + [text[i]];
          i := i + 1;
      }
    }
    ScanDone(p, text);
    ScanIsReplace(p, text);
    ScanIsRule(p, text);
  }

  // ---- whitespace ----

  /** The rest of the loop: `pending` spaces are written before the next solid character. */
  function SqueezeFrom(s: string, started: bool, pending: bool): string {
    if s == "" then ""
    else if IsWhite(s[0]) then SqueezeFrom(s[1..], started, pending || started)
    else (if pending then " " else "") + [s[0]] + SqueezeFrom(s[1..], true, false)
  }

  lemma {:induction false} SqueezeFromIs(s: string)
    ensures SqueezeFrom(s, true, false) == Squeeze(s)
    ensures SqueezeFrom(s, true, true) ==
            if s[RunLen(White, s)..] == "" then "" else " " + Squeeze(s[RunLen(White, s)..])
    ensures SqueezeFrom(s, false, false) == Collapse(s)
  {
    if s != "" {
      SqueezeFromIs(s[1..]);
      if IsWhite(s[0]) {
        assert s[1..][RunLen(White, s[1..])..] == s[RunLen(White, s)..];
      } else {
        assert s[0..] == s;
      }
    }
  }

  lemma SqueezeFromStep(s: string, i: nat, started: bool, pending: bool)
    requires i <= |s|
    ensures i == |s| ==> SqueezeFrom(s[i..], started, pending) == ""
    ensures i < |s| && IsWhite(s[i]) ==>
              SqueezeFrom(s[i..], started, pending) == SqueezeFrom(s[i + 1..], started, pending || started)
    ensures i < |s| && !IsWhite(s[i]) ==>
              SqueezeFrom(s[i..], started, pending)
              == (if pending then " " else "") + [s[i]] + SqueezeFrom(s[i + 1..], true, false)
  {
    hide IsWhite;
    if i < |s| { assert s[i..][0] == s[i] && s[i..][1..] == s[i + 1..]; }
  }

  method CollapseAndTrimWhitespace(s: string) returns (out: string)
    ensures out == Collapse(s)
  {
    hide IsWhite, SqueezeFrom, Collapse;
    SqueezeFromIs(s);
    assert s[0..] == s;
    out := "";
    var pendingSpace, i := false, 0;
    while i < |s|
      invariant i <= |s| && (pendingSpace ==> out != "")
      invariant out + SqueezeFrom(s[i..], out != "", pendingSpace) == SqueezeFrom(s, false, false)
    {
      SqueezeFromStep(s, i, out != "", pendingSpace);
      if IsWhite(s[i]) {
        if out != "" { pendingSpace := true; }
      } else {
        if pendingSpace {
          out := out + " ";
          pendingSpace := false;
        }
        out := out + [s[i]];
      }
      i := i + 1;
    }
    SqueezeFromStep(s, |s|, out != "", pendingSpace);
    assert out + "" == out;
  }

  method RedactSecrets(text: string) returns (out: string)
    ensures out == Redact(text)
  {
    hide Replace, Collapse;
    out := Scan(text, Bearer);
    out := Scan(out, UrlUserinfo);
    out := Scan(out, Assignment);
    out := Scan(out, KeyValue);
    out := CollapseAndTrimWhitespace(out);
  }
}
