/** What the whole redactor guarantees, and what a second application does. */
module RedactionTwice {
  import opened Optional
  import opened Redaction
  import opened RedactionNeedles
  import opened RedactionMasks

  // ---- ASCII-spaced text stays so ----

  lemma {:induction false} ReplaceAscii(p: Pass, s: string)
    requires AsciiSpaced(s)
    ensures AsciiSpaced(Replace(p, s))
  {
    hide Find, Replace, IsWhite, IsSpace;
    ReplaceStep(p, s);
    if s != "" {
      match Find(p, s)
      case None =>
        AsciiDrop(s, 1);
        ReplaceAscii(p, s[1..]);
      case Some(h) =>
        AsciiDrop(s, h.end);
        ReplaceAscii(p, s[h.end..]);
        PlaceholderAscii();
        AsciiJoin(s[..h.keep], PLACEHOLDER);
        AsciiJoin(s[..h.keep] + PLACEHOLDER, if p == UrlUserinfo then "@" else "");
        AsciiJoin(Masked(p, s, h), Replace(p, s[h.end..]));
    }
  }

  lemma AsciiDrop(s: string, n: nat)
    requires AsciiSpaced(s) && n <= |s|
    ensures AsciiSpaced(s[n..]) && AsciiSpaced(s[..n])
  {
  }

  lemma AsciiJoin(a: string, b: string)
    requires AsciiSpaced(a) && AsciiSpaced(b)
    ensures AsciiSpaced(a + b)
  {
  }

  lemma PlaceholderAscii()
    ensures AsciiSpaced(PLACEHOLDER) && AsciiSpaced("@") && AsciiSpaced("")
  {
  }

  lemma MaskAllAscii(s: string)
    requires AsciiSpaced(s)
    ensures AsciiSpaced(MaskAll(s))
  {
    ReplaceAscii(Bearer, s);
    ReplaceAscii(UrlUserinfo, Replace(Bearer, s));
    ReplaceAscii(Assignment, Replace(UrlUserinfo, Replace(Bearer, s)));
    ReplaceAscii(KeyValue, Replace(Assignment, Replace(UrlUserinfo, Replace(Bearer, s))));
  }

  lemma AsciiRun(s: string)
    requires AsciiSpaced(s)
    ensures RunLen(Space, s) == RunLen(White, s)
  {
    hide RunLen;
    var n := RunLen(White, s);
    forall k | 0 <= k < n ensures In(Space, s[k]) {
      assert In(White, s[k]);
    }
    RunLenIs(Space, s, n);
  }

  // ---- the collapse, one step ----

  lemma SqueezeStep(s: string)
    ensures s == "" ==> Squeeze(s) == ""
    ensures s != "" && !IsWhite(s[0]) ==> Squeeze(s) == [s[0]] + Squeeze(s[1..])
    ensures s != "" && IsWhite(s[0]) ==>
              var n := RunLen(White, s);
              0 < n && Squeeze(s) == if n == |s| then "" else " " + Squeeze(s[n..])
  {
  }

  lemma {:induction false} SqueezeSolid(w: string, t: string)
    requires forall k :: 0 <= k < |w| ==> !IsWhite(w[k])
    ensures Squeeze(w + t) == w + Squeeze(t)
  {
    hide Squeeze, IsWhite;
    if w == "" {
      assert w + t == t;
    } else {
      SqueezeStep(w + t);
      assert (w + t)[1..] == w[1..] + t;
      SqueezeSolid(w[1..], t);
    }
  }

  lemma SqueezeFirst(s: string)
    requires s == "" || !IsWhite(s[0])
    ensures s == "" <==> Squeeze(s) == ""
    ensures s != "" ==> Squeeze(s)[0] == s[0]
  {
  }

  /** A whitespace run in front collapses to one space, or to nothing at the end. */
  lemma SqueezeRun(s: string) returns (v: string)
    ensures v == s[RunLen(White, s)..] && (v == "" || !IsWhite(v[0]))
    ensures Squeeze(s) == (if RunLen(White, s) > 0 && v != "" then " " else "") + Squeeze(v)
  {
    hide Squeeze, IsWhite, RunLen;
    var n := RunLen(White, s);
    v := s[n..];
    SqueezeStep(s);
    SqueezeStep(v);
    RunZero(s);
    if n == 0 { assert v == s; }
    if v != "" { assert v[0] == s[n]; assert !In(White, s[n]); }
  }

  lemma RunZero(s: string)
    ensures RunLen(White, s) == 0 <==> s == "" || !IsWhite(s[0])
  {
  }

  // ---- bearer tokens in collapsed text ----

  /** Collapsing turns exactly the wide bearer tokens into bearer tokens. */
  lemma {:induction false} SqueezeBearer(s: string)
    ensures Absent(BearerToken, Squeeze(s)) <==> Absent(WideBearer, s)
    decreases |s|
  {
    hide NeedleLen, RunLen, IsWhite, Squeeze;
    SqueezeStep(s);
    if s != "" {
      if IsWhite(s[0]) {
        var n := RunLen(White, s);
        SqueezeBearer(s[n..]);
        AbsentBehindWhite(s, n);
        if n == |s| {
          assert s[n..] == "";
        } else {
          assert (" " + Squeeze(s[n..]))[1..] == Squeeze(s[n..]);
          if NeedleLen(BearerToken, Squeeze(s)).Some? {
            NeedleStart(BearerToken, Squeeze(s));
          }
        }
      } else {
        SqueezeBearer(s[1..]);
        assert Squeeze(s)[1..] == Squeeze(s[1..]);
        SqueezeBearerHere(s);
      }
    }
  }

  lemma {:induction false} AbsentBehindWhite(s: string, n: nat)
    requires n <= RunLen(White, s)
    ensures Absent(WideBearer, s) <==> Absent(WideBearer, s[n..])
  {
    hide NeedleLen, RunLen;
    if n > 0 {
      AbsentBehindWhite(s, n - 1);
      var t := s[n - 1..];
      assert t[1..] == s[n..];
      assert In(White, s[n - 1]);
      if NeedleLen(WideBearer, t).Some? {
        NeedleStart(WideBearer, t);
      }
    } else {
      assert s[0..] == s;
    }
  }

  lemma SqueezeBearerHere(s: string)
    requires s != "" && !IsWhite(s[0])
    ensures NeedleLen(BearerToken, Squeeze(s)).Some? <==> NeedleLen(WideBearer, s).Some?
  {
    hide RunLen, IsWhite, Squeeze, Find;
    var out := Squeeze(s);
    BearerIs(out);
    if StartsWith(out, "Bearer") {
      assert out[..6] == "Bearer";
      SqueezeLead(s, 6);
    }
    if StartsWith(s, "Bearer") {
      var t := s[6..];
      assert s == "Bearer" + t;
      BearerSolid();
      SqueezeSolid("Bearer", t);
      assert out[6..] == Squeeze(t);
      BearerTail(t);
    }
  }

  lemma BearerSolid()
    ensures forall k :: 0 <= k < 6 ==> !IsWhite("Bearer"[k])
  {
  }

  lemma BearerIs(t: string)
    ensures NeedleLen(BearerToken, t).Some? <==>
            StartsWith(t, "Bearer") && RunLen(Space, t[6..]) > 0
            && 6 + RunLen(Space, t[6..]) < |t| && In(TokenChar, t[6 + RunLen(Space, t[6..])])
  {
    hide RunLen, In;
    if StartsWith(t, "Bearer") {
      var n := 6 + RunLen(Space, t[6..]);
      if n < |t| { assert t[n..][0] == t[n]; }
      RunPositive(t[n..]);
    }
  }

  lemma RunPositive(t: string)
    ensures RunLen(TokenChar, t) > 0 <==> t != "" && In(TokenChar, t[0])
  {
  }

  /** Whitespace and then a token character, before and after collapsing. */
  lemma BearerTail(t: string)
    ensures var c := Squeeze(t); var n, m := RunLen(Space, c), RunLen(White, t);
            (n > 0 && n < |c| && In(TokenChar, c[n])) <==> (m > 0 && m < |t| && In(TokenChar, t[m]))
  {
    hide RunLen, Squeeze, IsWhite;
    var c := Squeeze(t);
    var v := SqueezeRun(t);
    SqueezeFirst(v);
    SpaceRunOf(c);
    if v != "" {
      var m := RunLen(White, t);
      assert v[0] == t[m];
      if m > 0 {
        assert c == " " + Squeeze(v) && c[1] == v[0];
        NotSpace(v[0]);
        RunLenIs(Space, c, 1);
      } else {
        NotSpace(v[0]);
      }
    }
  }

  lemma NotSpace(c: char)
    requires !IsWhite(c)
    ensures !IsSpace(c)
  {
  }

  lemma SpaceRunOf(c: string)
    ensures c == "" || !IsSpace(c[0]) ==> RunLen(Space, c) == 0
  {
  }

  lemma {:induction false} AsciiBearer(s: string)
    requires AsciiSpaced(s) && Absent(BearerToken, s)
    ensures Absent(WideBearer, s)
  {
    hide NeedleLen, AsciiSpaced;
    if s != "" {
      AsciiDrop(s, 1);
      AsciiBearer(s[1..]);
      AsciiBearerHere(s);
    }
  }

  lemma AsciiBearerHere(s: string)
    requires AsciiSpaced(s) && NeedleLen(BearerToken, s).None?
    ensures NeedleLen(WideBearer, s).None?
  {
    hide RunLen, Find;
    BearerIs(s);
    if StartsWith(s, "Bearer") {
      AsciiDrop(s, 6);
      AsciiRun(s[6..]);
    }
  }

  // ---- assignments in collapsed text ----

  lemma {:induction false} SqueezeAssignments(s: string)
    requires AsciiSpaced(s) && AllMasked(Assignment, s)
    ensures AllMasked(Assignment, Squeeze(s))
    decreases |s|
  {
    hide Find, RunLen, IsWhite, Squeeze, AsciiSpaced;
    SqueezeStep(s);
    var out := Squeeze(s);
    if s != "" {
      if IsWhite(s[0]) {
        var n := RunLen(White, s);
        AsciiDrop(s, n);
        AllMaskedDrop(Assignment, s, n);
        SqueezeAssignments(s[n..]);
        if n < |s| {
          AllMaskedBehind(Assignment, " ", Squeeze(s[n..]));
        }
      } else {
        AsciiDrop(s, 1);
        SqueezeAssignments(s[1..]);
        assert out[1..] == Squeeze(s[1..]);
        SqueezeAssignmentHere(s);
        MaskedHere(Assignment, out);
      }
    }
  }

  lemma SqueezeAssignmentHere(s: string)
    requires s != "" && AsciiSpaced(s) && AllMasked(Assignment, s) && !IsWhite(s[0])
    ensures var out := Squeeze(s); var h := Find(Assignment, out);
            h.Some? ==> out[..h.value.end] == Masked(Assignment, out, h.value)
  {
    hide RunLen, AllMasked, Squeeze, IsWhite, AssignmentHead, AsciiSpaced, Find;
    var out := Squeeze(s);
    if Find(Assignment, out).Some? {
      var n := ValueAt(out);
      var i, v := SqueezeAssignmentHead(s, n);
      SqueezedValue(s, i, v);
      MaskedAssignment(out, n, Squeeze(v[10..]));
    }
  }

  lemma ValueAt(t: string) returns (n: nat)
    requires Find(Assignment, t).Some?
    ensures AssignmentHead(t) == Some(n) && n < |t| && In(ValueChar, t[n])
  {
    hide RunLen, AssignmentHead;
    n := AssignmentHead(t).value;
    assert t[n..][0] == t[n];
  }

  /** An assignment head in collapsed text comes from one whose value corresponds. */
  lemma SqueezeAssignmentHead(s: string, n: nat) returns (i: nat, v: string)
    requires AsciiSpaced(s) && AssignmentHead(Squeeze(s)) == Some(n)
    requires n < |Squeeze(s)| && In(ValueChar, Squeeze(s)[n])
    ensures AssignmentHead(s) == Some(i) && i <= |s| && v == s[i..]
    ensures v != "" && In(ValueChar, v[0]) && Squeeze(s)[n..] == Squeeze(v)
  {
    hide RunLen, Squeeze, IsWhite, FirstWord, NameTail, AsciiSpaced, In;
    var out := Squeeze(s);
    var w := FirstWord(ASSIGNMENT_NAMES, out).value;
    NameSolid(w);
    assert out[..|w|] == w;
    SqueezeLead(s, |w|);
    NamesPrefixFree();
    FirstWordLocal(ASSIGNMENT_NAMES, s, out, w);
    var t := s[|w|..];
    AsciiDrop(s, |w|);
    assert s == w + t;
    SqueezeSolid(w, t);
    var c := Squeeze(t);
    assert out[|w|..] == c;
    assert c[n - |w|] == out[n];
    v := SqueezeNameTail(t, n - |w|);
    i := |s| - |v|;
    assert out[n..] == c[n - |w|..];
  }

  lemma NameSolid(w: string)
    requires w in ASSIGNMENT_NAMES
    ensures ' ' !in w && forall k :: 0 <= k < |w| ==> !IsWhite(w[k])
  {
    NameUnderscore(w);
  }

  /** `\s*[=:]` and then a value, before and after collapsing: what follows the marker corresponds. */
  lemma SqueezeMarker(t: string) returns (a: string)
    requires AsciiSpaced(t) && NameTail(Squeeze(t)).Some?
    ensures var m := RunLen(Space, t); m < |t| && In(Marker, t[m]) && a == t[m + 1..]
    ensures var k := RunLen(Space, Squeeze(t)); k < |Squeeze(t)| && Squeeze(t)[k + 1..] == Squeeze(a)
  {
    hide RunLen, Squeeze, IsWhite, AsciiSpaced, In;
    var c := Squeeze(t);
    var v := SqueezeSpaces(t);
    var k := RunLen(Space, c);
    assert c[k..][0] == c[k];
    SqueezeStep(v);
    SqueezeFirst(v);
    a := v[1..];
    assert c[k + 1..] == c[k..][1..];
  }

  /** Length of `\s*["']?`. */
  function OpeningLen(a: string): (n: nat)
    ensures n <= |a|
  {
    var q := RunLen(Space, a);
    if q < |a| && In(Quote, a[q]) then q + 1 else q
  }

  lemma NameTailOpening(t: string)
    ensures var m := RunLen(Space, t);
            NameTail(t) == if m == |t| || !In(Marker, t[m]) then None else Some(m + 1 + OpeningLen(t[m + 1..]))
  {
    hide RunLen, In;
  }

  /** `\s*["']?` and then a value, before and after collapsing. */
  lemma SqueezeOpening(a: string) returns (v: string)
    requires AsciiSpaced(a)
    requires var c := Squeeze(a); var n := OpeningLen(c); n < |c| && In(ValueChar, c[n])
    ensures v == a[OpeningLen(a)..] && Squeeze(v) == Squeeze(a)[OpeningLen(Squeeze(a))..]
    ensures v != "" && !IsWhite(v[0]) && In(ValueChar, v[0])
  {
    hide RunLen, Squeeze, IsWhite, AsciiSpaced;
    var c := Squeeze(a);
    var u := SqueezeSpaces(a);
    var q := RunLen(Space, c);
    assert c[q..][0] == c[q];
    SqueezeStep(u);
    SqueezeFirst(u);
    assert u[0] == a[RunLen(Space, a)];
    if In(Quote, c[q]) {
      v := u[1..];
      assert c[q + 1..] == c[q..][1..];
      assert c[q + 1..][0] == c[q + 1];
    } else {
      v := u;
    }
    SqueezeValueStart(v);
  }

  /** `\s*[=:]\s*["']?` and a value start, before and after collapsing: the values correspond. */
  lemma SqueezeNameTail(t: string, n: nat) returns (v: string)
    requires AsciiSpaced(t) && NameTail(Squeeze(t)) == Some(n)
    requires n < |Squeeze(t)| && In(ValueChar, Squeeze(t)[n])
    ensures |v| <= |t| && v == t[|t| - |v|..] && NameTail(t) == Some(|t| - |v|)
    ensures v != "" && !IsWhite(v[0]) && In(ValueChar, v[0]) && Squeeze(t)[n..] == Squeeze(v)
  {
    hide RunLen, Squeeze, IsWhite, AsciiSpaced, In, NameTail, OpeningLen;
    var c := Squeeze(t);
    NameTailOpening(t);
    NameTailOpening(c);
    var a := SqueezeMarker(t);
    AsciiTail(t, |t| - |a|);
    var k, b := RunLen(Space, c), Squeeze(a);
    assert c[k + 1..] == b;
    var q := OpeningLen(b);
    assert n == k + 1 + q && b[q] == c[n];
    v := SqueezeOpening(a);
    assert c[n..] == b[q..];
    assert |t| - |v| == |t| - |a| + OpeningLen(a);
  }

  lemma AsciiTail(t: string, n: nat)
    requires AsciiSpaced(t) && n <= |t|
    ensures AsciiSpaced(t[n..])
  {
  }

  lemma SqueezeValueStart(v: string)
    requires Squeeze(v) != "" && In(ValueChar, Squeeze(v)[0])
    ensures v != "" && !IsWhite(v[0]) && v[0] == Squeeze(v)[0]
  {
    hide Squeeze, RunLen;
    SqueezeStep(v);
  }

  lemma SqueezeSpaces(t: string) returns (v: string)
    requires AsciiSpaced(t)
    ensures v == t[RunLen(Space, t)..] && (v == "" || !IsWhite(v[0]))
    ensures Squeeze(t)[RunLen(Space, Squeeze(t))..] == Squeeze(v)
  {
    hide Squeeze, RunLen, IsWhite, AsciiSpaced;
    AsciiRun(t);
    v := SqueezeRun(t);
    SqueezeFirst(v);
    var c := Squeeze(t);
    SpaceRunOf(c);
    if v != "" {
      NotSpace(v[0]);
      if RunLen(White, t) > 0 {
        RunLenIs(Space, c, 1);
      }
    } else {
      SqueezeStep(v);
    }
  }

  /** A masked value stays the placeholder, and still ends, in collapsed text. */
  lemma SqueezedValue(s: string, i: nat, v: string)
    requires AssignmentHead(s) == Some(i) && v == s[i..] && AllMasked(Assignment, s)
    requires v != "" && In(ValueChar, v[0])
    ensures |v| >= 10 && Squeeze(v) == PLACEHOLDER + Squeeze(v[10..]) && EndsValue(Squeeze(v[10..]))
  {
    hide AssignmentHead, AllMasked, Squeeze, IsWhite;
    assert v[0] == s[i];
    var u := MaskedValue(s, i);
    assert v[10..] == u;
    PlaceholderSolid();
    SqueezeSolid(PLACEHOLDER, u);
    SqueezeStep(u);
  }

  lemma PlaceholderSolid()
    ensures forall k :: 0 <= k < |PLACEHOLDER| ==> !IsWhite(PLACEHOLDER[k])
  {
  }

  // ---- URL userinfo in collapsed text ----

  lemma UrlHitSolid(t: string, h: Hit)
    requires Find(UrlUserinfo, t) == Some(h)
    ensures ' ' !in t[..h.end]
  {
    hide RunLen, UrlHead;
    SchemeShape(t, h.keep);
    forall k | 0 <= k < h.end ensures t[k] != ' ' {
      if k < h.keep - 3 {
        assert In(SchemeChar, t[k]);
      } else if h.keep <= k < h.end - 1 {
        assert In(UserinfoChar, t[h.keep..][k - h.keep]);
      }
    }
  }

  lemma UrlFindLocal(s: string, t: string, h: Hit)
    requires Find(UrlUserinfo, t) == Some(h) && h.end <= |s| && s[..h.end] == t[..h.end]
    ensures Find(UrlUserinfo, s) == Some(h)
  {
    hide RunLen, UrlHead;
    TakePrefix(s, t, h.end, h.keep);
    UrlHeadLocal(s, t, h.keep);
    TailPrefix(s, t, h.end, h.keep);
    RunPrefix(UserinfoChar, s[h.keep..], t[h.keep..], h.end - h.keep);
    SameAt(s, t, h.end, h.end - 1);
  }

  lemma {:induction false} SqueezeUrls(s: string)
    requires AllMasked(UrlUserinfo, s)
    ensures AllMasked(UrlUserinfo, Squeeze(s))
    decreases |s|
  {
    hide Find, RunLen, IsWhite, Squeeze;
    SqueezeStep(s);
    var out := Squeeze(s);
    if s != "" {
      if IsWhite(s[0]) {
        var n := RunLen(White, s);
        AllMaskedDrop(UrlUserinfo, s, n);
        SqueezeUrls(s[n..]);
        if n < |s| {
          AllMaskedBehind(UrlUserinfo, " ", Squeeze(s[n..]));
        }
      } else {
        SqueezeUrls(s[1..]);
        assert out[1..] == Squeeze(s[1..]);
        if Find(UrlUserinfo, out).Some? {
          var h := Find(UrlUserinfo, out).value;
          UrlHitSolid(out, h);
          SqueezeLead(s, h.end);
          UrlFindLocal(s, out, h);
          TakePrefix(s, out, h.end, h.keep);
        }
        MaskedHere(UrlUserinfo, out);
      }
    }
  }

  // ---- collapsed text is a fixed point of the collapse ----

  lemma {:induction false} SqueezeIdempotent(s: string)
    ensures Squeeze(Squeeze(s)) == Squeeze(s)
    decreases |s|
  {
    hide Squeeze, RunLen, IsWhite;
    SqueezeStep(s);
    if s != "" {
      if !IsWhite(s[0]) {
        SqueezeIdempotent(s[1..]);
        SqueezeStep(Squeeze(s));
      } else if RunLen(White, s) < |s| {
        var v := SqueezeRun(s);
        SqueezeIdempotent(v);
        SpaceThen(Squeeze(v), v);
      } else {
        SqueezeStep("");
      }
    }
  }

  /** One space in front of text that starts solid is already collapsed. */
  lemma SpaceThen(t: string, v: string)
    requires Squeeze(t) == t && t == Squeeze(v) && v != "" && !IsWhite(v[0])
    ensures Squeeze(" " + t) == " " + t
  {
    hide Squeeze, RunLen;
    SqueezeFirst(v);
    SqueezeStep(" " + t);
    RunLenIs(White, " " + t, 1);
    assert (" " + t)[1..] == t;
  }

  lemma SqueezedAscii(s: string)
    requires Squeeze(s) == s
    ensures forall k :: 0 <= k < |s| ==> IsWhite(s[k]) ==> s[k] == ' '
  {
    SqueezeAscii(s);
  }

  lemma {:induction false} SqueezeAscii(s: string)
    ensures forall k :: 0 <= k < |Squeeze(s)| ==> IsWhite(Squeeze(s)[k]) ==> Squeeze(s)[k] == ' '
    decreases |s|
  {
    hide Squeeze, RunLen, IsWhite;
    SqueezeStep(s);
    if s != "" {
      if !IsWhite(s[0]) {
        SqueezeAscii(s[1..]);
      } else if RunLen(White, s) < |s| {
        SqueezeAscii(s[RunLen(White, s)..]);
      }
    }
  }

  /** Pass 2 keeps collapsed text collapsed. */
  lemma {:induction false} UrlPassKeepsSqueezed(y: string)
    requires Squeeze(y) == y
    ensures Squeeze(Replace(UrlUserinfo, y)) == Replace(UrlUserinfo, y)
  {
    hide Squeeze, RunLen, IsWhite, Find, Replace;
    ReplaceStep(UrlUserinfo, y);
    SqueezeStep(y);
    if y == "" {
    } else if Find(UrlUserinfo, y).Some? {
      var h := Find(UrlUserinfo, y).value;
      SqueezedAscii(y);
      UrlHitSolid(y, h);
      SolidPrefix(y, h.end);
      assert y == y[..h.end] + y[h.end..];
      SqueezeSolid(y[..h.end], y[h.end..]);
      assert y[h.end..] == Squeeze(y[h.end..]);
      UrlPassKeepsSqueezed(y[h.end..]);
      MaskedUrlText(y, h);
      PlaceholderAtSolid(y[..h.keep]);
      SqueezeSolid(y[..h.keep] + PLACEHOLDER + "@", Replace(UrlUserinfo, y[h.end..]));
      assert y[..h.keep] + (PLACEHOLDER + "@" + Replace(UrlUserinfo, y[h.end..]))
          == y[..h.keep] + PLACEHOLDER + "@" + Replace(UrlUserinfo, y[h.end..]);
    } else if !IsWhite(y[0]) {
      assert y == [y[0]] + y[1..];
      assert y[1..] == Squeeze(y[1..]);
      UrlPassKeepsSqueezed(y[1..]);
      SqueezeStep(Replace(UrlUserinfo, y));
    } else {
      SqueezedAtSpace(y);
      UrlPassKeepsSqueezed(y[1..]);
      SameFirst(UrlUserinfo, y[1..]);
      var t := Replace(UrlUserinfo, y[1..]);
      SpaceThen(t, t);
    }
  }

  lemma SolidPrefix(y: string, n: nat)
    requires n <= |y| && ' ' !in y[..n] && forall k :: 0 <= k < |y| ==> IsWhite(y[k]) ==> y[k] == ' '
    ensures forall k :: 0 <= k < |y[..n]| ==> !IsWhite(y[..n][k])
  {
    hide IsWhite;
    forall k | 0 <= k < n ensures !IsWhite(y[..n][k]) {
      assert y[..n][k] == y[k];
      assert y[k] in y[..n];
    }
  }

  lemma PlaceholderAtSolid(w: string)
    requires forall k :: 0 <= k < |w| ==> !IsWhite(w[k])
    ensures forall k :: 0 <= k < |w + PLACEHOLDER + "@"| ==> !IsWhite((w + PLACEHOLDER + "@")[k])
  {
    PlaceholderSolid();
  }

  lemma SqueezedAtSpace(y: string)
    requires Squeeze(y) == y && y != "" && IsWhite(y[0])
    ensures y[0] == ' ' && y[1..] != "" && !IsWhite(y[1]) && Squeeze(y[1..]) == y[1..]
  {
    hide Squeeze, RunLen, IsWhite;
    SqueezeStep(y);
    var v := SqueezeRun(y);
    SqueezeFirst(v);
    assert y[1..] == Squeeze(v);
    assert y[1..][0] == y[1];
    SqueezeIdempotent(v);
  }

  // ---- the redactor ----

  lemma CollapseParts(s: string) returns (v: string)
    ensures Collapse(s) == Squeeze(v) && v == s[RunLen(White, s)..] && (v == "" || !IsWhite(v[0]))
  {
    v := SqueezeRun(s);
  }

  /** No key value is left in redacted text, whatever the text. */
  lemma {:induction false} NoKeyValueLeft(x: string)
    ensures NoHit(KeyValue, Redact(x))
  {
    hide Squeeze, Replace, RunLen, NoHit;
    var t := Replace(Assignment, Replace(UrlUserinfo, Replace(Bearer, x)));
    KeyPass(t);
    var v := CollapseParts(MaskAll(x));
    AbsentDrop(KeyToken, MaskAll(x), RunLen(White, MaskAll(x)));
    SqueezeAddsNoNeedle(KeyToken, v);
    AbsentIsNoHit(Redact(x));
  }

  /** A bearer token is left in redacted text exactly when the masked text has `Bearer`
      separated from a token by whitespace that is not all ASCII. */
  lemma {:induction false} BearerLeftOnlyByWideSpace(x: string)
    ensures NoHit(Bearer, Redact(x)) <==> Absent(WideBearer, MaskAll(x))
  {
    hide Squeeze, Replace, RunLen, NoHit, MaskAll;
    var s := MaskAll(x);
    var v := CollapseParts(s);
    AbsentBehindWhite(s, RunLen(White, s));
    SqueezeBearer(v);
    AbsentIsNoHit(Redact(x));
  }

  /** An input without a bearer token behind any whitespace leaves none. */
  lemma {:induction false} NoWideBearerLeft(x: string)
    requires Absent(WideBearer, x)
    ensures NoHit(Bearer, Redact(x))
  {
    hide Replace, Absent, NoHit, Redact;
    var a := Replace(Bearer, x);
    var b := Replace(UrlUserinfo, a);
    PassAddsNoNeedle(WideBearer, Bearer, x);
    PassAddsNoNeedle(WideBearer, UrlUserinfo, a);
    PassAddsNoNeedle(WideBearer, Assignment, b);
    PassAddsNoNeedle(WideBearer, KeyValue, Replace(Assignment, b));
    BearerLeftOnlyByWideSpace(x);
  }

  lemma MaskAllBearer(x: string)
    ensures Absent(BearerToken, MaskAll(x))
  {
    hide Replace, Absent;
    BearerPass(x);
    var a := Replace(Bearer, x);
    PassAddsNoNeedle(BearerToken, UrlUserinfo, a);
    var b := Replace(UrlUserinfo, a);
    PassAddsNoNeedle(BearerToken, Assignment, b);
    PassAddsNoNeedle(BearerToken, KeyValue, Replace(Assignment, b));
  }

  /** With ASCII whitespace only, no bearer token is left. */
  lemma {:induction false} NoBearerLeft(x: string)
    requires AsciiSpaced(x)
    ensures NoHit(Bearer, Redact(x))
  {
    hide MaskAll, Redact, NoHit, AsciiSpaced;
    MaskAllAscii(x);
    MaskAllBearer(x);
    AsciiBearer(MaskAll(x));
    BearerLeftOnlyByWideSpace(x);
  }

  /** With ASCII whitespace only, every assignment in redacted text has the placeholder as its value. */
  lemma {:induction false} AssignmentsLeftMasked(x: string)
    requires AsciiSpaced(x)
    ensures AllMasked(Assignment, Redact(x))
  {
    hide Replace, RunLen, Squeeze, AllMasked, AsciiSpaced;
    var b := Replace(UrlUserinfo, Replace(Bearer, x));
    AssignmentPass(b);
    KeyPassKeepsAssignments(Replace(Assignment, b));
    MaskAllAscii(x);
    var s := MaskAll(x);
    var v := CollapseParts(s);
    AsciiDrop(s, RunLen(White, s));
    AllMaskedDrop(Assignment, s, RunLen(White, s));
    SqueezeAssignments(v);
  }

  /** Redacted text is trimmed and collapsed. */
  lemma RedactedIsCollapsed(x: string)
    ensures var y := Redact(x); Squeeze(y) == y && (y == "" || !IsWhite(y[0])) && Collapse(y) == y && AsciiSpaced(y)
  {
    hide Squeeze, RunLen, MaskAll, IsWhite;
    var v := CollapseParts(MaskAll(x));
    SqueezeIdempotent(v);
    SqueezeFirst(v);
    CollapseSolid(Redact(x));
    SqueezeAscii(v);
  }

  lemma CollapseSolid(y: string)
    requires Squeeze(y) == y && (y == "" || !IsWhite(y[0]))
    ensures Collapse(y) == y
  {
    hide Squeeze;
    assert y[0..] == y;
  }

  /** Each pass is idempotent on all text. */
  lemma {:induction false} PassIdempotent(p: Pass, s: string)
    ensures AllMasked(p, Replace(p, s))
    ensures Replace(p, Replace(p, s)) == Replace(p, s)
  {
    hide Replace, AllMasked, NoHit, Absent;
    var t := Replace(p, s);
    match p {
      case Bearer => BearerPass(s); AbsentIsNoHit(t); NoHitIsMasked(p, t);
      case UrlUserinfo => UrlPass(s);
      case Assignment => AssignmentPass(s);
      case KeyValue => KeyPass(s); AbsentIsNoHit(t); NoHitIsMasked(p, t);
    }
    MaskedIsFixed(p, t);
  }

  /** On collapsed text that holds no bearer token, no key value and no unmasked assignment, the
      redactor is its URL pass. */
  lemma {:induction false} OnlyUrlPass(y: string)
    requires NoHit(Bearer, y) && AllMasked(Assignment, y) && NoHit(KeyValue, y)
    requires Squeeze(y) == y && (y == "" || !IsWhite(y[0]))
    ensures Redact(y) == Replace(UrlUserinfo, y)
  {
    hide Squeeze, Replace, AllMasked, NoHit, Absent, RunLen, Collapse, IsWhite;
    NoHitIsMasked(Bearer, y);
    MaskedIsFixed(Bearer, y);
    var z := Replace(UrlUserinfo, y);
    UrlPassKeepsAssignments(y);
    MaskedIsFixed(Assignment, z);
    AbsentIsNoHit(y);
    PassAddsNoNeedle(KeyToken, UrlUserinfo, y);
    AbsentIsNoHit(z);
    NoHitIsMasked(KeyValue, z);
    MaskedIsFixed(KeyValue, z);
    UrlPassKeepsSqueezed(y);
    SameFirst(UrlUserinfo, y);
    CollapseSolid(z);
    assert MaskAll(y) == z;
  }

  /** Redacting twice is redacting once and then running the URL pass alone. */
  lemma {:induction false} RedactTwice(x: string)
    requires AsciiSpaced(x)
    ensures Redact(Redact(x)) == Replace(UrlUserinfo, Redact(x))
  {
    hide Squeeze, Redact, Replace, AllMasked, NoHit, IsWhite, AsciiSpaced;
    NoBearerLeft(x);
    AssignmentsLeftMasked(x);
    NoKeyValueLeft(x);
    RedactedIsCollapsed(x);
    OnlyUrlPass(Redact(x));
  }

  // ---- when one application is enough ----

  lemma {:induction false} NoSeparatorNoUrl(s: string)
    requires Absent(Separator, s)
    ensures AllMasked(UrlUserinfo, s)
  {
    hide Find, UrlHead;
    if s != "" {
      NoSeparatorNoUrl(s[1..]);
      if Find(UrlUserinfo, s).Some? {
        HeadOfHit(s);
        var n := UrlHead(s).value;
        SchemeShape(s, n);
        assert s[n - 3..][..3] == "://";
        AbsentDrop(Separator, s, n - 3);
      }
    }
  }

  lemma {:induction false} NoNameNoAssignment(s: string)
    requires Absent(Name, s)
    ensures AllMasked(Assignment, s)
  {
    hide FirstWord, NameTail;
    if s != "" {
      NoNameNoAssignment(s[1..]);
    }
  }

  /** The userinfo runs of two texts end alike: at the same character, or at the end of both. */
  predicate SameRunEnd(v: string, w: string) {
    var r, r' := RunLen(UserinfoChar, v), RunLen(UserinfoChar, w);
    (r < |v| <==> r' < |w|) && (r < |v| ==> w[r'] == v[r]) && (r == 0 <==> r' == 0)
  }

  lemma RunEndBehind(a: string, v: string, b: string, w: string)
    requires a != "" && (forall k :: 0 <= k < |a| ==> In(UserinfoChar, a[k]))
    requires b != "" && (forall k :: 0 <= k < |b| ==> In(UserinfoChar, b[k]))
    requires SameRunEnd(v, w)
    ensures SameRunEnd(a + v, b + w)
  {
    hide RunLen, In;
    RunBehind(a, v);
    RunBehind(b, w);
    if RunLen(UserinfoChar, v) < |v| {
      assert (a + v)[|a| + RunLen(UserinfoChar, v)] == v[RunLen(UserinfoChar, v)];
      assert (b + w)[|b| + RunLen(UserinfoChar, w)] == w[RunLen(UserinfoChar, w)];
    }
  }

  lemma RunEndHere(v: string, w: string)
    requires v != "" && w != "" && v[0] == w[0] && !In(UserinfoChar, v[0])
    ensures SameRunEnd(v, w)
  {
    hide In;
  }

  /** Pass 4 swallows whole userinfo characters: the run ends at the same character as before. */
  lemma {:induction false} KeyPassUserinfo(v: string)
    ensures SameRunEnd(v, Replace(KeyValue, v))
  {
    hide Find, Replace, RunLen, In, SameRunEnd;
    ReplaceStep(KeyValue, v);
    if v == "" {
      NothingSame();
    } else {
      match Find(KeyValue, v)
      case None =>
        var w := Replace(KeyValue, v[1..]);
        assert v == [v[0]] + v[1..];
        if In(UserinfoChar, v[0]) {
          KeyPassUserinfo(v[1..]);
          RunEndBehind([v[0]], v[1..], [v[0]], w);
        } else {
          RunEndHere(v, [v[0]] + w);
        }
      case Some(h) =>
        KeyPassUserinfo(v[h.end..]);
        KeyHitChars(v, h);
        PlaceholderUserinfo();
        assert v == v[..h.end] + v[h.end..];
        var w := Replace(KeyValue, v[h.end..]);
        RunEndBehind(v[..h.end], v[h.end..], PLACEHOLDER, w);
        assert Replace(KeyValue, v) == PLACEHOLDER + w;
    }
  }

  lemma NothingSame()
    ensures SameRunEnd("", "")
  {
  }

  lemma PlaceholderUserinfo()
    ensures forall k :: 0 <= k < |PLACEHOLDER| ==> In(UserinfoChar, PLACEHOLDER[k])
  {
  }

  lemma KeyHitChars(v: string, h: Hit)
    requires Find(KeyValue, v) == Some(h)
    ensures forall k :: 0 <= k < h.end ==> In(UserinfoChar, v[..h.end][k])
  {
    hide RunLen, FirstWord;
    var w := FirstWord(VALUE_PREFIXES, v).value;
    PrefixChars(w);
    forall k | 0 <= k < h.end ensures In(UserinfoChar, v[..h.end][k]) {
      if k < |w| {
        assert v[..|w|][k] == w[k];
      } else {
        assert In(KeyChar, v[|w|..][k - |w|]);
      }
    }
  }

  lemma {:induction false} RunBehind(a: string, t: string)
    requires forall k :: 0 <= k < |a| ==> In(UserinfoChar, a[k])
    ensures RunLen(UserinfoChar, a + t) == |a| + RunLen(UserinfoChar, t)
  {
    hide In;
    if a == "" {
      assert a + t == t;
    } else {
      RunBehind(a[1..], t);
      assert (a + t)[1..] == a[1..] + t;
    }
  }

  lemma {:induction false} KeyPassKeepsUrls(s: string)
    requires AllMasked(UrlUserinfo, s)
    ensures AllMasked(UrlUserinfo, Replace(KeyValue, s))
  {
    hide Find, Replace;
    ReplaceStep(KeyValue, s);
    var out := Replace(KeyValue, s);
    if s != "" {
      match Find(KeyValue, s)
      case None =>
        KeyPassKeepsUrls(s[1..]);
        assert out[1..] == Replace(KeyValue, s[1..]);
        KeyPassUrlHere(s);
        MaskedHere(UrlUserinfo, out);
      case Some(h) =>
        AllMaskedDrop(UrlUserinfo, s, h.end);
        KeyPassKeepsUrls(s[h.end..]);
        PlaceholderIsNoUrl(0, Replace(KeyValue, s[h.end..]));
        assert out == PLACEHOLDER[0..] + Replace(KeyValue, s[h.end..]);
    }
  }

  lemma KeyPassUrlHere(s: string)
    requires s != "" && AllMasked(UrlUserinfo, s)
    ensures var out := Replace(KeyValue, s); var h := Find(UrlUserinfo, out);
            h.Some? ==> out[..h.value.end] == Masked(UrlUserinfo, out, h.value)
  {
    hide Replace, RunLen, UrlHead, AllMasked;
    var out := Replace(KeyValue, s);
    if Find(UrlUserinfo, out).Some? {
      var n := UrlHead(out).value;
      SchemeShape(out, n);
      forall k | 0 <= k < n ensures out[k] != '[' {
        if k < n - 3 { assert In(SchemeChar, out[k]); }
      }
      KeyLeadSplit(s, n);
      PassLead(KeyValue, s, n);
      UrlHeadLocal(s, out, n);
      var v, w := s[n..], out[n..];
      assert w == Replace(KeyValue, v);
      KeyPassUserinfo(v);
      var r, r' := RunLen(UserinfoChar, v), RunLen(UserinfoChar, w);
      assert out[n + r'] == w[r'] && s[n + r] == v[r];
      var u := MaskedUserinfo(s, n);
      KeyKeepsPlaceholder(u);
      UserinfoPlaceholder(Replace(KeyValue, u));
      MaskedUrlHit(out, n, w);
    }
  }

  lemma MaskedUserinfo(s: string, n: nat) returns (u: string)
    requires UrlHead(s) == Some(n) && s != "" && AllMasked(UrlUserinfo, s)
    requires var r := RunLen(UserinfoChar, s[n..]); 0 < r && n + r < |s| && s[n + r] == '@'
    ensures s[n..] == PLACEHOLDER + "@" + u
  {
    hide UrlHead, RunLen;
    var r := RunLen(UserinfoChar, s[n..]);
    assert s[..n + r + 1] == s[..n] + PLACEHOLDER + "@";
    u := s[n + r + 1..];
    assert s[n..] == s[..n + r + 1][n..] + u;
    assert (s[..n] + PLACEHOLDER + "@")[n..] == PLACEHOLDER + "@";
  }

  lemma KeyKeepsPlaceholder(u: string)
    ensures Replace(KeyValue, PLACEHOLDER + "@" + u) == PLACEHOLDER + "@" + Replace(KeyValue, u)
  {
    hide Find, Replace;
    var w := PLACEHOLDER + "@";
    forall k | 0 <= k < |w| ensures Find(KeyValue, w[k..] + u).None? {
      var t := w[k..] + u;
      assert t[0] == w[k];
      if Find(KeyValue, t).Some? { HitStart(KeyValue, t); }
    }
    ReplaceBehind(KeyValue, w, u);
  }

  /** Text that has no `://`, or no assignment name, is redacted for good at once. */
  lemma {:induction false} RedactIdempotent(x: string)
    requires AsciiSpaced(x) && (Absent(Separator, x) || Absent(Name, x))
    ensures Redact(Redact(x)) == Redact(x)
  {
    hide Replace, RunLen, Squeeze, AllMasked, Absent, AsciiSpaced;
    var a := Replace(Bearer, x);
    var b := Replace(UrlUserinfo, a);
    var s := MaskAll(x);
    var n := RunLen(White, s);
    if Absent(Separator, x) {
      PassAddsNoNeedle(Separator, Bearer, x);
      PassAddsNoNeedle(Separator, UrlUserinfo, a);
      PassAddsNoNeedle(Separator, Assignment, b);
      PassAddsNoNeedle(Separator, KeyValue, Replace(Assignment, b));
      NoSeparatorNoUrl(s);
    } else {
      PassAddsNoNeedle(Name, Bearer, x);
      PassAddsNoNeedle(Name, UrlUserinfo, a);
      NoNameNoAssignment(b);
      MaskedIsFixed(Assignment, b);
      UrlPass(a);
      KeyPassKeepsUrls(b);
    }
    AllMaskedDrop(UrlUserinfo, s, n);
    var v := CollapseParts(s);
    SqueezeUrls(v);
    MaskedIsFixed(UrlUserinfo, Redact(x));
    RedactTwice(x);
  }
}
