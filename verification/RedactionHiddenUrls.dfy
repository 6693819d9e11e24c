/** Which inputs keep URL userinfo unmasked. */
module RedactionHiddenUrls {
  import opened Optional
  import opened Redaction
  import opened RedactionMasks
  import opened RedactionTwice
  import opened RedactionFusion
  import opened RedactionReading
  import opened RedactionSpaces
  import opened RedactionLeftovers
  import opened RedactionWideValues

  // ---- where the userinfo run ends ----

  /** The run of userinfo characters ends at an `@`. */
  predicate EndsAtAt(v: string) {
    var r := RunLen(UserinfoChar, v); r < |v| && v[r] == '@'
  }

  lemma EndsBehind(a: string, v: string)
    requires forall k :: 0 <= k < |a| ==> In(UserinfoChar, a[k])
    ensures EndsAtAt(a + v) <==> EndsAtAt(v)
  {
    hide RunLen, In;
    RunOver(UserinfoChar, a, v);
    var r := RunLen(UserinfoChar, v);
    if r < |v| { assert (a + v)[|a| + r] == v[r]; }
  }

  lemma EndsBefore(a: string, j: nat, v: string)
    requires j < |a| && !In(UserinfoChar, a[j]) && '@' !in a
    ensures !EndsAtAt(a + v)
  {
    hide RunLen, In;
    RunStops(UserinfoChar, a + v, j);
    var r := RunLen(UserinfoChar, a + v);
    assert (a + v)[r] == a[r] && a[r] in a;
  }

  lemma ReachesStep(t: string)
    ensures t == "" ==> !Reaches(t)
    ensures t != "" && Assigned(t).Some? ==>
              var c := Assigned(t).value; Reaches(t) == (NoWhite(t[..c.keep]) && c.after == "" && Reaches(t[c.end..]))
    ensures t != "" && Assigned(t).None? ==>
              Reaches(t) == (t[0] == '@' || (In(UserinfoChar, t[0]) && !IsWhite(t[0]) && Reaches(t[1..])))
  {
    hide Assigned, In, IsWhite, NoWhite;
  }

  lemma {:induction false} ReachesOver(t: string, n: nat)
    requires n <= |t|
    requires forall k :: 0 <= k < n ==> Assigned(t[k..]).None? && t[k] != '@' && In(UserinfoChar, t[k]) && !IsWhite(t[k])
    ensures Reaches(t) == Reaches(t[n..])
  {
    hide Assigned, In, IsWhite, Reaches;
    if n == 0 {
      assert t[0..] == t;
    } else {
      assert t[0..] == t;
      ReachesStep(t);
      forall k | 0 <= k < n - 1 ensures t[1..][k..] == t[k + 1..] {}
      ReachesOver(t[1..], n - 1);
      assert t[1..][n - 1..] == t[n..];
    }
  }

  lemma NoReachAt(t: string, n: nat)
    requires n < |t| && t[n] != 'F' && t[n] != '@' && !In(UserinfoChar, t[n])
    requires forall k :: 0 <= k < n ==> Assigned(t[k..]).None? && t[k] != '@' && In(UserinfoChar, t[k]) && !IsWhite(t[k])
    ensures !Reaches(t)
  {
    hide Assigned, In, IsWhite, Reaches;
    ReachesOver(t, n);
    if Assigned(t[n..]).Some? { AssignedStart(t[n..]); }
    ReachesStep(t[n..]);
  }

  lemma BearerNoReach(t: string, h: Hit)
    requires Find(Bearer, t) == Some(h)
    ensures !Reaches(t)
  {
    hide Assigned, Find, Reaches;
    BearerShape(t, h);
    forall k | 0 <= k < 6 ensures Assigned(t[k..]).None? {
      if Assigned(t[k..]).Some? { AssignedStart(t[k..]); }
    }
    NoReachAt(t, 6);
  }

  lemma UrlNoReach(t: string, h: Hit)
    requires Find(UrlUserinfo, t) == Some(h)
    ensures !Reaches(t)
  {
    hide Assigned, Find, Reaches, UrlHead, FirstWord;
    UrlHitShape(t, h);
    SchemeShape(t, h.keep);
    forall k | 0 <= k < h.keep - 2
      ensures Assigned(t[k..]).None? && t[k] != '@' && In(UserinfoChar, t[k]) && !IsWhite(t[k])
    {
      if k < h.keep - 3 { assert In(SchemeChar, t[k]); }
      NoNameAt(t, h.keep, k, t[k..]) by { assert t[k..][..h.keep - k] == t[k..h.keep]; }
      if Assigned(t[k..]).Some? { AssignedStart(t[k..]); }
    }
    NoReachAt(t, h.keep - 2);
  }

  // ---- the userinfo run of masked text ----

  lemma HeadChars(s: string, n: nat)
    requires AssignmentHead(s) == Some(n)
    ensures n <= |s|
    ensures forall k :: 0 <= k < n ==> s[k] != '@' && (IsWhite(s[k]) || In(UserinfoChar, s[k]))
  {
    hide NameTail, FirstWord, In, IsSpace, IsWhite;
    var w := FirstWord(ASSIGNMENT_NAMES, s).value;
    NameUnderscore(w);
    WordChars(s, w);
    NameTailChars(s[|w|..], n - |w|);
    forall k | 0 <= k < n ensures s[k] != '@' && (IsWhite(s[k]) || In(UserinfoChar, s[k])) {
      if k >= |w| { assert s[|w|..][k - |w|] == s[k]; }
      HeadUserinfo(s[k]);
    }
  }

  lemma HeadUserinfo(c: char)
    requires 'A' <= c <= 'Z' || c == '_' || IsSpace(c) || In(Marker, c) || In(Quote, c)
    ensures c != '@' && (IsWhite(c) || In(UserinfoChar, c))
  {
  }

  lemma SpaceStops()
    ensures !In(UserinfoChar, ' ') && !In(UserinfoChar, '/')
  {
  }

  /** Whitespace in what is written before stops the run. */
  lemma SpaceBefore(w: string, j: nat, v: string)
    requires j < |w| && IsWhite(w[j]) && '@' !in w
    ensures !EndsAtAt(Spaced(w) + v)
  {
    hide Spaced, IsWhite, In;
    SpaceStops();
    var a := Spaced(w);
    forall k | 0 <= k < |a| ensures a[k] != '@' { assert w[k] in w; }
    EndsBefore(a, j, v);
  }

  lemma AssignedReach(t: string, c: Cover, m: nat)
    requires CoverAt(t) == Some(c) && Assigned(t) == Some(c) && m <= RunLen(KeyChar, t)
    requires var f := Fused(t[c.end..], 0); EndsAtAt(Spaced(f)) <==> Reaches(t[c.end..])
    ensures EndsAtAt(Spaced(Fused(t, m))) <==> Reaches(t)
  {
    hide CoverAt, Assigned, Fused, Spaced, Reaches, AssignmentHead, EndsAtAt, IsWhite, In, RunLen;
    var x := AssignedText(t, c);
    HeadChars(t, c.keep);
    CoverKeyRun(t, c);
    ReachesStep(t);
    FusedStep(t, m);
    var f, w := Fused(t[c.end..], 0), t[m..c.keep];
    var z := PLACEHOLDER + (c.after + f);
    SpacedJoin(w, z);
    if !NoWhite(t[..c.keep]) {
      var j :| 0 <= j < c.keep && IsWhite(t[..c.keep][j]);
      KeyNotWhite(t, j);
      SpaceBefore(w, j - m, Spaced(z));
    } else {
      SolidRest(t, m, c.keep);
      EndsBehind(w, Spaced(z));
      AfterReach(t, c, f);
    }
  }

  lemma KeyNotWhite(t: string, j: nat)
    requires j < |t| && IsWhite(t[j])
    ensures RunLen(KeyChar, t) <= j
  {
    RunStops(KeyChar, t, j);
  }

  lemma SolidRest(t: string, m: nat, n: nat)
    requires m <= n <= |t| && NoWhite(t[..n])
    requires forall k :: 0 <= k < n ==> IsWhite(t[k]) || In(UserinfoChar, t[k])
    ensures Spaced(t[m..n]) == t[m..n] && forall k :: 0 <= k < |t[m..n]| ==> In(UserinfoChar, t[m..n][k])
  {
    hide Spaced, IsWhite, In;
    forall k | m <= k < n ensures !IsWhite(t[k]) { assert t[..n][k] == t[k]; }
    SpacedSolid(t[m..n]);
  }

  /** Behind the placeholder of an assignment. */
  lemma AfterReach(t: string, c: Cover, f: string)
    requires CoverAt(t) == Some(c) && Assigned(t) == Some(c)
    ensures EndsAtAt(Spaced(PLACEHOLDER + (c.after + f))) <==> c.after == "" && EndsAtAt(Spaced(f))
  {
    hide CoverAt, Assigned, Spaced, EndsAtAt, IsWhite, IsSpace, In;
    SpacedJoin(PLACEHOLDER, c.after + f);
    PlaceholderSolid();
    SpacedSolid(PLACEHOLDER);
    PlaceholderUserinfo();
    EndsBehind(PLACEHOLDER, Spaced(c.after + f));
    CoverAfter(t, c);
    if c.after == "" {
      assert c.after + f == f;
    } else {
      SpacedJoin(c.after, f);
      SpaceWhite(c.after[0]);
      SpacedAfter(c.after);
      SpaceBefore(c.after[..1], 0, Spaced(c.after[1..] + f));
      SpacedJoin(c.after[..1], c.after[1..] + f);
      assert c.after[..1] + (c.after[1..] + f) == c.after + f;
    }
  }

  lemma SpaceWhite(c: char)
    requires IsSpace(c)
    ensures IsWhite(c) && c != '@'
  {
  }

  lemma SpacedAfter(a: string)
    requires a != "" && a[0] != '@'
    ensures '@' !in a[..1]
  {
  }

  lemma BearerReach(t: string, h: Hit, m: nat, z: string)
    requires Find(Bearer, t) == Some(h) && m <= RunLen(KeyChar, t)
    ensures m <= h.keep && !EndsAtAt(Spaced(t[m..h.keep] + z))
  {
    hide Find, Spaced, EndsAtAt, RunLen, IsSpace, IsWhite;
    BearerShape(t, h);
    SpaceWhite(t[6]);
    KeyNotWhite(t, 6);
    var w := t[m..h.keep];
    forall k | 0 <= k < |w| ensures w[k] != '@' {
      assert w[k] == t[m + k];
      if m + k >= 6 { SpaceWhite(t[m + k]); }
    }
    SpacedJoin(w, z);
    SpaceBefore(w, 6 - m, Spaced(z));
  }

  lemma UrlReach(t: string, h: Hit, m: nat, z: string)
    requires Find(UrlUserinfo, t) == Some(h) && m <= RunLen(KeyChar, t)
    ensures m <= h.keep && !EndsAtAt(Spaced(t[m..h.keep] + z))
  {
    hide Find, Spaced, EndsAtAt, RunLen, UrlHead;
    UrlHitShape(t, h);
    var n := h.keep;
    SchemeShape(t, n);
    HeadSolid(t, n);
    RunStops(KeyChar, t, n - 3);
    var w := t[m..n];
    forall k | 0 <= k < |w| ensures w[k] != '@' {
      assert w[k] == t[m + k];
      if m + k < n - 3 { assert In(SchemeChar, t[m + k]); }
    }
    SpacedJoin(w, z);
    SpacedSolid(w);
    SpaceStops();
    EndsBefore(w, n - 2 - m, Spaced(z));
  }

  lemma CoverReach(t: string, c: Cover, m: nat)
    requires CoverAt(t) == Some(c) && m <= RunLen(KeyChar, t)
    requires var f := Fused(t[c.end..], 0); EndsAtAt(Spaced(f)) <==> Reaches(t[c.end..])
    ensures EndsAtAt(Spaced(Fused(t, m))) <==> Reaches(t)
  {
    hide CoverAt, Assigned, Fused, Spaced, Reaches, EndsAtAt, Find, RunLen;
    CoverCases(t, c);
    FusedStep(t, m);
    var z := PLACEHOLDER + (c.after + Fused(t[c.end..], 0));
    if Assigned(t) == Some(c) {
      AssignedReach(t, c, m);
    } else if Find(Bearer, t) == Some(Hit(c.keep, c.end)) {
      BearerNoReach(t, Hit(c.keep, c.end));
      BearerReach(t, Hit(c.keep, c.end), m, z);
    } else {
      UrlNoReach(t, Hit(c.keep, c.end));
      UrlReach(t, Hit(c.keep, c.end), m, z);
    }
  }

  lemma KeyCharUserinfo(c: char)
    requires In(KeyChar, c)
    ensures c != '@' && In(UserinfoChar, c) && !IsWhite(c)
  {
  }

  /** The userinfo run of masked text ends at an `@` exactly when the text read reaches one. */
  lemma {:induction false} ReachesIff(t: string, m: nat)
    requires m <= RunLen(KeyChar, t)
    ensures EndsAtAt(Spaced(Fused(t, m))) <==> Reaches(t)
    decreases |t|
  {
    hide CoverAt, Assigned, Fused, Spaced, Reaches, EndsAtAt, Find, In, IsWhite;
    FusedStep(t, m);
    ReachesStep(t);
    if t == "" {
      NothingEnds();
    } else if CoverAt(t).Some? {
      var c := CoverAt(t).value;
      ReachesIff(t[c.end..], 0);
      CoverReach(t, c, m);
    } else {
      assert Assigned(t).None? by { NoCoverNoAssigned(t); }
      if m > 0 {
        ReachesIff(t[1..], m - 1);
        KeyCharUserinfo(t[0]);
      } else if Find(KeyValue, t).Some? {
        KeyFindOver(t, t);
        var r := RunLen(KeyChar, t);
        ReachesIff(t[1..], r - 1);
        KeyCharUserinfo(t[0]);
        MaskedKeyReach(Fused(t[1..], r - 1));
      } else {
        ReachesIff(t[1..], 0);
        PlainReach(t[0], Fused(t[1..], 0));
      }
    }
  }

  lemma NothingEnds()
    ensures !EndsAtAt(Spaced(""))
  {
  }

  lemma NoCoverNoAssigned(t: string)
    requires CoverAt(t).None?
    ensures Assigned(t).None?
  {
    hide Assigned;
  }

  lemma MaskedKeyReach(f: string)
    ensures EndsAtAt(Spaced(PLACEHOLDER + f)) <==> EndsAtAt(Spaced(f))
  {
    hide Spaced, EndsAtAt, In;
    SpacedJoin(PLACEHOLDER, f);
    PlaceholderSolid();
    SpacedSolid(PLACEHOLDER);
    PlaceholderUserinfo();
    EndsBehind(PLACEHOLDER, Spaced(f));
  }

  lemma PlainReach(c: char, f: string)
    ensures EndsAtAt(Spaced([c] + f)) <==> c == '@' || (In(UserinfoChar, c) && !IsWhite(c) && EndsAtAt(Spaced(f)))
  {
    hide Spaced, EndsAtAt, In, IsWhite;
    SpacedJoin([c], f);
    var d := if IsWhite(c) then ' ' else c;
    assert Spaced([c]) == [d];
    SpaceStops();
    AtIs();
    if d == '@' {
      AtEnds(Spaced(f));
    } else if In(UserinfoChar, d) {
      EndsBehind([d], Spaced(f));
    } else {
      EndsBefore([d], 0, Spaced(f));
    }
  }

  lemma AtIs()
    ensures !IsWhite('@')
  {
  }

  lemma AtEnds(v: string)
    ensures EndsAtAt("@" + v)
  {
  }

  // ---- untouched places ----

  lemma UrlQuiet(s: string, n: nat, k: nat)
    requires UrlHead(s) == Some(n) && CoverAt(s).None? && k < n
    ensures n <= |s| && Quiet(s[k..])
  {
    hide CoverAt, Find, UrlHead, Assigned, FirstWord;
    SchemeShape(s, n);
    assert Find(UrlUserinfo, s).None? && Find(Bearer, s).None? by { NoCoverNoHit(s); }
    NoUrlInside(s, n, k);
    NoBearerInScheme(s, n);
    NoKeyInScheme(s, n, k, s[n..]);
    assert s[k..n] + s[n..] == s[k..];
    assert s[k..][..n - k] == s[k..n];
    NoNameAt(s, n, k, s[k..]);
    if Assigned(s[k..]).Some? { AssignedStart(s[k..]); }
    NothingFound(s[k..]);
  }

  lemma NoCoverNoHit(s: string)
    requires CoverAt(s).None?
    ensures Find(UrlUserinfo, s).None? && Find(Bearer, s).None?
  {
    hide Assigned, Find;
  }

  lemma NothingFound(t: string)
    requires Assigned(t).None? && Find(Bearer, t).None? && Find(UrlUserinfo, t).None?
    ensures CoverAt(t).None?
  {
    hide Assigned, Find;
  }

  lemma UrlTextCopied(s: string, n: nat)
    requires UrlHead(s) == Some(n) && CoverAt(s).None?
    ensures n <= |s| && Fused(s, 0) == s[..n] + Fused(s[n..], 0)
  {
    hide *;
    HeadSolid(s, n);
    forall k | 0 <= k < n ensures Quiet(s[k..]) { UrlQuiet(s, n, k); }
    QuietCopied(s, n);
  }

  /** Masking copies the head of a URL that it does not mask. */
  lemma UrlHeadCopied(s: string, n: nat)
    requires UrlHead(s) == Some(n) && CoverAt(s).None?
    ensures n <= |s| && Spaced(Fused(s, 0)) == s[..n] + Spaced(Fused(s[n..], 0))
  {
    hide *;
    HeadSolid(s, n);
    UrlTextCopied(s, n);
    SpacedJoin(s[..n], Fused(s[n..], 0));
    SpacedSolid(s[..n]);
  }

  /** Userinfo that reads `[REDACTED]` after masking would have been found before. */
  lemma NotPlaceholderYet(s: string, n: nat)
    requires UrlHead(s) == Some(n) && Find(UrlUserinfo, s).None?
    ensures n <= |s| && !StartsWith(Spaced(Fused(s[n..], 0)), PLACEHOLDER + "@")
  {
    hide Fused, Find, Spaced, UrlHead;
    var t := s[n..];
    if StartsWith(Spaced(Fused(t, 0)), PLACEHOLDER + "@") {
      var r := PlaceholderUserinfoRead(t);
      UserinfoFound(s, n, r);
    }
  }

  lemma UserinfoFound(s: string, n: nat, r: nat)
    requires UrlHead(s) == Some(n) && 0 < r == RunLen(UserinfoChar, s[n..]) && n + r < |s| && s[n + r] == '@'
    ensures Find(UrlUserinfo, s).Some?
  {
    hide UrlHead, RunLen;
  }

  lemma PlaceholderUserinfoRead(t: string) returns (r: nat)
    requires StartsWith(Spaced(Fused(t, 0)), PLACEHOLDER + "@")
    ensures 0 < r == RunLen(UserinfoChar, t) && r < |t| && t[r] == '@'
  {
    hide Fused, Find, Spaced, IsWhite, CoverAt, In, RunLen;
    var f := Fused(t, 0);
    WordChars(Spaced(f), PLACEHOLDER + "@");
    SpacedSame(f, PLACEHOLDER + "@");
    assert f[10] == f[..11][10] == '@';
    if Find(KeyValue, t).Some? {
      r := KeyUserinfo(t);
    } else {
      assert Spaced(f)[..10] == (PLACEHOLDER + "@")[..10];
      PlaceholderWasThere(t);
      var v := t[10..];
      assert t == PLACEHOLDER + v;
      PlaceholderFused(v);
      assert f[10..] == Fused(v, 0) && f[10..][0] == f[10];
      FusedFirst(v);
      assert t == PLACEHOLDER + "@" + v[1..];
      UserinfoPlaceholder(v[1..]);
      r := 10;
    }
  }

  lemma KeyUserinfo(t: string) returns (r: nat)
    requires Find(KeyValue, t).Some? && |Fused(t, 0)| > 10 && Fused(t, 0)[10] == '@'
    ensures 0 < r == RunLen(UserinfoChar, t) && r < |t| && t[r] == '@'
  {
    hide Fused, Find, CoverAt, In, RunLen;
    if CoverAt(t).Some? { CoverNoKey(t); }
    FusedStep(t, 0);
    KeyFindOver(t, t);
    r := RunLen(KeyChar, t);
    RunTail(KeyChar, t);
    FusedOver(t[1..], r - 1);
    var u := Fused(t[1..], r - 1);
    assert Fused(t, 0)[10] == u[0] == t[1..][r - 1] == t[r];
    forall k | 0 <= k < r ensures In(UserinfoChar, t[k]) { KeyCharUserinfo(t[k]); }
    AtNoUserinfo();
    RunLenIs(UserinfoChar, t, r);
  }

  lemma AtNoUserinfo()
    ensures !In(UserinfoChar, '@')
  {
  }

  /** The URL at the start of `out`, if it has userinfo, has it masked. */
  predicate UrlMaskedAtStart(out: string) {
    var h := Find(UrlUserinfo, out); h.Some? ==> out[..h.value.end] == Masked(UrlUserinfo, out, h.value)
  }

  lemma FoundIff(out: string, n: nat, v: string)
    requires UrlHead(out) == Some(n) && n <= |out| && out[n..] == v
    ensures Find(UrlUserinfo, out).Some? <==> EndsAtAt(v) && v[0] != '@'
    ensures Find(UrlUserinfo, out).Some? && UrlMaskedAtStart(out) ==> StartsWith(v, PLACEHOLDER + "@")
  {
    hide UrlHead, RunLen;
    var r := RunLen(UserinfoChar, v);
    if n + r < |out| { assert out[n + r] == v[r]; }
    AtNoUserinfo();
    if Find(UrlUserinfo, out).Some? && UrlMaskedAtStart(out) {
      assert out[..n + r + 1] == out[..n] + PLACEHOLDER + "@";
      assert |out[..n + r + 1]| == n + 11;
      assert v[..11] == out[..n + 11][n..];
      assert (out[..n] + PLACEHOLDER + "@")[n..] == PLACEHOLDER + "@";
    }
  }

  lemma HiddenAtHead(s: string, n: nat)
    requires Quiet(s) && UrlHead(s) == Some(n)
    ensures UrlMaskedAtStart(Spaced(Fused(s, 0))) <==> !Here(HiddenUserinfo, s)
  {
    hide Fused, Find, Spaced, UrlHead, CoverAt, Reaches, EndsAtAt, RunLen;
    UrlHeadCopied(s, n);
    var t := s[n..];
    var v, out := Spaced(Fused(t, 0)), Spaced(Fused(s, 0));
    assert out[..n] == s[..n] && out[n..] == v;
    UrlHeadLocal(out, s, n);
    FoundIff(out, n, v);
    NoCoverNoHit(s);
    NotPlaceholderYet(s, n);
    ReachesIff(t, 0);
    EmptyNoEnd(v);
    FusedFirst(t);
    if n < |s| {
      FirstAt(t);
    }
  }

  lemma EmptyNoEnd(v: string)
    ensures v == "" ==> !EndsAtAt(v)
  {
  }

  lemma FirstAt(t: string)
    requires t != "" && Fused(t, 0) != "" && Fused(t, 0)[0] == if Find(KeyValue, t).Some? then '[' else t[0]
    ensures Spaced(Fused(t, 0))[0] == '@' <==> t[0] == '@'
  {
    hide Fused, Find, Spaced;
    if Find(KeyValue, t).Some? { HitStart(KeyValue, t); }
  }

  lemma HiddenHere(s: string)
    requires s != "" && Quiet(s)
    ensures UrlMaskedAtStart(Spaced(Fused(s, 0))) <==> !Here(HiddenUserinfo, s)
  {
    hide Fused, Find, Spaced, UrlHead, CoverAt, Reaches;
    if UrlHead(s).Some? {
      HiddenAtHead(s, UrlHead(s).value);
    } else if Find(UrlUserinfo, Spaced(Fused(s, 0))).Some? {
      HeadBack(s);
    }
  }

  lemma HeadBack(s: string)
    requires Find(UrlUserinfo, Spaced(Fused(s, 0))).Some?
    ensures UrlHead(s).Some?
  {
    hide Fused, Find, Spaced, UrlHead, IsWhite;
    var f := Fused(s, 0);
    var out := Spaced(f);
    HeadOfHit(out);
    var n := UrlHead(out).value;
    HeadSolid(out, n);
    SchemeNoBracket(out, n);
    SpaceIs();
    forall k | 0 <= k < n ensures f[k] == out[k] { assert out[k] != ' '; }
    assert f[..n] == out[..n];
    FusedLead(s, n);
    UrlHeadLocal(s, out, n);
  }

  // ---- rewritten places ----

  lemma {:induction false} MaskedBehindOf(w: string, t: string)
    requires AllMasked(UrlUserinfo, t) && forall k :: 0 <= k < |w| ==> Find(UrlUserinfo, w[k..] + t).None?
    ensures AllMasked(UrlUserinfo, w + t)
  {
    hide Find;
    if w == "" {
      assert w + t == t;
    } else {
      assert w[0..] == w;
      forall k | 0 <= k < |w[1..]| ensures Find(UrlUserinfo, w[1..][k..] + t).None? {
        assert w[1..][k..] == w[k + 1..];
      }
      MaskedBehindOf(w[1..], t);
      assert (w + t)[1..] == w[1..] + t;
    }
  }

  lemma NoSlashMasked(w: string, t: string)
    requires AllMasked(UrlUserinfo, t) && t != "" && t[0] == '[' && '/' !in w
    ensures AllMasked(UrlUserinfo, Spaced(w) + t)
  {
    hide AllMasked, Find, Spaced, IsWhite;
    forall k | 0 <= k < |w| ensures Spaced(w)[k] != '/' { assert w[k] in w; }
    NoUrlStart(Spaced(w), t);
    MaskedBehindOf(Spaced(w), t);
  }

  /** What stands behind a value is whitespace and then the placeholder. */
  lemma {:induction false} AfterShape(t: string)
    ensures var a := ValueOf(t).after;
            a == "" || (|a| > 10 && a[|a| - 10..] == PLACEHOLDER && forall k :: 0 <= k < |a| - 10 ==> IsSpace(a[k]))
  {
    hide Find, ValueOf, In, IsSpace;
    ValueStep(t);
    if t == "" {
    } else if Find(Bearer, t).Some? {
      BearerShape(t, Find(Bearer, t).value);
    } else if Find(UrlUserinfo, t).Some? {
      AfterShape(t[Find(UrlUserinfo, t).value.end..]);
    } else if In(ValueChar, t[0]) {
      AfterShape(t[1..]);
    }
  }

  lemma AfterMasked(s: string, c: Cover, t: string)
    requires CoverAt(s) == Some(c) && Assigned(s) == Some(c) && AllMasked(UrlUserinfo, t)
    ensures AllMasked(UrlUserinfo, Spaced(c.after) + t)
  {
    hide AllMasked, Find, Spaced, ValueOf, Assigned, CoverAt, IsSpace, IsWhite, CanStartHit;
    var at := AssignedFrom(s, c);
    AfterShape(s[at..]);
    if c.after == "" {
      assert Spaced(c.after) + t == t;
    } else {
      var n := |c.after| - 10;
      var w := c.after[..n];
      assert c.after == w + PLACEHOLDER;
      SpacedJoin(w, PLACEHOLDER);
      PlaceholderSolid();
      SpacedSolid(PLACEHOLDER);
      PlaceholderIsNoUrl(0, t);
      assert PLACEHOLDER[0..] == PLACEHOLDER;
      SpaceStartsNothing();
      forall k | 0 <= k < n ensures Spaced(w)[k] == ' ' {
        assert w[k] == c.after[k];
        SpaceWhite(w[k]);
      }
      AllMaskedBehind(UrlUserinfo, Spaced(w), PLACEHOLDER + t);
      assert Spaced(w) + (PLACEHOLDER + t) == Spaced(c.after) + t;
    }
  }

  lemma SpaceStartsNothing()
    ensures !CanStartHit(UrlUserinfo, ' ') && !CanStartHit(UrlUserinfo, '@')
  {
  }

  lemma CoverUrlMasked(s: string, c: Cover, m: nat, f: string)
    requires CoverAt(s) == Some(c) && AllMasked(UrlUserinfo, Spaced(f))
    ensures AllMasked(UrlUserinfo, Spaced(Rest(s, m, c.keep)) + (PLACEHOLDER + (Spaced(c.after) + Spaced(f))))
  {
    hide CoverAt, Assigned, Spaced, AllMasked, Find, UrlHead, AssignmentHead, CanStartHit;
    CoverCases(s, c);
    var w, t := Rest(s, m, c.keep), Spaced(f);
    var z := PLACEHOLDER + (Spaced(c.after) + t);
    assert PLACEHOLDER[0..] == PLACEHOLDER;
    if Assigned(s) == Some(c) {
      AfterMasked(s, c, t);
      PlaceholderIsNoUrl(0, Spaced(c.after) + t);
      var x := AssignedText(s, c);
      AssignmentHeadChars(s, c.keep);
      NoSlashMasked(w, z);
    } else if Find(Bearer, s) == Some(Hit(c.keep, c.end)) && c.after == "" {
      assert Spaced(c.after) + t == t;
      PlaceholderIsNoUrl(0, t);
      BearerShape(s, Hit(c.keep, c.end));
      forall k | 0 <= k < |w| ensures w[k] != '/' { NoSlash(w[k]); }
      NoSlashMasked(w, z);
    } else {
      SpacedSolid("@");
      UrlHitShape(s, Hit(c.keep, c.end));
      assert z == PLACEHOLDER + "@" + t;
      if m <= c.keep {
        MaskedUrlAt(s, c.keep, m, t);
        HeadSolid(s, c.keep);
        SpacedSolid(w);
      } else {
        SpaceStartsNothing();
        AllMaskedBehind(UrlUserinfo, "@", t);
        PlaceholderIsNoUrl(0, "@" + t);
        assert Spaced(w) + z == z;
      }
    }
  }

  lemma NoSlash(c: char)
    requires c in "Bearer" || IsSpace(c)
    ensures c != '/'
  {
  }

  lemma CoverUrls(s: string, c: Cover, m: nat)
    requires CoverAt(s) == Some(c)
    ensures var f := Fused(s[c.end..], 0);
            AllMasked(UrlUserinfo, Spaced(Rest(s, m, c.keep) + (PLACEHOLDER + (c.after + f)))) <==> AllMasked(UrlUserinfo, Spaced(f))
  {
    hide CoverAt, Fused, Spaced, AllMasked;
    var f, w := Fused(s[c.end..], 0), Rest(s, m, c.keep);
    SpacedAround(w, c.after, f);
    SpacedJoin(c.after, f);
    var all := Spaced(w) + (PLACEHOLDER + (Spaced(c.after) + Spaced(f)));
    if AllMasked(UrlUserinfo, all) {
      AllMaskedDrop(UrlUserinfo, all, |all| - |f|);
      assert all[|all| - |f|..] == Spaced(f);
    }
    if AllMasked(UrlUserinfo, Spaced(f)) {
      CoverUrlMasked(s, c, m, f);
    }
  }

  /** Unmasked userinfo of the spaced, masked text is the one the reading comes to. */
  lemma {:induction false} HiddenUrls(s: string, m: nat)
    ensures AllMasked(UrlUserinfo, Spaced(Fused(s, m))) <==> !Left(HiddenUserinfo, s, m)
    decreases |s|
  {
    hide Find, CoverAt, Fused, Left, AllMasked, Here, Spaced, UrlMaskedAtStart;
    FusedStep(s, m);
    LeftStep(HiddenUserinfo, s, m);
    if s == "" {
      NothingIn(UrlUserinfo);
      assert Spaced(s) == "";
    } else if CoverAt(s).Some? {
      var c := CoverAt(s).value;
      HiddenUrls(s[c.end..], 0);
      CoverUrls(s, c, m);
    } else if m > 0 {
      HiddenUrls(s[1..], m - 1);
    } else if Find(KeyValue, s).Some? {
      HiddenUrls(s[1..], Find(KeyValue, s).value.end - 1);
      BehindMasked(UrlUserinfo, Fused(s[1..], Find(KeyValue, s).value.end - 1));
    } else {
      HiddenUrls(s[1..], 0);
      HiddenHere(s);
      SpacedParts(Fused(s, 0), 1);
      assert Fused(s, 0)[1..] == Fused(s[1..], 0);
      UrlMaskedStep(Spaced(Fused(s, 0)));
    }
  }

  lemma UrlMaskedStep(t: string)
    requires t != ""
    ensures AllMasked(UrlUserinfo, t) <==> UrlMaskedAtStart(t) && AllMasked(UrlUserinfo, t[1..])
  {
    hide Find, Masked;
  }

  /** Exactly which inputs keep URL userinfo unmasked. */
  lemma {:induction false} UserinfoLeftIff(x: string)
    ensures AllMasked(UrlUserinfo, Redact(x)) <==> LeavesNo(HiddenUserinfo, x)
  {
    hide Fused, Left, MaskAll, AllMasked, Spaced, Collapse;
    MaskAllFused(x);
    HiddenUrls(x, 0);
    MaskedAfterCollapse(UrlUserinfo, MaskAll(x));
  }
}
